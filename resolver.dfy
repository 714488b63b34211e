/** The current command-line front end (main.go): the config file, the long
    flags and the short flags are merged into the package-level flag variables,
    the result is validated, the body file is read and the comma-separated
    lists are split into the arguments handed to `sendEmail`. */
module Resolver {
  import opened Text
  import opened Paths

  /** The fields read from the JSON config file. `NoConfig` (the zero value)
      stands for a missing file. */
  datatype Config = Config(
    smtpServer: string,
    smtpPort: int,
    smtpUsername: string,
    smtpPassword: string,
    noAuth: bool,
    tlsMode: string,
    fromEmail: string)

  const NoConfig := Config("", 0, "", "", false, "", "")

  /** One alias set of parsed flag values: the long-form flags or the
      short-form flags. */
  datatype Flags = Flags(
    smtpServer: string,
    smtpPort: int,
    username: string,
    password: string,
    noAuth: bool,
    tlsMode: string,
    fromEmail: string,
    toEmail: string,
    replyTo: string,
    subject: string,
    body: string,
    attachmentsFiles: string,
    bodyFile: string)

  /** The sentinel that marks the port as unset, which is also its default. */
  const DefaultPort := 587

  /** The values of a flag set when nothing is given on the command line;
      the long and the short flags share these defaults. */
  const DefaultFlags := Flags("", DefaultPort, "", "", false, "tls", "", "", "", "", "", "", "")

  /** Why `Usage()` was called (it prints the help text and exits with 1). */
  datatype UsageError = MissingRequired | MissingBody | NoRecipients

  /** The arguments of the `sendEmail` call that ends a successful run. */
  datatype SendArgs = SendArgs(
    smtpServer: string,
    smtpPort: int,
    username: string,
    password: string,
    fromEmail: string,
    toEmails: seq<string>,
    replyTo: string,
    subject: string,
    body: string,
    bodyFile: string,
    attachmentPaths: seq<string>,
    tlsMode: string,
    noAuth: bool)

  datatype Outcome = Send(args: SendArgs) | Usage(error: UsageError)

  // ---------------------------------------------------------------------
  // priorityString and priorityInt

  /** The last non-empty string of `values`, or "" when there is none. */
  function LastNonEmpty(values: seq<string>): (last: string)
    decreases |values|
  {
    if values == [] then ""
    else if values[|values| - 1] != "" then values[|values| - 1]
    else LastNonEmpty(values[..|values| - 1])
  }

  /** `priorityString`: scans the list, remembering every non-empty value. */
  method PriorityString(values: seq<string>) returns (result: string)
    ensures result == LastNonEmpty(values)
  {
    result := "";
    for i := 0 to |values|
      invariant result == LastNonEmpty(values[..i])
    {
      assert values[..i + 1][..i] == values[..i];
      if values[i] != "" {
        result := values[i];
      }
    }
    assert values[..|values|] == values;
  }

  /** The last value of `values` that differs from `emptyval`, or `emptyval`. */
  function LastDiffering(emptyval: int, values: seq<int>): (last: int)
    decreases |values|
  {
    if values == [] then emptyval
    else if values[|values| - 1] != emptyval then values[|values| - 1]
    else LastDiffering(emptyval, values[..|values| - 1])
  }

  /** `priorityInt`: scans the list, remembering every value that differs from
      the sentinel. */
  method PriorityInt(emptyval: int, values: seq<int>) returns (result: int)
    ensures result == LastDiffering(emptyval, values)
  {
    result := emptyval;
    for i := 0 to |values|
      invariant result == LastDiffering(emptyval, values[..i])
    {
      assert values[..i + 1][..i] == values[..i];
      if values[i] != emptyval {
        result := values[i];
      }
    }
    assert values[..|values|] == values;
  }

  /** `priorityString` yields "" exactly when every value is empty, and
      otherwise a value of the list after which every value is empty. */
  lemma {:induction false} LastNonEmptyIsLast(values: seq<string>)
    ensures LastNonEmpty(values) == "" <==> forall i | 0 <= i < |values| :: values[i] == ""
    ensures LastNonEmpty(values) != "" ==>
      exists k | 0 <= k < |values| :: values[k] == LastNonEmpty(values) &&
        forall j | k < j < |values| :: values[j] == ""
    ensures LastNonEmpty(values) == "" || LastNonEmpty(values) in values
    decreases |values|
  {
    if values != [] {
      var n := |values| - 1;
      var init := values[..n];
      LastNonEmptyIsLast(init);
      if values[n] == "" {
        assert forall i | 0 <= i < n :: init[i] == values[i];
        if LastNonEmpty(init) != "" {
          var k :| 0 <= k < n && init[k] == LastNonEmpty(init) &&
            forall j | k < j < n :: init[j] == "";
          assert values[k] == LastNonEmpty(values);
          assert forall j | k < j < |values| :: values[j] == "";
        }
      }
    }
  }

  /** `priorityInt` yields `emptyval` exactly when every value equals it, and
      otherwise a value of the list after which every value equals it. */
  lemma {:induction false} LastDifferingIsLast(emptyval: int, values: seq<int>)
    ensures LastDiffering(emptyval, values) == emptyval <==>
      forall i | 0 <= i < |values| :: values[i] == emptyval
    ensures LastDiffering(emptyval, values) != emptyval ==>
      exists k | 0 <= k < |values| :: values[k] == LastDiffering(emptyval, values) &&
        forall j | k < j < |values| :: values[j] == emptyval
    decreases |values|
  {
    if values != [] {
      var n := |values| - 1;
      var init := values[..n];
      LastDifferingIsLast(emptyval, init);
      if values[n] == emptyval {
        assert forall i | 0 <= i < n :: init[i] == values[i];
        if LastDiffering(emptyval, init) != emptyval {
          var k :| 0 <= k < n && init[k] == LastDiffering(emptyval, init) &&
            forall j | k < j < n :: init[j] == emptyval;
          assert values[k] == LastDiffering(emptyval, values);
          assert forall j | k < j < |values| :: values[j] == emptyval;
        }
      }
    }
  }

  /** Three sources, lowest priority first: the highest non-empty one wins. */
  lemma StringPrecedence(low: string, mid: string, high: string)
    ensures LastNonEmpty([low, mid, high]) ==
      if high != "" then high else if mid != "" then mid else low
  {
    assert [low, mid, high][..2] == [low, mid];
    StringPrecedence2(low, mid);
  }

  /** Two sources, lowest priority first: the higher one wins unless empty. */
  lemma StringPrecedence2(low: string, high: string)
    ensures LastNonEmpty([low, high]) == if high != "" then high else low
  {
    assert [low, high][..1] == [low];
    assert [low][..0] == [];
    assert LastNonEmpty([low]) == low;
  }

  /** Three ports, lowest priority first: the highest one that is not the
      sentinel wins; when all three are the sentinel the lowest is returned,
      which is the sentinel itself. */
  lemma PortPrecedence(emptyval: int, low: int, mid: int, high: int)
    ensures LastDiffering(emptyval, [low, mid, high]) ==
      if high != emptyval then high else if mid != emptyval then mid else low
  {
    assert [low, mid, high][..2] == [low, mid];
    assert [low, mid][..1] == [low];
    assert [low][..0] == [];
    assert LastDiffering(emptyval, [low]) == low;
    assert LastDiffering(emptyval, [low, mid]) == if mid != emptyval then mid else low;
  }

  // ---------------------------------------------------------------------
  // The resolution steps of main

  /** The flag variables after the precedence assignments: config file <
      long flag < short flag, except that the recipient and message fields
      have no config entry and `noAuth` is the disjunction of all three. */
  function Merge(config: Config, long: Flags, short: Flags): (merged: Flags)
  {
    Flags(
      smtpServer := LastNonEmpty([config.smtpServer, long.smtpServer, short.smtpServer]),
      smtpPort := LastDiffering(DefaultPort, [config.smtpPort, long.smtpPort, short.smtpPort]),
      username := LastNonEmpty([config.smtpUsername, long.username, short.username]),
      password := LastNonEmpty([config.smtpPassword, long.password, short.password]),
      noAuth := config.noAuth || long.noAuth || short.noAuth,
      tlsMode := LastNonEmpty([config.tlsMode, long.tlsMode, short.tlsMode]),
      fromEmail := LastNonEmpty([config.fromEmail, long.fromEmail, short.fromEmail]),
      toEmail := LastNonEmpty([long.toEmail, short.toEmail]),
      replyTo := LastNonEmpty([long.replyTo, short.replyTo]),
      subject := LastNonEmpty([long.subject, short.subject]),
      body := LastNonEmpty([long.body, short.body]),
      attachmentsFiles := LastNonEmpty([long.attachmentsFiles, short.attachmentsFiles]),
      bodyFile := LastNonEmpty([long.bodyFile, short.bodyFile]))
  }

  /** What `os.ReadFile` hands back: the file's contents, or nothing when the
      file cannot be read. */
  function ReadOrEmpty(files: Files, path: string): (content: string)
  {
    if path in files then files[path] else ""
  }

  /** The body after the body file is read: the literal body outranks the
      file's contents ("flags override files"). */
  function BodyAfterRead(files: Files, bodyFile: string, body: string): (result: string)
  {
    if bodyFile != "" then LastNonEmpty([ReadOrEmpty(files, bodyFile), body]) else body
  }

  /** The whole of `main` from the config merge to the `sendEmail` call. */
  function Resolve(config: Config, long: Flags, short: Flags, files: Files): (outcome: Outcome)
  {
    var m := Merge(config, long, short);
    if m.smtpServer == "" || m.fromEmail == "" || m.toEmail == "" || m.subject == "" then
      Usage(MissingRequired)
    else if m.body == "" && m.bodyFile == "" then
      Usage(MissingBody)
    else
      var toEmails := SplitList(m.toEmail);
      if |toEmails| == 0 then Usage(NoRecipients)
      else
        Send(SendArgs(m.smtpServer, m.smtpPort, m.username, m.password, m.fromEmail,
          toEmails, m.replyTo, m.subject, BodyAfterRead(files, m.bodyFile, m.body),
          m.bodyFile, SplitList(m.attachmentsFiles), m.tlsMode, m.noAuth))
  }

  /** The package-level flag variables of main.go. */
  class Cli {
    var long: Flags
    var short: Flags

    /** The variables as `flag.Parse` leaves them. */
    constructor (long: Flags, short: Flags)
      ensures this.long == long && this.short == short
    {
      this.long := long;
      this.short := short;
    }

    /** `main` after flag parsing and config loading: overwrites the long
        variables with the resolved values, validates them, reads the body
        file and splits the lists. */
    method Run(config: Config, files: Files) returns (outcome: Outcome)
      modifies this
      ensures short == old(short)
      ensures outcome == Resolve(config, old(long), old(short), files)
      ensures var m := Merge(config, old(long), old(short));
        long == if outcome.Send? then m.(body := outcome.args.body) else m
    {
      var smtpServer := PriorityString([config.smtpServer, long.smtpServer, short.smtpServer]);
      var smtpPort := PriorityInt(DefaultPort, [config.smtpPort, long.smtpPort, short.smtpPort]);
      var username := PriorityString([config.smtpUsername, long.username, short.username]);
      var password := PriorityString([config.smtpPassword, long.password, short.password]);
      var noAuth := config.noAuth || long.noAuth || short.noAuth;
      var tlsMode := PriorityString([config.tlsMode, long.tlsMode, short.tlsMode]);
      var fromEmail := PriorityString([config.fromEmail, long.fromEmail, short.fromEmail]);
      var toEmail := PriorityString([long.toEmail, short.toEmail]);
      var replyTo := PriorityString([long.replyTo, short.replyTo]);
      var subject := PriorityString([long.subject, short.subject]);
      var body := PriorityString([long.body, short.body]);
      var attachmentsFiles := PriorityString([long.attachmentsFiles, short.attachmentsFiles]);
      var bodyFile := PriorityString([long.bodyFile, short.bodyFile]);
      long := Flags(smtpServer, smtpPort, username, password, noAuth, tlsMode, fromEmail,
        toEmail, replyTo, subject, body, attachmentsFiles, bodyFile);

      if smtpServer == "" || fromEmail == "" || toEmail == "" || subject == "" {
        return Usage(MissingRequired);
      }
      if body == "" && bodyFile == "" {
        return Usage(MissingBody);
      }

      if bodyFile != "" {
        var content := ReadOrEmpty(files, bodyFile);
        body := PriorityString([content, body]);
        long := long.(body := body);
      }

      var attachmentPaths: seq<string> := [];
      if attachmentsFiles != "" {
        attachmentPaths := Split(attachmentsFiles, ',');
      }

      var toEmails: seq<string> := [];
      if toEmail != "" {
        toEmails := Split(toEmail, ',');
      }

      if |toEmails| == 0 {
        return Usage(NoRecipients);
      }

      outcome := Send(SendArgs(smtpServer, smtpPort, username, password, fromEmail, toEmails,
        replyTo, subject, body, bodyFile, attachmentPaths, tlsMode, noAuth));
    }
  }

  // ---------------------------------------------------------------------
  // Properties of the resolution

  /** Server, credentials, TLS mode and sender: a non-empty short flag beats a
      non-empty long flag, which beats the config file; `noAuth` is set when
      any source sets it; the message fields take the short flag unless it is
      empty. */
  lemma MergePrecedence(config: Config, long: Flags, short: Flags)
    ensures var m := Merge(config, long, short);
      && m.smtpServer == (if short.smtpServer != "" then short.smtpServer
                          else if long.smtpServer != "" then long.smtpServer else config.smtpServer)
      && m.username == (if short.username != "" then short.username
                        else if long.username != "" then long.username else config.smtpUsername)
      && m.password == (if short.password != "" then short.password
                        else if long.password != "" then long.password else config.smtpPassword)
      && m.tlsMode == (if short.tlsMode != "" then short.tlsMode
                       else if long.tlsMode != "" then long.tlsMode else config.tlsMode)
      && m.fromEmail == (if short.fromEmail != "" then short.fromEmail
                         else if long.fromEmail != "" then long.fromEmail else config.fromEmail)
      && m.smtpPort == (if short.smtpPort != DefaultPort then short.smtpPort
                        else if long.smtpPort != DefaultPort then long.smtpPort else config.smtpPort)
      && (m.noAuth <==> config.noAuth || long.noAuth || short.noAuth)
      && m.toEmail == (if short.toEmail != "" then short.toEmail else long.toEmail)
      && m.subject == (if short.subject != "" then short.subject else long.subject)
      && m.body == (if short.body != "" then short.body else long.body)
      && m.bodyFile == (if short.bodyFile != "" then short.bodyFile else long.bodyFile)
      && m.replyTo == (if short.replyTo != "" then short.replyTo else long.replyTo)
      && m.attachmentsFiles == (if short.attachmentsFiles != "" then short.attachmentsFiles
                                else long.attachmentsFiles)
  {
    StringPrecedence(config.smtpServer, long.smtpServer, short.smtpServer);
    StringPrecedence(config.smtpUsername, long.username, short.username);
    StringPrecedence(config.smtpPassword, long.password, short.password);
    StringPrecedence(config.tlsMode, long.tlsMode, short.tlsMode);
    StringPrecedence(config.fromEmail, long.fromEmail, short.fromEmail);
    PortPrecedence(DefaultPort, config.smtpPort, long.smtpPort, short.smtpPort);
    StringPrecedence2(long.toEmail, short.toEmail);
    StringPrecedence2(long.subject, short.subject);
    StringPrecedence2(long.body, short.body);
    StringPrecedence2(long.bodyFile, short.bodyFile);
    StringPrecedence2(long.replyTo, short.replyTo);
    StringPrecedence2(long.attachmentsFiles, short.attachmentsFiles);
  }

  /** Since `-l` defaults to "tls", the short TLS mode decides whenever it is
      non-empty, whatever the config file and `--tls-mode` say. */
  lemma ShortTlsModeWins(config: Config, long: Flags, short: Flags)
    requires short.tlsMode != ""
    ensures Merge(config, long, short).tlsMode == short.tlsMode
  {
    StringPrecedence(config.tlsMode, long.tlsMode, short.tlsMode);
  }

  /** With no config file and both port flags left at 587, the port resolves
      to the config's zero value, 0, because 0 differs from the sentinel. */
  lemma AbsentConfigPortIsZero(long: Flags, short: Flags)
    requires long.smtpPort == DefaultPort && short.smtpPort == DefaultPort
    ensures Merge(NoConfig, long, short).smtpPort == 0
  {
    PortPrecedence(DefaultPort, 0, long.smtpPort, short.smtpPort);
  }

  /** Merging the already-merged values with the same config and short flags
      changes nothing: running the precedence step twice is harmless. */
  lemma MergeIdempotent(config: Config, long: Flags, short: Flags)
    ensures Merge(config, Merge(config, long, short), short) == Merge(config, long, short)
  {
    var m := Merge(config, long, short);
    MergePrecedence(config, long, short);
    MergePrecedence(config, m, short);
  }

  /** Validation fails with the required-field error exactly when the server,
      the sender, the recipients or the subject resolved to "". */
  lemma ResolveRequiresFields(config: Config, long: Flags, short: Flags, files: Files)
    ensures var m := Merge(config, long, short);
      Resolve(config, long, short, files) == Usage(MissingRequired) <==>
        m.smtpServer == "" || m.fromEmail == "" || m.toEmail == "" || m.subject == ""
  {
  }

  /** With the required fields present, validation fails with the body error
      exactly when neither a literal body nor a body file was given; the
      recipient error is never reached, since splitting a non-empty string
      yields at least one piece. */
  lemma ResolveRequiresBody(config: Config, long: Flags, short: Flags, files: Files)
    ensures var m := Merge(config, long, short);
      var required := m.smtpServer != "" && m.fromEmail != "" && m.toEmail != "" && m.subject != "";
      && (Resolve(config, long, short, files) == Usage(MissingBody) <==>
            required && m.body == "" && m.bodyFile == "")
      && (Resolve(config, long, short, files).Send? <==>
            required && (m.body != "" || m.bodyFile != ""))
      && Resolve(config, long, short, files) != Usage(NoRecipients)
  {
  }

  /** The recipients of a successful run: at least one, none containing a
      comma, and joined with "," they give back the resolved `toEmail`. */
  lemma ResolvedRecipients(config: Config, long: Flags, short: Flags, files: Files)
    requires Resolve(config, long, short, files).Send?
    ensures var to := Resolve(config, long, short, files).args.toEmails;
      && |to| >= 1
      && (forall i | 0 <= i < |to| :: ',' !in to[i])
      && Join(to, ",") == Merge(config, long, short).toEmail
  {
    JoinSplit(Merge(config, long, short).toEmail, ',');
  }

  /** The attachment list of a successful run is empty exactly when no
      attachments were given, and otherwise joins back to the flag value. */
  lemma ResolvedAttachments(config: Config, long: Flags, short: Flags, files: Files)
    requires Resolve(config, long, short, files).Send?
    ensures var m := Merge(config, long, short);
      var paths := Resolve(config, long, short, files).args.attachmentPaths;
      && (paths == [] <==> m.attachmentsFiles == "")
      && (m.attachmentsFiles != "" ==> Join(paths, ",") == m.attachmentsFiles)
  {
    var m := Merge(config, long, short);
    if m.attachmentsFiles != "" {
      JoinSplit(m.attachmentsFiles, ',');
    }
  }

  /** The body of a successful run: with a body file given, a non-empty literal
      body is kept and otherwise the file's contents are used, "" when the file
      cannot be read (the run goes on); without a body file the literal body. */
  lemma ResolvedBody(config: Config, long: Flags, short: Flags, files: Files)
    requires Resolve(config, long, short, files).Send?
    ensures var m := Merge(config, long, short);
      Resolve(config, long, short, files).args.body ==
        if m.bodyFile == "" || m.body != "" then m.body
        else if m.bodyFile in files then files[m.bodyFile]
        else ""
  {
    var m := Merge(config, long, short);
    StringPrecedence2(ReadOrEmpty(files, m.bodyFile), m.body);
  }
}
