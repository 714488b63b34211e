/** The legacy front end (mail2go.go): short flags override long flags, the
    stricter validation, the body file replacing the literal body, and the
    hand-built multipart message of its `sendEmail`. */
module Legacy {
  import opened Text
  import opened Paths

  /** One alias set of parsed flag values; every flag here is a string,
      the port included. */
  datatype LegacyFlags = LegacyFlags(
    smtpServer: string,
    smtpPort: string,
    username: string,
    password: string,
    fromEmail: string,
    toEmail: string,
    subject: string,
    body: string,
    attachmentsFiles: string,
    bodyFile: string)

  /** What `flag.Parse` leaves when nothing is given: both `--smtp-port` and
      `-p` default to "587", everything else to "". */
  const DefaultFlags := LegacyFlags("", "587", "", "", "", "", "", "", "", "")

  /** Why the process stops before sending: `usage()` (exit status 1) for the
      first three, `log.Fatalf` for an unreadable body file. */
  datatype ExitReason = MissingRequired | MissingBody | NoRecipients | BodyUnreadable

  /** The arguments of the `sendEmail` call that ends a successful run. */
  datatype LegacyArgs = LegacyArgs(
    fromEmail: string,
    toEmails: seq<string>,
    subject: string,
    body: string,
    attachmentPaths: seq<string>)

  datatype LegacyOutcome = Send(args: LegacyArgs) | Exit(reason: ExitReason)

  /** The header names a part of this message sets. */
  datatype HeaderName = ContentType | ContentDisposition | ContentTransferEncoding

  /** A `textproto.MIMEHeader` in which every name was `Set` once. */
  type PartHeader = map<HeaderName, string>

  /** One part of the multipart body: its header and its content before the
      transfer encoding is applied. */
  datatype Part = Part(header: PartHeader, content: string)

  /** The arguments of `smtp.PlainAuth`. */
  datatype PlainAuth = PlainAuth(identity: string, username: string, password: string, host: string)

  /** Everything handed to `smtp.SendMail`: the server address, the
      authentication, the envelope and the message (header block and parts). */
  datatype Submission = Submission(
    addr: string,
    auth: PlainAuth,
    from: string,
    to: seq<string>,
    headers: string,
    parts: seq<Part>)

  /** The message was put together, or an attachment could not be opened. */
  datatype Composition = Ready(submission: Submission) | OpenFailed(path: string)

  // ---------------------------------------------------------------------
  // Flag resolution in main

  /** The short value when it is non-empty, otherwise the long one. */
  function Prefer(long: string, short: string): (value: string)
  {
    if short != "" then short else long
  }

  /** The long variables after every `if short != "" { long = short }`. */
  function Override(long: LegacyFlags, short: LegacyFlags): (merged: LegacyFlags)
  {
    LegacyFlags(
      Prefer(long.smtpServer, short.smtpServer),
      Prefer(long.smtpPort, short.smtpPort),
      Prefer(long.username, short.username),
      Prefer(long.password, short.password),
      Prefer(long.fromEmail, short.fromEmail),
      Prefer(long.toEmail, short.toEmail),
      Prefer(long.subject, short.subject),
      Prefer(long.body, short.body),
      Prefer(long.attachmentsFiles, short.attachmentsFiles),
      Prefer(long.bodyFile, short.bodyFile))
  }

  /** The whole of `main` up to the `sendEmail` call. */
  function LegacyResolve(long: LegacyFlags, short: LegacyFlags, files: Files): (outcome: LegacyOutcome)
  {
    var m := Override(long, short);
    if m.smtpServer == "" || m.username == "" || m.password == "" ||
       m.fromEmail == "" || m.toEmail == "" || m.subject == "" then
      Exit(MissingRequired)
    else if m.body == "" && m.bodyFile == "" then
      Exit(MissingBody)
    else if m.bodyFile != "" && m.bodyFile !in files then
      Exit(BodyUnreadable)
    else
      var body := if m.bodyFile != "" then files[m.bodyFile] else m.body;
      var toEmails := SplitList(m.toEmail);
      if |toEmails| == 0 then Exit(NoRecipients)
      else Send(LegacyArgs(m.fromEmail, toEmails, m.subject, body, SplitList(m.attachmentsFiles)))
  }

  // ---------------------------------------------------------------------
  // getMimeType

  /** The switch of `getMimeType` on a lower-cased extension. */
  function MimeForExtension(ext: string): (mimeType: string)
  {
    if ext == ".jpg" || ext == ".jpeg" then "image/jpeg"
    else if ext == ".png" then "image/png"
    else if ext == ".gif" then "image/gif"
    else "application/octet-stream"
  }

  /** `getMimeType`: the MIME type of a path, from its lower-cased extension. */
  function GetMimeType(filePath: string): (mimeType: string)
  {
    MimeForExtension(ToLower(Ext(filePath)))
  }

  /** The header block written before the first part. */
  function HeaderBlock(from: string, to: seq<string>, subject: string, boundary: string): (block: string)
  {
    "From: " + from + "\r\n" +
    "To: " + Join(to, ", ") + "\r\n" +
    "Subject: " + subject + "\r\n" +
    "MIME-Version: 1.0\r\n" +
    "Content-Type: multipart/mixed; boundary=" + boundary + "\r\n" +
    "\r\n"
  }

  /** The body part: always declared as HTML, quoted-printable encoded. */
  function BodyPart(body: string): (part: Part)
  {
    Part(map[ContentType := "text/html; charset=utf-8",
             ContentTransferEncoding := "quoted-printable"], body)
  }

  /** The part for one attachment: its MIME type from the extension and its
      base name as the disposition filename, base64 encoded. */
  function AttachmentPart(path: string, content: string): (part: Part)
  {
    Part(map[ContentType := GetMimeType(path),
             ContentDisposition := "attachment; filename=\"" + Base(path) + "\"",
             ContentTransferEncoding := "base64"], content)
  }

  /** One `if short != "" { long = short }` statement: the value the long
      variable holds afterwards. */
  method OverrideIfSet(long: string, short: string) returns (value: string)
    ensures short != "" ==> value == short
    ensures short == "" ==> value == long
  {
    value := long;
    if short != "" {
      value := short;
    }
  }

  /** The package-level flag variables of mail2go.go. */
  class LegacyCli {
    var long: LegacyFlags
    var short: LegacyFlags

    /** The variables as `flag.Parse` leaves them. */
    constructor (long: LegacyFlags, short: LegacyFlags)
      ensures this.long == long && this.short == short
    {
      this.long := long;
      this.short := short;
    }

    /** The chain of `if short != "" { long = short }` statements, one per
        flag. */
    method ApplyShortFlags()
      modifies this
      ensures short == old(short)
      ensures long == Override(old(long), old(short))
    {
      var smtpServer := OverrideIfSet(long.smtpServer, short.smtpServer);
      var smtpPort := OverrideIfSet(long.smtpPort, short.smtpPort);
      var username := OverrideIfSet(long.username, short.username);
      var password := OverrideIfSet(long.password, short.password);
      var fromEmail := OverrideIfSet(long.fromEmail, short.fromEmail);
      var toEmail := OverrideIfSet(long.toEmail, short.toEmail);
      var subject := OverrideIfSet(long.subject, short.subject);
      var body := OverrideIfSet(long.body, short.body);
      var attachmentsFiles := OverrideIfSet(long.attachmentsFiles, short.attachmentsFiles);
      var bodyFile := OverrideIfSet(long.bodyFile, short.bodyFile);
      long := LegacyFlags(smtpServer, smtpPort, username, password, fromEmail, toEmail,
        subject, body, attachmentsFiles, bodyFile);
    }

    /** `main` after flag parsing: short flags overwrite long ones, the result
        is validated, the body file replaces the body and the lists are split. */
    method Run(files: Files) returns (outcome: LegacyOutcome)
      modifies this
      ensures short == old(short)
      ensures outcome == LegacyResolve(old(long), old(short), files)
      ensures var m := Override(old(long), old(short));
        long == if outcome.Send? then m.(body := outcome.args.body) else m
    {
      ApplyShortFlags();

      if long.smtpServer == "" || long.username == "" || long.password == "" ||
         long.fromEmail == "" || long.toEmail == "" || long.subject == "" {
        return Exit(MissingRequired);
      }
      if long.body == "" && long.bodyFile == "" {
        return Exit(MissingBody);
      }

      if long.bodyFile != "" {
        if long.bodyFile !in files {
          return Exit(BodyUnreadable);
        }
        long := long.(body := files[long.bodyFile]);
      }

      var attachmentPaths: seq<string> := [];
      if long.attachmentsFiles != "" {
        attachmentPaths := Split(long.attachmentsFiles, ',');
      }

      var toEmails: seq<string> := [];
      if long.toEmail != "" {
        toEmails := Split(long.toEmail, ',');
      }

      if |toEmails| == 0 {
        return Exit(NoRecipients);
      }

      outcome := Send(LegacyArgs(long.fromEmail, toEmails, long.subject, long.body, attachmentPaths));
    }

    /** `sendEmail` up to the `smtp.SendMail` call: writes the header block,
        the body part and one part per attachment, in order, and stops at the
        first attachment that cannot be opened. The multipart boundary, random
        in the source, is a parameter. */
    method SendEmail(from: string, to: seq<string>, subject: string, body: string,
                     attachments: seq<string>, boundary: string, files: Files)
      returns (r: Composition)
      ensures r.Ready? <==> forall i | 0 <= i < |attachments| :: attachments[i] in files
      ensures r.OpenFailed? ==>
        exists k | 0 <= k < |attachments| :: attachments[k] == r.path && r.path !in files &&
          forall j | 0 <= j < k :: attachments[j] in files
      ensures r.Ready? ==>
        && r.submission.addr == long.smtpServer + ":" + long.smtpPort
        && r.submission.auth == PlainAuth("", long.username, long.password, long.smtpServer)
        && r.submission.from == from && r.submission.to == to
        && r.submission.headers == HeaderBlock(from, to, subject, boundary)
      ensures r.Ready? ==>
        && |r.submission.parts| == 1 + |attachments|
        && r.submission.parts[0] == BodyPart(body)
        && forall i | 0 <= i < |attachments| ::
             attachments[i] in files &&
             r.submission.parts[1 + i] == AttachmentPart(attachments[i], files[attachments[i]])
    {
      var auth := PlainAuth("", long.username, long.password, long.smtpServer);

      var message := "";
      message := message + "From: " + from + "\r\n";
      message := message + "To: " + Join(to, ", ") + "\r\n";
      message := message + "Subject: " + subject + "\r\n";
      message := message + "MIME-Version: 1.0\r\n";
      message := message + "Content-Type: multipart/mixed; boundary=" + boundary + "\r\n";
      message := message + "\r\n";
      assert "" + "From: " == "From: ";

      var partHeader: PartHeader := map[];
      partHeader := partHeader[ContentType := "text/html; charset=utf-8"];
      partHeader := partHeader[ContentTransferEncoding := "quoted-printable"];
      var parts := [Part(partHeader, body)];

      for i := 0 to |attachments|
        invariant |parts| == 1 + i
        invariant parts[0] == BodyPart(body)
        invariant forall j | 0 <= j < i ::
          attachments[j] in files && parts[1 + j] == AttachmentPart(attachments[j], files[attachments[j]])
      {
        var attachment := attachments[i];
        if attachment !in files {
          return OpenFailed(attachment);
        }
        var header: PartHeader := map[];
        header := header[ContentType := GetMimeType(attachment)];
        header := header[ContentDisposition := "attachment; filename=\"" + Base(attachment) + "\""];
        header := header[ContentTransferEncoding := "base64"];
        parts := parts + [Part(header, files[attachment])];
      }

      r := Ready(Submission(long.smtpServer + ":" + long.smtpPort, auth, from, to, message, parts));
    }
  }

  // ---------------------------------------------------------------------
  // Properties

  /** Each non-empty short flag overwrites its long counterpart and an empty
      one leaves the long value. In particular `-p` defaults to "587", so the
      port is `-p`'s value whenever that is non-empty, and "587" when `-p` is
      not given, whatever `--smtp-port` says. */
  lemma PortFollowsShortFlag(long: LegacyFlags, short: LegacyFlags)
    ensures short.smtpPort != "" ==> Override(long, short).smtpPort == short.smtpPort
    ensures short.smtpPort == "" ==> Override(long, short).smtpPort == long.smtpPort
    ensures Override(long, DefaultFlags).smtpPort == "587"
  {
  }

  /** Overriding twice with the same short flags changes nothing more. */
  lemma OverrideIdempotent(long: LegacyFlags, short: LegacyFlags)
    ensures Override(Override(long, short), short) == Override(long, short)
  {
  }

  /** Validation fails with the usage exit exactly when the server, the
      username, the password, the sender, the recipients or the subject is
      empty after the override. */
  lemma LegacyRequiresFields(long: LegacyFlags, short: LegacyFlags, files: Files)
    ensures var m := Override(long, short);
      LegacyResolve(long, short, files) == Exit(MissingRequired) <==>
        m.smtpServer == "" || m.username == "" || m.password == "" ||
        m.fromEmail == "" || m.toEmail == "" || m.subject == ""
  {
  }

  /** With the required fields present: the body error exactly when neither a
      body nor a body file was given, the fatal read error exactly when the
      body file cannot be read, and never the recipient error. */
  lemma LegacyRequiresBody(long: LegacyFlags, short: LegacyFlags, files: Files)
    ensures var m := Override(long, short);
      var required := m.smtpServer != "" && m.username != "" && m.password != "" &&
        m.fromEmail != "" && m.toEmail != "" && m.subject != "";
      && (LegacyResolve(long, short, files) == Exit(MissingBody) <==>
            required && m.body == "" && m.bodyFile == "")
      && (LegacyResolve(long, short, files) == Exit(BodyUnreadable) <==>
            required && m.bodyFile != "" && m.bodyFile !in files)
      && LegacyResolve(long, short, files) != Exit(NoRecipients)
  {
  }

  /** A body file replaces the body with its contents even when a literal body
      was given; without one the literal body is sent. The recipients and the
      attachment paths join back to their flag values. */
  lemma LegacyBodyAndRecipients(long: LegacyFlags, short: LegacyFlags, files: Files)
    requires LegacyResolve(long, short, files).Send?
    ensures var m := Override(long, short);
      var args := LegacyResolve(long, short, files).args;
      && (m.bodyFile != "" ==> m.bodyFile in files && args.body == files[m.bodyFile])
      && (m.bodyFile == "" ==> args.body == m.body)
      && |args.toEmails| >= 1
      && Join(args.toEmails, ",") == m.toEmail
      && (args.attachmentPaths == [] <==> m.attachmentsFiles == "")
      && (m.attachmentsFiles != "" ==> Join(args.attachmentPaths, ",") == m.attachmentsFiles)
  {
    var m := Override(long, short);
    JoinSplit(m.toEmail, ',');
    if m.attachmentsFiles != "" {
      JoinSplit(m.attachmentsFiles, ',');
    }
  }

  /** The "To:" header of a successful run shows the `--to-email` value with a
      space after every comma. */
  lemma LegacyToHeader(long: LegacyFlags, short: LegacyFlags, files: Files)
    requires LegacyResolve(long, short, files).Send?
    ensures Join(LegacyResolve(long, short, files).args.toEmails, ", ") ==
      ReplaceAll(Override(long, short).toEmail, ',', ", ")
  {
    assert [','] + " " == ", ";
    JoinSplitReplaces(Override(long, short).toEmail, ',', " ");
  }

  /** The MIME type of `stem + ext`, for an extension `ext` (a '.' followed by
      neither '.' nor '/'), is decided by `ext` alone, lower-cased. */
  lemma MimeTypeOfExtension(stem: string, ext: string)
    requires |ext| >= 1 && ext[0] == '.'
    requires '.' !in ext[1..] && '/' !in ext
    ensures GetMimeType(stem + ext) == MimeForExtension(ToLower(ext))
  {
    ExtOfSuffix(stem, ext);
  }

  /** .jpg and .jpeg, in either letter case, are JPEG images. */
  lemma JpegMimeType(stem: string, ext: string)
    requires ext == ".jpg" || ext == ".JPG" || ext == ".jpeg" || ext == ".JPEG"
    ensures GetMimeType(stem + ext) == "image/jpeg"
  {
    LowerCaseExtension(stem, ext, if |ext| == 4 then ".jpg" else ".jpeg");
  }

  /** .png, in either letter case, is a PNG image. */
  lemma PngMimeType(stem: string, ext: string)
    requires ext == ".png" || ext == ".PNG"
    ensures GetMimeType(stem + ext) == "image/png"
  {
    LowerCaseExtension(stem, ext, ".png");
  }

  /** .gif, in either letter case, is a GIF image; so is .GİF, since the
      capital I with dot above lower-cases to 'i'. */
  lemma GifMimeType(stem: string, ext: string)
    requires ext == ".gif" || ext == ".GIF" || ext == ".g\U{0130}f" || ext == ".G\U{0130}F"
    ensures GetMimeType(stem + ext) == "image/gif"
  {
    LowerCaseExtension(stem, ext, ".gif");
  }

  /** Any other extension, such as .xyz or .txt, is an octet stream. */
  lemma OtherMimeType(stem: string, ext: string)
    requires |ext| >= 1 && ext[0] == '.'
    requires '.' !in ext[1..] && '/' !in ext
    requires ToLower(ext) !in [".jpg", ".jpeg", ".png", ".gif"]
    ensures GetMimeType(stem + ext) == "application/octet-stream"
  {
    MimeTypeOfExtension(stem, ext);
  }

  /** Helper for the table: an extension whose lower-case form is `lower`. */
  lemma LowerCaseExtension(stem: string, ext: string, lower: string)
    requires |ext| >= 1 && ext[0] == '.'
    requires forall i | 1 <= i < |ext| :: ext[i] != '.' && ext[i] != '/'
    requires |lower| == |ext| && forall i | 0 <= i < |ext| :: LowerChar(ext[i]) == lower[i]
    ensures GetMimeType(stem + ext) == MimeForExtension(lower)
  {
    assert '.' !in ext[1..] by {
      forall i | 0 <= i < |ext[1..]| ensures ext[1..][i] != '.' {
        assert ext[1..][i] == ext[i + 1];
      }
    }
    assert ToLower(ext) == lower;
    MimeTypeOfExtension(stem, ext);
  }

  /** A path with no '.' at all has no extension and is an octet stream. */
  lemma NoExtensionIsOctetStream(path: string)
    requires '.' !in path
    ensures GetMimeType(path) == "application/octet-stream"
  {
    ExtIsSuffix(path);
  }

  /** Below a directory prefix that is empty or ends in '/', a name without
      '/' keeps its extension. */
  lemma {:induction false} ExtIgnoresDirectory(dir: string, name: string)
    requires '/' !in name
    requires dir == [] || dir[|dir| - 1] == '/'
    ensures Ext(dir + name) == Ext(name)
    decreases |name|
  {
    if name == [] {
      assert dir + name == dir;
    } else {
      var init, last := name[..|name| - 1], name[|name| - 1];
      var path := dir + name;
      assert path[..|path| - 1] == dir + init && path[|path| - 1] == last;
      assert name == init + [last];
      if last != '.' {
        ExtIgnoresDirectory(dir, init);
      }
    }
  }

  /** The three fields of an attachment's part. */
  lemma AttachmentPartFields(path: string, content: string)
    ensures var part := AttachmentPart(path, content);
      && part.header[ContentDisposition] == "attachment; filename=\"" + Base(path) + "\""
      && part.header[ContentType] == GetMimeType(path)
      && part.header[ContentTransferEncoding] == "base64"
      && part.content == content
  {
  }

  /** The part of an attachment `dir + name` names the file `name` and takes
      its type from `name`'s extension. */
  lemma AttachmentPartOfFile(dir: string, name: string, content: string)
    requires name != [] && '/' !in name
    requires dir == [] || dir[|dir| - 1] == '/'
    ensures var part := AttachmentPart(dir + name, content);
      && part.header[ContentDisposition] == "attachment; filename=\"" + name + "\""
      && part.header[ContentType] == GetMimeType(name)
      && part.content == content
  {
    AttachmentPartFields(dir + name, content);
    var part := AttachmentPart(dir + name, content);
    assert part.header[ContentDisposition] == "attachment; filename=\"" + name + "\"" by {
      BaseOfFileInDir(dir, name, "");
      assert dir + name + "" == dir + name;
    }
    assert part.header[ContentType] == GetMimeType(name) by {
      ExtIgnoresDirectory(dir, name);
    }
  }
}
