/** Properties that connect the resolver of main.go with the `sendEmail` of
    smtp.go, and that set the two front ends side by side. */
module Variants {
  import opened Paths
  import Resolver
  import Legacy
  import opened Transport

  /** Without `-l` on the command line its default "tls" wins over the config
      file and `--tls-mode`, so the client always ends up with mandatory TLS,
      whatever other short flags are given. */
  lemma DefaultShortTlsModeMeansMandatoryTLS(config: Resolver.Config, long: Resolver.Flags,
                                             short: Resolver.Flags,
                                             options: seq<ClientOption>, smtpServer: string,
                                             smtpPort: int, username: string, password: string)
    requires short.tlsMode == Resolver.DefaultFlags.tlsMode
    requires ClientOptions(options, smtpServer, smtpPort, username, password,
                           Resolver.Merge(config, long, short).tlsMode)
    ensures options[|options| - 1] == WithTLSPolicy(TLSMandatory)
  {
    Resolver.ShortTlsModeWins(config, long, short);
  }

  /** The body type follows the presence of a body file, not which body won:
      with both a literal body and a body file, the literal body is sent and
      is declared as HTML. */
  lemma LiteralBodyWithBodyFileIsHtml(config: Resolver.Config, long: Resolver.Flags,
                                      short: Resolver.Flags, files: Files, m: seq<MsgCall>)
    requires Resolver.Resolve(config, long, short, files).Send?
    requires var a := Resolver.Resolve(config, long, short, files).args;
      MessageCalls(m, a.fromEmail, a.toEmails, a.subject, a.body, a.bodyFile, a.attachmentPaths)
    requires var merged := Resolver.Merge(config, long, short);
      merged.body != "" && merged.bodyFile != ""
    ensures m[3] == SetBodyString(TextHTML, Resolver.Merge(config, long, short).body)
  {
    Resolver.ResolvedBody(config, long, short, files);
  }

  /** The two front ends disagree when both a literal body and a readable body
      file are given: main.go keeps the literal body, mail2go.go sends the
      file's contents. */
  lemma BodyPrecedenceDiffers(server: string, user: string, pass: string, from: string,
                              to: string, subject: string, literal: string, path: string,
                              files: Files)
    requires server != "" && user != "" && pass != "" && from != ""
    requires to != "" && subject != "" && literal != "" && path != ""
    requires path in files
    ensures var long := Resolver.DefaultFlags.(smtpServer := server, username := user,
        password := pass, fromEmail := from, toEmail := to, subject := subject,
        body := literal, bodyFile := path);
      var outcome := Resolver.Resolve(Resolver.NoConfig, long, Resolver.DefaultFlags, files);
      outcome.Send? && outcome.args.body == literal
    ensures var long := Legacy.DefaultFlags.(smtpServer := server, username := user,
        password := pass, fromEmail := from, toEmail := to, subject := subject,
        body := literal, bodyFile := path);
      var outcome := Legacy.LegacyResolve(long, Legacy.DefaultFlags, files);
      outcome.Send? && outcome.args.body == files[path]
  {
    var long := Resolver.DefaultFlags.(smtpServer := server, username := user,
      password := pass, fromEmail := from, toEmail := to, subject := subject,
      body := literal, bodyFile := path);
    Resolver.MergePrecedence(Resolver.NoConfig, long, Resolver.DefaultFlags);
    Resolver.ResolveRequiresBody(Resolver.NoConfig, long, Resolver.DefaultFlags, files);
    Resolver.ResolvedBody(Resolver.NoConfig, long, Resolver.DefaultFlags, files);
    var legacyLong := Legacy.DefaultFlags.(smtpServer := server, username := user,
      password := pass, fromEmail := from, toEmail := to, subject := subject,
      body := literal, bodyFile := path);
    Legacy.LegacyRequiresFields(legacyLong, Legacy.DefaultFlags, files);
    Legacy.LegacyRequiresBody(legacyLong, Legacy.DefaultFlags, files);
    Legacy.LegacyBodyAndRecipients(legacyLong, Legacy.DefaultFlags, files);
  }
}
