/** The current `sendEmail` (smtp.go): the calls it makes on the go-mail
    message and the client options it collects before dialling. The library
    itself is not modelled: each call on the message and each option is a
    value, in the order the source makes or appends it. */
module Transport {

  /** The body content types the source chooses between. */
  datatype ContentType = TextPlain | TextHTML

  /** A call on the message `m`. */
  datatype MsgCall =
    | From(address: string)
    | To(addresses: seq<string>)
    | Subject(text: string)
    | SetBodyString(contentType: ContentType, body: string)
    | AttachFile(path: string)

  datatype SMTPAuthType = SMTPAuthPlain

  datatype TLSPolicy = NoTLS | TLSMandatory

  /** The fields of the `tls.Config` the source builds. */
  datatype TLSConfig = TLSConfig(insecureSkipVerify: bool, serverName: string)

  /** A client option passed to `mail.NewClient`. */
  datatype ClientOption =
    | WithPort(port: int)
    | WithSMTPAuth(auth: SMTPAuthType)
    | WithUsername(username: string)
    | WithPassword(password: string)
    | WithTLSPolicy(policy: TLSPolicy)
    | WithTLSConfig(config: TLSConfig)

  /** Whether an option sets up TLS. */
  predicate IsTLSOption(option: ClientOption)
  {
    option.WithTLSPolicy? || option.WithTLSConfig?
  }

  /** The TLS modes the switch recognises. */
  predicate KnownTLSMode(tlsMode: string)
  {
    tlsMode == "none" || tlsMode == "tls-skip" || tlsMode == "tls"
  }

  /** What `sendEmail` hands to the library: the calls on the message, the
      server name and the client options. */
  datatype Dispatch = Dispatch(message: seq<MsgCall>, host: string, options: seq<ClientOption>)

  /** The message calls `sendEmail` makes: sender, recipients and subject,
      then the body typed by where it came from (HTML when a body file was
      given, plain text otherwise), then one attachment per path in the given
      order. */
  predicate MessageCalls(m: seq<MsgCall>, from: string, to: seq<string>, subject: string,
                         body: string, bodyFile: string, attachments: seq<string>)
  {
    && |m| == 4 + |attachments|
    && m[..3] == [From(from), To(to), Subject(subject)]
    && m[3] == SetBodyString(if bodyFile != "" then TextHTML else TextPlain, body)
    && forall i | 0 <= i < |attachments| :: m[4 + i] == AttachFile(attachments[i])
  }

  /** The client options `sendEmail` collects: the port first and only once;
      PLAIN authentication with the credentials exactly when a username or a
      password is given; then one TLS option for a known mode ("none": no TLS,
      "tls-skip": TLS without certificate checks but with the server name,
      "tls": mandatory TLS) and none for any other mode. */
  predicate ClientOptions(options: seq<ClientOption>, smtpServer: string, smtpPort: int,
                          username: string, password: string, tlsMode: string)
  {
    var auth := username != "" || password != "";
    && |options| == 1 + (if auth then 3 else 0) + (if KnownTLSMode(tlsMode) then 1 else 0)
    && options[0] == WithPort(smtpPort)
    && (forall i | 1 <= i < |options| :: !options[i].WithPort?)
    && (auth <==> WithSMTPAuth(SMTPAuthPlain) in options)
    && (auth ==>
          options[1..4] == [WithSMTPAuth(SMTPAuthPlain), WithUsername(username), WithPassword(password)])
    && (!auth ==> forall i | 0 <= i < |options| :: !options[i].WithUsername? && !options[i].WithPassword?)
    && (KnownTLSMode(tlsMode) <==> IsTLSOption(options[|options| - 1]))
    && (forall i | 0 <= i < |options| - 1 :: !IsTLSOption(options[i]))
    && (tlsMode == "none" ==> options[|options| - 1] == WithTLSPolicy(NoTLS))
    && (tlsMode == "tls-skip" ==>
          options[|options| - 1] == WithTLSConfig(TLSConfig(true, smtpServer)))
    && (tlsMode == "tls" ==> options[|options| - 1] == WithTLSPolicy(TLSMandatory))
  }

  /** The message part of `sendEmail`. */
  method ComposeMessage(from: string, to: seq<string>, subject: string, body: string,
                        bodyFile: string, attachments: seq<string>)
    returns (m: seq<MsgCall>)
    ensures MessageCalls(m, from, to, subject, body, bodyFile, attachments)
  {
    m := [From(from), To(to), Subject(subject)];

    if bodyFile != "" {
      m := m + [SetBodyString(TextHTML, body)];
    } else {
      m := m + [SetBodyString(TextPlain, body)];
    }

    for i := 0 to |attachments|
      invariant |m| == 4 + i
      invariant m[..3] == [From(from), To(to), Subject(subject)]
      invariant m[3] == SetBodyString(if bodyFile != "" then TextHTML else TextPlain, body)
      invariant forall j | 0 <= j < i :: m[4 + j] == AttachFile(attachments[j])
    {
      m := m + [AttachFile(attachments[i])];
    }
  }

  /** The option part of `sendEmail`. */
  method CollectOptions(smtpServer: string, smtpPort: int, username: string, password: string,
                        tlsMode: string)
    returns (clientOptions: seq<ClientOption>)
    ensures ClientOptions(clientOptions, smtpServer, smtpPort, username, password, tlsMode)
  {
    clientOptions := [WithPort(smtpPort)];

    if username != "" || password != "" {
      clientOptions := clientOptions +
        [WithSMTPAuth(SMTPAuthPlain), WithUsername(username), WithPassword(password)];
    }

    if tlsMode == "none" {
      clientOptions := clientOptions + [WithTLSPolicy(NoTLS)];
    } else if tlsMode == "tls-skip" {
      var tlsSkipConfig := TLSConfig(true, smtpServer);
      clientOptions := clientOptions + [WithTLSConfig(tlsSkipConfig)];
    } else if tlsMode == "tls" {
      clientOptions := clientOptions + [WithTLSPolicy(TLSMandatory)];
    }
  }

  /** `sendEmail` up to `mail.NewClient`: the message calls, the server name
      and the client options. Address parsing in `From` and `To` is not
      modelled, so both are taken to succeed. */
  method SendEmail(smtpServer: string, smtpPort: int, username: string, password: string,
                   from: string, to: seq<string>, subject: string, body: string,
                   bodyFile: string, attachments: seq<string>, tlsMode: string)
    returns (d: Dispatch)
    ensures d.host == smtpServer
    ensures MessageCalls(d.message, from, to, subject, body, bodyFile, attachments)
    ensures ClientOptions(d.options, smtpServer, smtpPort, username, password, tlsMode)
  {
    var m := ComposeMessage(from, to, subject, body, bodyFile, attachments);
    var clientOptions := CollectOptions(smtpServer, smtpPort, username, password, tlsMode);
    d := Dispatch(m, smtpServer, clientOptions);
  }

  /** The options are determined by the inputs: two option lists meeting the
      description for the same inputs are the same list. */
  lemma ClientOptionsUnique(a: seq<ClientOption>, b: seq<ClientOption>, smtpServer: string,
                            smtpPort: int, username: string, password: string, tlsMode: string)
    requires ClientOptions(a, smtpServer, smtpPort, username, password, tlsMode)
    requires ClientOptions(b, smtpServer, smtpPort, username, password, tlsMode)
    ensures a == b
  {
    if username != "" || password != "" {
      assert a[1..4] == b[1..4];
      assert a[1] == b[1] && a[2] == b[2] && a[3] == b[3];
    }
  }
}
