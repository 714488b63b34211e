# Mail2Go: configuration resolution and message assembly

Mail2Go is a command-line tool that sends one email over SMTP. This project
models the part of it with real logic, in three pieces:

- **The current front end (main.go, module `Resolver`).** It merges three
  sources into one setting per flag: the JSON config file, the long flags and
  the short flags. It then validates the result, reads the body file and
  splits the comma-separated recipient and attachment lists. The merge is done
  by `priorityString` and `priorityInt`, both modelled as loops proved against
  the functions `LastNonEmpty` and `LastDiffering`. The package-level flag
  variables are the fields of class `Cli`, and `Cli.Run` overwrites them as
  `main` does.
- **The legacy front end (mail2go.go, module `Legacy`).**
  - Short flags override long flags, through class `LegacyCli`.
  - Validation is stricter than main.go's.
  - A body file replaces the literal body, where main.go keeps the literal
    body.
  - `getMimeType` maps the extension of a path to a MIME type.
  - `sendEmail` hand-builds the message: a header block, then an HTML body
    part, then one part per attachment. The model stops just before
    `smtp.SendMail`.
- **The current `sendEmail` (smtp.go, module `Transport`).** This is modelled
  as the calls it makes on the message and the client options it collects.
  Both are abstract values in the order the code produces them. The library is
  not modelled.

The supporting modules are:

- `Text`: Go's `strings.Split`, `strings.Join` and `strings.ToLower`, with
  their split/join round trips.
- `Paths`: `filepath.Ext` and `filepath.Base` on '/'-separated paths.
- `Variants`: properties that cross modules. They cover the resolver feeding
  the transport, and the two front ends disagreeing on the body.

How the outside world is represented:

- **The file system** is a map from path to contents. A path outside the map
  cannot be opened or read.
- **The multipart boundary** is random in the code. Here it is a parameter.
- **The config file** is given as a `Config` value. `NoConfig`, the zero
  value, stands for a missing file.
- **The flag values** are given as two `Flags` values, one for the long
  aliases and one for the short ones. `DefaultFlags` holds what `flag.Parse`
  leaves when nothing is given.

## Model

| member | source | states |
|---|---|---|
| Resolver.PriorityString | main.go:199-207 | the loop returns the last non-empty string of the list, or "" when there is none |
| Resolver.PriorityInt | main.go:209-217 | the loop returns the last value that differs from the sentinel, or the sentinel when none does |
| Resolver.LastNonEmptyIsLast | main.go:199-207 | the result is "" iff every element is empty; otherwise it is an element of the list after which every element is empty; so it is "" or a member of the list |
| Resolver.LastDifferingIsLast | main.go:209-217 | the result is the sentinel iff every element equals it; otherwise it is an element after which every element equals the sentinel |
| Resolver.StringPrecedence | main.go:143-149 | for a three-source list the highest non-empty source wins |
| Resolver.StringPrecedence2 | main.go:151-156 | for a two-source list a non-empty second value wins, otherwise the first |
| Resolver.PortPrecedence | main.go:144 | for the port, a short value other than 587 wins, then a long value other than 587, then the config value |
| Resolver.Cli.constructor | main.go:62-108 | the flag variables start as the parsed long and short values |
| Resolver.Cli.Run | main.go:143-196 | the outcome is `Resolve` of the config, the parsed flags and the files; the long variables end up as the merged values (with the body replaced on success); the short variables are unchanged |
| Resolver.MergePrecedence | main.go:143-156 | for server, port, username, password, TLS mode and sender: short flag beats long flag beats config file; for the message fields: short beats long; noAuth is the disjunction of the three sources |
| Resolver.ShortTlsModeWins | main.go:148 | a non-empty short TLS mode (its default is "tls") is the resolved mode, whatever the config and `--tls-mode` say |
| Resolver.AbsentConfigPortIsZero | main.go:144 | with no config file and both port flags at 587, the port resolves to 0 |
| Resolver.MergeIdempotent | main.go:143-156 | merging the merged values again with the same config and short flags changes nothing |
| Resolver.ResolveRequiresFields | main.go:158-162 | the required-field error happens iff server, sender, recipients or subject resolved to "" |
| Resolver.ResolveRequiresBody | main.go:164-194 | with the required fields present, the body error happens iff body and body file are both empty; the run reaches `sendEmail` iff the fields are present and there is a body or a body file; the recipient error is unreachable |
| Resolver.ResolvedRecipients | main.go:185-194 | a successful run has at least one recipient; no recipient contains ','; joining them with "," gives back the resolved `toEmail` |
| Resolver.ResolvedAttachments | main.go:179-183 | the attachment list is empty iff the attachments value is empty, and otherwise joins back to it |
| Resolver.ResolvedBody | main.go:170-177 | with a body file, a non-empty literal body is kept; otherwise the file's contents are used; an unreadable file gives "" and the run goes on; without a body file the literal body is used |
| Legacy.OverrideIfSet | mail2go.go:87-89 | after one `if short != ""` override the variable holds the short value when that is non-empty, otherwise the long one |
| Legacy.LegacyCli.constructor | mail2go.go:51-81 | the flag variables start as the parsed long and short values |
| Legacy.LegacyCli.ApplyShortFlags | mail2go.go:86-116 | every long variable becomes `Override` of itself and its short counterpart; the short variables are unchanged |
| Legacy.LegacyCli.Run | mail2go.go:84-155 | the outcome is `LegacyResolve` of the parsed flags and the files; the long variables end up overridden (with the body replaced on success) |
| Legacy.LegacyCli.SendEmail | mail2go.go:191-266 | the message is ready iff every attachment can be opened, and otherwise fails at the first one that cannot; address `server:port`; PLAIN auth with empty identity, the username, the password and the server; the exact header block; the HTML body part, then one part per attachment in the given order |
| Legacy.PortFollowsShortFlag | mail2go.go:90-92 | a non-empty `-p` overwrites the port and an empty one keeps `--smtp-port`; with `-p` at its default the port is "587" |
| Legacy.OverrideIdempotent | mail2go.go:86-116 | overriding twice with the same short flags is the same as overriding once |
| Legacy.LegacyRequiresFields | mail2go.go:118-121 | the usage exit happens iff server, username, password, sender, recipients or subject is empty after the override |
| Legacy.LegacyRequiresBody | mail2go.go:123-136 | with the required fields present: the body error happens iff body and body file are both empty; the fatal exit happens iff the body file cannot be read; the recipient error is unreachable |
| Legacy.LegacyBodyAndRecipients | mail2go.go:129-153 | a readable body file replaces the body even when a literal body was given; without a body file the literal body is used; the recipients (at least one) and the attachment paths join back to their flag values |
| Legacy.LegacyToHeader | mail2go.go:201 | the "To:" line shows `--to-email` with every ',' followed by a space |
| Legacy.MimeTypeOfExtension | mail2go.go:176-188 | the MIME type of `stem + ext` depends only on the lower-cased `ext` |
| Legacy.JpegMimeType | mail2go.go:179-180 | .jpg and .jpeg, upper or lower case, give image/jpeg |
| Legacy.PngMimeType | mail2go.go:181-182 | .png, upper or lower case, gives image/png |
| Legacy.GifMimeType | mail2go.go:183-184 | .gif, upper or lower case, gives image/gif, and so does .GİF with the capital I with dot above |
| Legacy.OtherMimeType | mail2go.go:185-186 | any other extension gives application/octet-stream |
| Legacy.NoExtensionIsOctetStream | mail2go.go:176-187 | a path without '.' gives application/octet-stream |
| Legacy.ExtIgnoresDirectory | mail2go.go:236-237 | the directory part of an attachment path does not change its extension |
| Legacy.AttachmentPartFields | mail2go.go:235-239 | an attachment's part has the disposition `attachment; filename="<base name>"`, the type `getMimeType(path)`, base64 encoding and the file's contents |
| Legacy.AttachmentPartOfFile | mail2go.go:235-239 | the part of `dir + name` has `name` as its disposition filename, takes its type from `name`, and carries the file's contents |
| Transport.ComposeMessage | smtp.go:13-36 | the message calls are From, To and Subject; then the body (HTML iff a body file was given); then one attachment per path in order |
| Transport.CollectOptions | smtp.go:38-64 | the port option comes first and only once; PLAIN auth with the credentials is present iff username or password is non-empty; the last option is the TLS option for "none", "tls-skip" and "tls"; any other mode gives no TLS option |
| Transport.SendEmail | smtp.go:12-66 | the client is created for the server with the options above, and the message carries the calls above |
| Transport.ClientOptionsUnique | smtp.go:38-64 | the option description determines the option list: two lists that meet it for the same inputs are equal |
| Variants.DefaultShortTlsModeMeansMandatoryTLS | main.go:148 | when `-l` is not given, whatever other short flags are, the client's last option is mandatory TLS, whatever the config and `--tls-mode` say |
| Variants.LiteralBodyWithBodyFileIsHtml | smtp.go:27-31 | with both a literal body and a body file, the literal body is sent, declared as HTML |
| Variants.BodyPrecedenceDiffers | main.go:170-177 | with a literal body and a readable body file, main.go sends the literal body and mail2go.go sends the file's contents |
| Text.Split | main.go:179-189 | splitting gives at least one piece, and no piece contains the separator |
| Text.JoinSplit | main.go:185-189 | joining the pieces of a split with the separator gives back the string |
| Text.SplitJoin | main.go:185-189 | splitting the join of separator-free pieces gives back the pieces |
| Text.SplitPrefix | main.go:185-189 | a split's first piece is everything before the first separator |
| Text.JoinSplitReplaces | mail2go.go:201 | re-joining a split with a longer glue puts the glue where each separator was |
| Text.ToLower | mail2go.go:177 | lower-casing keeps the length and lower-cases each character |
| Text.SplitList | main.go:179-189 | the list is empty iff the flag value is empty |
| Paths.ExtIsSuffix | mail2go.go:177 | a non-empty extension is a suffix of the path that starts with '.' and has no further '.' or '/'; an empty one means every '.' is followed by a '/' |
| Paths.ExtOfSuffix | mail2go.go:177 | the extension of `stem + ext` is `ext`, when `ext` is '.' followed by neither '.' nor '/' |
| Paths.LastElement | mail2go.go:238 | the last element is a '/'-free suffix of the path that is the whole path or follows a '/' |
| Paths.TrimTrailingSlashes | mail2go.go:238 | trimming gives a prefix that does not end in '/', and only '/' characters are removed |
| Paths.TrimSlashesAfter | mail2go.go:238 | trimming a path that does not end in '/', followed by slashes, gives back the path |
| Paths.Base | mail2go.go:238 | the base name is non-empty, and is "/" or free of '/' |
| Paths.LastElementOfSuffix | mail2go.go:238 | the last element of `dir + name` is `name` |
| Paths.BaseOfFileInDir | mail2go.go:238 | the base name of `dir + name`, followed by any number of '/', is `name` |

## Left out

- usage.go and the `Usage()`/`usage()` functions only print help text and exit. A call to them is the `Usage`/`Exit` outcome with the reason.
- Flag registration and parsing (`init` in both front ends) is not modelled. The parsed long and short values are inputs.
- Config discovery and loading are not modelled: `--config`/`-c`, `os.UserConfigDir`, `os.Stat` and `loadConfig` (main.go:124-140). `loadConfig` and its `Config` type are not part of this model. The config fields are an input, and a missing file gives the zero value.
- `--version`/`-v` only prints and exits (main.go:115-119), so it is not modelled.
- Error messages written to standard output and standard error are not modelled.
- File contents are whole strings. Partial reads and `io.ReadAll` errors are not modelled (mail2go.go:247-251).
- Byte encodings are not modelled; strings are sequences of characters.
- Boundary generation is not modelled; the boundary is a parameter.
- Quoted-printable and base64 encoding are not modelled. A part carries its content before encoding.
- Failures of `CreatePart` and of the encoders are not modelled (mail2go.go:212-223, 241-258).
- Network delivery is not modelled: `smtp.SendMail` (mail2go.go:266), go-mail's `NewClient` and `DialAndSend`, and the nil-client path (smtp.go:66-78).
- Address parsing in go-mail's `From` and `To` is not modelled; both are taken to succeed (smtp.go:15-22).
- main.go:196 passes thirteen arguments to a `sendEmail` that takes eleven (smtp.go:12). `replyTo` and `noAuth` are resolved but never reach the transport. `Transport.SendEmail` therefore has no such parameters, and nothing sets a Reply-To header or lets `noAuth` disable authentication.
- mail2go.go's `main` ignores the error returned by its `sendEmail` (mail2go.go:155).
- Text.ToLower: only the characters whose lower case is ASCII are lower-cased: 'A' to 'Z', U+0130 and U+212A. Other letters, such as 'É', are kept, where Go's `strings.ToLower` lower-cases them. Every extension `getMimeType` recognises is ASCII, so a character that lower-cases to a non-ASCII one cannot make an extension match. The model therefore gives the same MIME type as the code.
- Paths.Base: only '/' is a separator; Windows volume names and '\' are not modelled.
- Paths.Ext: only '/' is a separator, as above.
- Legacy.LegacyCli.SendEmail: each open attachment is read whole. An attachment that opens but cannot be read is not distinguished.

## Options that have no effect

main.go:68 documents `--no-auth` as "Use unauthenticated SMTP", and main.go:147
resolves it. main.go:152 resolves `--reply-to` too. Neither value is a
parameter of smtp.go:12, so neither reaches the transport. There,
authentication depends only on the username and password being non-empty
(smtp.go:43-50). The model follows the code.
