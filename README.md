# smtp2mqtt: the message-content decision layer

smtp2mqtt accepts mail over SMTP and republishes each message on an MQTT
topic. This project models, in Dafny, the logic between the SMTP server and
the MQTT client, and proves properties of that model:

- `gostrings.dfy` (module `GoStrings`): the `strings` routines the code
  relies on: `HasPrefix`, `Contains` (as a scan, proved equal to "occurs
  somewhere") and `ToUpper`; `strings.Compare(a, b) == 0` is written `a == b`.
- `mail.dfy` (module `Mail`): `ParsePart`, the MIME part walker, as an
  imperative method with a loop over the part stream that recurses into a
  nested multipart; `Walk`/`Extract`, the function that specifies it; an
  independent description of what the walk yields (`Expected`, built on
  `FirstStop`, `BodyAt`, `LastIn` and `SlotAfter`); and `parseMsg`, the
  top-level classifier, as `ParseMsg`.
- `handler.dfy` (module `Handler`): the topic and payload choice of
  `smtphandler` (`Route`, `SmtpHandler`) and the HELO filter `checkhello`
  (`CheckHello`).

The part stream is modelled as a sequence of events in document order, one
per call of `NextPart`: `Part(contentType, transferEncoding, raw, children)`
or `NextPartError`. The end of the sequence stands for `io.EOF`. `raw` is
`None` when reading the part's body fails. `children` is the stream a
nested reader yields over the part's body. The header values and the body
are those the program sees after `NextPart`. The library routines
`mime.ParseMediaType`, `mime.WordDecoder.DecodeHeader`, base64 (section 4
of RFC 4648) and quoted-printable (section 6.7 of RFC 2045) decoding,
`mail.ReadMessage`, `json.Marshal` and `sanitizeTopic` are opaque total
functions passed in as parameters (`Mail.Codecs`, `Handler.Services`). Each
of them except `sanitizeTopic`, which returns a plain string, returns a
success or failure result. The flags `-json`, `-topic`,
`-allow` and `-deny` are explicit parameters. The one call to `send2mqtt`
is returned as a recorded `Publish(topic, payload)`.

The model follows the code, also where it differs from what a reader might
expect:

- A decode failure in a leaf leaves the body buffer as the previous leaf
  left it (`"\n"` before the first leaf). It does not empty it. In the
  running program this concerns base64 parts: `NextPart` already removes a
  quoted-printable encoding it recognises, so only spellings it does not
  fold (one with the dotless i, U+0131) reach the QUOTED-PRINTABLE branch.
- Each slot is last-write-wins, not first-match-wins.
- `Header.Get` returns the first value of a header field, not the last.
- A header decoding error keeps whatever value the word decoder returned. It
  does not fall back to the raw header text.
- An unparsable top-level Content-Type ends the process (`log.Fatal`). Here
  it is the error result of `ParseMsg`, and the handler publishes nothing.

## Model

| member | source | states |
|---|---|---|
| `GoStrings.ContainsIff` | mail.go:110-113 | the substring test used for slot selection holds exactly when the needle occurs at some position of the media type |
| `Mail.TransferDecode` | mail.go:86-107 | a leaf whose upper-cased transfer encoding is BASE64 gets the base64 decoder's result, QUOTED-PRINTABLE the quoted-printable decoder's, and any other value keeps its raw bytes unchanged; only those two decoders can fail |
| `Mail.Base64Spellings` | mail.go:86-89 | for every header value: base64 is selected exactly when the value is BASE64 with each letter in either case and the long s allowed for S |
| `Mail.QuotedPrintableSpellings` | mail.go:86-96 | for every header value: quoted-printable is selected exactly when the value is QUOTED-PRINTABLE with each letter in either case and the dotless i allowed for I |
| `Mail.UpperNameVariants` | mail.go:86 | a name upper-cases to a given ASCII upper-case name exactly when it has the same length and each rune is a case variant of the rune at the same place |
| `Mail.EncodingNames` | mail.go:86-96 | the encoding name is matched case-insensitively ("base64", "Quoted-Printable", and "baſe64" through the long s); "7bit" and an absent header mean no decoding |
| `Mail.ParsePart` | mail.go:57-118 | the loop, with its early return on a nested multipart and its breaks on errors, returns exactly the (html, text) of the walk specification, and its error result is always nil |
| `Mail.LastIn` | mail.go:109-114 | finds the last leaf among the first n that writes a given slot, or reports that none does |
| `Mail.FlatLastWriteWins` | mail.go:60-114 | over readable leaves, the html slot holds the body buffer after the last text/html leaf and the text slot the buffer after the last text/plain leaf; a failed decode carries the previous buffer (or "\n") forward; an unwritten slot is "" |
| `Mail.NestedMultipartDecides` | mail.go:77-80 | the first part that parses as multipart/ after readable leaves makes the result exactly that of its own parts: earlier siblings' slots are discarded and later siblings are never looked at |
| `Mail.ErrorEndsWalk` | mail.go:69-85 | a NextPart error or a failed read of a leaf ends the walk with what the preceding leaves collected; nothing after it is looked at |
| `Mail.FirstStop` | mail.go:68-116 | finds the first event that is not a readable leaf (or the end of the stream); every event before it is a readable leaf |
| `Mail.ExtractIsExpected` | mail.go:57-118 | for every stream, the walk yields the reference result: the nested part's own result if the first event that is not a readable leaf is a multipart part, else what the readable leaves before it left in the slots |
| `Mail.NoPartsNoContent` | mail.go:60-72 | a stream with no parts yields ("", "") |
| `Mail.FailedDecodeKeepsBody` | mail.go:88-114 | a text/html leaf whose decoder fails gets "\n" as the only leaf and a copy of the text body after a text/plain leaf |
| `Mail.FailedMediaTypeIsLeaf` | mail.go:77-82 | a Content-Type that fails to parse never starts a nested walk; the part is a leaf classified by the media type returned beside the error |
| `Mail.HeaderGet` | mail.go:36 | a header lookup yields the field's first value, or "" when the field is absent or has no values |
| `Mail.ParseMsg` | mail.go:19-54 | fails exactly when the top-level Content-Type does not parse; otherwise the subject is the decoded Subject, isMultipart holds exactly for a multipart/ media type, a non-multipart message has empty html and text, and a multipart one has the slots of its parts' walk |
| `Mail.NonMultipartIgnoresBody` | mail.go:41-46 | no part of a non-multipart message is examined: two messages with the same header give the same result |
| `Mail.WalkSameDecoders` | mail.go:77-106 | the walk depends on the codecs only through the media-type parser and the two body decoders |
| `Mail.HeaderDecodeErrorsIgnored` | mail.go:24-27 | errors reported by the RFC 2047 word decoder change nothing: only the values it returns matter |
| `Handler.RecordOf` | main.go:72-78 | the JSON record carries the subject, the envelope sender, the envelope recipients in their order, and the text and html bodies |
| `Handler.Route` | main.go:71-97 | JSON mode: the topic is the configured prefix alone and the payload the marshalled record, or "" when marshalling fails; raw mode: the topic is the prefix followed by the sanitized subject and the payload the text body |
| `Handler.SmtpHandler` | main.go:33-100 | returns nil on every path; publishes exactly once when the message is read and parsed, with the routed topic and payload, and never otherwise |
| `Handler.JsonTopicIgnoresSubject` | main.go:89-91 | in JSON mode every published message goes to the same topic |
| `Handler.RawNonMultipartPublishesEmpty` | main.go:92-96 | in raw mode a non-multipart message is published under prefix ++ sanitizeTopic(subject) with an empty payload |
| `Handler.RawPayloadIsText` | main.go:93-96 | in raw mode the payload depends on the text body alone |
| `Handler.CheckHello` | main.go:102-119 | the peer is denied exactly when an allow prefix is set and the address does not start with it, or a deny prefix is set and the address starts with it; the error is "Denied" |
| `Handler.EmptyFiltersAcceptEveryPeer` | main.go:103-118 | with both prefixes empty every peer is accepted, and the deny guard is needed since every address starts with "" |
| `Handler.DenyPrefixDenies` | main.go:110-115 | with only a deny prefix set, every address starting with it is denied |
| `Handler.AllowPrefixAdmits` | main.go:103-118 | with only an allow prefix set, every address starting with it is accepted |
| `Handler.AllowRuleOverridesDeny` | main.go:103-108 | an address outside a set allow prefix is denied whatever the deny prefix |
| `Handler.PrefixesAreTextual` | main.go:105-112 | prefixes are compared as text: deny 192.168.1.10 also denies 192.168.1.105, allow 10.0.0.1 admits 10.0.0.17 |

## Left out

- The SMTP server and its sessions (`smtpd.Server`, `ListenAndServe`, main.go:141-155): network I/O through a library that is not part of this model.
- The MQTT client (`initmqtt`, `send2mqtt`, `closemqtt`): not part of this model and network I/O; `send2mqtt` is a recorded `Publish`.
- `sanitizeTopic`: not part of this model; it is an opaque function.
- Flag parsing, the log file, version printing and all `log`/`fmt` output (main.go:17-31, 121-138 and the debug blocks), including the From and To header decoding, whose results are only logged.
- The multipart framing of `multipart.NewReader` (section 5.1.1 of RFC 2046): the streams are given already split. So the boundary taken from `params["boundary"]` and the parameter map of `mime.ParseMediaType` are not represented.
- The internals of `mail.ReadMessage`, `mime.ParseMediaType` (section 5.1 of RFC 2045, RFC 2231), `mime.WordDecoder` (RFC 2047), base64, quoted-printable and `json.Marshal`: opaque functions. For the same reason, the base64 encode/decode round trip cannot be stated.
- What `NextPart` itself does to a part: it removes a quoted-printable Content-Transfer-Encoding it recognises and decodes that body while it is read, so a malformed quoted-printable body appears as a failed read. The event stream here is unconstrained, so the model does not capture this, and its quoted-printable branch also covers streams the library would in practice never produce.
- The unused `headerSplitter` (mail.go:17) and the `reader == nil` guard (mail.go:64-66), which never fires.
- Process termination by `log.Fatal` (mail.go:38): modelled as the error result of `ParseMsg`.
- Go strings are modelled as sequences of runes, and the `string(body)` conversions as the identity. `ToUpper` maps only the runes whose upper case is ASCII: a-z, U+0131 and U+017F. Every other rune is left unchanged, which cannot affect the comparison with BASE64 or QUOTED-PRINTABLE. For the same reason `UpperNameVariants` and `UpperRuneVariants` are stated only for ASCII upper-case targets.
