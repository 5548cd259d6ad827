/**
  The message-content decision layer of mail.go: the recursive MIME part
  walker (ParsePart) and the top-level classifier (parseMsg).

  The library routines mail.go calls (mime.ParseMediaType,
  mime.WordDecoder.DecodeHeader, base64 and quoted-printable decoding) are
  not modelled: they are opaque total functions held in a `Codecs` value,
  each with its success or failure result. The multipart framing of
  multipart.NewReader is not modelled either: a multipart body is given as
  the stream of parts the reader yields over it.
 */
module Mail {
  import opened GoStrings

  datatype Option<+T> = None | Some(value: T)

  /**
    What mime.ParseMediaType returns: the media type (lower-cased) and
    whether an error was reported. The media type can be non-empty even
    when an error is reported (an invalid parameter after a valid type).
    The parameter map is not kept: it only supplies the boundary, and the
    framing that uses the boundary is not modelled.
   */
  datatype MediaType = MediaType(mediaType: string, failed: bool)

  /** What mime.WordDecoder.DecodeHeader returns: a value and whether an error was reported. */
  datatype DecodedWords = DecodedWords(value: string, failed: bool)

  /** The library routines mail.go calls, as opaque functions. */
  datatype Codecs = Codecs(
    parseMediaType: string -> MediaType,
    decodeHeader: string -> DecodedWords,
    base64: string -> Option<string>,
    quotedPrintable: string -> Option<string>)

  /**
    One result of multipart.Reader.NextPart, in document order; the end of
    a sequence of events is io.EOF.
    - Part: the part's Content-Type and Content-Transfer-Encoding header
      values ("" when absent) and its body as ioutil.ReadAll returns it
      (None when that read fails), all as the program sees them after
      NextPart, and the parts a nested reader yields over this part's body
      with the boundary its own Content-Type names.
    - NextPartError: NextPart failed with an error other than io.EOF.
   */
  datatype Event =
    | Part(contentType: string, transferEncoding: string, raw: Option<string>, children: seq<Event>)
    | NextPartError

  /** A part whose Content-Type parses without error and starts with "multipart/". */
  predicate IsMultipart(mt: MediaType) {
    !mt.failed && HasPrefix(mt.mediaType, "multipart/")
  }

  /** The transfer encodings the walker tells apart. */
  datatype Encoding = Base64 | QuotedPrintable | Identity

  /** The Content-Transfer-Encoding value, upper-cased, selects the decoder. */
  function EncodingOf(cte: string): (e: Encoding) {
    var upper := ToUpper(cte);
    if upper == "BASE64" then Base64
    else if upper == "QUOTED-PRINTABLE" then QuotedPrintable
    else Identity
  }

  /** The decoded body of a leaf, or None when its decoder reports an error. */
  function TransferDecode(codecs: Codecs, cte: string, raw: string): (r: Option<string>)
    ensures EncodingOf(cte) == Base64 ==> r == codecs.base64(raw)
    ensures EncodingOf(cte) == QuotedPrintable ==> r == codecs.quotedPrintable(raw)
    ensures EncodingOf(cte) == Identity ==> r == Some(raw)
    ensures r.None? ==> EncodingOf(cte) != Identity
  {
    match EncodingOf(cte)
    case Base64 => codecs.base64(raw)
    case QuotedPrintable => codecs.quotedPrintable(raw)
    case Identity => Some(raw)
  }

  /** Which result slot a leaf's media type writes: html first, then text. */
  datatype Slot = HtmlSlot | TextSlot | NoSlot

  function SlotOf(mediaType: string): (slot: Slot) {
    if Contains(mediaType, "text/html") then HtmlSlot
    else if Contains(mediaType, "text/plain") then TextSlot
    else NoSlot
  }

  /** The walker's loop state: the body buffer and the two result slots. */
  datatype Accum = Accum(body: string, html: string, text: string)

  /** The state at the start of every walk: the body buffer holds a newline. */
  const Start := Accum("\n", "", "")

  /**
    One leaf: the body buffer takes the decoded content, or keeps its
    previous value when the decoder fails; then the slot the media type
    selects takes the buffer.
   */
  function Leaf(codecs: Codecs, mediaType: string, cte: string, raw: string, acc: Accum): (next: Accum) {
    var body := match TransferDecode(codecs, cte, raw)
      case Some(decoded) => decoded
      case None => acc.body;
    match SlotOf(mediaType)
    case HtmlSlot => Accum(body, body, acc.text)
    case TextSlot => Accum(body, acc.html, body)
    case NoSlot => Accum(body, acc.html, acc.text)
  }

  /**
    The walk over a stream of parts from state `acc`, as a function: the
    specification of the ParsePart method.
   */
  function Walk(codecs: Codecs, parts: seq<Event>, acc: Accum): (slots: (string, string))
    decreases parts
  {
    if parts == [] then (acc.html, acc.text)
    else match parts[0]
      case NextPartError => (acc.html, acc.text)
      case Part(contentType, cte, raw, children) =>
        var mt := codecs.parseMediaType(contentType);
        if IsMultipart(mt) then Walk(codecs, children, Start)
        else if raw.None? then (acc.html, acc.text)
        else Walk(codecs, parts[1..], Leaf(codecs, mt.mediaType, cte, raw.value, acc))
  }

  /** The (html, text) pair that ParsePart extracts from a stream of parts. */
  function Extract(codecs: Codecs, parts: seq<Event>): (slots: (string, string)) {
    Walk(codecs, parts, Start)
  }

  /** The error ParsePart could report; no path of it ever does. */
  datatype PartError = PartError(message: string)

  /**
    ParsePart: walks the parts in order. A part that is itself multipart
    ends the walk with the result of walking its own parts; an error from
    NextPart or from reading a part ends the walk with what has been
    collected; every other part is a leaf.
   */
  method ParsePart(codecs: Codecs, parts: seq<Event>) returns (html: string, text: string, errPart: Option<PartError>)
    ensures (html, text) == Extract(codecs, parts)
    ensures errPart == None
    decreases parts
  {
    var body := "\n";
    html, text := "", "";
    errPart := None;
    var i := 0;
    while i < |parts|
      invariant 0 <= i <= |parts|
      invariant Walk(codecs, parts[i..], Accum(body, html, text)) == Extract(codecs, parts)
      invariant errPart == None
    {
      var newPart := parts[i];
      assert parts[i..][0] == newPart && parts[i..][1..] == parts[i + 1..];
      if newPart.NextPartError? {
        break;
      }
      var mt := codecs.parseMediaType(newPart.contentType);
      if !mt.failed && HasPrefix(mt.mediaType, "multipart/") {
        html, text, errPart := ParsePart(codecs, newPart.children);
        return;
      }
      if newPart.raw.None? {
        break;
      }
      var part := newPart.raw.value;
      var contentTransferEncoding := ToUpper(newPart.transferEncoding);
      if contentTransferEncoding == "BASE64" {
        var decoded := codecs.base64(part);
        if decoded.Some? {
          body := decoded.value;
        }
      } else if contentTransferEncoding == "QUOTED-PRINTABLE" {
        var decoded := codecs.quotedPrintable(part);
        if decoded.Some? {
          body := decoded.value;
        }
      } else {
        body := part;
      }
      if Contains(mt.mediaType, "text/html") {
        html := body;
      } else if Contains(mt.mediaType, "text/plain") {
        text := body;
      }
      i := i + 1;
    }
  }

  // ---------------------------------------------------------------------
  // What the walk yields, stated without the walk

  /** A part the walker reads as a leaf and after which it goes on. */
  predicate ReadableLeaf(codecs: Codecs, e: Event) {
    e.Part? && !IsMultipart(codecs.parseMediaType(e.contentType)) && e.raw.Some?
  }

  /** A stream made only of readable leaves. */
  predicate Flat(codecs: Codecs, parts: seq<Event>) {
    forall j :: 0 <= j < |parts| ==> ReadableLeaf(codecs, parts[j])
  }

  /** The media type a leaf is classified by. */
  function MediaTypeOf(codecs: Codecs, e: Event): (mediaType: string)
    requires e.Part?
  {
    codecs.parseMediaType(e.contentType).mediaType
  }

  /** The slot leaf `k` of a flat stream writes. */
  function SlotAt(codecs: Codecs, parts: seq<Event>, k: nat): (slot: Slot)
    requires Flat(codecs, parts) && k < |parts|
  {
    SlotOf(MediaTypeOf(codecs, parts[k]))
  }

  /**
    The body buffer after leaf `k` of a flat stream: that leaf's decoded
    content or, when its decoder fails, the buffer after the leaf before it
    ("\n" before the first leaf).
   */
  function BodyAt(codecs: Codecs, parts: seq<Event>, k: nat): (body: string)
    requires Flat(codecs, parts) && k < |parts|
    decreases k
  {
    match TransferDecode(codecs, parts[k].transferEncoding, parts[k].raw.value)
    case Some(decoded) => decoded
    case None => if k == 0 then "\n" else BodyAt(codecs, parts, k - 1)
  }

  /** The last of the first `n` leaves of a flat stream that writes `slot`, if any. */
  function LastIn(codecs: Codecs, parts: seq<Event>, slot: Slot, n: nat): (r: Option<nat>)
    requires Flat(codecs, parts) && n <= |parts|
    ensures r.Some? ==> r.value < n && SlotAt(codecs, parts, r.value) == slot
    ensures r.Some? ==> forall j :: r.value < j < n ==> SlotAt(codecs, parts, j) != slot
    ensures r.None? ==> forall j :: 0 <= j < n ==> SlotAt(codecs, parts, j) != slot
  {
    if n == 0 then None
    else if SlotAt(codecs, parts, n - 1) == slot then Some(n - 1)
    else LastIn(codecs, parts, slot, n - 1)
  }

  /** What `slot` holds after the first `n` leaves of a flat stream. */
  function SlotAfter(codecs: Codecs, parts: seq<Event>, slot: Slot, n: nat): (value: string)
    requires Flat(codecs, parts) && n <= |parts|
  {
    match LastIn(codecs, parts, slot, n)
    case Some(k) => BodyAt(codecs, parts, k)
    case None => ""
  }

  /** The whole loop state after the first `n` leaves of a flat stream. */
  function StateAfter(codecs: Codecs, parts: seq<Event>, n: nat): (state: Accum)
    requires Flat(codecs, parts) && n <= |parts|
  {
    Accum(if n == 0 then "\n" else BodyAt(codecs, parts, n - 1),
          SlotAfter(codecs, parts, HtmlSlot, n),
          SlotAfter(codecs, parts, TextSlot, n))
  }

  /** One leaf moves the state after `n` leaves to the state after `n + 1`. */
  lemma LeafStep(codecs: Codecs, parts: seq<Event>, n: nat)
    requires Flat(codecs, parts) && n < |parts|
    ensures Leaf(codecs, MediaTypeOf(codecs, parts[n]), parts[n].transferEncoding, parts[n].raw.value,
                 StateAfter(codecs, parts, n))
         == StateAfter(codecs, parts, n + 1)
  {
  }

  lemma {:induction false} WalkFlatFrom(codecs: Codecs, parts: seq<Event>, i: nat)
    requires Flat(codecs, parts) && i <= |parts|
    ensures Walk(codecs, parts[i..], StateAfter(codecs, parts, i))
         == (SlotAfter(codecs, parts, HtmlSlot, |parts|), SlotAfter(codecs, parts, TextSlot, |parts|))
    decreases |parts| - i
  {
    if i < |parts| {
      assert parts[i..][0] == parts[i] && parts[i..][1..] == parts[i + 1..];
      LeafStep(codecs, parts, i);
      WalkFlatFrom(codecs, parts, i + 1);
    }
  }

  /**
    Last write wins: over a stream of readable leaves, the html slot holds
    the body buffer as it stood after the last text/html leaf, and the text
    slot that after the last text/plain leaf (a failed decode leaves the
    buffer as the leaf before made it); a slot no leaf writes stays "".
   */
  lemma FlatLastWriteWins(codecs: Codecs, parts: seq<Event>)
    requires Flat(codecs, parts)
    ensures Extract(codecs, parts)
         == (SlotAfter(codecs, parts, HtmlSlot, |parts|), SlotAfter(codecs, parts, TextSlot, |parts|))
  {
    assert parts[0..] == parts;
    WalkFlatFrom(codecs, parts, 0);
  }

  /**
    A multipart part reached after readable leaves only decides the walk:
    the result is that of its own parts, whatever the earlier siblings
    collected and whatever follows it.
   */
  lemma {:induction false} NestedMultipartDecides(codecs: Codecs, leaves: seq<Event>, nested: Event, rest: seq<Event>, acc: Accum)
    requires Flat(codecs, leaves)
    requires nested.Part? && IsMultipart(codecs.parseMediaType(nested.contentType))
    ensures Walk(codecs, leaves + [nested] + rest, acc) == Extract(codecs, nested.children)
    decreases |leaves|
  {
    var parts := leaves + [nested] + rest;
    if leaves == [] {
      assert parts[0] == nested;
    } else {
      var e := leaves[0];
      assert ReadableLeaf(codecs, e);
      assert parts[0] == e && parts[1..] == leaves[1..] + [nested] + rest;
      NestedMultipartDecides(codecs, leaves[1..], nested, rest,
        Leaf(codecs, MediaTypeOf(codecs, e), e.transferEncoding, e.raw.value, acc));
    }
  }

  /** An event that ends the walk with what has been collected. */
  predicate Stops(codecs: Codecs, e: Event) {
    e.NextPartError? || (!IsMultipart(codecs.parseMediaType(e.contentType)) && e.raw.None?)
  }

  /**
    An error from NextPart, or a leaf whose read fails, after readable
    leaves ends the walk: the result is what those leaves collected, and
    nothing after the error is looked at.
   */
  lemma {:induction false} ErrorEndsWalk(codecs: Codecs, leaves: seq<Event>, stop: Event, rest: seq<Event>, acc: Accum)
    requires Flat(codecs, leaves) && Stops(codecs, stop)
    ensures Walk(codecs, leaves + [stop] + rest, acc) == Walk(codecs, leaves, acc)
    decreases |leaves|
  {
    var parts := leaves + [stop] + rest;
    if leaves == [] {
      assert parts[0] == stop;
    } else {
      var e := leaves[0];
      assert ReadableLeaf(codecs, e);
      assert parts[0] == e && parts[1..] == leaves[1..] + [stop] + rest;
      ErrorEndsWalk(codecs, leaves[1..], stop, rest,
        Leaf(codecs, MediaTypeOf(codecs, e), e.transferEncoding, e.raw.value, acc));
    }
  }

  /**
    Where the walk stops reading leaves: the index of the first event that
    is not a readable leaf, or the length of a stream of readable leaves.
   */
  function FirstStop(codecs: Codecs, parts: seq<Event>): (k: nat)
    ensures k <= |parts| && Flat(codecs, parts[..k])
    ensures k < |parts| ==> !ReadableLeaf(codecs, parts[k])
  {
    if parts == [] || !ReadableLeaf(codecs, parts[0]) then 0
    else
      var k := 1 + FirstStop(codecs, parts[1..]);
      assert parts[..k] == [parts[0]] + parts[1..][..k - 1];
      k
  }

  /** What a stream of readable leaves leaves in the two slots. */
  function FlatResult(codecs: Codecs, leaves: seq<Event>): (slots: (string, string))
    requires Flat(codecs, leaves)
  {
    (SlotAfter(codecs, leaves, HtmlSlot, |leaves|), SlotAfter(codecs, leaves, TextSlot, |leaves|))
  }

  /**
    What ParsePart extracts, stated without the walk: find the first event
    that is not a readable leaf; if it is a multipart part, the result is
    that of its own parts; otherwise (an error, or the end of the stream)
    it is what the readable leaves before it leave in the slots.
   */
  function Expected(codecs: Codecs, parts: seq<Event>): (slots: (string, string))
    decreases parts
  {
    var k := FirstStop(codecs, parts);
    if k < |parts| && parts[k].Part? && IsMultipart(codecs.parseMediaType(parts[k].contentType))
    then Expected(codecs, parts[k].children)
    else FlatResult(codecs, parts[..k])
  }

  /** The walk yields, for every stream, exactly the expected slots. */
  lemma {:induction false} ExtractIsExpected(codecs: Codecs, parts: seq<Event>)
    ensures Extract(codecs, parts) == Expected(codecs, parts)
    decreases parts
  {
    var k := FirstStop(codecs, parts);
    var leaves := parts[..k];
    if k == |parts| {
      assert leaves == parts;
      FlatLastWriteWins(codecs, parts);
    } else {
      var e := parts[k];
      assert parts == leaves + [e] + parts[k + 1..];
      if e.Part? && IsMultipart(codecs.parseMediaType(e.contentType)) {
        NestedMultipartDecides(codecs, leaves, e, parts[k + 1..], Start);
        ExtractIsExpected(codecs, e.children);
      } else {
        assert Stops(codecs, e);
        ErrorEndsWalk(codecs, leaves, e, parts[k + 1..], Start);
        FlatLastWriteWins(codecs, leaves);
      }
    }
  }

  /** A stream with no parts yields two empty slots. */
  lemma NoPartsNoContent(codecs: Codecs)
    ensures Extract(codecs, []) == ("", "")
  {
  }

  /**
    A failed decode hands on the previous buffer: a text/html leaf whose
    decoder fails, after a text/plain leaf, gets the text leaf's body as
    html; as the first leaf it gets "\n".
   */
  lemma FailedDecodeKeepsBody(codecs: Codecs, plain: Event, html: Event)
    requires ReadableLeaf(codecs, plain) && ReadableLeaf(codecs, html)
    requires SlotOf(MediaTypeOf(codecs, plain)) == TextSlot && SlotOf(MediaTypeOf(codecs, html)) == HtmlSlot
    requires TransferDecode(codecs, html.transferEncoding, html.raw.value).None?
    ensures Extract(codecs, [html]) == ("\n", "")
    ensures Extract(codecs, [plain, html]).0 == Extract(codecs, [plain, html]).1
  {
    var one, two := [html], [plain, html];
    assert Flat(codecs, one) && Flat(codecs, two);
    FlatLastWriteWins(codecs, one);
    FlatLastWriteWins(codecs, two);
    assert LastIn(codecs, two, HtmlSlot, 2) == Some(1);
    assert LastIn(codecs, two, TextSlot, 2) == Some(0);
    assert BodyAt(codecs, two, 1) == BodyAt(codecs, two, 0);
  }

  /**
    A Content-Type that fails to parse never opens a nested walk, even when
    the media type returned beside the error starts with "multipart/": the
    part is a leaf classified by that media type.
   */
  lemma FailedMediaTypeIsLeaf(codecs: Codecs, e: Event, rest: seq<Event>, acc: Accum)
    requires e.Part? && e.raw.Some? && codecs.parseMediaType(e.contentType).failed
    ensures Walk(codecs, [e] + rest, acc)
         == Walk(codecs, rest, Leaf(codecs, MediaTypeOf(codecs, e), e.transferEncoding, e.raw.value, acc))
  {
    assert ([e] + rest)[1..] == rest;
  }

  /**
    The encoding names are compared without regard to case; the long s
    (U+017F) upper-cases to S, so "baſe64" also selects base64.
   */
  lemma EncodingNames()
    ensures EncodingOf("base64") == Base64 && EncodingOf("Base64") == Base64
    ensures EncodingOf("baſe64") == Base64
    ensures EncodingOf("quoted-printable") == QuotedPrintable && EncodingOf("Quoted-Printable") == QuotedPrintable
    ensures EncodingOf("7bit") == Identity && EncodingOf("") == Identity
  {
  }

  /**
    The runes that upper-case to `u`: `u` itself, its ASCII lower case, and
    for S and I the long s and the dotless i.
   */
  predicate CaseVariant(c: char, u: char) {
    || c == u
    || ('A' <= u <= 'Z' && c == (u as int + 32) as char)
    || (u == 'S' && c == 'ſ')
    || (u == 'I' && c == 'ı')
  }

  /** For every ASCII rune `u` that is not a lower-case letter, the runes that upper-case to `u` are its case variants. */
  lemma UpperRuneVariants(c: char, u: char)
    requires u as int < 128 && !('a' <= u <= 'z')
    ensures UpperRune(c) == u <==> CaseVariant(c, u)
  {
  }

  /**
    A name upper-cases to the ASCII upper-case name `upper` exactly when
    each of its runes is a case variant of the rune at the same place.
   */
  lemma {:induction false} UpperNameVariants(name: string, upper: string)
    requires forall i :: 0 <= i < |upper| ==> upper[i] as int < 128 && !('a' <= upper[i] <= 'z')
    ensures ToUpper(name) == upper <==> |name| == |upper| && forall i :: 0 <= i < |name| ==> CaseVariant(name[i], upper[i])
  {
    if |name| == |upper| {
      forall i | 0 <= i < |name| ensures UpperRune(name[i]) == upper[i] <==> CaseVariant(name[i], upper[i]) {
        UpperRuneVariants(name[i], upper[i]);
      }
      if forall i :: 0 <= i < |name| ==> CaseVariant(name[i], upper[i]) {
        assert ToUpper(name) == upper;
      }
    }
  }

  /** Base64 is selected by exactly the spellings of BASE64 in any case, with the long s for S. */
  lemma Base64Spellings(cte: string)
    ensures EncodingOf(cte) == Base64 <==> |cte| == 6 && forall i :: 0 <= i < 6 ==> CaseVariant(cte[i], "BASE64"[i])
  {
    UpperNameVariants(cte, "BASE64");
  }

  /** Quoted-printable is selected by exactly the spellings of QUOTED-PRINTABLE in any case, with the dotless i for I. */
  lemma QuotedPrintableSpellings(cte: string)
    ensures EncodingOf(cte) == QuotedPrintable <==>
      |cte| == 16 && forall i :: 0 <= i < 16 ==> CaseVariant(cte[i], "QUOTED-PRINTABLE"[i])
  {
    UpperNameVariants(cte, "QUOTED-PRINTABLE");
  }

  // ---------------------------------------------------------------------
  // parseMsg

  /** Header fields by canonical name, each with its values in order. */
  type Header = map<string, seq<string>>

  /** textproto.MIMEHeader.Get: the first value of a field, "" when it is absent. */
  function HeaderGet(header: Header, name: string): (v: string)
    ensures (name !in header || header[name] == []) ==> v == ""
    ensures name in header && header[name] != [] ==> v == header[name][0]
  {
    if name in header && header[name] != [] then header[name][0] else ""
  }

  /** A message as mail.ReadMessage returns it: its header and the parts of its body. */
  datatype Message = Message(header: Header, body: seq<Event>)

  /** The results of parseMsg other than its error. */
  datatype Parsed = Parsed(subject: string, html: string, text: string, isMultipart: bool)

  /** The one failure of parseMsg: the top-level Content-Type does not parse. */
  datatype MsgError = BadContentType(contentType: string)

  datatype Result<+T> = Ok(value: T) | Err(error: MsgError)

  function ContentTypeOf(codecs: Codecs, msg: Message): (mt: MediaType) {
    codecs.parseMediaType(HeaderGet(msg.header, "Content-Type"))
  }

  /**
    parseMsg: decodes the Subject (ignoring any decoding error), fails on an
    unparsable Content-Type, returns empty bodies for a message that is not
    multipart, and otherwise walks the body's parts.
   */
  function ParseMsg(codecs: Codecs, msg: Message): (r: Result<Parsed>)
    ensures r.Err? <==> ContentTypeOf(codecs, msg).failed
    ensures r.Err? ==> r.error == BadContentType(HeaderGet(msg.header, "Content-Type"))
    ensures r.Ok? ==> r.value.subject == codecs.decodeHeader(HeaderGet(msg.header, "Subject")).value
    ensures r.Ok? ==> (r.value.isMultipart <==> HasPrefix(ContentTypeOf(codecs, msg).mediaType, "multipart/"))
    ensures r.Ok? && !r.value.isMultipart ==> r.value.html == "" && r.value.text == ""
    ensures r.Ok? && r.value.isMultipart ==> (r.value.html, r.value.text) == Extract(codecs, msg.body)
  {
    var subject := codecs.decodeHeader(HeaderGet(msg.header, "Subject")).value;
    var contentType := HeaderGet(msg.header, "Content-Type");
    var mt := codecs.parseMediaType(contentType);
    if mt.failed then Err(BadContentType(contentType))
    else if !HasPrefix(mt.mediaType, "multipart/") then Ok(Parsed(subject, "", "", false))
    else
      var (html, text) := Extract(codecs, msg.body);
      Ok(Parsed(subject, html, text, true))
  }

  /** No part of a message that is not multipart is looked at: its body does not matter. */
  lemma NonMultipartIgnoresBody(codecs: Codecs, m1: Message, m2: Message)
    requires m1.header == m2.header
    requires !HasPrefix(ContentTypeOf(codecs, m1).mediaType, "multipart/")
    ensures ParseMsg(codecs, m1) == ParseMsg(codecs, m2)
  {
  }

  /** Two sets of codecs that agree on everything the content decision uses. */
  ghost predicate SameDecoders(c1: Codecs, c2: Codecs) {
    && (forall s :: c1.parseMediaType(s) == c2.parseMediaType(s))
    && (forall s :: c1.base64(s) == c2.base64(s))
    && (forall s :: c1.quotedPrintable(s) == c2.quotedPrintable(s))
  }

  /** The walk depends on the codecs only through the media-type parser and the two body decoders. */
  lemma {:induction false} WalkSameDecoders(c1: Codecs, c2: Codecs, parts: seq<Event>, acc: Accum)
    requires SameDecoders(c1, c2)
    ensures Walk(c1, parts, acc) == Walk(c2, parts, acc)
    decreases parts
  {
    if parts != [] && parts[0].Part? {
      var e := parts[0];
      var mt := c1.parseMediaType(e.contentType);
      assert mt == c2.parseMediaType(e.contentType);
      if IsMultipart(mt) {
        WalkSameDecoders(c1, c2, e.children, Start);
      } else if e.raw.Some? {
        assert TransferDecode(c1, e.transferEncoding, e.raw.value) == TransferDecode(c2, e.transferEncoding, e.raw.value);
        WalkSameDecoders(c1, c2, parts[1..], Leaf(c1, mt.mediaType, e.transferEncoding, e.raw.value, acc));
      }
    }
  }

  /**
    Header decoding errors are discarded: two word decoders that return the
    same values, whatever errors they report, give the same outcome.
   */
  lemma HeaderDecodeErrorsIgnored(c1: Codecs, c2: Codecs, msg: Message)
    requires SameDecoders(c1, c2)
    requires forall s :: c1.decodeHeader(s).value == c2.decodeHeader(s).value
    ensures ParseMsg(c1, msg) == ParseMsg(c2, msg)
  {
    WalkSameDecoders(c1, c2, msg.body, Start);
  }
}
