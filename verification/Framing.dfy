/** The response encoder of the Tokio server, and a reader of the stream it produces that finds the end of each
    response as section 6.3 of RFC 9112 prescribes. */
module Framing {
  import opened Bytes

  datatype Header = Header(name: Text, value: Text)

  /** http::Response<String>; status is its displayed form, such as "200 OK". */
  datatype Response = Response(status: Text, headers: seq<Header>, body: Text)

  const CRLF: Text := [CR, LF]

  predicate OneLine(t: Text) {
    forall k | 0 <= k < |t| :: t[k] != CR && t[k] != LF
  }

  // ---------------------------------------------------------------- decimal numbers

  function Digit(d: nat): char
    requires d < 10
  {
    ('0' as int + d) as char
  }

  function Decimal(n: nat): (t: Text)
    ensures |t| > 0 && forall k | 0 <= k < |t| :: '0' <= t[k] <= '9'
  {
    if n < 10 then [Digit(n)] else Decimal(n / 10) + [Digit(n % 10)]
  }

  function ParseDecimal(t: Text): Option<nat> {
    if t == [] || !('0' <= t[|t| - 1] <= '9') then None
    else
      var d := t[|t| - 1] as int - '0' as int;
      if |t| == 1 then Some(d)
      else match ParseDecimal(t[..|t| - 1])
        case None => None
        case Some(n) => Some(10 * n + d)
  }

  lemma {:induction false} DecimalRoundTrip(n: nat)
    ensures ParseDecimal(Decimal(n)) == Some(n)
  {
    if n >= 10 {
      DecimalRoundTrip(n / 10);
      assert Decimal(n)[..|Decimal(n)| - 1] == Decimal(n / 10);
    }
  }

  // ---------------------------------------------------------------- the encoder

  function Line(h: Header): Text {
    h.name + ": " + h.value
  }

  /** The fields of the encoded response: three of the encoder's own, then those of the response in order. */
  function Fields(r: Response, date: Text): seq<Header> {
    [Header("Server", "tokio"), Header("Content-Length", Decimal(|r.body|)), Header("Date", date)] + r.headers
  }

  function Block(hs: seq<Header>): Text {
    if hs == [] then [] else Line(hs[0]) + CRLF + Block(hs[1..])
  }

  function Wire(r: Response, date: Text): Text {
    "HTTP/1.1 " + r.status + CRLF + Block(Fields(r, date)) + CRLF + r.body
  }

  function WireAll(rs: seq<Response>, dates: seq<Text>): Text
    requires |rs| == |dates|
  {
    if rs == [] then [] else Wire(rs[0], dates[0]) + WireAll(rs[1..], dates[1..])
  }

  /** bytes::BytesMut as the codec uses it. */
  class BytesMut {
    var data: Text

    constructor ()
      ensures data == []
    {
      data := [];
    }

    method Extend(t: Text)
      modifies this
      ensures data == old(data) + t
    {
      data := data + t;
    }

    method SplitTo(n: nat) returns (front: Text)
      requires n <= |data|
      modifies this
      ensures front == old(data)[..n] && data == old(data)[n..]
    {
      front, data := data[..n], data[n..];
    }
  }

  lemma {:induction false} BlockAppend(a: seq<Header>, h: Header)
    ensures Block(a + [h]) == Block(a) + Line(h) + CRLF
  {
    if a == [] {
      assert Block([h]) == Line(h) + CRLF + Block([]);
    } else {
      assert (a + [h])[1..] == a[1..] + [h];
      BlockAppend(a[1..], h);
    }
  }

  lemma LineAppended(before: Text, hs: seq<Header>, h: Header)
    ensures before + Block(hs) + h.name + ": " + h.value + "\r\n" == before + Block(hs + [h])
  {
    BlockAppend(hs, h);
    assert CRLF == "\r\n";
  }

  /** Encoder::encode appends the response to what the buffer already holds. */
  method Encode(item: Response, dst: BytesMut, date: Text)
    modifies dst
    ensures dst.data == old(dst.data) + Wire(item, date)
  {
    hide Block, Decimal;
    ghost var before, own := dst.data, Fields(item, date)[..3];
    dst.Extend("HTTP/1.1 " + item.status + "\r\n" + "Server: tokio\r\n"
               + "Content-Length: " + Decimal(|item.body|) + "\r\n" + "Date: " + date + "\r\n");
    OwnBlock(item, date);
    ghost var start := before + ("HTTP/1.1 " + item.status + CRLF);
    assert own + item.headers[..0] == own;
    for i := 0 to |item.headers|
      invariant dst.data == start + Block(own + item.headers[..i])
    {
      var h := item.headers[i];
      dst.Extend(h.name);
      dst.Extend(": ");
      dst.Extend(h.value);
      dst.Extend("\r\n");
      LineAppended(start, own + item.headers[..i], h);
      assert own + item.headers[..i] + [h] == own + item.headers[..i + 1];
    }
    dst.Extend("\r\n");
    dst.Extend(item.body);
    assert own + item.headers[..|item.headers|] == Fields(item, date);
  }

  lemma OwnBlock(item: Response, date: Text)
    ensures "HTTP/1.1 " + item.status + CRLF + Block(Fields(item, date)[..3])
            == "HTTP/1.1 " + item.status + "\r\n" + "Server: tokio\r\n"
               + "Content-Length: " + Decimal(|item.body|) + "\r\n" + "Date: " + date + "\r\n"
  {
    hide Block, Decimal;
    var own := Fields(item, date)[..3];
    BlockOfThree(own[0], own[1], own[2]);
    assert own == [own[0], own[1], own[2]];
    assert Line(own[0]) == "Server: tokio";
    assert Line(own[1]) == "Content-Length: " + Decimal(|item.body|);
    assert Line(own[2]) == "Date: " + date;
    Regroup("HTTP/1.1 " + item.status, Line(own[0]), "Content-Length: ", Decimal(|item.body|), "Date: ", date);
  }

  lemma BlockOfThree(a: Header, b: Header, c: Header)
    ensures Block([a, b, c]) == Line(a) + CRLF + Line(b) + CRLF + Line(c) + CRLF
  {
    hide Line, Block;
    BlockAppend([], a);
    BlockAppend([a], b);
    BlockAppend([a, b], c);
    assert [] + [a] == [a] && [a] + [b] == [a, b] && [a, b] + [c] == [a, b, c];
    assert Block([]) == [] by { EmptyBlock(); }
  }

  lemma EmptyBlock()
    ensures Block([]) == []
  {
  }

  lemma Regroup(start: Text, a: Text, b: Text, c: Text, d: Text, e: Text)
    ensures start + CRLF + (a + CRLF + (b + c) + CRLF + (d + e) + CRLF)
            == start + CRLF + (a + CRLF) + b + c + CRLF + d + e + CRLF
  {
  }

  // ---------------------------------------------------------------- the reader

  datatype Message = Message(statusLine: Text, fields: seq<Header>, body: Text)

  function TrimLeft(t: Text): (r: Text)
    ensures r == [] || !Ows(r[0])
  {
    if t != [] && Ows(t[0]) then TrimLeft(t[1..]) else t
  }

  function TrimRight(t: Text): (r: Text)
    ensures r <= t && (r == [] || !Ows(r[|r| - 1]))
  {
    if t != [] && Ows(t[|t| - 1]) then TrimRight(t[..|t| - 1]) else t
  }

  /** Without the white space at both ends. */
  function Trim(t: Text): (r: Text)
    ensures r == [] || (!Ows(r[0]) && !Ows(r[|r| - 1]))
  {
    TrimRight(TrimLeft(t))
  }

  function FindCrlf(t: Text): (r: Option<nat>)
    ensures r.Some? ==> r.value + 2 <= |t|
  {
    if |t| < 2 then None
    else if t[0] == CR && t[1] == LF then Some(0)
    else match FindCrlf(t[1..])
      case None => None
      case Some(i) => Some(i + 1)
  }

  /** The lines up to the first empty one, and what follows it. */
  function ReadLines(t: Text): Option<(seq<Text>, Text)>
    decreases |t|
  {
    match FindCrlf(t)
    case None => None
    case Some(i) =>
      if i == 0 then Some(([], t[2..]))
      else match ReadLines(t[i + 2..])
        case None => None
        case Some((lines, rest)) => Some(([t[..i]] + lines, rest))
  }

  function IndexOf(t: Text, c: char): (i: nat)
    ensures i <= |t| && (i < |t| ==> t[i] == c) && forall k | 0 <= k < i :: t[k] != c
  {
    if t == [] || t[0] == c then 0 else 1 + IndexOf(t[1..], c)
  }

  /** The field with the white space around its value removed. */
  function ReadField(line: Text): Option<Header> {
    var i := IndexOf(line, ':');
    if i < |line| then Some(Header(line[..i], Trim(line[i + 1..]))) else None
  }

  function ReadFields(lines: seq<Text>): Option<seq<Header>> {
    if lines == [] then Some([])
    else match (ReadField(lines[0]), ReadFields(lines[1..]))
      case (Some(h), Some(hs)) => Some([h] + hs)
      case _ => None
  }

  predicate Named(h: Header, name: Text) {
    SameFold(h.name, name)
  }

  predicate AnyNamed(hs: seq<Header>, name: Text) {
    exists k | 0 <= k < |hs| :: Named(hs[k], name)
  }

  /** The elements of a comma-separated list (section 5.6.1 of RFC 9110); empty ones are ignored. */
  function Elements(t: Text): seq<Text>
    decreases |t|
  {
    var i := IndexOf(t, ',');
    var e, rest := Trim(t[..i]), if i < |t| then Elements(t[i + 1..]) else [];
    if e == [] then rest else [e] + rest
  }

  /** The elements of all fields with this name, which form one list (section 5.3 of RFC 9110). */
  function Members(hs: seq<Header>, name: Text): seq<Text> {
    if hs == [] then [] else (if Named(hs[0], name) then Elements(hs[0].value) else []) + Members(hs[1..], name)
  }

  predicate AllLengths(lengths: seq<Text>, n: nat) {
    forall k | 0 <= k < |lengths| :: ParseDecimal(lengths[k]) == Some(n)
  }

  predicate EndsChunked(codings: seq<Text>) {
    codings != [] && SameFold(codings[|codings| - 1], "chunked")
  }

  /** Responses with these codes have no body whatever their fields say. */
  predicate Bodiless(statusLine: Text) {
    |statusLine| >= 12 && (statusLine[9] == '1' || statusLine[9..12] == "204" || statusLine[9..12] == "304")
  }

  /** How far the body extends: so many octets, to the end of its last chunk, or to the end of the stream; or the
      framing is broken. */
  datatype Extent = Octets(n: nat) | Chunks | ToClose | Unframed

  /** Section 6.3 of RFC 9112, for a response to a request that is neither HEAD nor CONNECT. */
  function BodyExtent(statusLine: Text, fields: seq<Header>): Extent {
    if Bodiless(statusLine) then Octets(0)
    else if AnyNamed(fields, "transfer-encoding") then
      if EndsChunked(Members(fields, "transfer-encoding")) then Chunks else ToClose
    else if !AnyNamed(fields, "content-length") then ToClose
    else ListedLength(Members(fields, "content-length"))
  }

  /** The length, which may be repeated but not contradicted. */
  function ListedLength(lengths: seq<Text>): Extent {
    if lengths == [] then Unframed
    else match ParseDecimal(lengths[0])
      case None => Unframed
      case Some(n) => if AllLengths(lengths, n) then Octets(n) else Unframed
  }

  /** A decoder for the chunked transfer coding: the body, and what follows it. All that matters here is that chunks
      take more octets than they carry. */
  type Dechunk = Text -> Option<(Text, Text)>

  ghost predicate HasOverhead(dechunk: Dechunk) {
    forall t :: dechunk(t).Some? ==> |dechunk(t).value.0| + |dechunk(t).value.1| < |t|
  }

  function ReadBody(extent: Extent, t: Text, dechunk: Dechunk): Option<(Text, Text)> {
    match extent
    case Octets(n) => if n <= |t| then Some((t[..n], t[n..])) else None
    case Chunks => dechunk(t)
    case ToClose => Some((t, []))
    case Unframed => None
  }

  /** One message from the front of a stream, and the rest of the stream. */
  function Read(t: Text, dechunk: Dechunk): Option<(Message, Text)> {
    match ReadLines(t)
    case None => None
    case Some((lines, rest)) =>
      if lines == [] then None
      else match ReadFields(lines[1..])
        case None => None
        case Some(fields) =>
          match ReadBody(BodyExtent(lines[0], fields), rest, dechunk)
          case None => None
          case Some((body, after)) => Some((Message(lines[0], fields, body), after))
  }

  function ReadAll(t: Text, dechunk: Dechunk): Option<seq<Message>>
    decreases |t|
  {
    if t == [] then Some([])
    else match Read(t, dechunk)
      case None => None
      case Some((m, rest)) =>
        if |rest| >= |t| then None
        else match ReadAll(rest, dechunk)
          case None => None
          case Some(ms) => Some([m] + ms)
  }

  // ---------------------------------------------------------------- the round trip

  /** What the http crate guarantees of a response: names are tokens, nothing holds a CR or an LF. */
  predicate Clean(r: Response, date: Text) {
    && OneLine(r.status) && OneLine(date)
    && forall k | 0 <= k < |r.headers| :: CleanHeader(r.headers[k])
  }

  predicate CleanHeader(h: Header) {
    OneLine(h.name) && OneLine(h.value) && ':' !in h.name
  }

  /** The fields as a reader sees them. */
  function Trimmed(hs: seq<Header>): (r: seq<Header>)
    ensures |r| == |hs| && forall k | 0 <= k < |hs| :: r[k] == Header(hs[k].name, Trim(hs[k].value))
  {
    seq(|hs|, k requires 0 <= k < |hs| => Header(hs[k].name, Trim(hs[k].value)))
  }

  function View(r: Response, date: Text): Message {
    Message("HTTP/1.1 " + r.status, Trimmed(Fields(r, date)), r.body)
  }

  /** The response leaves no doubt about its end: a status without a body comes without one, and its own fields bring
      neither a transfer coding nor another length. */
  predicate Delimited(r: Response) {
    if Bodiless("HTTP/1.1 " + r.status) then r.body == []
    else
      && !AnyNamed(Trimmed(r.headers), "transfer-encoding")
      && AllLengths(Members(Trimmed(r.headers), "content-length"), |r.body|)
  }

  /** The response brings a transfer coding under which it ends with the stream. */
  predicate EndsAtClose(r: Response) {
    && !Bodiless("HTTP/1.1 " + r.status)
    && AnyNamed(Trimmed(r.headers), "transfer-encoding")
    && !EndsChunked(Members(Trimmed(r.headers), "transfer-encoding"))
  }

  lemma {:induction false} FindAfterLine(line: Text, rest: Text)
    requires OneLine(line)
    ensures FindCrlf(line + CRLF + rest) == Some(|line|)
  {
    var t := line + CRLF + rest;
    if line != [] {
      assert t[1..] == line[1..] + CRLF + rest;
      assert t[0] == line[0];
      FindAfterLine(line[1..], rest);
    }
  }

  lemma ReadOneLine(line: Text, rest: Text)
    requires OneLine(line) && line != [] && ReadLines(rest).Some?
    ensures var (lines, after) := ReadLines(rest).value; ReadLines(line + CRLF + rest) == Some(([line] + lines, after))
  {
    FindAfterLine(line, rest);
    var t := line + CRLF + rest;
    assert t[..|line|] == line && t[|line| + 2..] == rest;
  }

  function Lines(hs: seq<Header>): seq<Text> {
    if hs == [] then [] else [Line(hs[0])] + Lines(hs[1..])
  }

  lemma ReadBlankLine(rest: Text)
    ensures ReadLines(CRLF + rest) == Some(([], rest))
  {
    FindAfterLine([], rest);
    assert [] + CRLF + rest == CRLF + rest && (CRLF + rest)[2..] == rest;
  }

  lemma CleanLine(h: Header)
    requires CleanHeader(h)
    ensures OneLine(Line(h)) && Line(h) != []
  {
  }

  lemma {:induction false} ReadBlock(hs: seq<Header>, rest: Text)
    requires forall k | 0 <= k < |hs| :: CleanHeader(hs[k])
    ensures ReadLines(Block(hs) + CRLF + rest) == Some((Lines(hs), rest))
  {
    hide ReadLines, Line, CleanHeader, OneLine;
    if hs == [] {
      ReadBlankLine(rest);
      assert Block(hs) + CRLF + rest == CRLF + rest;
    } else {
      ReadBlock(hs[1..], rest);
      CleanLine(hs[0]);
      ReadOneLine(Line(hs[0]), Block(hs[1..]) + CRLF + rest);
      assert Block(hs) + CRLF + rest == Line(hs[0]) + CRLF + (Block(hs[1..]) + CRLF + rest);
    }
  }

  lemma {:induction false} ReadBackFields(hs: seq<Header>)
    requires forall k | 0 <= k < |hs| :: CleanHeader(hs[k])
    ensures ReadFields(Lines(hs)) == Some(Trimmed(hs))
  {
    hide Line, CleanHeader, ReadField, Trim;
    if hs != [] {
      ReadBackFields(hs[1..]);
      FieldRoundTrip(hs[0]);
      assert Lines(hs)[1..] == Lines(hs[1..]);
      assert [Header(hs[0].name, Trim(hs[0].value))] + Trimmed(hs[1..]) == Trimmed(hs);
    }
  }

  lemma ColonOf(h: Header)
    requires CleanHeader(h)
    ensures IndexOf(Line(h), ':') == |h.name| < |Line(h)|
    ensures Line(h)[..|h.name|] == h.name && Line(h)[|h.name| + 1..] == " " + h.value
  {
    var line := Line(h);
    assert line[|h.name|] == ':' && forall k | 0 <= k < |h.name| :: line[k] == h.name[k] != ':';
  }

  lemma FieldRoundTrip(h: Header)
    requires CleanHeader(h)
    ensures ReadField(Line(h)) == Some(Header(h.name, Trim(h.value)))
  {
    hide Line;
    ColonOf(h);
    assert (" " + h.value)[1..] == h.value;
  }

  predicate Digits(t: Text) {
    t != [] && forall k | 0 <= k < |t| :: '0' <= t[k] <= '9'
  }

  lemma DigitsStay(t: Text)
    requires Digits(t)
    ensures Trim(t) == t && Elements(t) == [t]
  {
    assert t[..|t|] == t;
    assert TrimLeft(t) == t && TrimRight(t) == t;
    assert IndexOf(t, ',') == |t|;
  }

  lemma OwnNames(r: Response, date: Text)
    ensures var hs := Fields(r, date);
            && !Named(hs[0], "content-length") && !Named(hs[0], "transfer-encoding")
            && Named(hs[1], "content-length") && !Named(hs[1], "transfer-encoding")
            && !Named(hs[2], "content-length") && !Named(hs[2], "transfer-encoding")
  {
    hide Decimal;
  }

  /** The three fields of the encoder's own add one element to the list of lengths and none to the list of codings. */
  lemma EncodedMembers(r: Response, date: Text)
    ensures var hs, own := Trimmed(Fields(r, date)), Trimmed(r.headers);
            && Members(hs, "content-length") == [Decimal(|r.body|)] + Members(own, "content-length")
            && Members(hs, "transfer-encoding") == Members(own, "transfer-encoding")
            && AnyNamed(hs, "content-length")
            && (AnyNamed(hs, "transfer-encoding") <==> AnyNamed(own, "transfer-encoding"))
  {
    hide Named, Decimal, Elements, Trim, Digits;
    OwnNames(r, date);
    assert Digits(Decimal(|r.body|)) by { DecimalDigits(|r.body|); }
    DigitsStay(Decimal(|r.body|));
    var fs, hs, own := Fields(r, date), Trimmed(Fields(r, date)), Trimmed(r.headers);
    assert hs == [hs[0], hs[1], hs[2]] + own;
    assert hs[1].value == Decimal(|r.body|) by { assert fs[1] == Header("Content-Length", Decimal(|r.body|)); }
    NamesStay(fs, hs);
    ThreeMembers(hs[0], hs[1], hs[2], own, "content-length");
    ThreeMembers(hs[0], hs[1], hs[2], own, "transfer-encoding");
  }

  lemma DecimalDigits(n: nat)
    ensures Digits(Decimal(n))
  {
  }

  lemma NamesStay(fs: seq<Header>, hs: seq<Header>)
    requires |fs| == |hs| && forall k | 0 <= k < |fs| :: hs[k].name == fs[k].name
    ensures forall k, name | 0 <= k < |fs| :: Named(hs[k], name) <==> Named(fs[k], name)
  {
  }

  lemma MembersFirst(h: Header, hs: seq<Header>, name: Text)
    ensures Members([h] + hs, name)
         == if Named(h, name) then Elements(h.value) + Members(hs, name) else Members(hs, name)
  {
    assert ([h] + hs)[1..] == hs;
  }

  lemma AnyNamedFirst(h: Header, hs: seq<Header>, name: Text)
    ensures AnyNamed([h] + hs, name) <==> Named(h, name) || AnyNamed(hs, name)
  {
    hide Named;
    assert ([h] + hs)[0] == h;
    forall k | 0 <= k < |hs| ensures ([h] + hs)[k + 1] == hs[k] {
    }
    assert forall k | 0 <= k < |hs| && Named(hs[k], name) :: Named(([h] + hs)[k + 1], name);
  }

  lemma ThreeMembers(a: Header, b: Header, c: Header, hs: seq<Header>, name: Text)
    requires !Named(a, name) && !Named(c, name)
    ensures var all := [a, b, c] + hs;
            && Members(all, name) == (if Named(b, name) then Elements(b.value) else []) + Members(hs, name)
            && (AnyNamed(all, name) <==> Named(b, name) || AnyNamed(hs, name))
  {
    hide Named, AnyNamed, Members, Elements;
    var two, three := [b] + ([c] + hs), [a] + ([b] + ([c] + hs));
    assert three == [a, b, c] + hs;
    MembersFirst(c, hs, name);
    MembersFirst(b, [c] + hs, name);
    MembersFirst(a, two, name);
    AnyNamedFirst(c, hs, name);
    AnyNamedFirst(b, [c] + hs, name);
    AnyNamedFirst(a, two, name);
    assert [] + Members(hs, name) == Members(hs, name);
  }

  lemma ReadHead(r: Response, date: Text, rest: Text)
    requires Clean(r, date)
    ensures ReadLines(Wire(r, date) + rest) == Some((["HTTP/1.1 " + r.status] + Lines(Fields(r, date)), r.body + rest))
    ensures ReadFields(Lines(Fields(r, date))) == Some(Trimmed(Fields(r, date)))
  {
    hide Decimal, Block, Lines, ReadLines, ReadFields, Trim, Digits;
    var fields, statusLine := Fields(r, date), "HTTP/1.1 " + r.status;
    CleanFields(r, date);
    ReadBlock(fields, r.body + rest);
    ReadOneLine(statusLine, Block(fields) + CRLF + (r.body + rest));
    assert Wire(r, date) + rest == statusLine + CRLF + (Block(fields) + CRLF + (r.body + rest));
    ReadBackFields(fields);
  }

  lemma CleanFields(r: Response, date: Text)
    requires Clean(r, date)
    ensures forall k | 0 <= k < |Fields(r, date)| :: CleanHeader(Fields(r, date)[k])
  {
    assert OneLine(Decimal(|r.body|));
  }

  /** What a reader makes of the fields of an encoded response. */
  lemma EncodedExtent(r: Response, date: Text)
    ensures BodyExtent("HTTP/1.1 " + r.status, Trimmed(Fields(r, date)))
         == if Bodiless("HTTP/1.1 " + r.status) then Octets(0)
            else if Delimited(r) then Octets(|r.body|)
            else if EndsAtClose(r) then ToClose
            else if AnyNamed(Trimmed(r.headers), "transfer-encoding") then Chunks
            else Unframed
  {
    hide Fields, AnyNamed, Members, Decimal, ParseDecimal, Bodiless, EndsChunked;
    EncodedMembers(r, date);
    DecimalRoundTrip(|r.body|);
    var own := Members(Trimmed(r.headers), "content-length");
    var lengths := [Decimal(|r.body|)] + own;
    assert forall k | 0 <= k < |own| :: own[k] == lengths[k + 1];
    assert AllLengths(lengths, |r.body|) <==> AllLengths(own, |r.body|);
  }

  /** A body in chunks is never read back as it was put in. */
  lemma BodyRoundTrip(extent: Extent, body: Text, rest: Text, dechunk: Dechunk)
    requires HasOverhead(dechunk)
    ensures ReadBody(extent, body + rest, dechunk) == Some((body, rest))
       <==> extent == Octets(|body|) || (extent == ToClose && rest == [])
  {
    var t := body + rest;
    match extent
    case Octets(n) =>
      if n == |body| { assert t[..n] == body && t[n..] == rest; }
      if n <= |t| && n != |body| { assert |t[..n]| != |body|; }
    case Chunks => assert dechunk(t).Some? ==> |dechunk(t).value.0| + |dechunk(t).value.1| < |t|;
    case ToClose => if rest == [] { assert t == body; } else { assert |t| != |body|; }
    case Unframed =>
  }

  /** A reader gets back exactly the encoded response, and stops exactly at its end, if and only if the response is
      delimited, whatever follows in the stream, or ends with the stream and nothing follows. */
  lemma ResponseRoundTrip(r: Response, date: Text, rest: Text, dechunk: Dechunk)
    requires Clean(r, date) && HasOverhead(dechunk)
    ensures Read(Wire(r, date) + rest, dechunk) == Some((View(r, date), rest))
       <==> Delimited(r) || (EndsAtClose(r) && rest == [])
  {
    hide Wire, Fields, Lines, ReadLines, ReadFields, BodyExtent, ReadBody, Bodiless, AllLengths, AnyNamed, Members,
         Clean, HasOverhead, EndsChunked;
    ReadHead(r, date, rest);
    EncodedExtent(r, date);
    var statusLine, lines := "HTTP/1.1 " + r.status, Lines(Fields(r, date));
    BodyRoundTrip(BodyExtent(statusLine, Trimmed(Fields(r, date))), r.body, rest, dechunk);
    assert ([statusLine] + lines)[1..] == lines;
  }

  function Views(rs: seq<Response>, dates: seq<Text>): (r: seq<Message>)
    requires |rs| == |dates|
    ensures |r| == |rs| && forall k | 0 <= k < |rs| :: r[k] == View(rs[k], dates[k])
  {
    if rs == [] then [] else [View(rs[0], dates[0])] + Views(rs[1..], dates[1..])
  }

  /** The concatenated outputs of the encoder split back into exactly the responses that were sent, in order. Only the
      last one may be of the kind that ends with the stream. */
  lemma {:induction false} StreamRoundTrip(rs: seq<Response>, dates: seq<Text>, dechunk: Dechunk)
    requires |rs| == |dates| && HasOverhead(dechunk)
    requires forall k | 0 <= k < |rs| ::
               Clean(rs[k], dates[k]) && (Delimited(rs[k]) || (EndsAtClose(rs[k]) && k == |rs| - 1))
    ensures ReadAll(WireAll(rs, dates), dechunk) == Some(Views(rs, dates))
  {
    hide Read, Wire, Clean, Delimited, EndsAtClose, View, HasOverhead;
    if rs != [] {
      StreamRoundTrip(rs[1..], dates[1..], dechunk);
      ResponseRoundTrip(rs[0], dates[0], WireAll(rs[1..], dates[1..]), dechunk);
      WireIsLong(rs[0], dates[0]);
    }
  }

  lemma WireIsLong(r: Response, date: Text)
    ensures |Wire(r, date)| > 9
  {
  }

  /** The response to every request. */
  const HELLO: Response := Response("200 OK", [Header("content-type", "text/plain")], "Hello, World!\n")

  lemma ServerResponseIsDelimited(date: Text)
    requires OneLine(date)
    ensures Delimited(HELLO) && Clean(HELLO, date)
  {
    hide Named, CleanHeader, Bodiless, Trim;
    HelloHeader();
    HelloStatus();
    var own := Trimmed(HELLO.headers);
    NamesStay(HELLO.headers, own);
    assert own[1..] == [];
    assert Members(own, "content-length") == [];
  }

  /** The octets of that response. */
  lemma ServerResponseOctets(date: Text)
    ensures Wire(HELLO, date)
         == "HTTP/1.1 " + "200 OK" + CRLF
            + ("Server: tokio" + CRLF + "Content-Length: 14" + CRLF + ("Date: " + date) + CRLF
               + "content-type: text/plain" + CRLF)
            + CRLF + "Hello, World!\n"
  {
    hide Block, Line, Fields, CRLF;
    HelloFields(date);
    HelloLines(date);
    var fs := Fields(HELLO, date);
    BlockAppend([fs[0], fs[1], fs[2]], fs[3]);
    BlockOfThree(fs[0], fs[1], fs[2]);
    assert fs == [fs[0], fs[1], fs[2]] + [fs[3]];
  }

  lemma HelloFields(date: Text)
    ensures Fields(HELLO, date) == [Header("Server", "tokio"), Header("Content-Length", "14"), Header("Date", date),
                                    Header("content-type", "text/plain")]
  {
    assert |HELLO.body| == 14 && Decimal(1) == "1" && Decimal(14) == Decimal(1) + [Digit(4)] && Digit(4) == '4';
    assert Decimal(14) == "14";
  }

  lemma HelloLines(date: Text)
    ensures Line(Header("Server", "tokio")) == "Server: tokio"
    ensures Line(Header("Content-Length", "14")) == "Content-Length: 14"
    ensures Line(Header("Date", date)) == "Date: " + date
    ensures Line(Header("content-type", "text/plain")) == "content-type: text/plain"
  {
  }

  lemma HelloHeader()
    ensures !Named(HELLO.headers[0], "transfer-encoding") && !Named(HELLO.headers[0], "content-length")
    ensures CleanHeader(HELLO.headers[0]) && OneLine(HELLO.status)
  {
    assert |HELLO.headers[0].name| == 12;
  }

  lemma HelloStatus()
    ensures !Bodiless("HTTP/1.1 " + HELLO.status)
  {
    var line := "HTTP/1.1 " + HELLO.status;
    assert line[9] == '2' && line[11] == '0';
    assert line[9..12][0] == '2' && line[9..12][2] == '0';
  }

  lemma {:induction false} WireAllAppend(rs: seq<Response>, dates: seq<Text>, r: Response, date: Text)
    requires |rs| == |dates|
    ensures WireAll(rs + [r], dates + [date]) == WireAll(rs, dates) + Wire(r, date)
  {
    hide Wire;
    if rs == [] {
      assert WireAll([r], [date]) == Wire(r, date) + WireAll([], []);
    } else {
      assert (rs + [r])[1..] == rs[1..] + [r] && (dates + [date])[1..] == dates[1..] + [date];
      WireAllAppend(rs[1..], dates[1..], r, date);
    }
  }

  /** A response may say its length again, as a list of equal values. */
  lemma RepeatedLengthIsDelimited()
    ensures Delimited(HELLO.(headers := [Header("Content-Length", "14, 14")]))
  {
    hide Bodiless, Named, Members, Elements, Trim, ParseDecimal, AnyNamed;
    HelloStatus();
    TwiceFourteen();
    LengthNames();
    Fourteen();
    var own := Trimmed([Header("Content-Length", "14, 14")]);
    assert own == [Header("Content-Length", "14, 14")] + [];
    MembersFirst(own[0], [], "content-length");
    AnyNamedFirst(own[0], [], "transfer-encoding");
    NoFields();
    assert ["14", "14"] + [] == ["14", "14"];
  }

  /** Another length leaves the reader without one. */
  lemma OtherLengthIsNotDelimited(date: Text, rest: Text, dechunk: Dechunk)
    requires OneLine(date) && HasOverhead(dechunk)
    ensures var r := HELLO.(headers := [Header("Content-Length", "5")]);
            Clean(r, date) && Read(Wire(r, date) + rest, dechunk) != Some((View(r, date), rest))
  {
    var r := HELLO.(headers := [Header("Content-Length", "5")]);
    FiveIsOther(r);
    assert Clean(r, date);
    hide Clean, Wire, View, Read, HasOverhead, Delimited, EndsAtClose;
    ResponseRoundTrip(r, date, rest, dechunk);
  }

  lemma FiveIsOther(r: Response)
    requires r == HELLO.(headers := [Header("Content-Length", "5")])
    ensures !Delimited(r) && !EndsAtClose(r) && OneLine(r.status) && CleanHeader(r.headers[0])
  {
    hide Bodiless, Members, AnyNamed, ParseDecimal, Trimmed, AllLengths;
    HelloStatus();
    FiveIsFive();
    FiveIsRead();
    assert !AllLengths(["5"], 14) by { NotFourteen(); }
  }

  lemma NotFourteen()
    ensures !AllLengths(["5"], 14)
  {
    FiveIsFive();
    assert ParseDecimal(["5"][0]) != Some(14);
  }

  lemma FiveIsRead()
    ensures var own := Trimmed([Header("Content-Length", "5")]);
            Members(own, "content-length") == ["5"] && !AnyNamed(own, "transfer-encoding")
  {
    hide Members, Elements, Trim, AnyNamed, Digits, Named;
    FiveNames();
    FiveIsFive();
    DigitsStay("5");
    var own := Trimmed([Header("Content-Length", "5")]);
    assert own == [Header("Content-Length", "5")] + [];
    MembersFirst(own[0], [], "content-length");
    AnyNamedFirst(own[0], [], "transfer-encoding");
    NoFields();
    assert ["5"] + [] == ["5"];
  }

  lemma FiveIsFive()
    ensures Digits("5") && ParseDecimal("5") == Some(5) && |HELLO.body| == 14
  {
    assert Decimal(5) == "5";
    DecimalRoundTrip(5);
  }

  lemma FiveNames()
    ensures Named(Header("Content-Length", "5"), "content-length")
    ensures !Named(Header("Content-Length", "5"), "transfer-encoding")
  {
    assert |"Content-Length"| != |"transfer-encoding"|;
  }

  lemma LengthNames()
    ensures Named(Header("Content-Length", "14, 14"), "content-length")
    ensures !Named(Header("Content-Length", "14, 14"), "transfer-encoding")
  {
    assert |"Content-Length"| != |"transfer-encoding"|;
  }

  lemma NoFields()
    ensures Members([], "content-length") == [] && !AnyNamed([], "transfer-encoding")
  {
  }

  lemma Fourteen()
    ensures ParseDecimal("14") == Some(|HELLO.body|)
  {
    assert Decimal(14) == "14";
    DecimalRoundTrip(14);
  }

  lemma TwiceFourteen()
    ensures Trim("14, 14") == "14, 14" && Elements("14, 14") == ["14", "14"]
  {
    hide TrimLeft, TrimRight, Trim;
    var t := "14, 14";
    NoOuterSpace(t);
    assert IndexOf(t, ',') == 2 && t[..2] == "14" && t[3..] == " 14";
    DigitsStay("14");
    SecondFourteen();
  }

  lemma NoOuterSpace(t: Text)
    requires t != [] && !Ows(t[0]) && !Ows(t[|t| - 1])
    ensures Trim(t) == t
  {
  }

  lemma SecondFourteen()
    ensures Elements(" 14") == ["14"]
  {
    var t := " 14";
    assert IndexOf(t, ',') == 3 && t[..3] == t && t[1..] == "14";
    NoOuterSpace("14");
    assert TrimLeft(t) == TrimLeft("14");
  }

  lemma LineDeterminesField(h: Header, g: Header)
    requires CleanHeader(h) && CleanHeader(g) && Line(h) == Line(g)
    ensures h == g
  {
    hide Line;
    ColonOf(h);
    ColonOf(g);
    assert h.value == (" " + h.value)[1..] && g.value == (" " + g.value)[1..];
  }

  lemma {:induction false} LinesDetermineFields(hs: seq<Header>, gs: seq<Header>)
    requires (forall k | 0 <= k < |hs| :: CleanHeader(hs[k])) && (forall k | 0 <= k < |gs| :: CleanHeader(gs[k]))
    requires Lines(hs) == Lines(gs)
    ensures hs == gs
  {
    hide Line, CleanHeader;
    if hs != [] {
      assert Lines(hs)[0] == Line(hs[0]) && Lines(gs)[0] == Line(gs[0]);
      assert Lines(hs)[1..] == Lines(hs[1..]) && Lines(gs)[1..] == Lines(gs[1..]);
      LineDeterminesField(hs[0], gs[0]);
      LinesDetermineFields(hs[1..], gs[1..]);
      assert hs == [hs[0]] + hs[1..] && gs == [gs[0]] + gs[1..];
    }
  }

  /** Different responses, or different dates, have different wire forms. */
  lemma WireDeterminesResponse(r: Response, date: Text, s: Response, other: Text)
    requires Clean(r, date) && Clean(s, other) && Wire(r, date) == Wire(s, other)
    ensures r == s && date == other
  {
    hide Wire, Lines, ReadLines, ReadFields, Decimal, CleanHeader;
    ReadHead(r, date, []);
    ReadHead(s, other, []);
    CleanFields(r, date);
    CleanFields(s, other);
    var a, b := "HTTP/1.1 " + r.status, "HTTP/1.1 " + s.status;
    var fs, gs := Fields(r, date), Fields(s, other);
    assert r.body + [] == r.body && s.body + [] == s.body;
    assert ([a] + Lines(fs))[0] == a && ([b] + Lines(gs))[0] == b;
    assert ([a] + Lines(fs))[1..] == Lines(fs) && ([b] + Lines(gs))[1..] == Lines(gs);
    LinesDetermineFields(fs, gs);
    assert r.status == a[9..] && s.status == b[9..];
    assert r.headers == fs[3..] && s.headers == gs[3..] && fs[2] == gs[2];
  }
}
