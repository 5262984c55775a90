/** The request decoder of the Tokio server and the loop that feeds it from a socket. httparse and the http crate are
    parameters: all that is known of the parser is that more input does not change a verdict it has reached, and that
    what it points at lies inside the head it has consumed. */
module Decode {
  import opened Bytes
  import opened Framing

  datatype Range = Range(start: nat, end: nat)
  datatype Field = Field(name: Range, value: Range)

  /** httparse's answer: more input needed, an error, or a complete head of `amt` octets. */
  datatype Parsed =
    | Partial
    | Invalid
    | Complete(amt: nat, verb: Text, path: Range, version: nat, fields: seq<Field>)

  datatype Request = Request(verb: Text, uri: Text, headers: seq<Header>)

  /** The libraries: the parser, and what http::Method, HeaderValue and the request builder accept. */
  datatype Library = Library(
    parse: Text -> Parsed,
    knownVerb: Text -> bool,
    goodValue: Text -> bool,
    buildable: Request -> bool)

  datatype Fault = BadHead | BadVerb | BadVersion | BadValue | BadRequest | Leftover

  datatype Decoded = Incomplete | Failed(fault: Fault) | Yielded(request: Request)

  predicate Inside(r: Range, amt: nat) {
    r.start <= r.end <= amt && r.start < amt
  }

  /** A complete head is part of the input and everything found in it lies before its end; at most 16 fields. */
  predicate Located(p: Parsed, length: nat) {
    p.Complete? ==>
      && 0 < p.amt <= length
      && Inside(p.path, p.amt)
      && |p.fields| <= 16
      && forall k | 0 <= k < |p.fields| :: Inside(p.fields[k].name, p.amt) && Inside(p.fields[k].value, p.amt)
  }

  ghost predicate Stable(lib: Library) {
    && lib.parse([]) == Partial
    && (forall s :: Located(lib.parse(s), |s|))
    && (forall s, t :: lib.parse(s) != Partial ==> lib.parse(s + t) == lib.parse(s))
  }

  function Slice(data: Text, r: Range): Text
    requires Inside(r, |data|)
  {
    data[r.start..r.end]
  }

  /** The fields as pairs of texts. */
  function Headers(data: Text, fields: seq<Field>): (hs: seq<Header>)
    requires forall k | 0 <= k < |fields| :: Inside(fields[k].name, |data|) && Inside(fields[k].value, |data|)
    ensures |hs| == |fields|
    ensures forall k | 0 <= k < |hs| :: hs[k] == Header(Slice(data, fields[k].name), Slice(data, fields[k].value))
  {
    seq(|fields|, k requires 0 <= k < |fields| => Header(Slice(data, fields[k].name), Slice(data, fields[k].value)))
  }

  predicate GoodValues(lib: Library, hs: seq<Header>) {
    forall k | 0 <= k < |hs| :: lib.goodValue(hs[k].value)
  }

  function Extract(p: Parsed, data: Text): Request
    requires p.Complete? && p.amt == |data| && Located(p, p.amt)
  {
    Request(p.verb, Slice(data, p.path), Headers(data, p.fields))
  }

  /** What a complete head stands for. */
  function Judge(lib: Library, p: Parsed, data: Text): (d: Decoded)
    requires p.Complete? && p.amt == |data| && Located(p, p.amt)
    ensures d != Incomplete
  {
    if !lib.knownVerb(p.verb) then Failed(BadVerb)
    else if p.version != 1 then Failed(BadVersion)
    else if !GoodValues(lib, Headers(data, p.fields)) then Failed(BadValue)
    else if !lib.buildable(Extract(p, data)) then Failed(BadRequest)
    else Yielded(Extract(p, data))
  }

  /** The decoder's verdict on a buffer. */
  function Verdict(lib: Library, src: Text): Decoded
    requires Located(lib.parse(src), |src|)
  {
    match lib.parse(src)
    case Partial => Incomplete
    case Invalid => Failed(BadHead)
    case Complete(amt, _, _, _, _) => Judge(lib, lib.parse(src), src[..amt])
  }

  /** How much of the buffer the decoder takes: nothing unless it has got as far as splitting off a head. */
  function Taken(lib: Library, src: Text): (n: nat)
    requires Located(lib.parse(src), |src|)
    ensures n <= |src|
  {
    match Verdict(lib, src)
    case Incomplete => 0
    case Yielded(_) => lib.parse(src).amt
    case Failed(f) => if f == BadValue || f == BadRequest then lib.parse(src).amt else 0
  }

  // ---------------------------------------------------------------- what a verdict means

  /** The request is made of pieces of the buffer: the parser's ranges, in their order. */
  ghost predicate MadeOf(r: Request, src: Text, p: Parsed)
    requires p.Complete? && Located(p, |src|)
  {
    && r.verb == p.verb
    && r.uri == src[p.path.start..p.path.end]
    && |r.headers| == |p.fields|
    && forall k | 0 <= k < |p.fields| ::
         && r.headers[k].name == src[p.fields[k].name.start..p.fields[k].name.end]
         && r.headers[k].value == src[p.fields[k].value.start..p.fields[k].value.end]
  }

  ghost predicate AllValuesGood(lib: Library, src: Text, p: Parsed)
    requires p.Complete? && Located(p, |src|)
  {
    forall k | 0 <= k < |p.fields| :: lib.goodValue(src[p.fields[k].value.start..p.fields[k].value.end])
  }

  /** The answer to a complete head: a request if and only if the method is known, the version is HTTP/1.1, every
      value is good and the request made of the pieces can be built; otherwise the first of these that fails. */
  ghost predicate Accepts(lib: Library, src: Text, p: Parsed, d: Decoded)
    requires p.Complete? && Located(p, |src|)
  {
    var good := AllValuesGood(lib, src, p);
    && (d == Failed(BadVerb) <==> !lib.knownVerb(p.verb))
    && (d == Failed(BadVersion) <==> lib.knownVerb(p.verb) && p.version != 1)
    && (d == Failed(BadValue) <==> lib.knownVerb(p.verb) && p.version == 1 && !good)
    && (d == Failed(BadRequest) <==>
          lib.knownVerb(p.verb) && p.version == 1 && good && exists r :: MadeOf(r, src, p) && !lib.buildable(r))
    && (forall r :: d == Yielded(r) <==>
          lib.knownVerb(p.verb) && p.version == 1 && good && MadeOf(r, src, p) && lib.buildable(r))
  }

  /** The decoder's answer and how much it takes, by the parser's result alone. */
  ghost predicate Answers(lib: Library, src: Text, d: Decoded, n: int)
    requires Located(lib.parse(src), |src|)
  {
    var p := lib.parse(src);
    && (d == Incomplete <==> p.Partial?)
    && (d == Failed(BadHead) <==> p.Invalid?)
    && (p.Complete? ==> Accepts(lib, src, p, d))
    && n == if p.Complete? && lib.knownVerb(p.verb) && p.version == 1 then p.amt else 0
  }

  lemma ExtractIsMadeOf(p: Parsed, src: Text)
    requires p.Complete? && Located(p, |src|)
    ensures Located(p, p.amt)
    ensures forall r :: MadeOf(r, src, p) <==> r == Extract(p, src[..p.amt])
  {
    var made := Extract(p, src[..p.amt]);
    assert made.uri == src[p.path.start..p.path.end];
    forall k | 0 <= k < |p.fields|
      ensures made.headers[k].name == src[p.fields[k].name.start..p.fields[k].name.end]
      ensures made.headers[k].value == src[p.fields[k].value.start..p.fields[k].value.end]
    {
      assert Inside(p.fields[k].name, p.amt) && Inside(p.fields[k].value, p.amt);
    }
    forall r | MadeOf(r, src, p) ensures r == made {
      assert r.headers == made.headers;
    }
  }

  lemma GoodValuesOfHead(lib: Library, p: Parsed, src: Text)
    requires p.Complete? && Located(p, |src|)
    ensures GoodValues(lib, Headers(src[..p.amt], p.fields)) <==> AllValuesGood(lib, src, p)
  {
    ExtractIsMadeOf(p, src);
    var made := Extract(p, src[..p.amt]);
    assert MadeOf(made, src, p);
    assert made.headers == Headers(src[..p.amt], p.fields);
    if AllValuesGood(lib, src, p) {
      forall k | 0 <= k < |made.headers| ensures lib.goodValue(made.headers[k].value) {
        assert lib.goodValue(src[p.fields[k].value.start..p.fields[k].value.end]);
      }
    }
    if GoodValues(lib, made.headers) {
      forall k | 0 <= k < |p.fields| ensures lib.goodValue(src[p.fields[k].value.start..p.fields[k].value.end]) {
        assert lib.goodValue(made.headers[k].value);
      }
    }
  }

  /** The decoder accepts exactly what it should, and says why it refuses what it refuses. */
  lemma VerdictAnswers(lib: Library, src: Text)
    requires Located(lib.parse(src), |src|)
    ensures Answers(lib, src, Verdict(lib, src), Taken(lib, src))
  {
    var p := lib.parse(src);
    if p.Complete? {
      ExtractIsMadeOf(p, src);
      GoodValuesOfHead(lib, p, src);
      hide MadeOf, Extract, GoodValues, AllValuesGood, Headers, Located;
      assert MadeOf(Extract(p, src[..p.amt]), src, p);
    }
  }

  /** Collects the fields of a head until one has a value that HeaderValue refuses. */
  method Collect(lib: Library, data: Text, fields: seq<Field>) returns (headers: Option<seq<Header>>)
    requires forall k | 0 <= k < |fields| :: Inside(fields[k].name, |data|) && Inside(fields[k].value, |data|)
    ensures headers == if GoodValues(lib, Headers(data, fields)) then Some(Headers(data, fields)) else None
  {
    hide Inside;
    var hs: seq<Header> := [];
    for i := 0 to |fields|
      invariant hs == Headers(data, fields)[..i]
      invariant GoodValues(lib, hs)
    {
      var h := Header(Slice(data, fields[i].name), Slice(data, fields[i].value));
      assert Headers(data, fields)[i] == h;
      if !lib.goodValue(h.value) {
        return None;
      }
      hs := hs + [h];
    }
    assert hs == Headers(data, fields);
    return Some(hs);
  }

  /** Decoder::decode. */
  method DecodeOne(lib: Library, src: BytesMut) returns (d: Decoded)
    requires Stable(lib)
    modifies src
    ensures d == Verdict(lib, old(src.data))
    ensures src.data == old(src.data)[Taken(lib, old(src.data))..]
    ensures Answers(lib, old(src.data), d, |old(src.data)| - |src.data|)
  {
    hide Answers;
    VerdictAnswers(lib, src.data);
    var p := lib.parse(src.data);
    match p
    case Partial => return Incomplete;
    case Invalid => return Failed(BadHead);
    case Complete(amt, verb, path, version, fields) =>
      // The slices lie inside the buffer, and their number inside the array of 16.
      assert forall k | 0 <= k < |fields| :: Inside(fields[k].name, amt) && Inside(fields[k].value, amt);
      assert path.start < |src.data| && |fields| <= 16;
      if !lib.knownVerb(verb) {
        return Failed(BadVerb);
      }
      if version != 1 {
        return Failed(BadVersion);
      }
      var data := src.SplitTo(amt);
      var headers := Collect(lib, data, fields);
      match headers
      case None => return Failed(BadValue);
      case Some(hs) =>
        var request := Request(verb, Slice(data, path), hs);
        return if lib.buildable(request) then Yielded(request) else Failed(BadRequest);
  }

  /** More input changes neither a verdict the decoder has reached nor how much it takes. */
  lemma MoreInput(lib: Library, s: Text, t: Text)
    requires Stable(lib) && Verdict(lib, s) != Incomplete
    ensures Verdict(lib, s + t) == Verdict(lib, s) && Taken(lib, s + t) == Taken(lib, s)
    ensures (s + t)[Taken(lib, s)..] == s[Taken(lib, s)..] + t
  {
    hide Judge;
    var p := lib.parse(s);
    assert lib.parse(s + t) == p;
    if p.Complete? {
      assert (s + t)[..p.amt] == s[..p.amt];
    }
  }

  // ---------------------------------------------------------------- the loop

  datatype End = Closed | Broken(fault: Fault)

  datatype Served = Served(requests: seq<Request>, end: End)

  /** Decoding a whole stream that is already there: request by request until nothing is left, an error, or an
      unfinished head. */
  function Serve(lib: Library, stream: Text): Served
    requires Stable(lib)
    decreases |stream|
  {
    match Verdict(lib, stream)
    case Incomplete => Served([], if stream == [] then Closed else Broken(Leftover))
    case Failed(fault) => Served([], Broken(fault))
    case Yielded(request) =>
      var later := Serve(lib, stream[Taken(lib, stream)..]);
      Served([request] + later.requests, later.end)
  }

  /** The octets that a series of reads delivers; an empty read is the end of the stream. */
  function Received(chunks: seq<Text>): Text {
    if chunks == [] || chunks[0] == [] then [] else chunks[0] + Received(chunks[1..])
  }

  lemma ReadNext(buffer: Text, chunks: seq<Text>, i: nat)
    requires i < |chunks| && chunks[i] != []
    ensures buffer + Received(chunks[i..]) == buffer + chunks[i] + Received(chunks[i + 1..])
  {
    assert chunks[i..][1..] == chunks[i + 1..];
  }

  /** What is served from here on, behind what has been served before. */
  function Behind(requests: seq<Request>, later: Served): Served {
    Served(requests + later.requests, later.end)
  }

  /** A verdict on the octets in the buffer is the next step of the service of the whole stream. */
  lemma ServeNext(lib: Library, buffer: Text, rest: Text, requests: seq<Request>)
    requires Stable(lib) && Verdict(lib, buffer) != Incomplete
    ensures Behind(requests, Serve(lib, buffer + rest))
         == match Verdict(lib, buffer)
            case Failed(fault) => Served(requests, Broken(fault))
            case Yielded(request) => Behind(requests + [request], Serve(lib, buffer[Taken(lib, buffer)..] + rest))
  {
    MoreInput(lib, buffer, rest);
    hide Verdict, Taken, Stable;
    assert requests + [] == requests;
    match Verdict(lib, buffer)
    case Failed(_) =>
    case Yielded(request) =>
      var later := Serve(lib, buffer[Taken(lib, buffer)..] + rest);
      assert requests + ([request] + later.requests) == requests + [request] + later.requests;
  }

  function Hellos(n: nat): (rs: seq<Response>)
    ensures |rs| == n && forall k | 0 <= k < n :: rs[k] == HELLO
  {
    seq(n, k => HELLO)
  }

  function Dates(n: nat, date: nat -> Text): (ds: seq<Text>)
    ensures |ds| == n && forall k | 0 <= k < n :: ds[k] == date(k)
  {
    seq(n, k requires 0 <= k => date(k))
  }

  lemma OneMoreHello(n: nat, date: nat -> Text)
    ensures WireAll(Hellos(n + 1), Dates(n + 1, date)) == WireAll(Hellos(n), Dates(n, date)) + Wire(HELLO, date(n))
  {
    WireAllAppend(Hellos(n), Dates(n, date), HELLO, date(n));
    assert Hellos(n) + [HELLO] == Hellos(n + 1) && Dates(n, date) + [date(n)] == Dates(n + 1, date);
  }

  /** The connection loop over Framed: it decodes as long as the buffer yields requests, answers each one, reads more
      when the decoder asks for it, and after the end of the stream treats a remainder as an error. */
  method Process(lib: Library, chunks: seq<Text>, date: nat -> Text)
      returns (requests: seq<Request>, end: End, sent: Text)
    requires Stable(lib)
    ensures Served(requests, end) == Serve(lib, Received(chunks))
    ensures sent == WireAll(Hellos(|requests|), Dates(|requests|, date))
  {
    hide Stable, Verdict, Taken, Wire, WireAll, Answers, Located;
    var src := new BytesMut();
    var dst := new BytesMut();
    var i, eof, readable := 0, false, false;
    requests := [];
    ghost var rest := Received(chunks);
    NothingYet(Serve(lib, src.data + rest), date);
    assert src.data + rest == rest;
    while true
      invariant i <= |chunks| && src != dst && (eof ==> readable)
      invariant rest == if eof then [] else Received(chunks[i..])
      invariant Behind(requests, Serve(lib, src.data + rest)) == Serve(lib, Received(chunks))
      invariant dst.data == WireAll(Hellos(|requests|), Dates(|requests|, date))
      decreases if eof then 0 else |chunks| - i + 1, |src.data|, readable
    {
      if !readable {
        if i == |chunks| || chunks[i] == [] {
          eof, rest := true, [];
        } else {
          ReadNext(src.data, chunks, i);
          src.Extend(chunks[i]);
          i := i + 1;
          rest := Received(chunks[i..]);
        }
        readable := true;
      } else {
        ghost var buffer := src.data;
        var d := DecodeOne(lib, src);
        TakenSome(lib, buffer);
        match d
        case Incomplete =>
          if eof {
            assert src.data == buffer + rest && requests + [] == requests;
            end := if src.data == [] then Closed else Broken(Leftover);
            break;
          }
          readable := false;
        case Failed(fault) =>
          ServeNext(lib, buffer, rest, requests);
          end := Broken(fault);
          break;
        case Yielded(request) =>
          ServeNext(lib, buffer, rest, requests);
          OneMoreHello(|requests|, date);
          Encode(HELLO, dst, date(|requests|));
          requests := requests + [request];
      }
    }
    sent := dst.data;
  }

  lemma NothingYet(s: Served, date: nat -> Text)
    ensures Behind([], s) == s && WireAll(Hellos(0), Dates(0, date)) == []
  {
  }

  lemma TakenSome(lib: Library, src: Text)
    requires Stable(lib)
    ensures match Verdict(lib, src)
            case Incomplete => Taken(lib, src) == 0
            case Yielded(_) => 0 < Taken(lib, src) <= |src|
            case Failed(_) => true
  {
  }

  // ---------------------------------------------------------------- what the loop guarantees

  lemma {:induction false} ReceivedIsConcat(chunks: seq<Text>)
    requires forall k | 0 <= k < |chunks| :: chunks[k] != []
    ensures Received(chunks) == Concat(chunks)
  {
    if chunks != [] {
      ReceivedIsConcat(chunks[1..]);
    }
  }

  /** However the stream is cut into reads, and whatever would come after its end, the same requests are yielded and the
      connection ends the same way. */
  lemma CutsDoNotMatter(lib: Library, cut: seq<Text>, late: seq<Text>, other: seq<Text>, otherLate: seq<Text>)
    requires Stable(lib)
    requires forall k | 0 <= k < |cut| :: cut[k] != []
    requires forall k | 0 <= k < |other| :: other[k] != []
    requires Concat(cut) == Concat(other)
    ensures Serve(lib, Received(cut + [[]] + late)) == Serve(lib, Received(other + [[]] + otherLate))
         == Serve(lib, Received(cut)) == Serve(lib, Concat(cut))
  {
    hide Stable;
    ReceivedIsConcat(cut);
    ReceivedIsConcat(other);
    EndOfStream(cut, late);
    EndOfStream(other, otherLate);
  }

  lemma {:induction false} EndOfStream(chunks: seq<Text>, late: seq<Text>)
    requires forall k | 0 <= k < |chunks| :: chunks[k] != []
    ensures Received(chunks + [[]] + late) == Received(chunks)
  {
    var all := chunks + [[]] + late;
    if chunks != [] {
      EndOfStream(chunks[1..], late);
      assert all[1..] == chunks[1..] + [[]] + late;
    }
  }

  /** The places in a stream where its heads begin, and where what was not yielded begins. */
  ghost predicate Cuts(lib: Library, stream: Text, requests: seq<Request>, cuts: seq<nat>)
    requires Stable(lib)
  {
    && |cuts| == |requests| + 1 && cuts[0] == 0
    && (forall k | 0 <= k < |cuts| :: cuts[k] <= |stream|)
    && forall k | 0 <= k < |requests| :: HeadAt(lib, stream[cuts[k]..], requests[k], cuts[k], cuts[k + 1])
  }

  /** The rest of a stream from one place on begins with a head that yields the request and ends at the other. */
  ghost predicate HeadAt(lib: Library, rest: Text, request: Request, begin: int, end: int)
    requires Stable(lib)
  {
    && lib.parse(rest).Complete? && end == begin + lib.parse(rest).amt
    && Answers(lib, rest, Yielded(request), end - begin)
  }

  /** How a stream ends by what is left of it. */
  ghost predicate EndsWith(lib: Library, rest: Text, end: End)
    requires Stable(lib)
  {
    && (forall r, n :: !Answers(lib, rest, Yielded(r), n))
    && (end == Closed <==> rest == [])
    && (end == Broken(Leftover) <==> rest != [] && lib.parse(rest).Partial?)
    && forall f :: f != Leftover ==> (end == Broken(f) <==> exists n :: Answers(lib, rest, Failed(f), n))
  }

  lemma YieldTakes(lib: Library, s: Text)
    requires Stable(lib) && Verdict(lib, s).Yielded?
    ensures lib.parse(s).Complete? && 0 < lib.parse(s).amt == Taken(lib, s) <= |s|
  {
  }

  lemma OneAnswer(lib: Library, src: Text, d: Decoded, n: int)
    requires Stable(lib) && Answers(lib, src, d, n)
    ensures d == Failed(Leftover) || (d == Verdict(lib, src) && n == Taken(lib, src))
  {
    VerdictAnswers(lib, src);
    hide Verdict, Taken, MadeOf, AllValuesGood, Located, Stable;
    var p := lib.parse(src);
    if p.Complete? && d.Failed? && d != Failed(Leftover) { assert Accepts(lib, src, p, Verdict(lib, src)); }
  }

  lemma EndOfServe(lib: Library, rest: Text)
    requires Stable(lib) && !Verdict(lib, rest).Yielded?
    ensures Serve(lib, rest).requests == [] && EndsWith(lib, rest, Serve(lib, rest).end)
  {
    assert lib.parse([]) == Partial;
    VerdictAnswers(lib, rest);
    hide Answers;
    forall r, n | Answers(lib, rest, Yielded(r), n) ensures false { OneAnswer(lib, rest, Yielded(r), n); }
    forall f, n | f != Leftover && Answers(lib, rest, Failed(f), n) ensures Verdict(lib, rest) == Failed(f) {
      OneAnswer(lib, rest, Failed(f), n);
    }
  }

  /** The requests yielded for a stream are those of the heads that lie in it one behind the other, from its beginning
      to the first place where none is yielded; and the connection ends well if and only if that place is its end, and
      otherwise for the reason found there. */
  lemma {:induction false} ServeTakesHeadsInOrder(lib: Library, stream: Text) returns (cuts: seq<nat>)
    requires Stable(lib)
    ensures Cuts(lib, stream, Serve(lib, stream).requests, cuts)
    ensures EndsWith(lib, stream[cuts[|cuts| - 1]..], Serve(lib, stream).end)
    decreases |stream|
  {
    hide Verdict, Taken, EndsWith, Located, Cuts, HeadAt, Answers;
    assert stream[0..] == stream;
    if Verdict(lib, stream).Yielded? {
      YieldTakes(lib, stream);
      var n := lib.parse(stream).amt;
      var later := ServeTakesHeadsInOrder(lib, stream[n..]);
      CutsAreCuts(lib, stream[n..], Serve(lib, stream[n..]).requests, later);
      cuts := [0] + Moved(later, n);
      FirstHead(lib, stream);
      CutsMove(lib, stream, n, Verdict(lib, stream).request, Serve(lib, stream[n..]).requests, later);
      Suffix(stream, n, later[|later| - 1]);
    } else {
      EndOfServe(lib, stream);
      cuts := [0];
      OneCut(lib, stream);
    }
  }

  lemma OneCut(lib: Library, stream: Text)
    requires Stable(lib)
    ensures Cuts(lib, stream, [], [0])
  {
  }

  lemma CutsAreCuts(lib: Library, stream: Text, requests: seq<Request>, cuts: seq<nat>)
    requires Stable(lib) && Cuts(lib, stream, requests, cuts)
    ensures |cuts| == |requests| + 1 && cuts[|cuts| - 1] <= |stream|
  {
  }

  function Moved(cuts: seq<nat>, n: nat): (r: seq<nat>)
    ensures |r| == |cuts| && forall k | 0 <= k < |r| :: r[k] == n + cuts[k]
  {
    seq(|cuts|, k requires 0 <= k < |cuts| => n + cuts[k])
  }

  lemma Suffix(stream: Text, n: nat, m: nat)
    requires n <= |stream| && m <= |stream| - n
    ensures stream[n..][m..] == stream[n + m..]
  {
  }

  lemma HeadMoves(lib: Library, rest: Text, request: Request, begin: int, end: int, n: int)
    requires Stable(lib) && HeadAt(lib, rest, request, begin, end)
    ensures HeadAt(lib, rest, request, n + begin, n + end)
  {
    hide Answers, Stable;
    assert n + end - (n + begin) == end - begin;
  }

  lemma CutsMove(lib: Library, stream: Text, n: nat, request: Request, requests: seq<Request>, later: seq<nat>)
    requires Stable(lib) && n <= |stream| && HeadAt(lib, stream, request, 0, n)
    requires Cuts(lib, stream[n..], requests, later)
    ensures Cuts(lib, stream, [request] + requests, [0] + Moved(later, n))
  {
    hide Stable, HeadAt, Located, Answers;
    var all, cuts := [request] + requests, [0] + Moved(later, n);
    assert stream[0..] == stream;
    forall k | 0 <= k < |all| ensures HeadAt(lib, stream[cuts[k]..], all[k], cuts[k], cuts[k + 1]) {
      if k > 0 {
        Suffix(stream, n, later[k - 1]);
        HeadMoves(lib, stream[n..][later[k - 1]..], requests[k - 1], later[k - 1], later[k], n);
      }
    }
  }

  lemma FirstHead(lib: Library, stream: Text)
    requires Stable(lib) && Verdict(lib, stream).Yielded?
    ensures HeadAt(lib, stream, Verdict(lib, stream).request, 0, Taken(lib, stream))
  {
    VerdictAnswers(lib, stream);
  }

  /** What was yielded for a stream is yielded for every continuation of it, too, and a fault other than an unfinished
      head at its end is final. */
  lemma {:induction false} MoreStream(lib: Library, s: Text, t: Text)
    requires Stable(lib)
    ensures Serve(lib, s).requests <= Serve(lib, s + t).requests
    ensures Serve(lib, s).end.Broken? && Serve(lib, s).end.fault != Leftover ==> Serve(lib, s + t) == Serve(lib, s)
    decreases |s|
  {
    if Verdict(lib, s) != Incomplete {
      MoreInput(lib, s, t);
      if Verdict(lib, s).Yielded? {
        MoreStream(lib, s[Taken(lib, s)..], t);
      }
    }
  }

  /** A head that is accepted by itself. */
  predicate WholeHead(lib: Library, head: Text)
    requires Located(lib.parse(head), |head|)
  {
    Verdict(lib, head).Yielded? && Taken(lib, head) == |head|
  }

  lemma NothingIsIncomplete(lib: Library)
    requires Stable(lib)
    ensures Verdict(lib, []) == Incomplete
  {
  }

  lemma WholeHeadServed(lib: Library, head: Text, rest: Text)
    requires Stable(lib) && WholeHead(lib, head)
    ensures Serve(lib, head + rest) == Behind([Verdict(lib, head).request], Serve(lib, rest))
  {
    MoreInput(lib, head, rest);
    assert head[Taken(lib, head)..] + rest == rest;
  }

  /** Heads sent one behind the other are all served, in order, and the connection ends without an error. */
  lemma {:induction false} PipelinedHeads(lib: Library, heads: seq<Text>)
    requires Stable(lib)
    requires forall k | 0 <= k < |heads| :: WholeHead(lib, heads[k])
    ensures var served := Serve(lib, Concat(heads));
            && served.end == Closed
            && |served.requests| == |heads|
            && forall k | 0 <= k < |heads| :: Verdict(lib, heads[k]) == Yielded(served.requests[k])
  {
    hide Verdict, Taken;
    if heads == [] {
      NothingIsIncomplete(lib);
    } else {
      PipelinedHeads(lib, heads[1..]);
      assert WholeHead(lib, heads[0]);
      WholeHeadServed(lib, heads[0], Concat(heads[1..]));
    }
  }

  /** The client reads back one response for each request that was yielded, in order, and nothing else. */
  lemma OneResponseEach(n: nat, date: nat -> Text, dechunk: Dechunk)
    requires HasOverhead(dechunk)
    requires forall k | 0 <= k < n :: OneLine(date(k))
    ensures ReadAll(WireAll(Hellos(n), Dates(n, date)), dechunk) == Some(Views(Hellos(n), Dates(n, date)))
  {
    hide Clean, Delimited, View, ReadAll, WireAll, HasOverhead;
    forall k | 0 <= k < n ensures Clean(HELLO, date(k)) && Delimited(HELLO) {
      ServerResponseIsDelimited(date(k));
    }
    StreamRoundTrip(Hellos(n), Dates(n, date), dechunk);
  }
}
