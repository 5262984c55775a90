/** The threaded epoll server's recogniser: a pointer walk over the field lines of a request.
    Memory is a total function from addresses to octets, because the walk's idea of how much is left can drift
    past the octets received; the request is the first n octets. */
module FieldParser {
  import opened Bytes

  type Memory = nat -> char

  const CONNECTION: Text := "connection"
  const CLOSE: Text := "close"

  function Octets(mem: Memory, n: nat): (t: Text)
    ensures |t| == n && forall k | 0 <= k < n :: t[k] == mem(k)
  {
    seq(n, i requires 0 <= i < n => mem(i))
  }

  // ---------------------------------------------------------------- what a request to close is

  ghost predicate AllOws(t: Text) {
    forall k | 0 <= k < |t| :: Ows(t[k])
  }

  /** A field line of section 5 of RFC 9112 whose value is the lone option "close" (section 9.6 of RFC 9112):
      "connection" ":" OWS "close" OWS, letters in either case. */
  ghost predicate CloseField(line: Text) {
    && |line| >= 11 && SameFold(line[..10], CONNECTION) && line[10] == ':'
    && exists i :: CloseValueAt(line, i)
  }

  ghost predicate CloseValueAt(line: Text, i: int) {
    && 11 <= i && i + 5 <= |line|
    && AllOws(line[11..i]) && SameFold(line[i..i + 5], CLOSE) && AllOws(line[i + 5..])
  }

  predicate CrlfAt(req: Text, i: int) {
    0 <= i && i + 1 < |req| && req[i] == CR && req[i + 1] == LF
  }

  ghost predicate NoCr(t: Text) {
    forall k | 0 <= k < |t| :: t[k] != CR
  }

  /** req[a..b] is a whole line other than the first: CRLF before it, no CR in it, CRLF after it. */
  ghost predicate FieldLine(req: Text, a: int, b: int) {
    2 <= a <= b && CrlfAt(req, a - 2) && CrlfAt(req, b) && NoCr(req[a..b])
  }

  /** Where a walk over lines ends: at a CR that no LF follows, or at the blank line that ends the head. */
  predicate Stop(req: Text, e: int) {
    && 0 <= e && e + 1 < |req| && req[e] == CR
    && (req[e + 1] != LF || CrlfAt(req, e - 2))
  }

  ghost predicate HasStop(req: Text) {
    exists e :: Stop(req, e)
  }

  /** Some complete field line that no stop precedes is a close field. */
  ghost predicate AsksClose(req: Text) {
    exists a, b :: ClosingLine(req, a, b)
  }

  ghost predicate ClosingLine(req: Text, a: int, b: int) {
    FieldLine(req, a, b) && CloseField(req[a..b]) && forall k | 0 <= k < b :: !Stop(req, k)
  }

  /** A Connection field with something after the colon, as the parser tests it. */
  predicate ConnectionField(line: Text) {
    |line| > 11 && SameFold(line[..10], CONNECTION) && line[10] == ':'
  }

  ghost predicate OtherOption(line: Text) {
    ConnectionField(line) && !CloseField(line)
  }

  ghost predicate HasOtherOption(req: Text) {
    exists a, b :: FieldLine(req, a, b) && OtherOption(req[a..b])
  }

  // ---------------------------------------------------------------- growing a request

  lemma AsksClosePrefix(t: Text, u: Text)
    requires t <= u && AsksClose(t)
    ensures AsksClose(u)
  {
    var a, b :| ClosingLine(t, a, b);
    assert u[a..b] == t[a..b];
    forall k | 0 <= k < b ensures !Stop(u, k) { assert !Stop(t, k); }
    assert ClosingLine(u, a, b);
  }

  /** Two CRLFs in a row leave no room for a line between them. */
  lemma EmptyAtBlankLine(t: Text, a: int, b: int)
    requires FieldLine(t, a, b) && CrlfAt(t, b - 2)
    ensures a == b
  {
    assert forall k | a <= k < b :: t[k] == t[a..b][k - a];
  }

  /** What follows a stop does not matter. */
  lemma AsksCloseUpToStop(t: Text, u: Text)
    requires t <= u && HasStop(t)
    ensures AsksClose(t) <==> AsksClose(u)
  {
    if AsksClose(t) { AsksClosePrefix(t, u); }
    if AsksClose(u) {
      var a, b :| ClosingLine(u, a, b);
      var e :| Stop(t, e);
      assert Stop(u, e);
      assert b <= e;
      if b == e { EmptyAtBlankLine(u, a, b); }
      assert u[a..b] == t[a..b];
      forall k | 0 <= k < b ensures !Stop(t, k) { assert !Stop(u, k); }
      assert ClosingLine(t, a, b);
    }
  }

  /** A closing line that is complete within a prefix closes there. */
  lemma ClosingLineBefore(t: Text, u: Text, a: int, b: int)
    requires t <= u && ClosingLine(u, a, b) && b + 1 < |t|
    ensures AsksClose(t)
  {
    assert u[a..b] == t[a..b];
    forall k | 0 <= k < b ensures !Stop(t, k) { assert !Stop(u, k); }
    assert ClosingLine(t, a, b);
  }

  lemma FirstLine(line: Text)
    requires NoCr(line)
    ensures var t := line + [CR, LF]; !HasStop(t) && !AsksClose(t)
  {
  }

  /** One more line: no stop appears, and the request asks for a close exactly when the new line does. */
  lemma OneMoreLine(t: Text, line: Text)
    requires CrlfAt(t, |t| - 2) && !HasStop(t) && !AsksClose(t)
    requires line != [] && NoCr(line)
    ensures var u := t + line + [CR, LF];
            !HasStop(u) && (AsksClose(u) <==> CloseField(line)) && FieldLine(u, |t|, |t + line|)
  {
    var u, p, fe := t + line + [CR, LF], |t|, |t + line|;
    assert forall k | 0 <= k < p :: u[k] == t[k];
    assert forall k | p <= k < fe :: u[k] == line[k - p];
    assert u[p..fe] == line;
    forall k ensures !Stop(u, k) { assert !Stop(t, k); }
    forall a, b | FieldLine(u, a, b)
      ensures (a == p && b == fe) || (b < p && FieldLine(t, a, b) && u[a..b] == t[a..b])
    {
      if b < p {
        assert b != p - 1 && u[a..b] == t[a..b];
      } else {
        assert b == fe;
      }
    }
    if CloseField(line) {
      assert ClosingLine(u, p, fe);
    }
    if AsksClose(u) {
      var a, b :| ClosingLine(u, a, b);
      if b < p { ClosingLineBefore(t, u, a, b); }
    }
  }

  /** No further line: the rest holds no CR, or its first CR is the last octet, or ends the walk. */
  lemma NoMoreLines(t: Text, rest: Text)
    requires CrlfAt(t, |t| - 2) && !HasStop(t) && !AsksClose(t)
    requires NoCr(rest) || exists k :: NoLineEnd(rest, k)
    ensures !AsksClose(t + rest)
  {
    var u, p := t + rest, |t|;
    assert forall k | 0 <= k < p :: u[k] == t[k];
    if AsksClose(u) {
      var a, b :| ClosingLine(u, a, b);
      if b < p {
        ClosingLineBefore(t, u, a, b);
      } else {
        assert rest[b - p] == CR;
        var k :| NoLineEnd(rest, k);
        if k != b - p { assert Stop(u, p + k); }
      }
    }
  }

  /** The first CR of the rest is at k, and no field line ends there. */
  ghost predicate NoLineEnd(rest: Text, k: int) {
    && 0 <= k < |rest| && rest[k] == CR && NoCr(rest[..k])
    && (k == 0 || k + 1 == |rest| || rest[k + 1] != LF)
  }

  // ---------------------------------------------------------------- the code

  function MemChr(mem: Memory, c: char, s: nat, n: nat): (r: Option<nat>)
    ensures r.None? ==> forall k | s <= k < s + n :: mem(k) != c
    ensures r.Some? ==> s <= r.value < s + n && mem(r.value) == c && forall k | s <= k < r.value :: mem(k) != c
    decreases n
  {
    if n == 0 then None else if mem(s) == c then Some(s) else MemChr(mem, c, s + 1, n - 1)
  }

  /** The line that starts at s ends with the CRLF at e. */
  predicate LineEnd(mem: Memory, s: nat, e: nat) {
    s <= e && mem(e) == CR && mem(e + 1) == LF && forall k | s <= k < e :: mem(k) != CR
  }

  /** The first CR of the n octets at s, provided an LF follows it within them. */
  function FindCrlf(mem: Memory, s: nat, n: nat): (r: Option<nat>)
    ensures r.Some? ==> s <= r.value && r.value + 1 < s + n && LineEnd(mem, s, r.value)
    ensures r.None? ==> forall e: nat | LineEnd(mem, s, e) :: e + 1 >= s + n
  {
    match MemChr(mem, CR, s, n)
    case Some(p) => if p + 1 < s + n && mem(p + 1) == LF then Some(p) else None
    case None => None
  }

  method SkipOws(mem: Memory, start: nat, n: nat) returns (s: nat)
    ensures start <= s <= start + n
    ensures forall k | start <= k < s :: Ows(mem(k))
    ensures s < start + n ==> !Ows(mem(s))
  {
    var end := start + n;
    s := start;
    while s < end && Ows(mem(s))
      invariant start <= s <= end
      invariant forall k | start <= k < s :: Ows(mem(k))
    {
      s := s + 1;
    }
  }

  /** The chain of tests `(p[0] | 0x20) == word[0] && (p[1] | 0x20) == word[1] && ...`. */
  predicate MatchesWord(mem: Memory, p: nat, word: Text) {
    forall k | 0 <= k < |word| :: SetBit5(mem(p + k)) == word[k] as int
  }

  /** On a lower-case word, the octet tests with `| 0x20` are equality up to ASCII case. */
  lemma WordTest(mem: Memory, start: nat, end: nat, at: nat, word: Text)
    requires start + at + |word| <= end
    requires forall k | 0 <= k < |word| :: 'a' <= word[k] <= 'z'
    ensures MatchesWord(mem, start + at, word) <==> SameFold(Octets(mem, end)[start..][at..at + |word|], word)
  {
    var x := Octets(mem, end)[start..][at..at + |word|];
    forall k | 0 <= k < |word|
      ensures ToLower(x[k]) == ToLower(word[k]) <==> SetBit5(mem(start + at + k)) == word[k] as int
    {
      SetBit5IsExactFold(mem(start + at + k), word[k]);
    }
  }

  /** p is at the start of a line, and nothing before it stops the walk or asks for a close. */
  ghost predicate AtLine(mem: Memory, p: nat) {
    var before := Octets(mem, p);
    CrlfAt(before, p - 2) && !HasStop(before) && !AsksClose(before)
  }

  lemma PastFirstLine(mem: Memory, lineEnd: nat)
    requires LineEnd(mem, 0, lineEnd)
    ensures AtLine(mem, lineEnd + 2)
  {
    assert Octets(mem, lineEnd + 2) == Octets(mem, lineEnd) + [CR, LF];
    FirstLine(Octets(mem, lineEnd));
  }

  lemma PastLine(mem: Memory, p: nat, fe: nat, length: nat)
    requires AtLine(mem, p) && p < fe && LineEnd(mem, p, fe)
    ensures var line := Octets(mem, fe)[p..];
            && (CloseField(line) ==> AsksClose(Octets(mem, fe + 2)))
            && (!CloseField(line) ==> AtLine(mem, fe + 2))
            && (OtherOption(line) && fe + 2 <= length ==> HasOtherOption(Octets(mem, length)))
  {
    var before, line := Octets(mem, p), Octets(mem, fe)[p..];
    assert Octets(mem, fe + 2) == before + line + [CR, LF];
    OneMoreLine(before, line);
    if fe + 2 <= length {
      assert Octets(mem, length)[p..fe] == line;
      assert FieldLine(Octets(mem, length), p, fe);
    }
  }

  /** The part of the loop body that tests the field line [p, fieldEnd). It returns the verdict and where p is left:
      at the value of a Connection field, and where it was for any other field. */
  method TestLine(mem: Memory, start: nat, fieldEnd: nat, ghost length: nat) returns (close: bool, p: nat)
    requires AtLine(mem, start) && start < fieldEnd && LineEnd(mem, start, fieldEnd)
    ensures start <= p <= fieldEnd && p == start + Skipped(LineOf(mem, start, fieldEnd))
    ensures close <==> CloseField(LineOf(mem, start, fieldEnd))
    ensures close ==> AsksClose(Octets(mem, fieldEnd + 2))
    ensures !close ==> AtLine(mem, fieldEnd + 2)
    ensures p == start || close || fieldEnd + 2 > length || HasOtherOption(Octets(mem, length))
  {
    hide CloseField, ConnectionField, AtLine, AsksClose, HasOtherOption, SameFold;
    PastLine(mem, start, fieldEnd, length);
    ghost var line := LineOf(mem, start, fieldEnd);
    p := start;
    if p + |CONNECTION| + 1 < fieldEnd {
      WordTest(mem, start, fieldEnd, 0, CONNECTION);
      assert line[..10] == line[0..0 + 10];
      if MatchesWord(mem, p, CONNECTION) && mem(p + 10) == ':' {
        p := p + |CONNECTION| + 1;
        p := SkipOws(mem, p, fieldEnd - p);
        IsConnectionField(line);
        LeadingOwsIs(line[11..], p - start - 11);
        close := TestValue(mem, start, p, fieldEnd);
        return;
      }
    }
    NoConnectionField(line);
    return false, p;
  }

  lemma IsConnectionField(line: Text)
    requires |line| > 11 && SameFold(line[..10], CONNECTION) && line[10] == ':'
    ensures ConnectionField(line) && (CloseField(line) <==> exists i :: CloseValueAt(line, i))
  {
  }

  lemma NoConnectionField(line: Text)
    requires !(|line| > 11 && SameFold(line[..10], CONNECTION) && line[10] == ':')
    ensures !ConnectionField(line) && !CloseField(line)
  {
  }

  /** The value of a close field starts at the first octet after the colon that is not OWS. */
  lemma ValueStart(line: Text, at: int)
    requires 11 <= at <= |line|
    requires forall k | 11 <= k < at :: Ows(line[k])
    requires at < |line| ==> !Ows(line[at])
    ensures forall i :: CloseValueAt(line, i) ==> i == at
  {
    forall i | CloseValueAt(line, i) ensures i == at {
      assert line[i..i + 5][0] == line[i] && ToLower(line[i]) == ToLower(CLOSE[0]);
      assert forall k | 11 <= k < i :: line[11..i][k - 11] == line[k];
    }
  }

  method TestValue(mem: Memory, ghost start: nat, p: nat, fieldEnd: nat) returns (close: bool)
    requires start + 11 <= p <= fieldEnd
    requires forall k | start + 11 <= k < p :: Ows(mem(k))
    requires p < fieldEnd ==> !Ows(mem(p))
    ensures close <==> exists i :: CloseValueAt(Octets(mem, fieldEnd)[start..], i)
  {
    ghost var line, at := Octets(mem, fieldEnd)[start..], p - start;
    ValueStart(line, at);
    close := false;
    if p + |CLOSE| <= fieldEnd {
      WordTest(mem, start, fieldEnd, at, CLOSE);
      if MatchesWord(mem, p, CLOSE) {
        var end := SkipOws(mem, p + |CLOSE|, fieldEnd - p - |CLOSE|);
        close := end == fieldEnd;
        ghost var tail := line[at + 5..];
        assert forall k | 0 <= k < |tail| :: tail[k] == mem(p + 5 + k);
        assert close <==> CloseValueAt(line, at);
      }
    }
  }

  // ---------------------------------------------------------------- how far the walk goes

  function LineOf(mem: Memory, start: nat, end: nat): (line: Text)
    requires start <= end
  {
    Octets(mem, end)[start..]
  }

  function LeadingOws(t: Text): (k: nat)
    ensures k <= |t|
  {
    if t != [] && Ows(t[0]) then 1 + LeadingOws(t[1..]) else 0
  }

  lemma {:induction false} LeadingOwsIs(t: Text, k: nat)
    requires k <= |t| && (forall i | 0 <= i < k :: Ows(t[i])) && (k < |t| ==> !Ows(t[k]))
    ensures LeadingOws(t) == k
  {
    if k > 0 { LeadingOwsIs(t[1..], k - 1); }
  }

  /** How far the tests of a line move p: past the name and the white space of a Connection field. The same number of
      octets is missing when the length of the line is subtracted from n. */
  function Skipped(line: Text): (k: nat)
    ensures k <= |line|
  {
    if ConnectionField(line) then 11 + LeadingOws(line[11..]) else 0
  }

  /** The verdict of the walk from the start of a line, with n octets left as the source counts them. */
  ghost function Walk(mem: Memory, p: nat, n: nat): bool
    decreases n
  {
    match FindCrlf(mem, p, n)
    case None => false
    case Some(e) =>
      if e == p then false
      else
        var line := LineOf(mem, p, e);
        CloseField(line) || Walk(mem, e + 2, n - (e + 2 - p) + Skipped(line))
  }

  /** The verdict on the first `length` octets of memory. */
  ghost function Verdict(mem: Memory, length: nat): bool {
    match FindCrlf(mem, 0, length)
    case None => false
    case Some(e) => Walk(mem, e + 2, length - (e + 2))
  }

  lemma VerdictStarts(mem: Memory, length: nat)
    ensures match FindCrlf(mem, 0, length)
            case None => !Verdict(mem, length)
            case Some(e) => Verdict(mem, length) == Walk(mem, e + 2, length - (e + 2))
  {
  }

  lemma WalkStep(mem: Memory, p: nat, n: nat)
    ensures match FindCrlf(mem, p, n)
            case None => !Walk(mem, p, n)
            case Some(e) =>
              if e == p then !Walk(mem, p, n)
              else if CloseField(LineOf(mem, p, e)) then Walk(mem, p, n)
              else Walk(mem, p, n) == Walk(mem, e + 2, n - (e + 2 - p) + Skipped(LineOf(mem, p, e)))
  {
  }

  /** starts holds the starts of the field lines that the walk has passed, and then the place it has reached. */
  function Drift(mem: Memory, starts: seq<nat>): nat
    requires forall k | 0 <= k < |starts| - 1 :: starts[k] + 2 < starts[k + 1]
  {
    var n := |starts| - 1;
    if n <= 0 then 0 else Drift(mem, starts[..n]) + Skipped(LineOf(mem, starts[n - 1], starts[n] - 2))
  }

  ghost predicate Lines(starts: seq<nat>) {
    starts != [] && forall k | 0 <= k < |starts| - 1 :: starts[k] + 2 < starts[k + 1]
  }

  /** The walk has passed whole lines only, none empty after the first, each inside what it took for the request when
      it came to that line. */
  ghost predicate Walked(mem: Memory, length: nat, starts: seq<nat>) {
    && Lines(starts)
    && 2 <= starts[0] <= length && LineEnd(mem, 0, starts[0] - 2)
    && forall k | 0 < k < |starts| :: Passed(mem, length, starts, k)
  }

  ghost predicate Passed(mem: Memory, length: nat, starts: seq<nat>, k: int)
    requires Lines(starts) && 0 < k < |starts|
  {
    && LineEnd(mem, starts[k - 1], starts[k] - 2)
    && !CloseField(LineOf(mem, starts[k - 1], starts[k] - 2))
    && starts[k] <= length + Drift(mem, starts[..k])
  }

  /** The walk ends at p with the verdict r: at a close field, at an empty line, or where no further line ends. */
  ghost predicate EndsAt(mem: Memory, p: nat, limit: nat, r: bool) {
    p <= limit
    && match FindCrlf(mem, p, limit - p)
       case None => !r
       case Some(e) => if e == p then !r else r && CloseField(LineOf(mem, p, e))
  }

  lemma PassedLonger(mem: Memory, length: nat, starts: seq<nat>, next: nat, k: int)
    requires Lines(starts) && Lines(starts + [next]) && 0 < k < |starts| && Passed(mem, length, starts, k)
    ensures Passed(mem, length, starts + [next], k)
  {
    hide CloseField, LineEnd, Drift;
    assert (starts + [next])[..k] == starts[..k];
  }

  lemma DriftGrows(mem: Memory, starts: seq<nat>, e: nat)
    requires Lines(starts) && starts[|starts| - 1] < e
    ensures Lines(starts + [e + 2])
    ensures Drift(mem, starts + [e + 2]) == Drift(mem, starts) + Skipped(LineOf(mem, starts[|starts| - 1], e))
  {
    hide LineOf, Skipped;
    var more := starts + [e + 2];
    assert more[..|starts|] == starts && more[|starts|] == e + 2 && more[|starts| - 1] == starts[|starts| - 1];
  }

  lemma LastPassed(mem: Memory, length: nat, starts: seq<nat>, e: nat)
    requires Lines(starts) && Lines(starts + [e + 2]) && starts[|starts| - 1] < e
    requires LineEnd(mem, starts[|starts| - 1], e) && !CloseField(LineOf(mem, starts[|starts| - 1], e))
    requires e + 2 <= length + Drift(mem, starts)
    ensures Passed(mem, length, starts + [e + 2], |starts|)
  {
    hide CloseField, LineEnd, LineOf, Drift;
    assert (starts + [e + 2])[..|starts|] == starts;
  }

  lemma OneLinePassed(mem: Memory, length: nat, starts: seq<nat>, e: nat)
    requires Walked(mem, length, starts)
    requires var p := starts[|starts| - 1];
             p < e && LineEnd(mem, p, e) && !CloseField(LineOf(mem, p, e)) && e + 2 <= length + Drift(mem, starts)
    ensures var p, more := starts[|starts| - 1], starts + [e + 2];
            Walked(mem, length, more) && Drift(mem, more) == Drift(mem, starts) + Skipped(LineOf(mem, p, e))
  {
    hide CloseField, LineEnd, Drift, Skipped, Passed;
    var more := starts + [e + 2];
    DriftGrows(mem, starts, e);
    LastPassed(mem, length, starts, e);
    forall k | 0 < k < |more| ensures Passed(mem, length, more, k) {
      if k < |starts| { PassedLonger(mem, length, starts, e + 2, k); }
    }
  }

  lemma FirstLinePassed(mem: Memory, length: nat, e: nat)
    requires LineEnd(mem, 0, e) && e + 2 <= length
    ensures WalkedTo(mem, length, [e + 2], e + 2, length)
  {
  }

  lemma OneLineEnd(mem: Memory, s: nat, e: nat, f: nat)
    requires LineEnd(mem, s, e) && LineEnd(mem, s, f)
    ensures e == f
  {
  }

  lemma {:induction false} SameStarts(mem: Memory, length: nat, starts: seq<nat>, other: seq<nat>, k: nat)
    requires Walked(mem, length, starts) && Walked(mem, length, other) && k < |starts| && k < |other|
    ensures starts[..k + 1] == other[..k + 1]
  {
    hide Passed, LineEnd;
    if k == 0 {
      OneLineEnd(mem, 0, starts[0] - 2, other[0] - 2);
    } else {
      SameStarts(mem, length, starts, other, k - 1);
      assert starts[..k][k - 1] == other[..k][k - 1];
      LineIsPassed(mem, length, starts, k);
      LineIsPassed(mem, length, other, k);
      OneLineEnd(mem, starts[k - 1], starts[k] - 2, other[k] - 2);
    }
  }

  lemma LineIsPassed(mem: Memory, length: nat, starts: seq<nat>, k: nat)
    requires Walked(mem, length, starts) && 0 < k < |starts|
    ensures starts[k - 1] + 2 < starts[k] && LineEnd(mem, starts[k - 1], starts[k] - 2)
    ensures !CloseField(LineOf(mem, starts[k - 1], starts[k] - 2))
    ensures Lines(starts[..k]) && starts[k] <= length + Drift(mem, starts[..k])
  {
    assert Passed(mem, length, starts, k);
  }

  /** A walk does not end where a further line could be passed. */
  lemma PassedIsNoEnd(mem: Memory, p: nat, e: nat, limit: nat, r: bool)
    requires p < e && e + 2 <= limit && LineEnd(mem, p, e) && !CloseField(LineOf(mem, p, e))
    ensures !EndsAt(mem, p, limit, r)
  {
    hide CloseField;
    if FindCrlf(mem, p, limit - p).Some? { OneLineEnd(mem, p, e, FindCrlf(mem, p, limit - p).value); }
  }

  lemma EndOnce(mem: Memory, length: nat, starts: seq<nat>, other: seq<nat>, r: bool)
    requires Walked(mem, length, starts) && Walked(mem, length, other)
    requires EndsAt(mem, starts[|starts| - 1], length + Drift(mem, starts), r)
    ensures |other| <= |starts|
  {
    hide Walked, EndsAt, Drift, LineEnd, CloseField;
    if |other| > |starts| {
      var n := |starts|;
      WalkHasStart(mem, length, starts);
      SameStarts(mem, length, starts, other, n - 1);
      LineIsPassed(mem, length, other, n);
      assert starts[..n] == starts && other[..n][n - 1] == starts[n - 1];
      PassedIsNoEnd(mem, starts[n - 1], other[n] - 2, length + Drift(mem, starts), r);
    }
  }

  /** There is one walk over a request: what the lines passed, the limit and the verdict are required to be leaves
      nothing open. */
  lemma WalkIsUnique(mem: Memory, length: nat, starts: seq<nat>, r: bool, other: seq<nat>, q: bool)
    requires Walked(mem, length, starts) && EndsAt(mem, starts[|starts| - 1], length + Drift(mem, starts), r)
    requires Walked(mem, length, other) && EndsAt(mem, other[|other| - 1], length + Drift(mem, other), q)
    ensures starts == other && r == q
  {
    hide Walked, Drift, CloseField;
    EndOnce(mem, length, starts, other, r);
    EndOnce(mem, length, other, starts, q);
    WalkHasStart(mem, length, starts);
    SameStarts(mem, length, starts, other, |starts| - 1);
    assert starts[..|starts|] == starts && other[..|other|] == other;
  }

  lemma WalkHasStart(mem: Memory, length: nat, starts: seq<nat>)
    requires Walked(mem, length, starts)
    ensures starts != []
  {
  }

  lemma WalkEnded(mem: Memory, p: nat, n: nat, r: bool)
    requires match FindCrlf(mem, p, n)
             case None => !r
             case Some(e) => if e == p then !r else r && CloseField(LineOf(mem, p, e))
    ensures EndsAt(mem, p, p + n, r)
  {
  }

  /** The recogniser. The loop keeps n as the source does, and limit is p + n: what the walk takes to be the end of the
      request. It is the length and what the tests of the lines passed have skipped. The verdict is that of the octets
      up to limit. limit is the true length unless some Connection field asks for something else, and whatever lies
      past a stop is never looked at. */
  method HasConnectionClose(mem: Memory, length: nat) returns (r: bool, ghost limit: nat, ghost starts: seq<nat>)
    ensures starts == [] ==> FindCrlf(mem, 0, length) == None && limit == length && !r
    ensures starts != [] ==>
              && Walked(mem, length, starts) && limit == length + Drift(mem, starts)
              && EndsAt(mem, starts[|starts| - 1], limit, r)
    ensures r <==> Verdict(mem, length)
    ensures r <==> AsksClose(Octets(mem, limit))
    ensures HasStop(Octets(mem, length)) || !HasOtherOption(Octets(mem, length)) ==>
              (r <==> AsksClose(Octets(mem, length)))
  {
    hide *;
    var n: nat := length;
    limit := length;
    VerdictStarts(mem, length);
    var fieldEnd := FindCrlf(mem, 0, n);
    if fieldEnd == None {
      NoFirstLine(mem, length);
      return false, length, [];
    }
    n := n - (fieldEnd.value + 2);
    var p: nat := fieldEnd.value + 2;
    PastFirstLine(mem, fieldEnd.value);
    FirstLinePassed(mem, length, fieldEnd.value);
    starts := [p];
    fieldEnd := FindCrlf(mem, p, n);
    while fieldEnd != None
      invariant fieldEnd == FindCrlf(mem, p, n)
      invariant 2 <= p && length <= p + n == limit
      invariant AtLine(mem, p)
      invariant Verdict(mem, length) <==> Walk(mem, p, n)
      invariant limit == length || HasOtherOption(Octets(mem, length))
      invariant WalkedTo(mem, length, starts, p, limit)
      decreases n
    {
      var fe := fieldEnd.value;
      WalkStep(mem, p, n);
      if fe == p {
        break;
      }
      ghost var start := p;
      var close;
      close, p := TestLine(mem, p, fe, length);
      if close {
        AsksCloseLater(mem, fe + 2, limit);
        AsksCloseAtLimit(mem, length, limit);
        WalkEnded(mem, start, n, true);
        WalkIsOver(mem, length, starts, start, limit);
        return true, limit, starts;
      }
      WalkGoesOn(mem, length, starts, start, fe, limit);
      n := n - ((fe - p) + 2);
      p := fe + 2;
      limit := p + n;
      starts := starts + [p];
      fieldEnd := FindCrlf(mem, p, n);
    }
    WalkStep(mem, p, n);
    WalkEnds(mem, p, n);
    AsksCloseAtLimit(mem, length, limit);
    WalkEnded(mem, p, n, false);
    WalkIsOver(mem, length, starts, p, limit);
    return false, limit, starts;
  }

  /** The state of the walk at p. */
  ghost predicate WalkedTo(mem: Memory, length: nat, starts: seq<nat>, p: nat, limit: nat) {
    Walked(mem, length, starts) && starts[|starts| - 1] == p && limit == length + Drift(mem, starts)
  }

  lemma WalkIsOver(mem: Memory, length: nat, starts: seq<nat>, p: nat, limit: nat)
    requires WalkedTo(mem, length, starts, p, limit)
    ensures starts != [] && Walked(mem, length, starts) && limit == length + Drift(mem, starts)
    ensures starts[|starts| - 1] == p
  {
  }

  lemma WalkGoesOn(mem: Memory, length: nat, starts: seq<nat>, p: nat, e: nat, limit: nat)
    requires WalkedTo(mem, length, starts, p, limit)
    requires p < e && LineEnd(mem, p, e) && !CloseField(LineOf(mem, p, e)) && e + 2 <= limit
    ensures WalkedTo(mem, length, starts + [e + 2], e + 2, limit + Skipped(LineOf(mem, p, e)))
  {
    hide Walked, Drift, Skipped;
    assert starts != [] by { WalkIsOver(mem, length, starts, p, limit); }
    OneLinePassed(mem, length, starts, e);
  }

  lemma AsksCloseLater(mem: Memory, n: nat, m: nat)
    requires n <= m && AsksClose(Octets(mem, n))
    ensures AsksClose(Octets(mem, m))
  {
    AsksClosePrefix(Octets(mem, n), Octets(mem, m));
  }

  lemma AsksCloseAtLimit(mem: Memory, length: nat, limit: nat)
    requires length <= limit
    requires limit == length || HasOtherOption(Octets(mem, length))
    ensures HasStop(Octets(mem, length)) || !HasOtherOption(Octets(mem, length)) ==>
              (AsksClose(Octets(mem, limit)) <==> AsksClose(Octets(mem, length)))
  {
    if HasStop(Octets(mem, length)) {
      AsksCloseUpToStop(Octets(mem, length), Octets(mem, limit));
    }
  }

  lemma NoFirstLine(mem: Memory, n: nat)
    requires FindCrlf(mem, 0, n) == None
    ensures !AsksClose(Octets(mem, n))
  {
    var req := Octets(mem, n);
    forall a, b | FieldLine(req, a, b) ensures exists k :: 0 <= k < b && Stop(req, k) {
      assert Stop(req, MemChr(mem, CR, 0, n).value);
    }
  }

  /** When the walk ends at p with n octets left, no field line follows. */
  lemma WalkEnds(mem: Memory, p: nat, n: nat)
    requires AtLine(mem, p)
    requires FindCrlf(mem, p, n) in {None, Some(p)}
    ensures !AsksClose(Octets(mem, p + n))
  {
    var rest := Octets(mem, p + n)[p..];
    assert Octets(mem, p + n) == Octets(mem, p) + rest;
    match MemChr(mem, CR, p, n) {
      case None => assert NoCr(rest);
      case Some(k) => assert NoLineEnd(rest, k - p);
    }
    NoMoreLines(Octets(mem, p), rest);
  }
}
