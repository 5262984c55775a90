/** The field parser on requests that are cut off. What it takes for the end of the request may lie behind the octets
    received, so that memory nobody wrote decides. These are exactly the requests for which it can. */
module CutOff {
  import opened Bytes
  import opened FieldParser

  const CLOSE_LINE: Text := "connection:close"

  /** The memories agree on the octets received. */
  ghost predicate SameOctets(mem: Memory, other: Memory, length: nat) {
    forall k: nat | k < length :: mem(k) == other(k)
  }

  // ---------------------------------------------------------------- as far as the octets received go

  /** Where the walk stands when no further line ends within the octets received: it has reached its verdict, or it is
      at the start of an unfinished line with n octets left as it counts them. */
  datatype Point = Decided(close: bool) | Open(p: nat, n: nat)

  /** The first CR of the unfinished line is followed by an octet that is no LF. */
  predicate StopsWithin(mem: Memory, p: nat, length: nat)
    requires p <= length
  {
    match MemChr(mem, CR, p, length - p) case None => false case Some(k) => k + 1 < length
  }

  ghost function Reach(mem: Memory, p: nat, n: nat, length: nat): (r: Point)
    requires p <= length <= p + n
    ensures r.Open? ==> r.p <= length <= r.p + r.n
    decreases length - p
  {
    match FindCrlf(mem, p, length - p)
    case None => if StopsWithin(mem, p, length) then Decided(false) else Open(p, n)
    case Some(e) =>
      if e == p then Decided(false)
      else
        var line := LineOf(mem, p, e);
        if CloseField(line) then Decided(true) else Reach(mem, e + 2, n - (e + 2 - p) + Skipped(line), length)
  }

  lemma ReachStep(mem: Memory, p: nat, n: nat, length: nat)
    requires p <= length <= p + n
    ensures match FindCrlf(mem, p, length - p)
            case None => Reach(mem, p, n, length) == if StopsWithin(mem, p, length) then Decided(false) else Open(p, n)
            case Some(e) =>
              if e == p then Reach(mem, p, n, length) == Decided(false)
              else if CloseField(LineOf(mem, p, e)) then Reach(mem, p, n, length) == Decided(true)
              else Reach(mem, p, n, length) == Reach(mem, e + 2, n - (e + 2 - p) + Skipped(LineOf(mem, p, e)), length)
  {
  }

  /** The memory behind the octets received can finish an unfinished line so that the verdict becomes a close; drift is
      the number of octets behind them that the walk takes for the request's. Either the line can become a close field
      in time, or it can be finished at once and leave room for a close field behind it. */
  ghost predicate Completable(line: Text, drift: nat) {
    || (NoCr(line) && |line| <= 11 && SameFold(line, CLOSE_LINE[..|line|]) && |line| + drift >= 18)
    || (NoCr(line) && line != [] && (CloseField(line) || drift + Skipped(line) >= 20))
    || (|line| > 1 && line[|line| - 1] == CR && NoCr(line[..|line| - 1])
        && (CloseField(line[..|line| - 1]) || drift + Skipped(line[..|line| - 1]) >= 19))
  }

  /** Where the walk over the octets received stands at their end. */
  ghost function Standing(mem: Memory, length: nat): (r: Point)
    ensures r.Open? ==> r.p <= length <= r.p + r.n
  {
    match FindCrlf(mem, 0, length)
    case None => Decided(false)
    case Some(e) => Reach(mem, e + 2, length - (e + 2), length)
  }

  /** The octets received leave the verdict to the memory behind them. */
  ghost predicate Undecided(mem: Memory, length: nat) {
    var at := Standing(mem, length);
    at.Open? && at.p + at.n > length && Completable(LineOf(mem, at.p, length), at.p + at.n - length)
  }

  // ---------------------------------------------------------------- only the octets received matter up to there

  lemma {:induction false} MemChrSame(mem: Memory, other: Memory, length: nat, s: nat, n: nat)
    requires SameOctets(mem, other, length) && s + n <= length
    ensures MemChr(mem, CR, s, n) == MemChr(other, CR, s, n)
    decreases n
  {
    if n > 0 { MemChrSame(mem, other, length, s + 1, n - 1); }
  }

  lemma FindCrlfSame(mem: Memory, other: Memory, length: nat, s: nat, n: nat)
    requires SameOctets(mem, other, length) && s + n <= length
    ensures FindCrlf(mem, s, n) == FindCrlf(other, s, n)
  {
    MemChrSame(mem, other, length, s, n);
  }

  lemma LineSame(mem: Memory, other: Memory, length: nat, s: nat, e: nat)
    requires SameOctets(mem, other, length) && s <= e <= length
    ensures LineOf(mem, s, e) == LineOf(other, s, e)
  {
    assert Octets(mem, e) == Octets(other, e);
  }

  lemma {:induction false} ReachSame(mem: Memory, other: Memory, p: nat, n: nat, length: nat)
    requires SameOctets(mem, other, length) && p <= length <= p + n
    ensures Reach(mem, p, n, length) == Reach(other, p, n, length)
    decreases length - p
  {
    hide SameOctets, FindCrlf, MemChr, CloseField, LineOf, Skipped, Reach;
    ReachStep(mem, p, n, length);
    ReachStep(other, p, n, length);
    FindCrlfSame(mem, other, length, p, length - p);
    MemChrSame(mem, other, length, p, length - p);
    match FindCrlf(mem, p, length - p)
    case None =>
    case Some(e) =>
      LineSame(mem, other, length, p, e);
      if e != p && !CloseField(LineOf(mem, p, e)) {
        ReachSame(mem, other, e + 2, n - (e + 2 - p) + Skipped(LineOf(mem, p, e)), length);
      }
  }

  lemma {:induction false} MemChrMore(mem: Memory, s: nat, m: nat, n: nat)
    requires m <= n && MemChr(mem, CR, s, m).Some?
    ensures MemChr(mem, CR, s, n) == MemChr(mem, CR, s, m)
    decreases m
  {
    if mem(s) != CR { MemChrMore(mem, s + 1, m - 1, n - 1); }
  }

  lemma FindCrlfMore(mem: Memory, p: nat, m: nat, n: nat)
    requires m <= n
    ensures FindCrlf(mem, p, m).Some? ==> FindCrlf(mem, p, n) == FindCrlf(mem, p, m)
    ensures FindCrlf(mem, p, m) == None && StopsWithin(mem, p, p + m) ==> FindCrlf(mem, p, n) == None
  {
    if MemChr(mem, CR, p, m).Some? { MemChrMore(mem, p, m, n); }
  }

  /** The walk goes through the point it has reached. */
  lemma {:induction false} WalkPasses(mem: Memory, p: nat, n: nat, length: nat)
    requires p <= length <= p + n
    ensures match Reach(mem, p, n, length)
            case Decided(close) => Walk(mem, p, n) == close
            case Open(q, m) => Walk(mem, p, n) == Walk(mem, q, m)
    decreases length - p
  {
    hide FindCrlf, StopsWithin, CloseField, LineOf, Skipped, Walk, Reach;
    WalkStep(mem, p, n);
    ReachStep(mem, p, n, length);
    FindCrlfMore(mem, p, length - p, n);
    match FindCrlf(mem, p, length - p)
    case None =>
    case Some(e) =>
      if e != p && !CloseField(LineOf(mem, p, e)) {
        WalkPasses(mem, e + 2, n - (e + 2 - p) + Skipped(LineOf(mem, p, e)), length);
      }
  }

  /** What is known of an unfinished line: no line end was found in it, and the drift is none or at least a name's. */
  ghost predicate Unfinished(mem: Memory, p: nat, n: nat, length: nat) {
    && p <= length <= p + n
    && FindCrlf(mem, p, length - p) == None && !StopsWithin(mem, p, length)
    && (p + n == length || p + n >= length + 11)
  }

  lemma {:induction false} ReachIsUnfinished(mem: Memory, p: nat, n: nat, length: nat)
    requires p <= length <= p + n && (p + n == length || p + n >= length + 11)
    ensures match Reach(mem, p, n, length) case Decided(_) => true case Open(q, m) => Unfinished(mem, q, m, length)
    decreases length - p
  {
    hide FindCrlf, StopsWithin, CloseField, LineOf, Reach;
    ReachStep(mem, p, n, length);
    match FindCrlf(mem, p, length - p)
    case None =>
    case Some(e) =>
      if e != p && !CloseField(LineOf(mem, p, e)) {
        ReachIsUnfinished(mem, e + 2, n - (e + 2 - p) + Skipped(LineOf(mem, p, e)), length);
      }
  }

  // ---------------------------------------------------------------- the right verdict

  /** The octets received ask for a close exactly when the walk has found it in them. */
  lemma {:induction false} ReachIsRight(mem: Memory, p: nat, n: nat, length: nat)
    requires p <= length <= p + n && AtLine(mem, p)
    ensures AsksClose(Octets(mem, length)) <==> Reach(mem, p, n, length) == Decided(true)
    decreases length - p
  {
    hide FindCrlf, StopsWithin, CloseField, Skipped, AtLine, AsksClose, HasOtherOption, OtherOption, Reach;
    ReachStep(mem, p, n, length);
    match FindCrlf(mem, p, length - p)
    case None => WalkEnds(mem, p, length - p);
    case Some(e) =>
      if e == p {
        WalkEnds(mem, p, length - p);
      } else {
        PastLine(mem, p, e, length);
        if CloseField(LineOf(mem, p, e)) {
          AsksCloseLater(mem, e + 2, length);
        } else {
          ReachIsRight(mem, e + 2, n - (e + 2 - p) + Skipped(LineOf(mem, p, e)), length);
        }
      }
  }

  // ---------------------------------------------------------------- what memory cannot do

  lemma CloseFieldIsLong(line: Text)
    requires CloseField(line)
    ensures |line| >= 16 && ConnectionField(line)
  {
  }

  /** A close field and its line end take 18 octets, and passing other lines leaves fewer. */
  lemma {:induction false} CloseNeedsRoom(mem: Memory, p: nat, n: nat)
    requires Walk(mem, p, n)
    ensures n >= 18
    decreases n
  {
    hide CloseField, FindCrlf, Skipped;
    var e := FindCrlf(mem, p, n).value;
    if CloseField(LineOf(mem, p, e)) {
      CloseFieldIsLong(LineOf(mem, p, e));
    } else {
      CloseNeedsRoom(mem, e + 2, n - (e + 2 - p) + Skipped(LineOf(mem, p, e)));
    }
  }

  /** A line that begins with another one, as far as the parser looks at the name. */
  lemma NamePrefix(line: Text, longer: Text)
    requires line <= longer && ConnectionField(longer)
    ensures |line| <= 11 ==> SameFold(line, CLOSE_LINE[..|line|])
    ensures |line| > 11 ==> ConnectionField(line)
  {
    assert longer[..10] == CONNECTION || SameFold(longer[..10], CONNECTION);
    forall k | 0 <= k < |line| && k < 11 ensures ToLower(line[k]) == ToLower(CLOSE_LINE[k]) {
      if k < 10 { assert ToLower(longer[..10][k]) == ToLower(CONNECTION[k]); }
    }
    if |line| > 11 { assert line[..10] == longer[..10]; }
  }

  lemma FirstCr(mem: Memory, p: nat, n: nat, length: nat)
    requires Unfinished(mem, p, n, length)
    ensures var line := LineOf(mem, p, length);
            NoCr(line) || (line != [] && line[|line| - 1] == CR && NoCr(line[..|line| - 1]))
  {
    var line := LineOf(mem, p, length);
    assert forall k | 0 <= k < |line| :: line[k] == mem(p + k);
  }

  /** If the walk finds a close behind an unfinished line, then the line was one that can be completed. */
  lemma OnlyCompletable(mem: Memory, p: nat, n: nat, length: nat)
    requires Unfinished(mem, p, n, length) && Walk(mem, p, n)
    ensures p + n > length && Completable(LineOf(mem, p, length), p + n - length)
  {
    hide CloseField, FindCrlf, Skipped, Completable, ConnectionField;
    WalkStep(mem, p, n);
    var e := FindCrlf(mem, p, n).value;
    var line, whole, drift := LineOf(mem, p, length), LineOf(mem, p, e), p + n - length;
    FirstCr(mem, p, n, length);
    if !CloseField(whole) { CloseNeedsRoom(mem, e + 2, n - (e + 2 - p) + Skipped(whole)); }
    if NoCr(line) {
      LinePrefix(mem, p, length, e);
      FinishedLine(line, whole, drift);
    } else {
      LastIsCr(mem, p, length, e);
      FinishedAtCr(line, drift);
    }
  }

  lemma LinePrefix(mem: Memory, p: nat, length: nat, e: nat)
    requires p <= length && p <= e && mem(e) == CR && NoCr(LineOf(mem, p, length))
    ensures length <= e && LineOf(mem, p, length) <= LineOf(mem, p, e)
  {
    var line := LineOf(mem, p, length);
    assert forall k: nat | p <= k < length :: mem(k) == line[k - p] != CR;
  }

  lemma LastIsCr(mem: Memory, p: nat, length: nat, e: nat)
    requires p <= e && LineEnd(mem, p, e) && p < length
    requires var line := LineOf(mem, p, length); line[|line| - 1] == CR && NoCr(line[..|line| - 1])
    ensures e + 1 == length && LineOf(mem, p, e) == LineOf(mem, p, length)[..length - p - 1]
  {
    var line := LineOf(mem, p, length);
    assert mem(length - 1) == line[|line| - 1] == CR;
    assert forall k: nat | p <= k < length - 1 :: mem(k) == line[..|line| - 1][k - p] != CR;
  }

  lemma FinishedLine(line: Text, whole: Text, drift: nat)
    requires NoCr(line) && line <= whole && whole != [] && |whole| + 2 <= |line| + drift && drift >= 11
    requires CloseField(whole) || |line| + drift - |whole| - 2 + Skipped(whole) >= 18
    ensures Completable(line, drift)
  {
    if CloseField(whole) { CloseFieldIsLong(whole); }
    hide CloseField;
    if ConnectionField(whole) { NamePrefix(line, whole); }
  }

  lemma FinishedAtCr(line: Text, drift: nat)
    requires |line| > 1 && line[|line| - 1] == CR && NoCr(line[..|line| - 1])
    requires var whole := line[..|line| - 1]; CloseField(whole) || drift - 1 + Skipped(whole) >= 18
    ensures Completable(line, drift)
  {
  }

  // ---------------------------------------------------------------- what memory can do

  /** The octets received, then t, and no line end behind it. */
  function Then(mem: Memory, length: nat, t: Text): Memory {
    (k: nat) => if k < length then mem(k) else if k - length < |t| then t[k - length] else 'a'
  }

  lemma ThenSame(mem: Memory, length: nat, t: Text)
    ensures SameOctets(mem, Then(mem, length, t), length)
    ensures forall k | 0 <= k < |t| :: Then(mem, length, t)(length + k) == t[k]
  {
  }

  /** Memory holds the text from p on. */
  ghost predicate At(mem: Memory, p: nat, t: Text) {
    forall k | 0 <= k < |t| :: mem(p + k) == t[k]
  }

  lemma LineFound(mem: Memory, p: nat, e: nat, n: nat)
    requires LineEnd(mem, p, e) && e + 1 < p + n
    ensures FindCrlf(mem, p, n) == Some(e)
  {
    hide FindCrlf;
    OneLineEnd(mem, p, e, FindCrlf(mem, p, n).value);
  }

  lemma CloseLineIsCloseField(line: Text)
    requires SameFold(line, CLOSE_LINE)
    ensures CloseField(line) && NoCr(line)
  {
    assert forall k | 0 <= k < 16 :: ToLower(line[k]) == ToLower(CLOSE_LINE[k]);
    assert SameFold(line[..10], CONNECTION) && line[10] == ':';
    assert SameFold(line[11..11 + 5], CLOSE) && line[11 + 5..] == [] && line[11..11] == [];
    assert CloseValueAt(line, 11);
  }

  lemma LineAt(mem: Memory, p: nat, t: Text)
    requires At(mem, p, t + [CR, LF]) && NoCr(t)
    ensures LineEnd(mem, p, p + |t|) && LineOf(mem, p, p + |t|) == t
  {
    var all := t + [CR, LF];
    assert forall k: nat | p <= k < p + |t| :: mem(k) == all[k - p] == t[k - p];
    assert mem(p + |t|) == all[|t|] && mem(p + (|t| + 1)) == all[|t| + 1];
  }

  lemma ClosesAt(mem: Memory, p: nat, n: nat)
    requires At(mem, p, CLOSE_LINE + [CR, LF]) && n >= 18
    ensures Walk(mem, p, n)
  {
    hide CloseField, Walk, FindCrlf, At;
    CloseLineIsCloseField(CLOSE_LINE);
    LineAt(mem, p, CLOSE_LINE);
    LineFound(mem, p, p + 16, n);
    WalkStep(mem, p, n);
  }

  /** A line that ends at e, and room for a close field behind it. */
  lemma PassesThenCloses(mem: Memory, p: nat, e: nat, n: nat)
    requires p < e && LineEnd(mem, p, e) && e + 1 < p + n && At(mem, e + 2, CLOSE_LINE + [CR, LF])
    requires CloseField(LineOf(mem, p, e)) || n - (e + 2 - p) + Skipped(LineOf(mem, p, e)) >= 18
    ensures Walk(mem, p, n)
  {
    hide CloseField, Walk, FindCrlf, Skipped, At, LineOf;
    LineFound(mem, p, e, n);
    WalkStep(mem, p, n);
    if !CloseField(LineOf(mem, p, e)) { ClosesAt(mem, e + 2, n - (e + 2 - p) + Skipped(LineOf(mem, p, e))); }
  }

  lemma AtSuffix(mem: Memory, p: nat, t: Text, u: Text)
    requires At(mem, p, t + u)
    ensures At(mem, p + |t|, u)
  {
    forall k | 0 <= k < |u| ensures mem(p + |t| + k) == u[k] {
      assert mem(p + (|t| + k)) == (t + u)[|t| + k];
    }
  }

  lemma AtThen(mem: Memory, p: nat, length: nat, u: Text)
    requires p <= length
    ensures At(Then(mem, length, u), p, LineOf(mem, p, length) + u)
    ensures SameOctets(mem, Then(mem, length, u), length)
  {
    ThenSame(mem, length, u);
  }

  /** Memory that finishes the name, or the line, and brings a close. */
  lemma Completed(mem: Memory, p: nat, n: nat, length: nat) returns (other: Memory)
    requires p <= length && p + n >= length + 11
    requires Completable(LineOf(mem, p, length), p + n - length)
    ensures SameOctets(mem, other, length) && Walk(other, p, n)
  {
    var line, drift, end := LineOf(mem, p, length), p + n - length, [CR, LF];
    if NoCr(line) && |line| <= 11 && SameFold(line, CLOSE_LINE[..|line|]) && |line| + drift >= 18 {
      var u := CLOSE_LINE[|line|..] + end;
      other := Then(mem, length, u);
      AtThen(mem, p, length, u);
      NameCompleted(other, p, n, line);
    } else if NoCr(line) {
      var u := end + (CLOSE_LINE + end);
      other := Then(mem, length, u);
      AtThen(mem, p, length, u);
      LineCompleted(other, p, n, line);
    } else {
      var u := [LF] + (CLOSE_LINE + end);
      other := Then(mem, length, u);
      AtThen(mem, p, length, u);
      assert line + u == line[..|line| - 1] + (end + (CLOSE_LINE + end));
      LineCompleted(other, p, n, line[..|line| - 1]);
    }
  }

  lemma FoldCompleted(line: Text)
    requires |line| <= 11 && SameFold(line, CLOSE_LINE[..|line|])
    ensures SameFold(line + CLOSE_LINE[|line|..], CLOSE_LINE) && |line + CLOSE_LINE[|line|..]| == 16
  {
    hide ToLower;
    var whole := line + CLOSE_LINE[|line|..];
    forall k | 0 <= k < 16 ensures ToLower(whole[k]) == ToLower(CLOSE_LINE[k]) {
      if k < |line| { assert ToLower(line[k]) == ToLower(CLOSE_LINE[..|line|][k]); }
    }
  }

  lemma NameCompleted(mem: Memory, p: nat, n: nat, line: Text)
    requires |line| <= 11 && SameFold(line, CLOSE_LINE[..|line|]) && n >= 18
    requires At(mem, p, line + (CLOSE_LINE[|line|..] + [CR, LF]))
    ensures Walk(mem, p, n)
  {
    hide CloseField, Walk, FindCrlf, At, LineOf, SameFold, NoCr;
    var whole := line + CLOSE_LINE[|line|..];
    assert whole + [CR, LF] == line + (CLOSE_LINE[|line|..] + [CR, LF]);
    FoldCompleted(line);
    CloseLineIsCloseField(whole);
    LineAt(mem, p, whole);
    LineFound(mem, p, p + 16, n);
    WalkStep(mem, p, n);
  }

  lemma LineCompleted(mem: Memory, p: nat, n: nat, line: Text)
    requires line != [] && NoCr(line) && |line| + 2 <= n
    requires At(mem, p, line + ([CR, LF] + (CLOSE_LINE + [CR, LF])))
    requires CloseField(line) || n - (|line| + 2) + Skipped(line) >= 18
    ensures Walk(mem, p, n)
  {
    hide CloseField, Walk, FindCrlf, LineOf, Skipped, NoCr;
    var close, whole := CLOSE_LINE + [CR, LF], line + [CR, LF];
    assert line + ([CR, LF] + close) == whole + close;
    assert At(mem, p, whole) by { assert forall k | 0 <= k < |whole| :: whole[k] == (whole + close)[k]; }
    LineAt(mem, p, line);
    AtSuffix(mem, p, whole, close);
    assert p + |whole| == p + |line| + 2;
    PassesThenCloses(mem, p, p + |line|, n);
  }

  lemma LineInside(mem: Memory, p: nat, n: nat, length: nat)
    requires p <= length && FindCrlf(Then(mem, length, []), p, n).Some?
    ensures FindCrlf(mem, p, length - p).Some?
  {
    hide FindCrlf;
    var blank, e := Then(mem, length, []), FindCrlf(Then(mem, length, []), p, n).value;
    ThenSame(mem, length, []);
    assert blank(e) == CR && blank(e + 1) == LF;
    assert e + 1 < length;
    assert mem(e) == blank(e) && mem(e + 1) == blank(e + 1);
    assert forall k: nat | p <= k < e :: mem(k) == blank(k);
    assert LineEnd(mem, p, e);
  }

  /** With no line end behind the octets received, an unfinished line asks for nothing. */
  lemma BlankMemory(mem: Memory, p: nat, n: nat, length: nat)
    requires Unfinished(mem, p, n, length)
    ensures !Walk(Then(mem, length, []), p, n)
  {
    hide FindCrlf;
    if FindCrlf(Then(mem, length, []), p, n).Some? { LineInside(mem, p, n, length); }
  }

  // ---------------------------------------------------------------- the exact condition

  lemma StandingSame(mem: Memory, other: Memory, length: nat)
    requires SameOctets(mem, other, length)
    ensures Standing(mem, length) == Standing(other, length)
  {
    hide SameOctets, FindCrlf, Reach;
    FindCrlfSame(mem, other, length, 0, length);
    match FindCrlf(mem, 0, length)
    case None =>
    case Some(e) => ReachSame(mem, other, e + 2, length - (e + 2), length);
  }

  lemma SameUndecided(mem: Memory, other: Memory, length: nat)
    requires SameOctets(mem, other, length)
    ensures Undecided(mem, length) <==> Undecided(other, length)
  {
    hide SameOctets, Standing, Completable;
    StandingSame(mem, other, length);
    var at := Standing(mem, length);
    if at.Open? { LineSame(mem, other, length, at.p, length); }
  }

  /** What the walk's standing says of its verdict and of the right one. */
  lemma VerdictAt(mem: Memory, length: nat)
    ensures var at := Standing(mem, length);
            && (AsksClose(Octets(mem, length)) <==> at == Decided(true))
            && (at.Decided? ==> (Verdict(mem, length) <==> at.close))
            && (at.Open? ==> (Verdict(mem, length) <==> Walk(mem, at.p, at.n)) && Unfinished(mem, at.p, at.n, length))
  {
    hide FindCrlf, Reach, Walk, Verdict, AsksClose, Unfinished;
    VerdictStarts(mem, length);
    match FindCrlf(mem, 0, length)
    case None => NoFirstLine(mem, length);
    case Some(e) =>
      PastFirstLine(mem, e);
      WalkPasses(mem, e + 2, length - (e + 2), length);
      ReachIsRight(mem, e + 2, length - (e + 2), length);
      ReachIsUnfinished(mem, e + 2, length - (e + 2), length);
  }

  lemma DecidedIsRight(mem: Memory, length: nat)
    requires !Undecided(mem, length)
    ensures Verdict(mem, length) <==> AsksClose(Octets(mem, length))
  {
    hide Standing, Walk, Verdict, AsksClose, Completable, Unfinished;
    VerdictAt(mem, length);
    var at := Standing(mem, length);
    if at.Open? && Walk(mem, at.p, at.n) { OnlyCompletable(mem, at.p, at.n, length); }
  }

  lemma UndecidedCloses(mem: Memory, length: nat) returns (other: Memory)
    requires Undecided(mem, length)
    ensures SameOctets(mem, other, length) && Verdict(other, length) && !AsksClose(Octets(mem, length))
  {
    hide Standing, Walk, Verdict, AsksClose, Completable, SameOctets, FindCrlf;
    VerdictAt(mem, length);
    var at := Standing(mem, length);
    other := Completed(mem, at.p, at.n, length);
    StandingSame(mem, other, length);
    VerdictAt(other, length);
  }

  /** The parser's verdict is that of the octets received, whatever memory holds behind them, if and only if they leave
      nothing to it. */
  lemma CutOffVerdict(mem: Memory, length: nat)
    ensures (forall other | SameOctets(mem, other, length) ::
               Verdict(other, length) <==> AsksClose(Octets(mem, length)))
       <==> !Undecided(mem, length)
  {
    hide Undecided, Verdict, AsksClose, SameOctets;
    if Undecided(mem, length) {
      var other := UndecidedCloses(mem, length);
    } else {
      forall other | SameOctets(mem, other, length)
        ensures Verdict(other, length) <==> AsksClose(Octets(mem, length))
      {
        SameUndecided(mem, other, length);
        DecidedIsRight(other, length);
        SameText(mem, other, length);
      }
    }
  }

  lemma SameText(mem: Memory, other: Memory, length: nat)
    requires SameOctets(mem, other, length)
    ensures Octets(mem, length) == Octets(other, length)
  {
  }

  /** Such octets can be followed by memory with either verdict. */
  lemma MemoryDecides(mem: Memory, length: nat)
    requires Undecided(mem, length)
    ensures exists other :: SameOctets(mem, other, length) && Verdict(other, length)
    ensures exists other :: SameOctets(mem, other, length) && !Verdict(other, length)
  {
    hide Standing, Walk, Verdict, AsksClose, Completable, SameOctets, FindCrlf, Unfinished;
    var other := UndecidedCloses(mem, length);
    var at, blank := Standing(mem, length), Then(mem, length, []);
    ThenSame(mem, length, []);
    StandingSame(mem, blank, length);
    VerdictAt(mem, length);
    VerdictAt(blank, length);
    BlankMemory(mem, at.p, at.n, length);
  }

  const CUT: Text := "G\r\n" + OTHER + "\r\n" + NAME
  const OTHER: Text := "connection:x"
  const NAME: Text := "connection:cl"

  lemma OtherIsPassed()
    ensures NoCr(OTHER) && !CloseField(OTHER) && Skipped(OTHER) == 11
    ensures NoCr(NAME) && Skipped(NAME) >= 11
  {
    if CloseField(OTHER) { CloseFieldIsLong(OTHER); }
    hide CloseField;
    assert SameFold(OTHER[..10], CONNECTION) && OTHER[10] == ':' && OTHER[11..] == "x";
    assert SameFold(NAME[..10], CONNECTION) && NAME[10] == ':';
  }

  /** A request that is cut off in its second Connection field is one of them: it asks for nothing so far, and memory
      can make a close of it. */
  lemma ACutOffRequest(mem: Memory)
    requires At(mem, 0, CUT)
    ensures |CUT| == 30 && Undecided(mem, 30) && !AsksClose(Octets(mem, 30))
  {
    hide CloseField, Skipped, FindCrlf, AsksClose, Completable, MemChr;
    OtherIsPassed();
    CutLines(mem);
    LineFound(mem, 0, 1, 30);
    LineFound(mem, 3, 15, 27);
    NoLineFound(mem, 17, 13);
    assert Reach(mem, 17, 24, 30) == Open(17, 24);
    assert Standing(mem, 30) == Open(17, 24);
    assert Completable(NAME, 11) by { NameIsCompletable(); }
    VerdictAt(mem, 30);
  }

  lemma NameIsCompletable()
    ensures Completable(NAME, 11)
  {
    hide CloseField, Skipped;
    OtherIsPassed();
  }

  lemma CutLines(mem: Memory)
    requires At(mem, 0, CUT)
    ensures LineEnd(mem, 0, 1) && LineEnd(mem, 3, 15) && LineOf(mem, 3, 15) == OTHER && LineOf(mem, 17, 30) == NAME
  {
    hide At, LineEnd, LineOf;
    var rest := NAME;
    var two := OTHER + [CR, LF] + rest;
    assert CUT == "G" + [CR, LF] + two;
    AtPrefix(mem, 0, "G" + [CR, LF], two);
    LineAt(mem, 0, "G");
    AtSuffix(mem, 0, "G" + [CR, LF], two);
    AtPrefix(mem, 3, OTHER + [CR, LF], rest);
    OtherIsPassed();
    LineAt(mem, 3, OTHER);
    AtSuffix(mem, 3, OTHER + [CR, LF], rest);
    LineIs(mem, 17, NAME);
  }

  lemma LineIs(mem: Memory, p: nat, t: Text)
    requires At(mem, p, t)
    ensures LineOf(mem, p, p + |t|) == t
  {
    var line := LineOf(mem, p, p + |t|);
    forall k | 0 <= k < |t| ensures line[k] == t[k] {
      assert line[k] == Octets(mem, p + |t|)[p + k] == mem(p + k);
    }
  }

  lemma AtPrefix(mem: Memory, p: nat, t: Text, u: Text)
    requires At(mem, p, t + u)
    ensures At(mem, p, t)
  {
    assert forall k | 0 <= k < |t| :: t[k] == (t + u)[k];
  }

  lemma NoLineFound(mem: Memory, p: nat, n: nat)
    requires NoCr(LineOf(mem, p, p + n))
    ensures FindCrlf(mem, p, n) == None && !StopsWithin(mem, p, p + n)
  {
    var line := LineOf(mem, p, p + n);
    assert forall k: nat | p <= k < p + n :: mem(k) == line[k - p] != CR;
  }
}
