/** The per-thread cache of the rendered date: a fixed buffer, its fill and the second it was rendered for. */
module DateCache {
  import opened Bytes

  const SIZE: nat := 128

  /** httpdate's Display of a time given in whole seconds since 1970: the pieces it writes, or a panic. */
  type Render = int -> Option<seq<Text>>

  /** The cache as a value: `text` is the filled part of the buffer. */
  datatype Cache = Cache(key: nat, text: Text)
  datatype Outcome = Written(text: Text) | Panicked

  const FRESH: Cache := Cache(0, [])

  /** A clock before 1970 reads as 0. */
  function Unix(now: int): nat {
    if now < 0 then 0 else now
  }

  /** The text in the buffer after writing pieces behind what is there, up to the first that does not fit. */
  function Fill(text: Text, pieces: seq<Text>): (r: Text)
    requires |text| <= SIZE
    ensures |r| <= SIZE && text <= r
    decreases |pieces|
  {
    if pieces == [] || |text| + |pieces[0]| > SIZE then text else Fill(text + pieces[0], pieces[1..])
  }

  /** The date of a clock reading, when it can be rendered and fits into the buffer. */
  function Date(render: Render, now: int): Option<Text> {
    match render(now)
    case None => None
    case Some(pieces) => if |Concat(pieces)| <= SIZE then Some(Concat(pieces)) else None
  }

  lemma {:induction false} FillsWhenItFits(text: Text, pieces: seq<Text>)
    requires |text| <= SIZE
    ensures Fill(text, pieces) == text + Concat(pieces) <==> |text| + |Concat(pieces)| <= SIZE
    decreases |pieces|
  {
    if pieces != [] && |text| + |Concat(pieces)| <= SIZE {
      FillsWhenItFits(text + pieces[0], pieces[1..]);
      assert text + pieces[0] + Concat(pieces[1..]) == text + Concat(pieces);
    } else if pieces != [] {
      assert |Fill(text, pieces)| < |text + Concat(pieces)|;
    }
  }

  /** What one formatting leaves in the cache. The key is set before the text is rendered, so a panic half-way leaves
      the new key beside a text that is not its date. */
  function Next(render: Render, c: Cache, now: int): (r: Cache)
    requires |c.text| <= SIZE
    ensures |r.text| <= SIZE
  {
    if c.key == Unix(now) then c
    else match render(now)
      case None => Cache(Unix(now), [])
      case Some(pieces) => Cache(Unix(now), Fill([], pieces))
  }

  function Output(render: Render, c: Cache, now: int): Outcome
    requires |c.text| <= SIZE
  {
    if c.key == Unix(now) then Written(c.text)
    else match Date(render, now)
      case None => Panicked
      case Some(text) => Written(text)
  }

  class LastRenderedNow {
    const bytes: array<char>
    var amt: nat
    var unixDate: nat

    ghost predicate Valid()
      reads this
    {
      bytes.Length == SIZE && amt <= SIZE
    }

    ghost function View(): (c: Cache)
      reads this, bytes
      requires Valid()
      ensures |c.text| <= SIZE
    {
      Cache(unixDate, bytes[..amt])
    }

    constructor ()
      ensures Valid() && fresh(bytes) && View() == FRESH
    {
      bytes := new char[SIZE];
      amt, unixDate := 0, 0;
    }

    /** Copies s behind the filled part; a piece that does not fit panics before anything is changed. */
    method WriteStr(s: Text) returns (ok: bool)
      requires Valid()
      modifies this`amt, bytes
      ensures Valid() && ok == (|old(View()).text| + |s| <= SIZE)
      ensures View() == if ok then old(View()).(text := old(View()).text + s) else old(View())
    {
      ok := amt + |s| <= bytes.Length;
      if ok {
        forall k | 0 <= k < |s| {
          bytes[amt + k] := s[k];
        }
        assert bytes[..amt + |s|] == old(bytes[..amt]) + s;
        amt := amt + |s|;
      }
    }

    method Update(render: Render, now: int) returns (ok: bool)
      requires Valid()
      modifies this, bytes
      ensures Valid() && ok == Date(render, now).Some?
      ensures View() == Cache(Unix(now), if render(now).None? then [] else Fill([], render(now).value))
      ensures ok ==> View().text == Date(render, now).value
    {
      amt, unixDate := 0, Unix(now);
      match render(now)
      case None => ok := false;
      case Some(pieces) =>
        ok := true;
        var i := 0;
        FillsWhenItFits([], pieces);
        while ok && i < |pieces|
          invariant i <= |pieces| && Valid() && unixDate == Unix(now)
          invariant ok ==> Fill([], pieces) == Fill(View().text, pieces[i..])
          invariant ok ==> |View().text| + |Concat(pieces[i..])| == |Concat(pieces)|
          invariant !ok ==> Fill([], pieces) == View().text && |Concat(pieces)| > SIZE
        {
          assert pieces[i..][1..] == pieces[i + 1..];
          ok := WriteStr(pieces[i]);
          i := i + 1;
        }
        assert [] + Concat(pieces) == Concat(pieces);
    }

    /** Display for Now: the text written out, or a panic, and the cache it leaves. */
    method Fmt(render: Render, now: int) returns (out: Outcome)
      requires Valid()
      modifies this, bytes
      ensures Valid() && View() == Next(render, old(View()), now)
      ensures out == Output(render, old(View()), now)
    {
      if unixDate != Unix(now) {
        var ok := Update(render, now);
        if !ok {
          return Panicked;
        }
      }
      out := Written(bytes[..amt]);
    }
  }

  // ---------------------------------------------------------------- runs of clock readings

  /** The cache of a thread after it has formatted each of the readings in turn. */
  function After(render: Render, readings: seq<int>): (c: Cache)
    ensures |c.text| <= SIZE
  {
    if readings == [] then FRESH
    else Next(render, After(render, readings[..|readings| - 1]), readings[|readings| - 1])
  }

  function OutputAt(render: Render, readings: seq<int>, k: nat): Outcome
    requires k < |readings|
  {
    Output(render, After(render, readings[..k]), readings[k])
  }

  /** The second before reading k, which for a new thread is the zero in its cache. */
  function Before(readings: seq<int>, k: nat): nat
    requires k <= |readings|
  {
    if k == 0 then 0 else Unix(readings[k - 1])
  }

  /** Where the run of equal seconds that ends at reading k began; None when that is the zero of the new cache. */
  function Began(readings: seq<int>, k: nat): (j: Option<nat>)
    requires k < |readings|
    ensures j.Some? ==> j.value <= k && Unix(readings[j.value]) == Unix(readings[k])
  {
    if Before(readings, k) != Unix(readings[k]) then Some(k)
    else if k == 0 then None
    else Began(readings, k - 1)
  }

  lemma {:induction false} CacheHoldsItsSecond(render: Render, readings: seq<int>, k: nat)
    requires k < |readings|
    ensures After(render, readings[..k]).key == Before(readings, k)
    ensures var c := After(render, readings[..k + 1]);
            c.key == Unix(readings[k])
            && match Began(readings, k)
               case None => c == FRESH
               case Some(j) => Date(render, readings[j]).Some? ==> c.text == Date(render, readings[j]).value
    ensures var c := After(render, readings[..k + 1]);
            Began(readings, k).Some? ==>
              c.text == if render(readings[Began(readings, k).value]).None? then []
                        else Fill([], render(readings[Began(readings, k).value]).value)
  {
    assert readings[..k + 1][..k] == readings[..k];
    if k > 0 {
      CacheHoldsItsSecond(render, readings, k - 1);
    }
    if Began(readings, k) == Some(k) && render(readings[k]).Some? {
      var pieces := render(readings[k]).value;
      FillsWhenItFits([], pieces);
      assert [] + Concat(pieces) == Concat(pieces);
    }
  }

  /** What httpdate gives: no date before 1970, and every date it renders fits the buffer and is not empty. */
  ghost predicate Renders(render: Render) {
    forall now: int :: render(now).Some? ==> now >= 0 && Date(render, now).Some? && Date(render, now).value != []
  }

  /** With such a renderer a formatting writes the date of its own clock reading exactly when the run of equal seconds
      that the reading lies in was begun by a reading not before 1970: it goes wrong from the first reading on while
      the clock stands at zero, and after a clock before 1970 until the second changes. */
  lemma DateIsRight(render: Render, readings: seq<int>, k: nat)
    requires k < |readings| && Renders(render) && Date(render, readings[k]).Some?
    ensures OutputAt(render, readings, k) == Written(Date(render, readings[k]).value)
            <==> Began(readings, k).Some? && readings[Began(readings, k).value] >= 0
  {
    CacheHoldsItsSecond(render, readings, k);
    assert readings[..k + 1][..k] == readings[..k];
    match Began(readings, k)
    case None =>
    case Some(j) => assert readings[j] >= 0 ==> readings[j] == readings[k];
  }

  lemma {:induction false} BeganByItself(readings: seq<int>, k: nat)
    requires k < |readings| && forall i | 0 <= i <= k :: readings[i] >= 0
    ensures Began(readings, k).None? <==> forall i | 0 <= i <= k :: readings[i] == 0
  {
    if k > 0 && Began(readings, k) != Some(k) {
      BeganByItself(readings, k - 1);
    }
  }

  /** While the clock never shows a time before 1970, the only wrong dates are those of readings at zero by a thread
      that has seen nothing else; they come out empty. */
  lemma WrongOnlyAtTheEpoch(render: Render, readings: seq<int>, k: nat)
    requires k < |readings| && Renders(render) && Date(render, readings[k]).Some?
    requires forall i | 0 <= i <= k :: readings[i] >= 0
    ensures OutputAt(render, readings, k) == Written(Date(render, readings[k]).value)
            <==> exists i | 0 <= i <= k :: readings[i] != 0
    ensures (forall i | 0 <= i <= k :: readings[i] == 0) ==> OutputAt(render, readings, k) == Written([])
  {
    DateIsRight(render, readings, k);
    BeganByItself(readings, k);
    CacheHoldsItsSecond(render, readings, k);
    assert readings[..k + 1][..k] == readings[..k];
  }

  /** A clock that goes back before 1970 and comes to second 0 afterwards: the last date comes out empty, although the
      thread has seen another second before. */
  lemma WrongAfterTheEpoch(render: Render)
    requires Renders(render) && Date(render, 0).Some?
    ensures OutputAt(render, [5, -1, 0], 1) == Panicked
    ensures OutputAt(render, [5, -1, 0], 2) == Written([]) != Written(Date(render, 0).value)
  {
    var readings := [5, -1, 0];
    assert Began(readings, 0) == Some(0) && Began(readings, 1) == Some(1) && Began(readings, 2) == Some(1);
    CacheHoldsItsSecond(render, readings, 0);
    CacheHoldsItsSecond(render, readings, 1);
    assert readings[..0 + 1] == [5] && readings[..1 + 1] == [5, -1];
    assert render(-1) == None;
  }
}
