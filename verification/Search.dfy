/** nginx's case-insensitive substring search, as the io_uring, multi-process epoll and blocking servers
    use it to recognise a request that asks for its connection to be closed. */
module Search {
  import opened Bytes

  const CONNECTION_CLOSE: Text := "\r\nConnection: close\r\n"

  predicate NulFree(t: Text) {
    forall k | 0 <= k < |t| :: t[k] != NUL
  }

  /** The needle occurs at index i, ignoring ASCII case. */
  predicate OccursAt(hay: Text, i: int, needle: Text) {
    && 0 <= i <= |hay| - |needle|
    && forall k | 0 <= k < |needle| :: ToLower(hay[i + k]) == ToLower(needle[k])
  }

  ghost predicate Contains(hay: Text, needle: Text) {
    exists i :: OccursAt(hay, i, needle)
  }

  /** The first k octets of x and y agree under folding, and no NUL is among them. */
  ghost predicate AgreeFor(x: Text, y: Text, k: nat)
    requires k <= |x| && k <= |y|
  {
    forall m | 0 <= m < k :: ToLower(x[m]) == ToLower(y[m]) != NUL
  }

  /** Compares up to len octets, from i in a and from j in b, stopping at the first difference or at a NUL
      common to both. Zero is equality; otherwise the result is the difference at the first place that differs. */
  method StrNCaseCmp(a: Text, i: nat, b: Text, j: nat, len: nat) returns (r: int)
    requires i + len <= |a| && j + len <= |b|
    ensures var x, y := a[i..i + len], b[j..j + len];
            exists k: nat :: k <= len && AgreeFor(x, y, k)
              && if k == len then r == 0
                 else r == ToLower(x[k]) as int - ToLower(y[k]) as int && (r == 0 ==> x[k] == NUL)
    ensures NulFree(b[j..j + len]) ==> (r == 0 <==> SameFold(a[i..i + len], b[j..j + len]))
  {
    ghost var x, y := a[i..i + len], b[j..j + len];
    var s1, s2, n: nat := i, j, len;
    while n > 0
      invariant n <= len && s1 == i + (len - n) && s2 == j + (len - n)
      invariant AgreeFor(x, y, len - n)
    {
      assert a[s1] == x[len - n] && b[s2] == y[len - n];
      var c1 := ToLower(a[s1]);
      var c2 := ToLower(b[s2]);
      s1, s2 := s1 + 1, s2 + 1;
      if c1 == c2 {
        if c1 != NUL {
          n := n - 1;
          continue;
        }
        return 0;
      }
      return c1 as int - c2 as int;
    }
    return 0;
  }

  /** Once the first octets agree, an occurrence is agreement of the remaining ones. */
  lemma TailMatch(hay: Text, last: nat, at: nat, needle: Text)
    requires |needle| > 0 && at + |needle| <= last <= |hay|
    requires ToLower(hay[at]) == ToLower(needle[0])
    ensures OccursAt(hay[..last], at, needle)
       <==> SameFold(hay[at + 1..at + |needle|], needle[1..])
  {
    var h, x, y := hay[..last], hay[at + 1..at + |needle|], needle[1..];
    if SameFold(x, y) {
      forall k | 0 <= k < |needle| ensures ToLower(h[at + k]) == ToLower(needle[k]) {
        if k > 0 { assert ToLower(x[k - 1]) == ToLower(y[k - 1]); }
      }
    }
    if OccursAt(h, at, needle) {
      forall k | 0 <= k < |y| ensures ToLower(x[k]) == ToLower(y[k]) {
        assert ToLower(h[at + (k + 1)]) == ToLower(needle[k + 1]);
      }
    }
  }

  lemma NoMatchHere(hay: Text, last: nat, at: nat, needle: Text)
    requires |needle| > 0 && last <= |hay|
    requires at + |needle| > last || ToLower(hay[at]) != ToLower(needle[0])
    ensures !OccursAt(hay[..last], at, needle)
  {
    if at + |needle| <= last {
      assert hay[..last][at + 0] == hay[at] && needle[0] == needle[0 + 0];
    }
  }

  ghost predicate NoneIn(hay: Text, from: nat, to: int, needle: Text) {
    forall i | from <= i < to :: !OccursAt(hay, i, needle)
  }

  lemma NoneFrom(hay: Text, from: nat, at: nat, needle: Text)
    requires NoneIn(hay, from, at, needle) && at + |needle| > |hay|
    ensures forall i :: from <= i ==> !OccursAt(hay, i, needle)
  {
  }

  /** Searches [from, last) of the haystack for a needle of length n + 1.
      The result is the least index of an occurrence, and None exactly when there is no occurrence. */
  method StrLCaseStrN(hay: Text, from: nat, last: nat, needle: Text, n: nat) returns (r: Option<nat>)
    requires from <= last <= |hay|
    requires |needle| == n + 1 && NulFree(needle)
    ensures r.None? <==> forall i :: from <= i ==> !OccursAt(hay[..last], i, needle)
    ensures r.Some? ==> from <= r.value && OccursAt(hay[..last], r.value, needle)
    ensures r.Some? ==> NoneIn(hay[..last], from, r.value, needle)
  {
    hide OccursAt;
    ghost var text := hay[..last];
    var s1, s2 := from, 1;
    var c2 := ToLower(needle[0]);
    var lim := last - n;
    while true
      invariant from <= s1 <= last
      invariant NoneIn(text, from, s1, needle)
      decreases lim - s1
    {
      ghost var before := s1;
      while true
        invariant before <= s1 <= last && (before < s1 ==> s1 <= lim)
        invariant NoneIn(text, from, s1, needle)
        decreases lim - s1
      {
        if s1 >= lim {
          NoneFrom(text, from, s1, needle);
          return None;
        }
        var c1 := ToLower(hay[s1]);
        s1 := s1 + 1;
        if c1 == c2 {
          break;
        }
        NoMatchHere(hay, last, s1 - 1, needle);
      }
      var d := StrNCaseCmp(hay, s1, needle, s2, n);
      TailMatch(hay, last, s1 - 1, needle);
      assert needle[1..1 + n] == needle[1..];
      if d == 0 {
        break;
      }
    }
    return Some(s1 - 1);
  }

  /** The recogniser of the io_uring server: does the request hold the needle anywhere? */
  method HasConnectionClose(req: Text) returns (r: bool)
    ensures r <==> Contains(req, CONNECTION_CLOSE)
  {
    var p := StrLCaseStrN(req, 0, |req|, CONNECTION_CLOSE, |CONNECTION_CLOSE| - 1);
    assert req[..|req|] == req;
    r := p.Some?;
  }
}
