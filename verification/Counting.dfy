/** Counting places: n different numbers below n are all of them. */
module Counting {

  ghost function UpTo(n: nat): (r: set<nat>)
    ensures forall x: nat :: x in r <==> x < n
    ensures |r| == n
  {
    if n == 0 then {} else UpTo(n - 1) + {n - 1}
  }

  ghost predicate Distinct<T(!new)>(l: seq<T>) {
    forall j, k | 0 <= j < k < |l| :: l[j] != l[k]
  }

  ghost function Elements<T(!new)>(l: seq<T>): (r: set<T>)
    ensures forall x :: x in r <==> x in l
    ensures Distinct(l) ==> |r| == |l|
  {
    if l == [] then {} else
      var front, last := l[..|l| - 1], l[|l| - 1];
      assert l == front + [last];
      Elements(front) + {last}
  }

  lemma TailDistinct<T(!new)>(l: seq<T>)
    requires Distinct(l) && l != []
    ensures Distinct(l[1..]) && l[0] !in l[1..] && forall x | x in l[1..] :: x in l
  {
    var rest := l[1..];
    forall x | x in rest ensures x in l && x != l[0] {
      var k :| 0 <= k < |rest| && rest[k] == x;
      assert x == l[k + 1];
    }
    assert forall j, k | 0 <= j < k < |rest| :: l[j + 1] == rest[j] != rest[k] == l[k + 1];
  }

  ghost predicate Injective<K, V>(m: map<K, V>) {
    forall i, j | i in m && j in m && i != j :: m[i] != m[j]
  }

  lemma {:induction false} ValuesOfInjective<K, V>(m: map<K, V>)
    requires Injective(m)
    ensures |m.Values| == |m|
    decreases |m|
  {
    if m.Keys != {} {
      var k :| k in m;
      var rest := m - {k};
      assert rest.Keys == m.Keys - {k};
      ValuesOfInjective(rest);
      forall v | v in m.Values ensures v in rest.Values + {m[k]} {
        var i :| i in m && m[i] == v;
        assert i == k || (i in rest && rest[i] == v);
      }
      forall v | v in rest.Values ensures v in m.Values && v != m[k] {
        var i :| i in rest && rest[i] == v;
        assert m[i] == v;
      }
      assert m.Values == rest.Values + {m[k]};
    }
  }

  lemma InjectiveInsert<K, V>(m: map<K, V>, k: K, v: V)
    requires Injective(m) && k !in m && forall i | i in m :: m[i] != v
    ensures Injective(m[k := v]) && |m[k := v]| == |m| + 1
  {
    assert m[k := v].Keys == m.Keys + {k};
  }

  lemma ValueHasKey<K, V>(m: map<K, V>, v: V) returns (k: K)
    requires v in m.Values
    ensures k in m && m[k] == v
  {
    k :| k in m && m[k] == v;
  }

  lemma {:induction false} FillsRange(places: set<nat>, n: nat)
    requires |places| == n && forall x | x in places :: x < n
    ensures places == UpTo(n)
  {
    if n > 0 {
      if n - 1 in places {
        FillsRange(places - {n - 1}, n - 1);
      } else {
        SubsetSize(places, UpTo(n - 1));
      }
    }
  }

  /** Three sets without a common element, n numbers below n in all, hold every number below n. */
  lemma ThreeParts(a: set<nat>, b: set<nat>, c: set<nat>, n: nat)
    requires |a| + |b| + |c| == n
    requires forall x | x in a :: x < n && x !in b && x !in c
    requires forall x | x in b :: x < n && x !in c
    requires forall x | x in c :: x < n
    ensures forall i: nat | i < n :: i in a || i in b || i in c
  {
    assert |a + b| == |a| + |b| by { assert a !! b; }
    assert |a + b + c| == |a + b| + |c| by { assert (a + b) !! c; }
    FillsRange(a + b + c, n);
  }

  lemma SubsetSize<T>(a: set<T>, b: set<T>)
    requires a <= b
    ensures |a| <= |b|
  {
    assert b == a + (b - a);
  }
}
