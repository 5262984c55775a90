/** The pool of connection slots that every C server here keeps: a free list threaded through the slots themselves.
    NULL is -1. The list is a stack of slot numbers, kept as a ghost sequence. */
module Pools {

  const NIL: int := -1

  /** next[s[0]], next[s[1]], ... is the chain from head, with no slot twice. */
  ghost predicate Chain(s: seq<nat>, head: int, next: seq<int>) {
    && (forall k | 0 <= k < |s| :: s[k] < |next|)
    && (forall j, k | 0 <= j < k < |s| :: s[j] != s[k])
    && head == LinkTo(s, 0)
    && (forall k | 0 <= k < |s| :: next[s[k]] == LinkTo(s, k + 1))
  }

  function LinkTo(s: seq<nat>, k: nat): int {
    if k < |s| then s[k] else NIL
  }

  function Indices(n: nat): (s: seq<nat>)
    ensures |s| == n && forall i | 0 <= i < n :: s[i] == i
  {
    seq(n, i => i)
  }

  class FreeList {
    const next: array<int>
    var head: int
    ghost var stack: seq<nat>

    ghost predicate Valid()
      reads this, next
    {
      Chain(stack, head, next[..])
    }

    /** init_connections: links the slots from the last to the first, so that they come out in index order. */
    constructor (n: nat)
      requires n >= 1
      ensures Valid() && fresh(next) && next.Length == n
      ensures stack == Indices(n)
    {
      next := new int[n];
      head := NIL;
      stack := [];
      new;
      var i: nat := n;
      var link := NIL;
      while true
        invariant 0 < i <= n
        invariant link == (if i < n then i else NIL)
        invariant forall k | i <= k < n :: next[k] == if k + 1 < n then k + 1 else NIL
        decreases i
      {
        i := i - 1;
        next[i] := link;
        link := i;
        if i == 0 {
          break;
        }
      }
      head := 0;
      stack := Indices(n);
    }

    /** get_connection: the slot freed last, or NULL when the list is empty. */
    method Take() returns (c: int)
      requires Valid()
      modifies this
      ensures Valid()
      ensures old(stack) == [] ==> c == NIL && stack == []
      ensures old(stack) != [] ==> c == old(stack)[0] && stack == old(stack)[1..]
    {
      c := head;
      if c == NIL {
        return;
      }
      head := next[c];
      stack := stack[1..];
    }

    /** free_connection. A slot that is already on the list would tie it into a loop. */
    method Give(c: nat)
      requires Valid() && c < next.Length && c !in stack
      modifies this, next
      ensures Valid()
      ensures stack == [c] + old(stack)
    {
      next[c] := head;
      head := c;
      stack := [c] + stack;
    }
  }
}
