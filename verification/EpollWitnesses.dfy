/** Runs of the epoll servers that end with every slot gone. */
module EpollWitnesses {
  import opened Epoll
  import opened EpollSafety

  lemma StartIsReachable(variant: Variant, serverFd: int, slots: seq<Slot>)
    requires |slots| == WORKER_CONNECTIONS
    ensures Reachable(variant, serverFd, Start(slots))
  {
    assert LeadsTo(variant, serverFd, slots, [Start(slots)], [], Start(slots));
  }

  lemma NextIsReachable(variant: Variant, serverFd: int, s: State, step: Step, t: State)
    requires Reachable(variant, serverFd, s) && IsStep(variant, serverFd, s, step, t)
    ensures Reachable(variant, serverFd, t)
  {
    hide IsStep, Start;
    var slots, trace, steps :| LeadsTo(variant, serverFd, slots, trace, steps, s);
    var longer, more := trace + [t], steps + [step];
    forall i | 0 <= i < |more| ensures IsStep(variant, serverFd, longer[i], more[i], longer[i + 1]) {
      if i < |steps| { assert IsStep(variant, serverFd, trace[i], steps[i], trace[i + 1]); }
    }
    assert LeadsTo(variant, serverFd, slots, longer, more, t);
  }

  /** Beyond the largest descriptor in use there is always another. */
  lemma FreshDescriptor(serverFd: int, open: set<int>) returns (fd: int)
    ensures fd >= 0 && fd > serverFd && forall f | f in open :: fd > f
    decreases |open|
  {
    if f :| f in open {
      fd := FreshDescriptor(serverFd, open - {f});
      if fd <= f { fd := f + 1; }
      assert open == open - {f} + {f};
    } else {
      fd := if serverFd < 0 then 0 else serverFd + 1;
    }
  }

  function Arrival(fd: int, addOk: bool): Env {
    Env(fd, true, addOk, 0, false, 0, true, true, true)
  }

  /** A client waits to be accepted. */
  lemma ClientArrives(variant: Variant, serverFd: int, s: State) returns (t: State)
    requires Reachable(variant, serverFd, s) && s.batch == []
    ensures Reachable(variant, serverFd, t) && t == s.(batch := [ServerReady])
  {
    hide Reachable;
    t := s.(batch := [ServerReady]);
    NextIsReachable(variant, serverFd, s, WaitStep([ServerReady]), t);
  }

  /** While a slot is free it is taken by the next client, or lost by the multi-process server when the client cannot be
      registered; in the latter case no descriptor stays open. */
  lemma OneSlotLess(variant: Variant, serverFd: int, s: State, addOk: bool) returns (t: State)
    requires Reachable(variant, serverFd, s) && s.batch == [] && s.free != []
    requires addOk || variant == MultiProcess
    ensures Reachable(variant, serverFd, t) && t.batch == [] && |t.free| == |s.free| - 1
    ensures !addOk ==> t.open == s.open
  {
    hide Reachable, Inv;
    var u := ClientArrives(variant, serverFd, s);
    ReachableIsSafe(variant, serverFd, u);
    InvIsWellFormed(variant, serverFd, u);
    var fd := FreshDescriptor(serverFd, u.open);
    t := HandleEvent(variant, u, Arrival(fd, addOk)).state;
    NextIsReachable(variant, serverFd, u, EventStep(Arrival(fd, addOk)), t);
    assert u.open + {fd} - {fd} == u.open;
  }

  lemma {:induction false} NoSlotLeft(variant: Variant, serverFd: int, s: State, addOk: bool) returns (t: State)
    requires Reachable(variant, serverFd, s) && s.batch == [] && (addOk || variant == MultiProcess)
    ensures Reachable(variant, serverFd, t) && t.batch == [] && t.free == []
    ensures !addOk ==> t.open == s.open
    decreases |s.free|
  {
    hide Reachable;
    if s.free == [] {
      t := s;
    } else {
      var u := OneSlotLess(variant, serverFd, s, addOk);
      t := NoSlotLeft(variant, serverFd, u, addOk);
    }
  }

  ghost predicate DiesAt(variant: Variant, serverFd: int, s: State, env: Env) {
    CanAnswer(serverFd, s, env) && HandleEvent(variant, s, env) == Halted(NoSlot)
  }

  /** Both servers can come to dereference the NULL slot. */
  lemma TheProcessCanDie(variant: Variant, serverFd: int, slots: seq<Slot>)
    requires |slots| == WORKER_CONNECTIONS
    ensures exists s, env :: Reachable(variant, serverFd, s) && DiesAt(variant, serverFd, s, env)
  {
    hide Reachable, Inv;
    StartIsReachable(variant, serverFd, slots);
    var s := NoSlotLeft(variant, serverFd, Start(slots), true);
    var t, fd := NextAccept(variant, serverFd, s);
    assert DiesAt(variant, serverFd, t, Arrival(fd, true));
  }

  /** The multi-process server even without a single open connection, after 1024 registrations have failed. */
  lemma DiesWithoutConnections(serverFd: int, slots: seq<Slot>)
    requires |slots| == WORKER_CONNECTIONS
    ensures exists s, env ::
              Reachable(MultiProcess, serverFd, s) && s.open == {} && DiesAt(MultiProcess, serverFd, s, env)
  {
    hide Reachable, Inv;
    StartIsReachable(MultiProcess, serverFd, slots);
    var s := NoSlotLeft(MultiProcess, serverFd, Start(slots), false);
    var t, fd := NextAccept(MultiProcess, serverFd, s);
    assert DiesAt(MultiProcess, serverFd, t, Arrival(fd, true));
  }

  lemma NextAccept(variant: Variant, serverFd: int, s: State) returns (t: State, fd: int)
    requires Reachable(variant, serverFd, s) && s.batch == [] && s.free == []
    ensures Reachable(variant, serverFd, t) && t.open == s.open && DiesAt(variant, serverFd, t, Arrival(fd, true))
  {
    hide Reachable, Inv;
    t := ClientArrives(variant, serverFd, s);
    ReachableIsSafe(variant, serverFd, t);
    InvIsWellFormed(variant, serverFd, t);
    fd := FreshDescriptor(serverFd, t.open);
  }
}
