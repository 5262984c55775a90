/** What every event keeps, and the results about whole runs of the epoll servers. */
module EpollSafety {
  import opened Counting
  import opened Epoll

  // ---------------------------------------------------------------- pieces of a handler

  /** The first event names a live registration, and no later event of the batch is about the same descriptor. */
  lemma FirstEvent(batch: seq<Event>, registered: map<int, nat>, serials: seq<nat>)
    requires BatchOk(batch, registered, serials) && batch != []
    ensures BatchOk(batch[1..], registered, serials) && Names(batch[0], registered, serials)
    ensures batch[0].ClientReady? ==>
              forall k | 0 <= k < |batch[1..]| :: batch[1..][k].ClientReady? ==> batch[1..][k].fd != batch[0].fd
  {
    var rest := batch[1..];
    assert forall k | 0 <= k < |rest| ::
        rest[k] == batch[k + 1] != batch[0] && Names(batch[k + 1], registered, serials);
    assert Names(batch[0], registered, serials);
    assert forall j, k | 0 <= j < k < |rest| :: batch[j + 1] == rest[j] != rest[k] == batch[k + 1];
  }

  lemma SplitClose(free: seq<nat>, registered: map<int, nat>, lost: set<nat>, fd: int)
    requires Split(free, registered, lost) && fd in registered
    ensures Split([registered[fd]] + free, registered - {fd}, lost)
  {
    assert (registered - {fd}).Keys == registered.Keys - {fd};
  }

  lemma SplitGet(free: seq<nat>, registered: map<int, nat>, lost: set<nat>, fd: int)
    requires Split(free, registered, lost) && free != [] && fd !in registered
    ensures free[0] < WORKER_CONNECTIONS && forall f | f in registered :: registered[f] != free[0]
    ensures Split(free[1..], registered[fd := free[0]], lost)
    ensures Split(free[1..], registered, lost + {free[0]}) && |lost + {free[0]}| == |lost| + 1
  {
    hide Distinct, Injective;
    var c := free[0];
    assert c in free;
    TailDistinct(free);
    assert forall f | f in registered :: registered[f] != c;
    InjectiveInsert(registered, fd, c);
  }

  /** Closing the connection of a live registration that no waiting event is about. */
  lemma CloseKeeps(variant: Variant, serverFd: int, s: State, fd: int)
    requires Inv(variant, serverFd, s) && fd in s.registered
    requires forall k | 0 <= k < |s.batch| :: s.batch[k].ClientReady? ==> s.batch[k].fd != fd
    ensures s.registered[fd] < |s.slots| && Inv(variant, serverFd, CloseConnection(s, s.registered[fd]))
  {
    hide Split;
    assert s.registered[fd] < |s.slots|;
    SplitClose(s.free, s.registered, s.lost, fd);
  }

  // ---------------------------------------------------------------- one event

  lemma ClientKeeps(variant: Variant, serverFd: int, s: State, fd: int, env: Env)
    requires Inv(variant, serverFd, s) && fd in s.registered
    requires forall k | 0 <= k < |s.batch| :: s.batch[k].ClientReady? ==> s.batch[k].fd != fd
    ensures s.registered[fd] < |s.slots| && Inv(variant, serverFd, HandleClient(s, s.registered[fd], env))
  {
    hide Split, BatchOk;
    CloseKeeps(variant, serverFd, s, fd);
    CloseKeeps(variant, serverFd, s.(prevNow := env.now), fd);
  }

  lemma RegisterKeeps(variant: Variant, serverFd: int, s: State, fd: int)
    requires Inv(variant, serverFd, s) && WellFormed(s) && s.free != [] && fd !in s.open && fd != serverFd
    ensures var t := Get(s.(open := s.open + {fd}), fd);
            Inv(variant, serverFd, t.(registered := t.registered[fd := s.free[0]]))
  {
    hide Split, BatchOk, Holding, Losses, SerialsOk;
    SplitGet(s.free, s.registered, s.lost, fd);
    Grows(s.batch, s.slots, s.registered, s.serials, fd, s.free[0], s.nextSerial);
    NewSerial(s.registered, s.serials, s.nextSerial, fd, s.free[0]);
    LossesFrame(variant, s, Get(s.(open := s.open + {fd}), fd).(registered := s.registered[fd := s.free[0]]));
  }

  lemma Grows(batch: seq<Event>, slots: seq<Slot>, registered: map<int, nat>, serials: seq<nat>, fd: int, c: nat,
              n: nat)
    requires BatchOk(batch, registered, serials) && Holding(slots, registered) && fd !in registered && c < |slots|
    requires c < |serials| && forall f | f in registered :: registered[f] != c
    ensures BatchOk(batch, registered[fd := c], serials[c := n])
    ensures Holding(slots[c := Slot(fd, false)], registered[fd := c])
  {
    forall k | 0 <= k < |batch| ensures Names(batch[k], registered[fd := c], serials[c := n]) {
      assert Names(batch[k], registered, serials);
    }
  }

  /** The new connection is told apart from those that the other slots serve. */
  lemma NewSerial(registered: map<int, nat>, serials: seq<nat>, next: nat, fd: int, c: nat)
    requires SerialsOk(registered, serials, next) && fd !in registered && c < |serials|
    requires forall f | f in registered :: registered[f] != c
    ensures SerialsOk(registered, serials[c := next], next + 1)
    ensures SerialsOk(registered[fd := c], serials[c := next], next + 1)
  {
  }

  /** A descriptor that cannot be registered: the threaded server is as before, the other one is a slot short. */
  lemma RefuseKeeps(variant: Variant, serverFd: int, s: State, fd: int)
    requires Inv(variant, serverFd, s) && WellFormed(s) && s.free != [] && fd !in s.open && fd != serverFd
    ensures Inv(variant, serverFd, Refuse(variant, Get(s.(open := s.open + {fd}), fd), s.free[0], fd))
  {
    hide Split, BatchOk, SerialsOk;
    SplitGet(s.free, s.registered, s.lost, fd);
    NewSerial(s.registered, s.serials, s.nextSerial, fd, s.free[0]);
    BatchFrame(s.batch, s.registered, s.serials, s.free[0], s.nextSerial);
    assert s.registered - {fd} == s.registered;
    assert [s.free[0]] + s.free[1..] == s.free;
  }

  lemma BatchFrame(batch: seq<Event>, registered: map<int, nat>, serials: seq<nat>, c: nat, n: nat)
    requires BatchOk(batch, registered, serials) && c < |serials|
    requires forall f | f in registered :: registered[f] != c
    ensures BatchOk(batch, registered, serials[c := n])
  {
    forall k | 0 <= k < |batch| ensures Names(batch[k], registered, serials[c := n]) {
      assert Names(batch[k], registered, serials);
    }
  }

  lemma CountRequest(variant: Variant, serverFd: int, s: State)
    requires Inv(variant, serverFd, s)
    ensures Inv(variant, serverFd, s.(requests := s.requests + 1))
  {
  }

  lemma NoFreeSlot(variant: Variant, serverFd: int, s: State)
    requires Inv(variant, serverFd, s)
    ensures s.free == [] <==> |s.registered| + |s.lost| == WORKER_CONNECTIONS
  {
  }

  /** A server event: the loop dies only when the listening socket cannot be registered again, or when a connection
      was accepted and every slot is registered or lost. */
  lemma ServerKeeps(variant: Variant, serverFd: int, s: State, env: Env)
    requires Inv(variant, serverFd, s) && WellFormed(s)
    requires env.accepted == -1 || (env.accepted !in s.open && env.accepted != serverFd)
    ensures var r := HandleServer(variant, s, env);
            && (r.Next? ==> Inv(variant, serverFd, r.state))
            && (r == Halted(Exited) <==> env.accepted != -1 && s.requests % 16 == 0 && !env.readdOk)
            && (r == Halted(NoSlot) <==> env.accepted != -1 && !(s.requests % 16 == 0 && !env.readdOk)
                                         && |s.registered| + |s.lost| == WORKER_CONNECTIONS)
  {
    hide Inv, Close, CloseConnection, Refuse;
    NoFreeSlot(variant, serverFd, s);
    if env.accepted != -1 && s.free != [] {
      var s1 := s.(requests := s.requests + 1);
      CountRequest(variant, serverFd, s);
      RegisterKeeps(variant, serverFd, s1, env.accepted);
      RefuseKeeps(variant, serverFd, s1, env.accepted);
    }
  }

  lemma LossesFrame(variant: Variant, s: State, t: State)
    requires Losses(variant, s) && t.lost == s.lost && t.failures == s.failures
    ensures Losses(variant, t)
  {
  }

  lemma StepKeeps(variant: Variant, serverFd: int, s: State, step: Step)
    requires Inv(variant, serverFd, s) && Enabled(serverFd, s, step)
    ensures var r := Take(variant, serverFd, s, step); r.Next? ==> Inv(variant, serverFd, r.state)
  {
    match step
    case WaitStep(events) =>
    case WaitFails =>
    case EventStep(env) =>
      hide Split, Holding, HandleServer, HandleClient, SerialsOk, Distinct;
      FirstEvent(s.batch, s.registered, s.serials);
      var s0 := s.(batch := s.batch[1..]);
      match s.batch[0]
      case ServerReady => ServerKeeps(variant, serverFd, s0, env);
      case ClientReady(c, fd, _) => ClientKeeps(variant, serverFd, s0, fd, env);
  }

  lemma StartInv(variant: Variant, serverFd: int, slots: seq<Slot>)
    requires |slots| == WORKER_CONNECTIONS
    ensures Inv(variant, serverFd, Start(slots))
  {
  }

  /** In every run, through every interleaving of accepts, closes and reuse of slots, the invariant holds. */
  lemma {:induction false} RunsAreSafe(variant: Variant, serverFd: int, slots: seq<Slot>, trace: seq<State>,
                                       steps: seq<Step>, i: nat)
    requires IsRun(variant, serverFd, slots, trace, steps) && i < |trace|
    ensures Inv(variant, serverFd, trace[i])
  {
    hide Inv, Enabled, Take, Start;
    if i == 0 {
      StartInv(variant, serverFd, slots);
    } else {
      RunsAreSafe(variant, serverFd, slots, trace, steps, i - 1);
      assert IsStep(variant, serverFd, trace[i - 1], steps[i - 1], trace[i]);
      StepKeeps(variant, serverFd, trace[i - 1], steps[i - 1]);
    }
  }

  // ---------------------------------------------------------------- reachable states

  ghost predicate LeadsTo(variant: Variant, serverFd: int, slots: seq<Slot>, trace: seq<State>, steps: seq<Step>,
                          s: State) {
    IsRun(variant, serverFd, slots, trace, steps) && trace[|steps|] == s
  }

  /** Some run of the server ends in s, in the middle of a batch or between two. */
  ghost predicate Reachable(variant: Variant, serverFd: int, s: State) {
    exists slots, trace, steps :: LeadsTo(variant, serverFd, slots, trace, steps, s)
  }

  lemma ReachableIsSafe(variant: Variant, serverFd: int, s: State)
    requires Reachable(variant, serverFd, s)
    ensures Inv(variant, serverFd, s)
  {
    hide Inv, IsStep;
    var slots, trace, steps :| LeadsTo(variant, serverFd, slots, trace, steps, s);
    RunsAreSafe(variant, serverFd, slots, trace, steps, |steps|);
  }

  // ---------------------------------------------------------------- what follows

  /** Batch safety: an event still to be handled names a slot that is in use, not on the free list and not lost. The
      slot holds the very descriptor that the event is about, still open, and serves the very connection that the event
      was reported for, although the pair of a freed slot and a closed descriptor may come back within the batch. */
  lemma NoEventNamesARecycledSlot(variant: Variant, serverFd: int, s: State, k: nat)
    requires Reachable(variant, serverFd, s) && k < |s.batch| && s.batch[k].ClientReady?
    ensures var c, fd := s.batch[k].slot, s.batch[k].fd;
            && c < |s.slots| == |s.serials| && c !in s.free && c !in s.lost
            && s.slots[c].fd == fd && fd in s.open && fd in s.registered && s.registered[fd] == c
            && s.serials[c] == s.batch[k].serial
  {
    hide Reachable;
    ReachableIsSafe(variant, serverFd, s);
    assert Names(s.batch[k], s.registered, s.serials);
  }

  /** A slot that is taken serves a new connection: its serial number is that of no waiting event and of no other slot
      in use, and no later one is given it again. */
  lemma TakenSlotServesNewConnection(variant: Variant, serverFd: int, s: State, fd: int)
    requires Reachable(variant, serverFd, s) && WellFormed(s) && s.free != []
    ensures var c, t := s.free[0], Get(s, fd);
            && (forall k | 0 <= k < |s.batch| && s.batch[k].ClientReady? :: s.batch[k].serial < t.serials[c])
            && (forall f | f in s.registered ::
                  s.registered[f] < |s.serials| && s.serials[s.registered[f]] < t.serials[c])
            && t.serials[c] < t.nextSerial
  {
    hide Reachable;
    ReachableIsSafe(variant, serverFd, s);
    forall k | 0 <= k < |s.batch| && s.batch[k].ClientReady? ensures s.batch[k].serial < s.nextSerial {
      assert Names(s.batch[k], s.registered, s.serials);
    }
  }

  /** Serial numbers are given out in order. */
  lemma SerialsGrow(variant: Variant, serverFd: int, s: State, step: Step, t: State)
    requires Enabled(serverFd, s, step) && Take(variant, serverFd, s, step) == Next(t)
    ensures s.nextSerial <= t.nextSerial
    ensures forall c | 0 <= c < |s.serials| == |t.serials| ::
              t.serials[c] == s.serials[c] || t.serials[c] >= s.nextSerial
  {
  }

  /** What an event does to its client: the connection stays exactly when something was received and either no answer
      could be dated, or the answer went out, no close was asked for, and TCP_NODELAY is set. Otherwise precisely its
      own descriptor is closed and its slot is the next one to be taken. No other slot changes. TCP_NODELAY is recorded
      exactly for a connection that was answered and kept, and the second exactly when there was something to answer. */
  lemma ClientOutcome(variant: Variant, serverFd: int, s: State, env: Env)
    requires Reachable(variant, serverFd, s) && WellFormed(s) && s.batch != [] && s.batch[0].ClientReady?
    ensures var c, fd, r := s.batch[0].slot, s.batch[0].fd, HandleEvent(variant, s, env);
            var dated := env.now == s.prevNow || env.dateOk;
            var kept := env.received > 0
              && (dated ==> env.written && !env.closing && (s.slots[c].nodelaySet || env.nodelayOk));
            && r.Next? && |r.state.slots| == |s.slots|
            && r.state.registered == (if kept then s.registered else s.registered - {fd})
            && r.state.open == (if kept then s.open else s.open - {fd})
            && r.state.free == (if kept then s.free else [c] + s.free)
            && (forall x | 0 <= x < |s.slots| && x != c :: r.state.slots[x] == s.slots[x])
            && r.state.slots[c] == (if kept && dated then Slot(fd, true) else s.slots[c])
            && r.state.prevNow == (if env.received > 0 && dated then env.now else s.prevNow)
            && r.state.serials == s.serials && r.state.nextSerial == s.nextSerial
            && r.state.requests == s.requests && r.state.batch == s.batch[1..]
  {
    hide Reachable, Split, Losses;
    ReachableIsSafe(variant, serverFd, s);
    assert Names(s.batch[0], s.registered, s.serials);
    assert s.slots[s.batch[0].slot].fd == s.batch[0].fd;
  }

  /** What an accepted connection changes, when the process survives it: a registered one takes the first free slot;
      one that cannot be registered leaves descriptors and registrations as they were, and the list too, unless it
      is the multi-process server that was serving it. */
  lemma AcceptOutcome(variant: Variant, serverFd: int, s: State, env: Env)
    requires Reachable(variant, serverFd, s) && CanAnswer(serverFd, s, env)
    requires s.batch[0].ServerReady? && env.accepted != -1
    ensures var fd, r := env.accepted, HandleEvent(variant, s, env);
            r.Next? ==>
              && s.free != []
              && r.state.open == (if env.addOk then s.open + {fd} else s.open)
              && r.state.registered == (if env.addOk then s.registered[fd := s.free[0]] else s.registered)
              && r.state.free == (if !env.addOk && variant == Threaded then s.free else s.free[1..])
              && |r.state.slots| == |s.slots| && r.state.slots[s.free[0]] == Slot(fd, false)
              && s.free[0] < |s.serials| && r.state.serials == s.serials[s.free[0] := s.nextSerial]
              && r.state.nextSerial == s.nextSerial + 1
              && r.state.failures == s.failures + (if env.addOk then 0 else 1)
              && r.state.requests == s.requests + 1 && r.state.prevNow == s.prevNow && r.state.batch == s.batch[1..]
              && (forall x | 0 <= x < |s.slots| && x != s.free[0] :: r.state.slots[x] == s.slots[x])
  {
    hide Reachable, Split, Losses, BatchOk;
    ReachableIsSafe(variant, serverFd, s);
    assert s.free != [] ==> [s.free[0]] + s.free[1..] == s.free;
    assert s.open + {env.accepted} - {env.accepted} == s.open;
    assert s.registered - {env.accepted} == s.registered;
  }

  /** An accept that brings nothing changes nothing. */
  lemma FailedAccept(variant: Variant, s: State, env: Env)
    requires WellFormed(s) && s.batch != [] && s.batch[0].ServerReady? && env.accepted == -1
    ensures HandleEvent(variant, s, env) == Next(s.(batch := s.batch[1..]))
  {
  }

  /** epoll_wait may fail, and may report any events that differ and are about registered descriptors, with the slots
      they were registered with, up to 512 of them; and the system calls may answer each event in any way in which
      accept4 does not yield a descriptor that is open. */
  lemma EnvironmentIsFree(variant: Variant, serverFd: int, s: State, events: seq<Event>, env: Env)
    requires Reachable(variant, serverFd, s)
    ensures s.batch == [] ==> Enabled(serverFd, s, WaitFails)
    ensures |events| > 512 ==> !Enabled(serverFd, s, WaitStep(events))
    ensures s.batch == [] && |events| <= 512 ==>
              (Enabled(serverFd, s, WaitStep(events))
               <==> (forall j, k | 0 <= j < k < |events| :: events[j] != events[k])
                    && forall k | 0 <= k < |events| && events[k].ClientReady? ::
                         var fd := events[k].fd;
                         && fd in s.registered && events[k].slot == s.registered[fd]
                         && events[k].slot < |s.serials| && events[k].serial == s.serials[events[k].slot])
    ensures s.batch != [] && s.batch[0].ClientReady? ==> Enabled(serverFd, s, EventStep(env))
    ensures s.batch != [] && s.batch[0].ServerReady? ==>
              (Enabled(serverFd, s, EventStep(env))
               <==> env.accepted == -1 || (env.accepted !in s.open && env.accepted != serverFd))
  {
    hide Reachable, Inv;
    ReachableIsSafe(variant, serverFd, s);
    InvIsWellFormed(variant, serverFd, s);
  }

  /** Slots in use and open client descriptors correspond one to one. */
  lemma SlotsMatchDescriptors(variant: Variant, serverFd: int, s: State, c: nat)
    requires Reachable(variant, serverFd, s) && c < WORKER_CONNECTIONS
    ensures s.open == s.registered.Keys && |s.slots| == WORKER_CONNECTIONS
    ensures (c !in s.free && c !in s.lost) <==> exists fd :: fd in s.open && s.registered[fd] == c
    ensures forall f, g | f in s.open && g in s.open && s.registered[f] == c == s.registered[g] ::
              f == g == s.slots[c].fd
  {
    hide Reachable;
    ReachableIsSafe(variant, serverFd, s);
    SplitFills(s.free, s.registered, s.lost, c);
    assert forall f | f in s.open :: s.slots[s.registered[f]].fd == f;
    assert c in s.registered.Values <==> exists fd :: fd in s.open && s.registered[fd] == c;
  }

  lemma SplitFills(free: seq<nat>, registered: map<int, nat>, lost: set<nat>, c: nat)
    requires Split(free, registered, lost) && c < WORKER_CONNECTIONS
    ensures c in free || c in registered.Values || c in lost
    ensures c in registered.Values ==> c !in free && c !in lost
  {
    hide Split;
    SplitSizes(free, registered, lost);
    SplitPlaces(free, registered, lost);
    ThreeParts(Elements(free), registered.Values, lost, WORKER_CONNECTIONS);
  }

  lemma SplitSizes(free: seq<nat>, registered: map<int, nat>, lost: set<nat>)
    requires Split(free, registered, lost)
    ensures |Elements(free)| + |registered.Values| + |lost| == WORKER_CONNECTIONS
    ensures forall x | x in free || x in lost :: x < WORKER_CONNECTIONS
    ensures forall x | x in free :: x !in lost
  {
    ValuesOfInjective(registered);
  }

  lemma SplitPlaces(free: seq<nat>, registered: map<int, nat>, lost: set<nat>)
    requires Split(free, registered, lost)
    ensures forall x | x in registered.Values :: x < WORKER_CONNECTIONS && x !in free && x !in lost
  {
    hide Distinct, Injective;
    forall x | x in registered.Values ensures x < WORKER_CONNECTIONS && x !in free && x !in lost {
      var f := ValueHasKey(registered, x);
    }
  }

  /** The threaded server never loses a slot. The multi-process server loses exactly one at each registration that
      fails, so that many fewer connections fit until it dies. */
  lemma SlotsLost(variant: Variant, serverFd: int, s: State)
    requires Reachable(variant, serverFd, s)
    ensures variant == Threaded ==> s.lost == {} && |s.free| + |s.open| == WORKER_CONNECTIONS
    ensures variant == MultiProcess ==> |s.free| + |s.open| == WORKER_CONNECTIONS - s.failures
  {
    hide Reachable;
    ReachableIsSafe(variant, serverFd, s);
  }

  /** The counter of free slots never moves, so it is right exactly while no slot is out. */
  lemma CounterIsRightOnlyWhenFull(variant: Variant, serverFd: int, s: State)
    requires Reachable(variant, serverFd, s)
    ensures s.counter == |s.free| <==> s.open == {} && s.lost == {}
  {
    hide Reachable;
    ReachableIsSafe(variant, serverFd, s);
  }
}
