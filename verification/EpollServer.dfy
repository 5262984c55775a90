/** `handle_client` of the epoll servers in the form of the C source: slots in an array, the linked free list, and one
    loop over the events of a batch. Each method is proved against the transition functions of module Epoll. */
module EpollServer {
  import opened Bytes
  import opened Epoll
  import opened EpollSafety
  import Pools

  /** The part of init_connections that resets the slots. */
  method UnlinkAll(slots: array<Slot>)
    modifies slots
    ensures slots[..] == Unlinked(old(slots[..]))
  {
    var i := slots.Length;
    while i > 0
      invariant 0 <= i <= slots.Length
      invariant forall k | i <= k < slots.Length :: slots[k] == Slot(-1, false)
    {
      i := i - 1;
      slots[i] := Slot(-1, false);
    }
  }

  class EventLoop {
    const variant: Variant
    const serverFd: int
    const slots: array<Slot>
    const pool: Pools.FreeList
    var counter: nat
    var requests: nat
    var prevNow: int

    // the part of events[0..nfds] that is still to be handled, and the kernel's descriptors
    var batch: seq<Event>
    var open: set<int>
    var registered: map<int, nat>

    // history; the serial numbers are no ghosts only because an event's is compared with its slot's
    var serials: seq<nat>
    var nextSerial: nat
    ghost var lost: set<nat>
    ghost var failures: nat

    ghost predicate Valid()
      reads this, slots, pool, pool.next
    {
      pool.Valid() && pool.next.Length == slots.Length == WORKER_CONNECTIONS == |serials|
    }

    ghost function Abs(): State
      reads this, slots, pool
    {
      State(slots[..], pool.stack, counter, requests, prevNow, batch, open, registered,
            serials, nextSerial, lost, failures)
    }

    constructor (variant: Variant, serverFd: int, slots: array<Slot>)
      requires slots.Length == WORKER_CONNECTIONS
      modifies slots
      ensures Valid() && this.slots == slots && fresh(pool) && fresh(pool.next)
      ensures this.variant == variant && this.serverFd == serverFd && Abs() == Start(old(slots[..]))
    {
      this.variant, this.serverFd, this.slots := variant, serverFd, slots;
      pool := new Pools.FreeList(WORKER_CONNECTIONS);
      counter, requests, prevNow := WORKER_CONNECTIONS, 0, 0;
      batch, open, registered := [], {}, map[];
      serials, nextSerial, lost, failures := NoSerials(WORKER_CONNECTIONS), 0, {}, 0;
      new;
      UnlinkAll(slots);
    }

    /** get_connection and the assignment of the new descriptor; NIL when the list is empty. */
    method GetConnection(fd: int) returns (c: int)
      requires Valid() && WellFormed(Abs())
      modifies this, slots, pool
      ensures Valid()
      ensures old(pool.stack) == [] ==> c == Pools.NIL && Abs() == old(Abs())
      ensures old(pool.stack) != [] ==> c == old(pool.stack)[0] && Abs() == Get(old(Abs()), fd)
    {
      c := pool.Take();
      if c == Pools.NIL {
        return;
      }
      slots[c] := Slot(fd, false);
      serials := serials[c := nextSerial];
      nextSerial := nextSerial + 1;
    }

    method CloseDescriptor(fd: int)
      requires Valid()
      modifies this
      ensures Valid() && Abs() == Close(old(Abs()), fd)
    {
      open := open - {fd};
      registered := registered - {fd};
    }

    method CloseConnection(c: nat)
      requires Valid() && c < WORKER_CONNECTIONS && c !in pool.stack
      modifies this, pool, pool.next
      ensures Valid() && Abs() == Epoll.CloseConnection(old(Abs()), c)
    {
      pool.Give(c);
      CloseDescriptor(slots[c].fd);
    }

    /** The branch for an event on the listening socket. */
    method ServerEvent(env: Env) returns (halt: Option<Halt>)
      requires Valid() && WellFormed(Abs())
      modifies this, slots, pool, pool.next
      ensures Valid()
      ensures HandleServer(variant, old(Abs()), env) == if halt == None then Next(Abs()) else Halted(halt.value)
    {
      hide Epoll.Admit, Pools.Chain;
      halt := None;
      if env.accepted == -1 {
        return;
      }
      open := open + {env.accepted};
      var n := requests;
      requests := requests + 1;
      if n % 16 == 0 && !env.readdOk {
        return Some(Exited);
      }
      halt := Admit(env.accepted, env.addOk);
    }

    method Admit(fd: int, addOk: bool) returns (halt: Option<Halt>)
      requires Valid() && WellFormed(Abs())
      modifies this, slots, pool, pool.next
      ensures Valid()
      ensures Epoll.Admit(variant, old(Abs()), fd, addOk) == if halt == None then Next(Abs()) else Halted(halt.value)
    {
      hide Refuse;
      halt := None;
      var c := GetConnection(fd);
      if c == Pools.NIL {
        return Some(NoSlot);
      }
      if addOk {
        registered := registered[fd := c];
        return;
      }
      RegistrationFailed(c, fd);
    }

    method RegistrationFailed(c: nat, fd: int)
      requires Valid() && c < WORKER_CONNECTIONS && c !in pool.stack
      modifies this, pool, pool.next
      ensures Valid()
      ensures Abs() == Refuse(variant, old(Abs()), c, fd)
    {
      failures := failures + 1;
      match variant {
        case Threaded =>
          CloseConnection(c);
        case MultiProcess =>
          CloseDescriptor(fd);
          lost := lost + {c};
      }
    }

    /** The branch for an event on the client of slot c. */
    method ClientEvent(c: nat, env: Env)
      requires Valid() && c < WORKER_CONNECTIONS && c !in pool.stack
      modifies this, slots, pool, pool.next
      ensures Valid()
      ensures Abs() == HandleClient(old(Abs()), c, env)
    {
      if env.received <= 0 {
        CloseConnection(c);
        return;
      }
      if env.now != prevNow {
        if !env.dateOk {
          return;
        }
        prevNow := env.now;
      }
      if !env.written {
        CloseConnection(c);
        return;
      }
      if env.closing {
        CloseConnection(c);
      } else {
        if !slots[c].nodelaySet {
          if !env.nodelayOk {
            CloseConnection(c);
            return;
          }
        }
        slots[c] := slots[c].(nodelaySet := true);
      }
    }

    method HandleNext(env: Env) returns (halt: Option<Halt>)
      requires Valid() && WellFormed(Abs()) && batch != []
      requires batch[0].ClientReady? ==> batch[0].slot !in pool.stack
      modifies this, slots, pool, pool.next
      ensures Valid()
      ensures HandleEvent(variant, old(Abs()), env) == if halt == None then Next(Abs()) else Halted(halt.value)
    {
      var e := batch[0];
      batch := batch[1..];
      match e {
        case ServerReady =>
          halt := ServerEvent(env);
        case ClientReady(c, _, _) =>
          ClientEvent(c, env);
          halt := None;
      }
    }

    /** The next event of the batch, with an answer that the environment proposes. */
    method HandleAnswered(answer: Env, ghost p: Progress) returns (halt: Option<Halt>, ghost q: Progress)
      requires Valid() && Inv(variant, serverFd, Abs()) && batch != []
      requires p.trace != [] && p.stop == None && Last(p) == Abs()
      modifies this, slots, pool, pool.next
      ensures Valid()
      ensures q == Advance(variant, serverFd, p, EventStep(Possible(serverFd, old(batch)[0], old(open), answer)))
      ensures Shows(q, halt)
      ensures halt == None ==> Last(q) == Abs() && batch == old(batch)[1..] && Inv(variant, serverFd, Abs())
    {
      hide Inv, HandleEvent;
      ghost var s := Abs();
      var env := Possible(serverFd, batch[0], open, answer);
      FirstIsLive(variant, serverFd, s);
      StepKeeps(variant, serverFd, s, EventStep(env));
      EventsAreConsumed(variant, s, env);
      halt := HandleNext(env);
      q := Advance(variant, serverFd, p, EventStep(env));
    }

    /** One turn of the outer loop: the events that epoll_wait reported, in order, with the system calls' answers. The
        loop goes through exactly the states of the machine, so no event is ever handled on a slot that an earlier
        event of the batch freed or gave to another connection, and it stops only where the machine does. */
    method HandleBatch(reports: seq<Report>, ghost p: Progress) returns (halt: Option<Halt>, ghost q: Progress)
      requires Valid() && Inv(variant, serverFd, Abs()) && CanReport(Abs(), Events(reports))
      requires p.trace != [] && p.stop == None && Last(p) == Abs()
      modifies this, slots, pool, pool.next
      ensures Valid()
      ensures q == AfterEvents(variant, serverFd, p, reports, |reports|)
      ensures Shows(q, halt)
      ensures halt == None ==> Last(q) == Abs() && batch == [] && Inv(variant, serverFd, Abs())
    {
      StepKeeps(variant, serverFd, Abs(), WaitStep(Events(reports)));
      batch := Events(reports);
      halt, q := None, Advance(variant, serverFd, p, WaitStep(Events(reports)));
      hide Inv, CanReport, Possible, Advance;
      for i := 0 to |reports|
        invariant Valid() && batch == Events(reports)[i..] && halt == None
        invariant q == AfterEvents(variant, serverFd, p, reports, i)
        invariant q.stop == None && Last(q) == Abs() && Inv(variant, serverFd, Abs())
      {
        halt, q := HandleAnswered(reports[i].answer, q);
        if halt != None {
          StoppedInBatch(variant, serverFd, p, reports, i + 1, |reports|);
          return;
        }
      }
    }

    /** The body of the outer loop: epoll_wait, and the batch it reports. */
    method HandleTurn(turn: Turn, ghost p: Progress) returns (halt: Option<Halt>, ghost q: Progress)
      requires Valid() && Inv(variant, serverFd, Abs()) && batch == []
      requires p.trace != [] && p.stop == None && Last(p) == Abs()
      modifies this, slots, pool, pool.next
      ensures Valid()
      ensures q == AfterTurn(variant, serverFd, p, turn)
      ensures Shows(q, halt)
      ensures halt == None ==> Last(q) == Abs() && batch == [] && Inv(variant, serverFd, Abs())
    {
      hide Inv, AfterEvents;
      match turn {
        case WaitError =>
          halt, q := Some(Exited), Advance(variant, serverFd, p, WaitFails);
        case Batch(reports) =>
          if Reportable(registered, serials, Events(reports)) {
            halt, q := HandleBatch(reports, p);
          } else {
            halt, q := None, p;
          }
      }
    }
  }

  /** How the process ended is what the machine says. */
  predicate Shows(p: Progress, halt: Option<Halt>) {
    match p.stop
    case None => halt == None
    case Some(stop) => halt == Some(stop.why)
  }

  /** `handle_client` against an environment that brings a batch, or an error, at each turn. Whatever it brings, the
      states of the program are exactly those that the machine goes through: they are a run, so every result about
      reachable states holds of the program, and when it stops, the machine stops for the same reason at that step. */
  method RunEventLoop(variant: Variant, serverFd: int, slots: array<Slot>, turns: seq<Turn>)
    returns (loop: EventLoop, halt: Option<Halt>, ghost p: Progress)
    requires slots.Length == WORKER_CONNECTIONS
    modifies slots
    ensures p == AfterTurns(variant, serverFd, old(slots[..]), turns)
    ensures Shows(p, halt)
    ensures IsRun(variant, serverFd, old(slots[..]), p.trace, p.steps) && Reachable(variant, serverFd, Last(p))
    ensures p.stop.Some? ==> StopsAt(variant, serverFd, Last(p), p.stop.value)
    ensures halt == None ==> loop.Valid() && loop.Abs() == Last(p)
  {
    hide Inv, AfterTurn, AfterTurns, IsRun, Reachable, Start, StopsAt, Advance;
    ghost var before := slots[..];
    StartInv(variant, serverFd, before);
    NoTurnYet(variant, serverFd, before);
    loop := new EventLoop(variant, serverFd, slots);
    halt, p := None, Progress([loop.Abs()], [], None);
    var i := 0;
    while i < |turns| && halt == None
      invariant i <= |turns| && fresh(loop) && fresh(loop.pool) && fresh(loop.pool.next)
      invariant loop.slots == slots && loop.variant == variant && loop.serverFd == serverFd && loop.Valid()
      invariant p == AfterTurns(variant, serverFd, before, turns[..i])
      invariant Shows(p, halt)
      invariant halt == None ==> Last(p) == loop.Abs() && loop.batch == [] && Inv(variant, serverFd, loop.Abs())
    {
      OneMoreTurn(variant, serverFd, before, turns, i);
      halt, p := loop.HandleTurn(turns[i], p);
      i := i + 1;
    }
    StoppedForGood(variant, serverFd, before, turns, i);
    TurnsAreRuns(variant, serverFd, before, turns);
  }

  predicate StopsAt(variant: Variant, serverFd: int, s: State, stop: Stop) {
    Enabled(serverFd, s, stop.step) && Take(variant, serverFd, s, stop.step) == Halted(stop.why)
  }

  // ---------------------------------------------------------------- the machine under such an environment

  lemma EventsAreConsumed(variant: Variant, s: State, env: Env)
    requires WellFormed(s) && s.batch != []
    ensures var r := HandleEvent(variant, s, env); r.Next? ==> r.state.batch == s.batch[1..]
  {
  }

  lemma FirstIsLive(variant: Variant, serverFd: int, s: State)
    requires Inv(variant, serverFd, s) && s.batch != []
    ensures WellFormed(s) && (s.batch[0].ClientReady? ==> s.batch[0].slot !in s.free)
  {
    InvIsWellFormed(variant, serverFd, s);
    assert Names(s.batch[0], s.registered, s.serials);
  }

  lemma NoTurnYet(variant: Variant, serverFd: int, slots: seq<Slot>)
    requires |slots| == WORKER_CONNECTIONS
    ensures AfterTurns(variant, serverFd, slots, []) == Progress([Start(slots)], [], None)
    ensures Start(slots).batch == []
  {
  }

  lemma OneMoreTurn(variant: Variant, serverFd: int, slots: seq<Slot>, turns: seq<Turn>, i: nat)
    requires i < |turns|
    ensures AfterTurns(variant, serverFd, slots, turns[..i + 1])
         == AfterTurn(variant, serverFd, AfterTurns(variant, serverFd, slots, turns[..i]), turns[i])
  {
    assert turns[..i + 1][..i] == turns[..i];
  }

  lemma {:induction false} StoppedInBatch(variant: Variant, serverFd: int, p: Progress, reports: seq<Report>, i: nat,
                                          j: nat)
    requires p.trace != [] && i <= j <= |reports|
    requires AfterEvents(variant, serverFd, p, reports, i).stop.Some?
    ensures AfterEvents(variant, serverFd, p, reports, j) == AfterEvents(variant, serverFd, p, reports, i)
  {
    if i < j { StoppedInBatch(variant, serverFd, p, reports, i, j - 1); }
  }

  lemma {:induction false} StoppedForGood(variant: Variant, serverFd: int, slots: seq<Slot>, turns: seq<Turn>, i: nat)
    requires i <= |turns|
    requires i < |turns| ==> AfterTurns(variant, serverFd, slots, turns[..i]).stop.Some?
    ensures AfterTurns(variant, serverFd, slots, turns) == AfterTurns(variant, serverFd, slots, turns[..i])
  {
    if i == |turns| {
      assert turns[..i] == turns;
    } else {
      var front := turns[..|turns| - 1];
      assert front[..i] == turns[..i];
      StoppedForGood(variant, serverFd, slots, front, i);
    }
  }

  /** The progress is a run, and when it has stopped its last step could be taken and ends the process. */
  ghost predicate Sound(variant: Variant, serverFd: int, slots: seq<Slot>, p: Progress) {
    && IsRun(variant, serverFd, slots, p.trace, p.steps)
    && (p.stop.Some? ==> StopsAt(variant, serverFd, Last(p), p.stop.value))
  }

  lemma AdvanceSound(variant: Variant, serverFd: int, slots: seq<Slot>, p: Progress, step: Step)
    requires Sound(variant, serverFd, slots, p)
    ensures Sound(variant, serverFd, slots, Advance(variant, serverFd, p, step))
  {
    hide Enabled, Take, Start;
    var q := Advance(variant, serverFd, p, step);
    forall i | 0 <= i < |q.steps| ensures IsStep(variant, serverFd, q.trace[i], q.steps[i], q.trace[i + 1]) {
      if i < |p.steps| { assert IsStep(variant, serverFd, p.trace[i], p.steps[i], p.trace[i + 1]); }
    }
  }

  lemma {:induction false} EventsSound(variant: Variant, serverFd: int, slots: seq<Slot>, p: Progress,
                                       reports: seq<Report>, n: nat)
    requires p.trace != [] && Sound(variant, serverFd, slots, p) && n <= |reports|
    ensures Sound(variant, serverFd, slots, AfterEvents(variant, serverFd, p, reports, n))
  {
    hide Advance, Sound, Possible;
    if n == 0 {
      AdvanceSound(variant, serverFd, slots, p, WaitStep(Events(reports)));
    } else {
      var before := AfterEvents(variant, serverFd, p, reports, n - 1);
      EventsSound(variant, serverFd, slots, p, reports, n - 1);
      AdvanceSound(variant, serverFd, slots, before,
                   EventStep(Possible(serverFd, reports[n - 1].event, Last(before).open, reports[n - 1].answer)));
    }
  }

  lemma {:induction false} TurnsAreSound(variant: Variant, serverFd: int, slots: seq<Slot>, turns: seq<Turn>)
    requires |slots| == WORKER_CONNECTIONS
    ensures Sound(variant, serverFd, slots, AfterTurns(variant, serverFd, slots, turns))
  {
    if turns != [] {
      var n := |turns| - 1;
      TurnsAreSound(variant, serverFd, slots, turns[..n]);
      hide Advance, Sound, CanReport, AfterEvents;
      var p := AfterTurns(variant, serverFd, slots, turns[..n]);
      match turns[n]
      case WaitError => AdvanceSound(variant, serverFd, slots, p, WaitFails);
      case Batch(reports) => EventsSound(variant, serverFd, slots, p, reports, |reports|);
    }
  }

  lemma TurnsAreRuns(variant: Variant, serverFd: int, slots: seq<Slot>, turns: seq<Turn>)
    requires |slots| == WORKER_CONNECTIONS
    ensures var p := AfterTurns(variant, serverFd, slots, turns);
            && IsRun(variant, serverFd, slots, p.trace, p.steps) && Reachable(variant, serverFd, Last(p))
            && (p.stop.Some? ==> StopsAt(variant, serverFd, Last(p), p.stop.value))
  {
    TurnsAreSound(variant, serverFd, slots, turns);
    var p := AfterTurns(variant, serverFd, slots, turns);
    assert LeadsTo(variant, serverFd, slots, p.trace, p.steps, Last(p));
  }

  // ---------------------------------------------------------------- every run is one of the loop

  /** The run stands between two turns. */
  ghost predicate Between(variant: Variant, serverFd: int, slots: seq<Slot>, turns: seq<Turn>, p: Progress) {
    p.trace != [] && p.stop == None && AfterTurns(variant, serverFd, slots, turns) == p && Last(p).batch == []
  }

  /** The run stands in a batch, n events of which were handled. */
  ghost predicate Within(variant: Variant, serverFd: int, slots: seq<Slot>, turns: seq<Turn>, reports: seq<Report>,
                         n: nat,
                         p: Progress)
  {
    var q := AfterTurns(variant, serverFd, slots, turns);
    && n <= |reports| && p.trace != [] && p.stop == None
    && q.stop == None && CanReport(Last(q), Events(reports))
    && AfterEvents(variant, serverFd, q, reports, n) == p
    && Last(p).batch == Events(reports)[n..]
  }

  ghost predicate Played(variant: Variant, serverFd: int, slots: seq<Slot>, p: Progress) {
    || (exists turns :: Between(variant, serverFd, slots, turns, p))
    || (exists turns, reports, n :: Within(variant, serverFd, slots, turns, reports, n, p))
  }

  lemma {:induction false} LaterAnswers(variant: Variant, serverFd: int, q: Progress, reports: seq<Report>,
                                        other: seq<Report>, n: nat)
    requires q.trace != [] && n <= |reports| == |other| && Events(reports) == Events(other)
    requires forall k | 0 <= k < n :: reports[k] == other[k]
    ensures AfterEvents(variant, serverFd, q, reports, n) == AfterEvents(variant, serverFd, q, other, n)
  {
    hide Advance, Possible;
    if n > 0 { LaterAnswers(variant, serverFd, q, reports, other, n - 1); }
  }

  lemma BatchIsOver(variant: Variant, serverFd: int, slots: seq<Slot>, p: Progress) returns (turns: seq<Turn>)
    requires Played(variant, serverFd, slots, p) && p.trace != [] && Last(p).batch == []
    ensures Between(variant, serverFd, slots, turns, p)
  {
    if before :| Between(variant, serverFd, slots, before, p) {
      turns := before;
    } else {
      var before, reports, n :| Within(variant, serverFd, slots, before, reports, n, p);
      assert n == |reports|;
      turns := before + [Batch(reports)];
      hide AfterEvents, CanReport;
      assert turns[..|before|] == before;
    }
  }

  lemma BatchBegins(variant: Variant, serverFd: int, slots: seq<Slot>, p: Progress, events: seq<Event>)
    requires Played(variant, serverFd, slots, p) && p.trace != [] && p.stop == None
    requires CanReport(Last(p), events)
    ensures Played(variant, serverFd, slots, Advance(variant, serverFd, p, WaitStep(events)))
  {
    hide Reportable, Played;
    var turns := BatchIsOver(variant, serverFd, slots, p);
    var answer := Env(-1, true, true, 0, true, 0, true, true, true);
    var reports := seq(|events|, k requires 0 <= k < |events| => Report(events[k], answer));
    assert Events(reports) == events;
    var q := Advance(variant, serverFd, p, WaitStep(events));
    assert Within(variant, serverFd, slots, turns, reports, 0, q);
    WithinIsPlayed(variant, serverFd, slots, turns, reports, 0, q);
  }

  lemma WithinIsPlayed(variant: Variant, serverFd: int, slots: seq<Slot>, turns: seq<Turn>, reports: seq<Report>,
                       n: nat,
                       p: Progress)
    requires Within(variant, serverFd, slots, turns, reports, n, p)
    ensures Played(variant, serverFd, slots, p)
  {
  }

  lemma AdvancesTo(variant: Variant, serverFd: int, p: Progress, step: Step, t: State)
    requires p.trace != [] && p.stop == None && IsStep(variant, serverFd, Last(p), step, t)
    ensures Advance(variant, serverFd, p, step) == Progress(p.trace + [t], p.steps + [step], None)
  {
  }

  lemma StepConsumes(variant: Variant, serverFd: int, s: State, env: Env, t: State)
    requires IsStep(variant, serverFd, s, EventStep(env), t)
    ensures s.batch != [] && t.batch == s.batch[1..] && Possible(serverFd, s.batch[0], s.open, env) == env
  {
    hide HandleEvent;
    EventsAreConsumed(variant, s, env);
  }

  lemma AfterOneMore(variant: Variant, serverFd: int, q: Progress, reports: seq<Report>, n: nat)
    requires q.trace != [] && n < |reports|
    ensures var before := AfterEvents(variant, serverFd, q, reports, n);
            AfterEvents(variant, serverFd, q, reports, n + 1)
            == Advance(variant, serverFd, before,
                       EventStep(Possible(serverFd, reports[n].event, Last(before).open, reports[n].answer)))
  {
  }

  lemma EventIsHandled(variant: Variant, serverFd: int, slots: seq<Slot>, p: Progress, env: Env, t: State)
    requires Played(variant, serverFd, slots, p) && p.trace != [] && p.stop == None
    requires IsStep(variant, serverFd, Last(p), EventStep(env), t)
    ensures Played(variant, serverFd, slots, Advance(variant, serverFd, p, EventStep(env)))
  {
    hide CanReport, AfterTurns, AfterEvents, Advance, Played, IsStep, Possible;
    StepConsumes(variant, serverFd, Last(p), env, t);
    var turns, reports, n := TheBatch(variant, serverFd, slots, p);
    var answered := reports[n := Report(reports[n].event, env)];
    assert Events(answered) == Events(reports);
    assert Last(p).batch[0] == reports[n].event;
    var start, q := AfterTurns(variant, serverFd, slots, turns), Advance(variant, serverFd, p, EventStep(env));
    LaterAnswers(variant, serverFd, start, reports, answered, n);
    AfterOneMore(variant, serverFd, start, answered, n);
    AdvancesTo(variant, serverFd, p, EventStep(env), t);
    assert Within(variant, serverFd, slots, turns, answered, n + 1, q);
    WithinIsPlayed(variant, serverFd, slots, turns, answered, n + 1, q);
  }

  lemma TheBatch(variant: Variant, serverFd: int, slots: seq<Slot>, p: Progress)
      returns (turns: seq<Turn>, reports: seq<Report>, n: nat)
    requires Played(variant, serverFd, slots, p) && p.trace != [] && Last(p).batch != []
    ensures Within(variant, serverFd, slots, turns, reports, n, p) && n < |reports|
  {
    hide AfterEvents, AfterTurns, CanReport;
    turns, reports, n :| Within(variant, serverFd, slots, turns, reports, n, p);
  }

  lemma {:induction false} EveryRunIsPlayedSoFar(variant: Variant, serverFd: int, slots: seq<Slot>, trace: seq<State>,
                                                 steps: seq<Step>)
    requires IsRun(variant, serverFd, slots, trace, steps)
    ensures Played(variant, serverFd, slots, Progress(trace, steps, None))
    decreases |steps|
  {
    hide Start, Enabled, Take, Played, AfterEvents, AfterTurn;
    if steps == [] {
      NoTurnYet(variant, serverFd, slots);
      assert trace == [Start(slots)];
      BetweenIsPlayed(variant, serverFd, slots, [], Progress(trace, steps, None));
    } else {
      var n := |steps| - 1;
      var p := Progress(trace[..n + 1], steps[..n], None);
      forall i | 0 <= i < n ensures IsStep(variant, serverFd, p.trace[i], p.steps[i], p.trace[i + 1]) {
        assert IsStep(variant, serverFd, trace[i], steps[i], trace[i + 1]);
      }
      EveryRunIsPlayedSoFar(variant, serverFd, slots, p.trace, p.steps);
      assert IsStep(variant, serverFd, trace[n], steps[n], trace[n + 1]);
      assert p.trace + [trace[n + 1]] == trace && p.steps + [steps[n]] == steps;
      StepIsPlayed(variant, serverFd, slots, p, steps[n], trace[n + 1]);
    }
  }

  lemma BetweenIsPlayed(variant: Variant, serverFd: int, slots: seq<Slot>, turns: seq<Turn>, p: Progress)
    requires Between(variant, serverFd, slots, turns, p)
    ensures Played(variant, serverFd, slots, p)
  {
  }

  lemma StepIsPlayed(variant: Variant, serverFd: int, slots: seq<Slot>, p: Progress, step: Step, t: State)
    requires Played(variant, serverFd, slots, p) && p.trace != [] && p.stop == None
    requires IsStep(variant, serverFd, Last(p), step, t)
    ensures Played(variant, serverFd, slots, Progress(p.trace + [t], p.steps + [step], None))
  {
    hide Played, HandleEvent;
    match step
    case WaitStep(events) => BatchBegins(variant, serverFd, slots, p, events);
    case EventStep(env) => EventIsHandled(variant, serverFd, slots, p, env, t);
    case WaitFails =>
  }

  /** Every run that ends between two batches is what the loop makes of some turns. */
  lemma EveryRunIsPlayed(variant: Variant, serverFd: int, slots: seq<Slot>, trace: seq<State>, steps: seq<Step>)
    requires IsRun(variant, serverFd, slots, trace, steps) && trace[|steps|].batch == []
    ensures exists turns :: AfterTurns(variant, serverFd, slots, turns) == Progress(trace, steps, None)
  {
    hide Played, AfterTurns;
    EveryRunIsPlayedSoFar(variant, serverFd, slots, trace, steps);
    var turns := BatchIsOver(variant, serverFd, slots, Progress(trace, steps, None));
  }
}
