/** What the fields of the epoll servers say about the run so far: the requests counted, the second cached, and the
    connections for which TCP_NODELAY is set. */
module EpollHistory {
  import opened Epoll
  import opened EpollSafety

  // ---------------------------------------------------------------- every sixteenth connection

  /** The step accepts a connection. */
  predicate AcceptsAt(s: State, step: Step) {
    step.EventStep? && s.batch != [] && s.batch[0].ServerReady? && step.env.accepted != -1
  }

  /** How many connections were accepted in the first i steps. */
  function Accepted(trace: seq<State>, steps: seq<Step>, i: nat): nat
    requires i <= |steps| <= |trace|
  {
    if i == 0 then 0 else Accepted(trace, steps, i - 1) + if AcceptsAt(trace[i - 1], steps[i - 1]) then 1 else 0
  }

  /** The second that was cached last: the latest one at which there was something to answer and a date to answer with,
      which is either the cached one or one that can be formatted. */
  function Cached(trace: seq<State>, steps: seq<Step>, i: nat): int
    requires i <= |steps| <= |trace|
  {
    if i == 0 then 0
    else if DatesAt(trace[i - 1], steps[i - 1], Cached(trace, steps, i - 1)) then steps[i - 1].env.now
    else Cached(trace, steps, i - 1)
  }

  predicate DatesAt(s: State, step: Step, cached: int) {
    && step.EventStep? && s.batch != [] && s.batch[0].ClientReady?
    && step.env.received > 0 && (step.env.now == cached || step.env.dateOk)
  }

  lemma PointIsReachable(variant: Variant, serverFd: int, slots: seq<Slot>, trace: seq<State>, steps: seq<Step>, i: nat)
    requires IsRun(variant, serverFd, slots, trace, steps) && i < |trace|
    ensures Reachable(variant, serverFd, trace[i])
  {
    hide IsStep, Start;
    var front, fewer := trace[..i + 1], steps[..i];
    forall j | 0 <= j < |fewer| ensures IsStep(variant, serverFd, front[j], fewer[j], front[j + 1]) {
      assert IsStep(variant, serverFd, trace[j], steps[j], trace[j + 1]);
    }
    assert LeadsTo(variant, serverFd, slots, front, fewer, trace[i]);
  }

  /** One step's effect on the counter and the cached second. */
  lemma StepCounts(variant: Variant, serverFd: int, s: State, step: Step, t: State)
    requires Reachable(variant, serverFd, s) && IsStep(variant, serverFd, s, step, t)
    ensures t.requests == s.requests + if AcceptsAt(s, step) then 1 else 0
    ensures t.prevNow == if DatesAt(s, step, s.prevNow) then step.env.now else s.prevNow
  {
    hide Reachable, HandleEvent;
    match step
    case EventStep(env) =>
      if s.batch[0].ClientReady? {
        ClientOutcome(variant, serverFd, s, env);
      } else if env.accepted == -1 {
        FailedAccept(variant, s, env);
      } else {
        AcceptOutcome(variant, serverFd, s, env);
      }
    case _ =>
  }

  /** In every run the counter is the number of connections accepted, and the cached second is the last one answered. */
  lemma {:induction false} FieldsTellHistory(variant: Variant, serverFd: int, slots: seq<Slot>, trace: seq<State>,
                                             steps: seq<Step>, i: nat)
    requires IsRun(variant, serverFd, slots, trace, steps) && i < |trace|
    ensures trace[i].requests == Accepted(trace, steps, i) && trace[i].prevNow == Cached(trace, steps, i)
  {
    hide Start, IsStep, Reachable;
    if i == 0 {
      StartFields(slots);
    } else {
      FieldsTellHistory(variant, serverFd, slots, trace, steps, i - 1);
      PointIsReachable(variant, serverFd, slots, trace, steps, i - 1);
      assert IsStep(variant, serverFd, trace[i - 1], steps[i - 1], trace[i]);
      StepCounts(variant, serverFd, trace[i - 1], steps[i - 1], trace[i]);
    }
  }

  lemma StartFields(slots: seq<Slot>)
    ensures Start(slots).requests == 0 && Start(slots).prevNow == 0
  {
  }

  /** The process exits, after any run, exactly when epoll_wait fails, or when a connection is accepted, 16 divides the
      number of those accepted before, and the listening socket cannot be added again. It dereferences NULL exactly when
      a connection is accepted otherwise and every slot is registered or lost. */
  lemma DiesExactly(variant: Variant, serverFd: int, slots: seq<Slot>, trace: seq<State>, steps: seq<Step>, step: Step)
    requires IsRun(variant, serverFd, slots, trace, steps)
    requires Enabled(serverFd, trace[|steps|], step)
    ensures var s, r := trace[|steps|], Take(variant, serverFd, trace[|steps|], step);
            var readds := Accepted(trace, steps, |steps|) % 16 == 0;
            && (r == Halted(Exited) <==> step.WaitFails? || (AcceptsAt(s, step) && readds && !step.env.readdOk))
            && (r == Halted(NoSlot) <==>
                  && AcceptsAt(s, step) && !(readds && !step.env.readdOk)
                  && |s.registered| + |s.lost| == WORKER_CONNECTIONS)
  {
    var s := trace[|steps|];
    FieldsTellHistory(variant, serverFd, slots, trace, steps, |steps|);
    PointIsReachable(variant, serverFd, slots, trace, steps, |steps|);
    ReachableIsSafe(variant, serverFd, s);
    hide Reachable, Inv, HandleServer, HandleClient, Accepted, IsRun;
    match step
    case EventStep(env) =>
      if s.batch[0].ServerReady? {
        BatchGoesOn(variant, serverFd, s);
        ServerKeeps(variant, serverFd, s.(batch := s.batch[1..]), env);
      }
    case _ =>
  }

  lemma BatchGoesOn(variant: Variant, serverFd: int, s: State)
    requires Inv(variant, serverFd, s) && s.batch != []
    ensures Inv(variant, serverFd, s.(batch := s.batch[1..])) && WellFormed(s.(batch := s.batch[1..]))
  {
    FirstEvent(s.batch, s.registered, s.serials);
    InvIsWellFormed(variant, serverFd, s.(batch := s.batch[1..]));
  }

  // ---------------------------------------------------------------- TCP_NODELAY

  /** The step answers a request on connection x, and keeps the connection. */
  predicate AnswersAt(s: State, step: Step, t: State, x: nat) {
    && DatesAt(s, step, s.prevNow) && s.batch[0].serial == x
    && s.batch[0].fd in t.registered
  }

  ghost predicate AnsweredBefore(trace: seq<State>, steps: seq<Step>, i: nat, x: nat)
    requires i <= |steps| < |trace|
  {
    exists j :: 0 <= j < i && AnswersAt(trace[j], steps[j], trace[j + 1], x)
  }

  ghost predicate FlagTells(trace: seq<State>, steps: seq<Step>, i: nat, f: int)
    requires i <= |steps| < |trace| && f in trace[i].registered
  {
    var s, c := trace[i], trace[i].registered[f];
    && c < |s.slots| && c < |s.serials|
    && (s.slots[c].nodelaySet <==> AnsweredBefore(trace, steps, i, s.serials[c]))
  }

  ghost predicate FlagsTell(trace: seq<State>, steps: seq<Step>, i: nat)
    requires i <= |steps| < |trace|
  {
    && (forall f | f in trace[i].registered :: FlagTells(trace, steps, i, f))
    && (forall x: nat | AnsweredBefore(trace, steps, i, x) :: x < trace[i].nextSerial)
  }

  lemma OneStepMore(trace: seq<State>, steps: seq<Step>, i: nat, x: nat)
    requires i < |steps| < |trace|
    ensures AnsweredBefore(trace, steps, i + 1, x)
       <==> AnsweredBefore(trace, steps, i, x) || AnswersAt(trace[i], steps[i], trace[i + 1], x)
  {
    hide AnswersAt;
  }

  /** How one step changes the flag of a registered slot. */
  ghost predicate FlagStep(s: State, step: Step, t: State, f: int)
    requires f in t.registered
  {
    var c := t.registered[f];
    && c < |s.slots| && c < |t.slots| && c < |s.serials| && c < |t.serials|
    && if f in s.registered
       then s.registered[f] == c && t.serials[c] == s.serials[c]
            && (t.slots[c].nodelaySet <==> s.slots[c].nodelaySet || AnswersAt(s, step, t, s.serials[c]))
       else !t.slots[c].nodelaySet && t.serials[c] == s.nextSerial && step.EventStep? && s.batch != []
            && s.batch[0].ServerReady?
  }

  lemma Lengths(variant: Variant, serverFd: int, s: State, f: int)
    requires Inv(variant, serverFd, s)
    ensures |s.slots| == |s.serials| == WORKER_CONNECTIONS
    ensures f in s.registered ==> s.registered[f] < |s.slots| && s.slots[s.registered[f]].fd == f
    ensures f in s.registered ==> s.serials[s.registered[f]] < s.nextSerial
    ensures forall g | f in s.registered && g in s.registered && f != g ::
              s.registered[f] != s.registered[g] && s.serials[s.registered[f]] != s.serials[s.registered[g]]
    ensures s.free != [] && f in s.registered ==> s.registered[f] != s.free[0]
    ensures s.batch != [] ==> Names(s.batch[0], s.registered, s.serials)
    ensures s.open == s.registered.Keys
  {
    assert s.free != [] ==> s.free[0] in s.free;
  }

  lemma ClientFlag(variant: Variant, serverFd: int, s: State, env: Env, t: State, f: int)
    requires Reachable(variant, serverFd, s) && IsStep(variant, serverFd, s, EventStep(env), t)
    requires s.batch != [] && s.batch[0].ClientReady? && f in t.registered
    ensures FlagStep(s, EventStep(env), t, f)
  {
    hide Reachable, Inv, HandleEvent;
    ReachableIsSafe(variant, serverFd, s);
    Lengths(variant, serverFd, s, f);
    ClientOutcome(variant, serverFd, s, env);
  }

  lemma ServerFlag(variant: Variant, serverFd: int, s: State, env: Env, t: State, f: int)
    requires Reachable(variant, serverFd, s) && IsStep(variant, serverFd, s, EventStep(env), t)
    requires s.batch != [] && s.batch[0].ServerReady? && f in t.registered
    ensures FlagStep(s, EventStep(env), t, f)
  {
    hide Reachable, Inv, HandleEvent;
    ReachableIsSafe(variant, serverFd, s);
    Lengths(variant, serverFd, s, f);
    if env.accepted == -1 {
      FailedAccept(variant, s, env);
    } else {
      AcceptOutcome(variant, serverFd, s, env);
    }
  }

  lemma StepFlag(variant: Variant, serverFd: int, s: State, step: Step, t: State, f: int)
    requires Reachable(variant, serverFd, s) && IsStep(variant, serverFd, s, step, t) && f in t.registered
    ensures FlagStep(s, step, t, f)
  {
    hide Reachable, Inv, HandleEvent;
    match step
    case EventStep(env) =>
      hide FlagStep;
      if s.batch[0].ClientReady? {
        ClientFlag(variant, serverFd, s, env, t, f);
      } else {
        ServerFlag(variant, serverFd, s, env, t, f);
      }
    case _ =>
      ReachableIsSafe(variant, serverFd, s);
      Lengths(variant, serverFd, s, f);
  }

  lemma AnswerIsKnown(variant: Variant, serverFd: int, s: State, step: Step, t: State, x: nat)
    requires Reachable(variant, serverFd, s) && IsStep(variant, serverFd, s, step, t) && AnswersAt(s, step, t, x)
    ensures x < s.nextSerial && s.batch[0].ClientReady?
  {
    hide Reachable, Inv, IsStep;
    ReachableIsSafe(variant, serverFd, s);
    Lengths(variant, serverFd, s, s.batch[0].fd);
  }

  lemma StepFlags(variant: Variant, serverFd: int, trace: seq<State>, steps: seq<Step>, i: nat)
    requires i < |steps| < |trace| && Reachable(variant, serverFd, trace[i])
    requires IsStep(variant, serverFd, trace[i], steps[i], trace[i + 1]) && FlagsTell(trace, steps, i)
    ensures FlagsTell(trace, steps, i + 1)
  {
    var s, step, t := trace[i], steps[i], trace[i + 1];
    SerialsGrowOn(variant, serverFd, s, step, t);
    hide Reachable, IsStep, AnsweredBefore, AnswersAt;
    forall f | f in t.registered ensures FlagTells(trace, steps, i + 1, f) {
      StepFlag(variant, serverFd, s, step, t, f);
      var x := t.serials[t.registered[f]];
      OneStepMore(trace, steps, i, x);
      if f in s.registered {
        assert FlagTells(trace, steps, i, f);
      } else if AnswersAt(s, step, t, x) {
        AnswerIsKnown(variant, serverFd, s, step, t, x);
      }
    }
    var next := i + 1;
    forall x: nat | AnsweredBefore(trace, steps, next, x) ensures x < t.nextSerial {
      OneStepMore(trace, steps, i, x);
      if AnswersAt(s, step, t, x) { AnswerIsKnown(variant, serverFd, s, step, t, x); }
    }
  }

  lemma SerialsGrowOn(variant: Variant, serverFd: int, s: State, step: Step, t: State)
    requires IsStep(variant, serverFd, s, step, t)
    ensures s.nextSerial <= t.nextSerial
  {
    hide Enabled, Take;
    SerialsGrow(variant, serverFd, s, step, t);
  }

  /** In every run, of each registered slot: TCP_NODELAY is recorded exactly when an earlier request on this very
      connection was answered and kept it. So setsockopt is called at the first such request of each connection and
      not again. */
  lemma {:induction false} FlagsTellHistory(variant: Variant, serverFd: int, slots: seq<Slot>, trace: seq<State>,
                                            steps: seq<Step>, i: nat)
    requires IsRun(variant, serverFd, slots, trace, steps) && i < |trace|
    ensures FlagsTell(trace, steps, i)
  {
    hide Start, IsStep, Reachable, FlagsTell;
    if i == 0 {
      NoFlagsYet(slots, trace, steps);
    } else {
      FlagsTellHistory(variant, serverFd, slots, trace, steps, i - 1);
      PointIsReachable(variant, serverFd, slots, trace, steps, i - 1);
      assert IsStep(variant, serverFd, trace[i - 1], steps[i - 1], trace[i]);
      StepFlags(variant, serverFd, trace, steps, i - 1);
    }
  }

  lemma NoFlagsYet(slots: seq<Slot>, trace: seq<State>, steps: seq<Step>)
    requires |trace| == |steps| + 1 && trace[0] == Start(slots)
    ensures FlagsTell(trace, steps, 0)
  {
  }

  /** When a client event keeps its connection, in terms of what happened before: exactly when something was received
      and either no date could be had, or the answer went out, no close was asked for, and TCP_NODELAY is set now or
      was set at an earlier request of the connection. */
  lemma KeptExactly(variant: Variant, serverFd: int, slots: seq<Slot>, trace: seq<State>, steps: seq<Step>, env: Env)
    requires IsRun(variant, serverFd, slots, trace, steps)
    requires var s := trace[|steps|]; WellFormed(s) && s.batch != [] && s.batch[0].ClientReady?
    ensures var s, r := trace[|steps|], HandleEvent(variant, trace[|steps|], env);
            var dated := env.now == Cached(trace, steps, |steps|) || env.dateOk;
            && r.Next?
            && (s.batch[0].fd in r.state.registered <==>
                  && env.received > 0
                  && (dated ==> env.written && !env.closing
                                && (env.nodelayOk || AnsweredBefore(trace, steps, |steps|, s.batch[0].serial))))
  {
    hide Start, IsStep, Reachable, HandleEvent, Inv, Cached, AnsweredBefore;
    var s, e := trace[|steps|], trace[|steps|].batch[0];
    PointIsReachable(variant, serverFd, slots, trace, steps, |steps|);
    ReachableIsSafe(variant, serverFd, s);
    Lengths(variant, serverFd, s, e.fd);
    FieldsTellHistory(variant, serverFd, slots, trace, steps, |steps|);
    FlagsTellHistory(variant, serverFd, slots, trace, steps, |steps|);
    assert FlagTells(trace, steps, |steps|, e.fd);
    ClientOutcome(variant, serverFd, s, env);
  }
}
