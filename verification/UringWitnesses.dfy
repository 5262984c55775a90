/** Runs of the completion engine that end badly: the states in which the process dies, and in which it sends a date
    that nobody formatted, are reachable under every configuration. */
module UringWitnesses {
  import opened Bytes
  import opened Uring
  import opened UringSafety
  import opened UringRuns
  import opened UringLosses
  import Search

  lemma StartIsReachable(cfg: Config, raw: seq<Conn>, date: Text)
    requires ValidConfig(cfg) && RawSlots(raw, date)
    ensures Reachable(cfg, Start(cfg, raw, date))
  {
    hide ValidConfig, Start;
    assert LeadsTo(cfg, raw, date, [Start(cfg, raw, date)], [], Start(cfg, raw, date));
  }

  /** The kernel never runs out of descriptors here: beyond the largest one in use there is always another. */
  lemma FreshDescriptor(cfg: Config, open: set<int>) returns (fd: int)
    ensures fd >= 0 && fd > cfg.serverSock && forall f | f in open :: fd > f
    decreases |open|
  {
    if f :| f in open {
      fd := FreshDescriptor(cfg, open - {f});
      if fd <= f { fd := f + 1; }
      assert open == open - {f} + {f};
    } else {
      fd := if cfg.serverSock < 0 then 0 else cfg.serverSock + 1;
    }
  }

  /** The parts of the state that completions of accepts do not touch. */
  predicate SameDates(s: State, t: State) {
    t.dated == s.dated && t.dateBuf == s.dateBuf && t.prevNow == s.prevNow
  }

  /** The accept is in the ring or with the kernel. */
  predicate Listening(s: State, id: nat) {
    id in s.ops && s.ops[id].kind == Accept && !s.ops[id].stage.Done?
  }

  /** An operation in the ring or with the kernel may be executed next, with any result its kind allows. */
  lemma Completes(cfg: Config, s: State, id: nat, res: int, data: Text) returns (t: State)
    requires Reachable(cfg, s) && id in s.ops && !s.ops[id].stage.Done?
    requires Permits(cfg, SubmitOps(s.ops), s.open, id, res, data)
    ensures Reachable(cfg, t) && id in t.ops && t.ops[id].kind == s.ops[id].kind && t.ops[id].stage == Done(res)
    ensures t.ops[id].text == if s.ops[id].kind == Read then data else s.ops[id].text
    ensures t.stranded == s.stranded && forall i | i != id && Listening(s, i) :: Listening(t, i)
    ensures t.free == s.free && SameDates(s, t) && t.nextId == s.nextId
  {
    hide Reachable, ValidConfig, Inv;
    ReachableIsSafe(cfg, s);
    var u := Submit(s);
    NextIsReachable(cfg, s, SubmitStep, u);
    ReachableIsSafe(cfg, u);
    t := Execute(cfg, u, id, res, data);
    NextIsReachable(cfg, u, ExecuteStep(id, res, data), t);
  }

  /** A client connects. */
  lemma AcceptCompletes(cfg: Config, s: State, id: nat) returns (t: State, res: int)
    requires Reachable(cfg, s) && Listening(s, id)
    ensures Reachable(cfg, t) && id in t.ops && t.ops[id].kind == Accept && t.ops[id].stage == Done(res) && res >= 0
    ensures t.free == s.free && SameDates(s, t)
  {
    hide Reachable;
    res := FreshDescriptor(cfg, s.open.Keys);
    t := Completes(cfg, s, id, res, []);
  }

  /** While a slot is free, one more client can be accepted: it takes a slot, its recv is queued, and the listener is
      armed again. */
  lemma OneMoreClient(cfg: Config, s: State, id: nat) returns (t: State, accept: nat, recv: nat)
    requires Reachable(cfg, s) && Listening(s, id) && s.free != []
    ensures Reachable(cfg, t) && Listening(t, accept) && |t.free| == |s.free| - 1 && SameDates(s, t)
    ensures recv in t.ops && t.ops[recv].kind == Read && t.ops[recv].stage == Queued
  {
    hide Reachable, Inv, Handle;
    var u, res := AcceptCompletes(cfg, s, id);
    ReachableIsSafe(cfg, u);
    var env := Env(true, 0);
    StillFree(cfg, u);
    HandleKeeps(cfg, u, id, env);
    AcceptIsHandled(cfg, u, id, env);
    t, accept, recv := Handle(cfg, u, id, env).state, u.nextId + 1, u.nextId;
    NextIsReachable(cfg, u, HandleStep(id, env), t);
  }

  lemma StillFree(cfg: Config, s: State)
    requires Inv(cfg, s)
    ensures s.free != [] <==> |s.ops| + |s.stranded| != WORKER_CONNECTIONS
  {
    FreeIsEmpty(s);
  }

  lemma AcceptIsHandled(cfg: Config, s: State, id: nat, env: Env)
    requires Inv(cfg, s) && WellFormed(s) && id in s.ops && s.ops[id].kind == Accept
    requires s.ops[id].stage.Done? && s.ops[id].stage.res >= 0 && s.free != []
    ensures var r := Handle(cfg, s, id, env);
            r.Next? ==>
              && Listening(r.state, s.nextId + 1) && |r.state.free| == |s.free| - 1 && SameDates(s, r.state)
              && s.nextId in r.state.ops && r.state.ops[s.nextId].kind == Read && r.state.ops[s.nextId].stage == Queued
  {
    hide Inv, QueuedIds;
    KindsAgree(cfg, s, id);
  }

  /** With clients that connect and stay, every slot is taken in the end. */
  lemma {:induction false} AllSlotsTaken(cfg: Config, s: State, id: nat) returns (t: State, accept: nat)
    requires Reachable(cfg, s) && Listening(s, id)
    ensures Reachable(cfg, t) && Listening(t, accept) && t.free == []
    decreases |s.free|
  {
    hide Reachable;
    if s.free == [] {
      t, accept := s, id;
    } else {
      var u, next, _ := OneMoreClient(cfg, s, id);
      t, accept := AllSlotsTaken(cfg, u, next);
    }
  }

  lemma StartListens(cfg: Config, raw: seq<Conn>, date: Text)
    requires RawSlots(raw, date)
    ensures var s := Start(cfg, raw, date);
            Listening(s, 0) && |s.free| >= 2 && !s.dated && s.dateBuf == date && s.prevNow == 0
  {
  }

  ghost predicate DiesAt(cfg: Config, s: State, id: nat, env: Env) {
    && WellFormed(s) && id in s.ops && s.ops[id].stage.Done?
    && Handle(cfg, s, id, env) == Halted(NoSlot)
  }

  /** The NULL slot is real: under every configuration, whatever memory holds at the start, there is a run after which
      the next completion ends the process. */
  lemma TheProcessCanDie(cfg: Config, raw: seq<Conn>, date: Text, env: Env)
    requires ValidConfig(cfg) && RawSlots(raw, date)
    ensures exists s, id :: Reachable(cfg, s) && DiesAt(cfg, s, id, env)
  {
    hide Reachable, Inv, Handle, Start, ValidConfig;
    StartIsReachable(cfg, raw, date);
    StartListens(cfg, raw, date);
    var s, id := AllSlotsTaken(cfg, Start(cfg, raw, date), 0);
    var t, res := AcceptCompletes(cfg, s, id);
    ReachableIsSafe(cfg, t);
    StillFree(cfg, t);
    HandleKeeps(cfg, t, id, env);
    assert DiesAt(cfg, t, id, env);
  }

  /** A request waits to be handled, and no date was ever formatted. */
  ghost predicate UndatedRequest(s: State, id: nat, octets: Text, date: Text) {
    && WellFormed(s) && id in s.ops && s.ops[id].kind == Read && s.ops[id].stage == Done(|octets|)
    && s.ops[id].text == octets && !s.dated && s.dateBuf == date
  }

  /** So is the uninitialised date: whatever the date buffer holds at the start and whatever is requested first, there
      is a run after which that request, handled at second 0, gets a response that is not the one for second 0,
      unless the two are equal by chance. */
  lemma UninitialisedDateIsSent(cfg: Config, raw: seq<Conn>, date: Text, octets: Text, env: Env)
    requires ValidConfig(cfg) && RawSlots(raw, date) && 0 < |octets| <= BUF_SIZE
    requires env.now == 0 && env.nodelayOk
    requires cfg.render(0).Some? ==> cfg.respond(cfg.render(0).value) != cfg.respond(date)
    ensures exists s, id :: Reachable(cfg, s) && UndatedRequest(s, id, octets, date)
              && Handle(cfg, s, id, env).Next?
              && !Reacts(cfg, s.(ops := s.ops - {id}), Handle(cfg, s, id, env).state, s.ops[id].slot, octets, env)
  {
    hide Reachable, Inv, Handle, Start, ValidConfig, Reacts;
    StartIsReachable(cfg, raw, date);
    StartListens(cfg, raw, date);
    var s, _, recv := OneMoreClient(cfg, Start(cfg, raw, date), 0);
    var t := Completes(cfg, s, recv, |octets|, octets);
    ReachableIsSafe(cfg, t);
    assert UndatedRequest(t, recv, octets, date);
    RequestIsAnswered(cfg, t, recv, env);
  }

  // ---------------------------------------------------------------- a slot is stranded, a response is cut short

  /** A request is handled at the given second, and TCP_NODELAY can be set. */
  lemma RequestHandled(cfg: Config, s: State, id: nat, now: int) returns (t: State)
    requires Reachable(cfg, s) && id in s.ops && s.ops[id].kind == Read && s.ops[id].stage.Done?
    requires s.ops[id].stage.res > 0
    ensures Reachable(cfg, t) && WellFormed(s) && IsStep(cfg, s, HandleStep(id, Env(true, now)), t)
    ensures t.stranded == s.stranded + StrandedBy(cfg, s, HandleStep(id, Env(true, now)))
    ensures forall i | i in s.ops && i != id :: i in t.ops && t.ops[i] == s.ops[i]
  {
    hide Reachable, Inv, Handle, ValidConfig, StrandedBy;
    var env := Env(true, now);
    ReachableIsSafe(cfg, s);
    HandleKeeps(cfg, s, id, env);
    HandleFrame(cfg, s, id, env);
    t := Handle(cfg, s, id, env).state;
    NextIsReachable(cfg, s, HandleStep(id, env), t);
    StepStrands(cfg, s, HandleStep(id, env), t);
  }

  /** Handling it takes no slot, and the date of that second is cached if it has one. */
  lemma RequestDates(cfg: Config, s: State, id: nat, now: int)
    requires WellFormed(s) && id in s.ops && s.ops[id].stage.Done? && s.ops[id].stage.res > 0
    requires s.conns[s.ops[id].slot].kind == Read
    ensures var r := Handle(cfg, s, id, Env(true, now));
            r.Next? ==> r.state.free == s.free && (cfg.render(now).Some? ==> r.state.prevNow == now)
  {
    hide QueuedIds, Overwrite, Front, Search.Contains;
  }

  /** A request arrives on the next connection. */
  lemma RequestArrives(cfg: Config, s: State, accept: nat, octets: Text) returns (t: State, next: nat, recv: nat)
    requires Reachable(cfg, s) && Listening(s, accept) && s.free != [] && 0 < |octets| <= BUF_SIZE
    ensures Reachable(cfg, t) && recv in t.ops && t.ops[recv].kind == Read && t.ops[recv].stage == Done(|octets|)
    ensures t.ops[recv].text == octets && SameDates(s, t) && |t.free| == |s.free| - 1
    ensures next != recv && Listening(t, next)
  {
    hide Reachable;
    var u;
    u, next, recv := OneMoreClient(cfg, s, accept);
    t := Completes(cfg, u, recv, |octets|, octets);
  }

  lemma SecondIsStranded(cfg: Config, s: State, accept: nat, now: int) returns (t: State)
    requires Reachable(cfg, s) && Listening(s, accept) && s.free != [] && s.prevNow != now && cfg.render(now) == None
    ensures Reachable(cfg, t) && t.stranded != {}
  {
    hide Reachable, Search.Contains;
    var u, _, recv := RequestArrives(cfg, s, accept, "G");
    t := RequestHandled(cfg, u, recv, now);
    assert u.ops[recv].slot in StrandedBy(cfg, u, HandleStep(recv, Env(true, now)));
  }

  /** A request at a second with a date, and another one at a second without. */
  lemma ThirdIsStranded(cfg: Config, s: State, accept: nat, now: int, other: int) returns (t: State)
    requires Reachable(cfg, s) && Listening(s, accept) && |s.free| >= 2
    requires other != now && cfg.render(now) == None && cfg.render(other).Some?
    ensures Reachable(cfg, t) && t.stranded != {}
  {
    hide Reachable, Inv, Handle, ValidConfig, StrandedBy;
    var u, next, recv := RequestArrives(cfg, s, accept, "G");
    ReachableIsSafe(cfg, u);
    KindsAgree(cfg, u, recv);
    RequestDates(cfg, u, recv, other);
    var v := RequestHandled(cfg, u, recv, other);
    t := SecondIsStranded(cfg, v, next, now);
  }

  lemma SomeSlotIsStranded(cfg: Config, raw: seq<Conn>, date: Text, now: int) returns (t: State)
    requires ValidConfig(cfg) && RawSlots(raw, date) && cfg.render(now) == None
    ensures Reachable(cfg, t) && t.stranded != {}
  {
    hide Reachable, Start, ValidConfig;
    StartIsReachable(cfg, raw, date);
    StartListens(cfg, raw, date);
    var s := Start(cfg, raw, date);
    if now != 0 {
      t := SecondIsStranded(cfg, s, 0, now);
    } else if cfg.render(1) == None {
      t := SecondIsStranded(cfg, s, 0, 1);
    } else {
      t := ThirdIsStranded(cfg, s, 0, now, 1);
    }
  }

  /** A slot can be stranded if and only if some second has no date. */
  lemma ASlotCanBeStranded(cfg: Config, raw: seq<Conn>, date: Text)
    requires ValidConfig(cfg) && RawSlots(raw, date)
    ensures (exists s :: Reachable(cfg, s) && s.stranded != {}) <==> exists now :: cfg.render(now) == None
  {
    hide Reachable, ValidConfig, RawSlots;
    if s :| Reachable(cfg, s) && s.stranded != {} { StrandedAtSomeSecond(cfg, s); }
    if now :| cfg.render(now) == None {
      var t := SomeSlotIsStranded(cfg, raw, date, now);
    }
  }

  lemma StrandedAtSomeSecond(cfg: Config, s: State)
    requires Reachable(cfg, s) && s.stranded != {}
    ensures exists now :: cfg.render(now) == None
  {
    hide ValidConfig, IsStep, Start;
    var raw, date, trace, steps :| LeadsTo(cfg, raw, date, trace, steps, s);
    NothingStranded(cfg, raw, date, trace, steps, |steps|);
    var j: int :| 0 <= j < |steps| && StrandedBy(cfg, trace[j], steps[j]) != {};
    var step: Step := steps[j];
    assert cfg.render(step.env.now) == None;
  }

  /** A request handled at a second with a date is answered: a send of that second's response is in the ring. */
  lemma RequestGetsSend(cfg: Config, s: State, id: nat, now: int) returns (t: State, send: nat)
    requires Reachable(cfg, s) && id in s.ops && s.ops[id].kind == Read && s.ops[id].stage.Done?
    requires s.ops[id].stage.res > 0 && now != 0 && cfg.render(now).Some?
    ensures Reachable(cfg, t) && send in t.ops && t.ops[send].kind == Write && t.ops[send].stage == Queued
    ensures t.ops[send].text == cfg.respond(cfg.render(now).value)
  {
    hide Reachable, Inv, Handle, ValidConfig, Search.Contains, StrandedBy;
    ReachableIsSafe(cfg, s);
    RequestIsAnswered(cfg, s, id, Env(true, now));
    t := RequestHandled(cfg, s, id, now);
    send := s.nextId;
    KindsAgree(cfg, s, id);
  }

  /** Whenever there is a response to be sent, some run ends after the kernel has sent a part of it only, and the client
      has received something else than whole responses. */
  lemma AResponseCanBeCutShort(cfg: Config, raw: seq<Conn>, date: Text, now: int)
    requires ValidConfig(cfg) && RawSlots(raw, date) && now != 0
    requires cfg.render(now).Some? && cfg.respond(cfg.render(now).value) != []
    ensures exists raw, date, trace, steps, x :: CutShort(cfg, raw, date, trace, steps, x)
  {
    hide Reachable, Start, ValidConfig, Inv, Execute;
    StartIsReachable(cfg, raw, date);
    StartListens(cfg, raw, date);
    var s, _, recv := RequestArrives(cfg, Start(cfg, raw, date), 0, "G");
    var t, send := RequestGetsSend(cfg, s, recv, now);
    var u := Submit(t);
    NextIsReachable(cfg, t, SubmitStep, u);
    ReachableIsSafe(cfg, u);
    var step := ExecuteStep(send, 0, []);
    assert u.ops[send].stage == Submitted && u.ops[send].text != [];
    KindsAgree(cfg, u, send);
    SerialsFit(cfg, u);
    var v := Execute(cfg, u, send, 0, []);
    ShortSendCutsShort(cfg, u, step, v, u.serials[u.ops[send].slot]);
  }

  lemma SerialsFit(cfg: Config, s: State)
    requires Inv(cfg, s)
    ensures |s.serials| == |s.conns|
  {
  }

  ghost predicate CutShort(cfg: Config, raw: seq<Conn>, date: Text, trace: seq<State>, steps: seq<Step>, x: nat) {
    && RawSlots(raw, date) && IsRun(cfg, raw, date, trace, steps)
    && Sent(trace, steps, x, |steps|) != Concat(Responses(trace, steps, x, |steps|))
  }

  lemma ShortSendCutsShort(cfg: Config, s: State, step: Step, t: State, x: nat)
    requires Reachable(cfg, s) && IsStep(cfg, s, step, t) && Sends(s, step, x) && !SendsAll(s, step)
    ensures exists raw, date, trace, steps :: CutShort(cfg, raw, date, trace, steps, x)
  {
    hide ValidConfig, IsStep, Start, Sends, SendsAll;
    var raw, date, trace, steps :| LeadsTo(cfg, raw, date, trace, steps, s);
    var longer, more := trace + [t], steps + [step];
    forall i | 0 <= i < |more| ensures IsStep(cfg, longer[i], more[i], longer[i + 1]) {
      if i < |steps| { assert IsStep(cfg, trace[i], steps[i], trace[i + 1]); }
    }
    WholeResponses(cfg, raw, date, longer, more, x, |more|);
    assert longer[|steps|] == s && more[|steps|] == step;
    assert CutShort(cfg, raw, date, longer, more, x);
  }
}
