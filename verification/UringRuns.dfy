/** The results about whole runs of the completion engine. */
module UringRuns {
  import opened Bytes
  import opened Uring
  import opened UringSafety
  import opened Counting
  import Search

  ghost predicate RawSlots(raw: seq<Conn>, date: Text) {
    && |raw| == WORKER_CONNECTIONS && |date| < HTTP_DATE_BUF_LEN
    && forall i | 0 <= i < WORKER_CONNECTIONS :: |raw[i].buf| == BUF_SIZE
  }

  lemma StartInv(cfg: Config, raw: seq<Conn>, date: Text)
    requires RawSlots(raw, date)
    ensures Inv(cfg, Start(cfg, raw, date))
  {
    var s := Start(cfg, raw, date);
    assert forall k | 0 <= k < |s.free| :: s.free[k] == k + 1;
    assert s.ops == map[0 := Op(Accept, 0, cfg.serverSock, Queued, [], 0)];
    assert |s.ops| == 1;
    assert forall x: nat :: x in s.free <==> 0 < x < WORKER_CONNECTIONS by {
      forall x: nat | 0 < x < WORKER_CONNECTIONS ensures x in s.free { assert s.free[x - 1] == x; }
    }
    assert forall i: nat :: !Busy(s.free, i);
    assert OneOk(cfg, s, s.ops[0]);
  }

  /** Start-up in full: one accept queued on the listening socket for the first slot, all others free in order without
      a descriptor, and nothing else, whatever memory held. */
  lemma StartsUp(cfg: Config, raw: seq<Conn>, date: Text)
    requires RawSlots(raw, date)
    ensures var s := Start(cfg, raw, date);
            && s.ops == map[0 := Op(Accept, 0, cfg.serverSock, Queued, [], 0)]
            && |s.free| == 1023 == s.freeN && (forall k | 0 <= k < 1023 :: s.free[k] == k + 1)
            && |s.conns| == 1024 && s.conns[0].kind == Accept && s.conns[0].fd == cfg.serverSock
            && (forall i | 0 < i < 1024 :: s.conns[i].kind == Accept && s.conns[i].fd == -1)
            && s.open == map[] && s.prevNow == 0 && s.dateBuf == date && s.closes == [] && s.finished == []
  {
  }

  /** Every step keeps the invariant, and can end the process only on a missing slot. */
  lemma StepKeeps(cfg: Config, s: State, step: Step)
    requires ValidConfig(cfg) && Inv(cfg, s) && Enabled(cfg, s, step)
    ensures match Take(cfg, s, step) case Next(t) => Inv(cfg, t) case Halted(why) => why == NoSlot
  {
    hide Inv, Handle, Execute, Submit, CanExecute;
    match step
    case SubmitStep => SubmitKeeps(cfg, s);
    case ExecuteStep(id, res, data) => ExecuteKeeps(cfg, s, id, res, data);
    case HandleStep(id, env) => HandleKeeps(cfg, s, id, env);
  }

  /** In every run, for any order and results of completions, the invariant holds at every point, and the next step
      never meets a full submission ring. */
  lemma {:induction false} RunsAreSafe(cfg: Config, raw: seq<Conn>, date: Text, trace: seq<State>, steps: seq<Step>,
                                       i: nat)
    requires ValidConfig(cfg) && RawSlots(raw, date) && IsRun(cfg, raw, date, trace, steps) && i < |trace|
    ensures Inv(cfg, trace[i])
    ensures forall step :: Enabled(cfg, trace[i], step) ==> Take(cfg, trace[i], step) != Halted(NoEntry)
  {
    hide Inv, Take, Enabled, Start;
    if i == 0 {
      StartInv(cfg, raw, date);
    } else {
      RunsAreSafe(cfg, raw, date, trace, steps, i - 1);
      assert IsStep(cfg, trace[i - 1], steps[i - 1], trace[i]);
      StepKeeps(cfg, trace[i - 1], steps[i - 1]);
    }
    forall step | Enabled(cfg, trace[i], step) ensures Take(cfg, trace[i], step) != Halted(NoEntry) {
      StepKeeps(cfg, trace[i], step);
    }
  }

  // ---------------------------------------------------------------- reachable states

  ghost predicate LeadsTo(cfg: Config, raw: seq<Conn>, date: Text, trace: seq<State>, steps: seq<Step>, s: State) {
    ValidConfig(cfg) && RawSlots(raw, date) && IsRun(cfg, raw, date, trace, steps) && trace[|steps|] == s
  }

  /** Some run of the engine ends in s. */
  ghost predicate Reachable(cfg: Config, s: State) {
    exists raw, date, trace, steps :: LeadsTo(cfg, raw, date, trace, steps, s)
  }

  lemma ReachableIsSafe(cfg: Config, s: State)
    requires Reachable(cfg, s)
    ensures ValidConfig(cfg) && Inv(cfg, s) && WellFormed(s)
  {
    hide Inv, IsRun, ValidConfig;
    var raw, date, trace, steps :| LeadsTo(cfg, raw, date, trace, steps, s);
    assert |trace| == |steps| + 1 by { RunLength(cfg, raw, date, trace, steps); }
    RunsAreSafe(cfg, raw, date, trace, steps, |steps|);
    InvWellFormed(cfg, s);
  }

  lemma PointIsReachable(cfg: Config, raw: seq<Conn>, date: Text, trace: seq<State>, steps: seq<Step>, i: nat)
    requires ValidConfig(cfg) && RawSlots(raw, date) && IsRun(cfg, raw, date, trace, steps) && i < |trace|
    ensures Reachable(cfg, trace[i])
  {
    hide ValidConfig, IsStep, Start;
    var front, fewer := trace[..i + 1], steps[..i];
    forall j | 0 <= j < |fewer| ensures IsStep(cfg, front[j], fewer[j], front[j + 1]) {
      assert IsStep(cfg, trace[j], steps[j], trace[j + 1]);
    }
    assert LeadsTo(cfg, raw, date, front, fewer, trace[i]);
  }

  lemma NextIsReachable(cfg: Config, s: State, step: Step, t: State)
    requires Reachable(cfg, s) && IsStep(cfg, s, step, t)
    ensures Reachable(cfg, t)
  {
    hide ValidConfig, IsStep, Start;
    var raw, date, trace, steps :| LeadsTo(cfg, raw, date, trace, steps, s);
    var longer, more := trace + [t], steps + [step];
    forall i | 0 <= i < |more| ensures IsStep(cfg, longer[i], more[i], longer[i + 1]) {
      if i < |steps| { assert IsStep(cfg, trace[i], steps[i], trace[i + 1]); }
    }
    assert LeadsTo(cfg, raw, date, longer, more, t);
  }

  lemma RunLength(cfg: Config, raw: seq<Conn>, date: Text, trace: seq<State>, steps: seq<Step>)
    requires |raw| == WORKER_CONNECTIONS && IsRun(cfg, raw, date, trace, steps)
    ensures |trace| == |steps| + 1
  {
  }

  lemma InvWellFormed(cfg: Config, s: State)
    requires Inv(cfg, s)
    ensures WellFormed(s)
  {
    InvIsWellFormed(cfg, s, {});
  }

  /** The process dies while handling a completion exactly when a connection was accepted and every slot but the
      listener's is pending or stranded; a full submission ring is never the reason. */
  lemma DiesOnlyForWantOfASlot(cfg: Config, s: State, id: nat, env: Env)
    requires Reachable(cfg, s) && WellFormed(s) && id in s.ops && s.ops[id].stage.Done?
    ensures var r := Handle(cfg, s, id, env);
            && (r.Halted? <==> s.ops[id].kind == Accept && s.ops[id].stage.res >= 0
                               && |s.ops| + |s.stranded| == WORKER_CONNECTIONS)
            && r != Halted(NoEntry)
  {
    ReachableIsSafe(cfg, s);
    hide Inv, Handle, Reachable, ValidConfig;
    HandleKeeps(cfg, s, id, env);
  }

  // ---------------------------------------------------------------- where the slots are

  predicate Owns(s: State, i: nat, id: nat) {
    id in s.ops && s.ops[id].slot == i
  }

  /** At every point of a run each slot is in exactly one place: on the free list, stranded by a date that could not
      be formatted, or owning exactly one operation. The counter of free slots is right. */
  lemma EachSlotInOnePlace(cfg: Config, s: State, i: nat)
    requires Reachable(cfg, s) && i < WORKER_CONNECTIONS
    ensures i in s.free || i in s.stranded || exists id :: Owns(s, i, id)
    ensures !(i in s.free && i in s.stranded)
    ensures forall id | Owns(s, i, id) :: i !in s.free && i !in s.stranded
    ensures forall id, other | Owns(s, i, id) && Owns(s, i, other) :: id == other
    ensures s.freeN == |s.free|
  {
    hide Reachable, Inv, Owned, Distinct;
    ReachableIsSafe(cfg, s);
    InvOwned(cfg, s);
    var owned := OwnedSlots(s);
    FreeAndStranded(s);
    OwnedExclusively(s, i);
    ThreeParts(Elements(s.free), owned, s.stranded, WORKER_CONNECTIONS);
  }

  lemma InvOwned(cfg: Config, s: State)
    requires Inv(cfg, s)
    ensures Owned(s.free, s.freeN, s.ops, s.stranded, {})
  {
  }

  lemma OwnedExclusively(s: State, i: nat)
    requires Owned(s.free, s.freeN, s.ops, s.stranded, {})
    ensures !(i in s.free && i in s.stranded) && s.freeN == |s.free|
    ensures forall id | Owns(s, i, id) :: i !in s.free && i !in s.stranded
    ensures forall id, other | Owns(s, i, id) && Owns(s, i, other) :: id == other
  {
  }

  lemma OwnedSlots(s: State) returns (owned: set<nat>)
    requires Owned(s.free, s.freeN, s.ops, s.stranded, {})
    ensures |owned| + |s.free| + |s.stranded| == WORKER_CONNECTIONS
    ensures forall x | x in owned ::
              x < WORKER_CONNECTIONS && x !in s.free && x !in s.stranded && exists id :: Owns(s, x, id)
  {
    var slots := map id | id in s.ops :: s.ops[id].slot;
    assert slots.Keys == s.ops.Keys;
    ValuesOfInjective(slots);
    owned := slots.Values;
    forall x | x in owned
      ensures x < WORKER_CONNECTIONS && x !in s.free && x !in s.stranded && exists id :: Owns(s, x, id)
    {
      var id :| id in slots && slots[id] == x;
      assert Owns(s, x, id);
    }
  }

  lemma FreeAndStranded(s: State)
    requires Owned(s.free, s.freeN, s.ops, s.stranded, {})
    ensures |Elements(s.free)| == |s.free|
    ensures forall x | x in s.free :: x < WORKER_CONNECTIONS && x !in s.stranded
    ensures forall x | x in s.stranded :: x < WORKER_CONNECTIONS
  {
    assert Distinct(s.free);
  }

  /** Exactly one accept is outstanding, and it is the listener's. */
  lemma OneAcceptPending(cfg: Config, s: State)
    requires Reachable(cfg, s)
    ensures exists id :: id in s.ops && s.ops[id].kind == Accept && s.ops[id].fd == cfg.serverSock
                         && forall other | other in s.ops && other != id :: s.ops[other].kind != Accept
  {
    hide Reachable;
    ReachableIsSafe(cfg, s);
    EachSlotInOnePlace(cfg, s, 0);
    assert 0 !in s.free && 0 !in s.stranded;
    var id :| Owns(s, 0, id);
    assert OneOk(cfg, s, s.ops[id]);
    forall other | other in s.ops && other != id ensures s.ops[other].kind != Accept {
      assert OneOk(cfg, s, s.ops[other]);
    }
  }

  // ---------------------------------------------------------------- what a handler leaves alone

  /** The kernel's side, the outstanding operations and every slot outside `hand` are the same in both states. */
  ghost predicate Frame(s: State, t: State, hand: set<nat>) {
    && t.open == s.open && t.nextSerial == s.nextSerial && t.closes == s.closes && s.nextId <= t.nextId
    && (forall i | i in s.ops :: i in t.ops && t.ops[i] == s.ops[i])
    && |t.conns| == |s.conns| && |t.serials| == |s.serials| && |t.lives| == |s.lives|
    && (forall x | 0 <= x < |s.conns| && x !in hand :: t.conns[x] == s.conns[x])
    && (forall x | 0 <= x < |s.serials| && x !in hand :: t.serials[x] == s.serials[x])
    && (forall x | 0 <= x < |s.lives| && x !in hand :: t.lives[x] == s.lives[x])
  }

  lemma PrepFrame(s: State, c: nat, kind: Kind, fd: int, text: Text, life: seq<LifeOp>, hand: set<nat>)
    requires WellFormed(s) && c < |s.conns| && c in hand && s.nextId !in s.ops
    ensures var r := Prep(s, c, kind, fd, text, life); r.Next? ==> Frame(s, r.state, hand)
  {
  }

  lemma GetFrame(s: State, serial: nat)
    requires WellFormed(s) && s.free != []
    ensures Frame(s, Get(s, serial), {s.free[0]})
  {
  }

  lemma FramesCompose(s: State, t: State, u: State, small: set<nat>, hand: set<nat>)
    requires Frame(s, t, small) && Frame(t, u, hand) && small <= hand
    ensures Frame(s, u, hand)
  {
  }

  lemma AcceptFrame(cfg: Config, s: State, res: int, serial: nat)
    requires WellFormed(s) && (forall i | i in s.ops :: i < s.nextId)
    ensures var r, hand := HandleAccept(cfg, s, res, serial), {0} + if s.free == [] then {} else {s.free[0]};
            r.Next? ==> Frame(s, r.state, hand)
  {
    hide Frame, QueuedIds;
    var s1, hand := s, {0} + if s.free == [] then {} else {s.free[0]};
    if res >= 0 {
      if s.free == [] { return; }
      var s0 := Get(s, serial);
      GetFrame(s, serial);
      PrepFrame(s0, s.free[0], Read, res, [], [LRead], hand);
      var r := PrepRecv(s0, s.free[0], res);
      if r.Halted? { return; }
      s1 := r.state;
      FramesCompose(s, s0, s1, {s.free[0]}, hand);
    }
    PrepFrame(s1, 0, Accept, cfg.serverSock, [], [], hand);
    if res >= 0 && HandleAccept(cfg, s, res, serial).Next? {
      FramesCompose(s, s1, HandleAccept(cfg, s, res, serial).state, hand, hand);
    }
  }

  lemma SendFrame(cfg: Config, s: State, c: nat, delivered: Text)
    requires WellFormed(s) && c < |s.conns| && s.nextId !in s.ops
    ensures var r := Send(cfg, s, c, delivered); r.Next? ==> Frame(s, r.state, {c})
  {
    hide Prep, Overwrite;
    var text := cfg.respond(s.dateBuf);
    var s1 := s.(conns := s.conns[c := s.conns[c].(buf := Overwrite(s.conns[c].buf, text + [NUL]))]);
    PrepFrame(s1, c, Write, s.conns[c].fd, text, [LWrite(Search.Contains(delivered, Search.CONNECTION_CLOSE))], {c});
  }

  lemma RespondFrame(cfg: Config, s: State, c: nat, delivered: Text, env: Env)
    requires WellFormed(s) && c < |s.conns| && s.nextId !in s.ops
    ensures var r := Respond(cfg, s, c, delivered, env); r.Next? ==> Frame(s, r.state, {c})
  {
    hide Send;
    SendFrame(cfg, s, c, delivered);
    match cfg.render(env.now)
    case None =>
    case Some(date) => SendFrame(cfg, s.(dateBuf := date, prevNow := env.now, dated := true), c, delivered);
  }

  lemma ReadFrame(cfg: Config, s: State, c: nat, res: int, delivered: Text, env: Env)
    requires WellFormed(s) && c < |s.conns| && s.nextId !in s.ops
    ensures var r := HandleRead(cfg, s, c, res, delivered, env); r.Next? ==> Frame(s, r.state, {c})
  {
    hide Prep, Respond;
    PrepFrame(s, c, Close, s.conns[c].fd, [], [LClose], {c});
    if res > 0 {
      var closing := Search.Contains(Front(s.conns[c].buf, res), Search.CONNECTION_CLOSE);
      var s1 := s.(conns := s.conns[c := s.conns[c].(closing := closing)]);
      var s2 := s1.(conns := s1.conns[c := s1.conns[c].(nodelaySet := true)]);
      PrepFrame(s1, c, Close, s.conns[c].fd, [], [LClose], {c});
      RespondFrame(cfg, s1, c, delivered, env);
      RespondFrame(cfg, s2, c, delivered, env);
    }
  }

  /** While a completion is handled, the kernel's side, every other outstanding operation and the slot it works on,
      buffer included, stay as they are. */
  lemma HandleFrame(cfg: Config, s: State, id: nat, env: Env)
    requires Inv(cfg, s) && WellFormed(s) && id in s.ops && s.ops[id].stage.Done?
    ensures var r := Handle(cfg, s, id, env);
            r.Next? ==>
              && r.state.open == s.open && r.state.nextSerial == s.nextSerial && r.state.closes == s.closes
              && forall i | i in s.ops && i != id ::
                   var c := s.ops[i].slot;
                   && i in r.state.ops && r.state.ops[i] == s.ops[i]
                   && c < |s.conns| == |r.state.conns| && r.state.conns[c] == s.conns[c]
                   && c < |s.serials| == |r.state.serials| && r.state.serials[c] == s.serials[c]
                   && c < |s.lives| == |r.state.lives| && r.state.lives[c] == s.lives[c]
  {
    hide Inv, HandleAccept, HandleRead, Prep;
    var op := s.ops[id];
    var s0, c := s.(ops := s.ops - {id}), op.slot;
    KindsAgree(cfg, s, id);
    OthersApart(cfg, s, id);
    match op.kind
    case Accept =>
      AcceptFrame(cfg, s0, op.stage.res, op.serial);
    case Read => ReadFrame(cfg, s0, c, op.stage.res, op.text, env);
    case Write =>
      PrepFrame(s0, c, Close, s.conns[c].fd, [], [LClose], {c});
      PrepFrame(s0, c, Read, s.conns[c].fd, [], [LRead], {c});
    case Close =>
  }

  lemma OthersApart(cfg: Config, s: State, id: nat)
    requires Inv(cfg, s) && id in s.ops
    ensures s.nextId !in s.ops && forall i | i in s.ops :: i < s.nextId
    ensures forall i | i in s.ops && i != id ::
              && s.ops[i].slot < |s.conns| && s.ops[i].slot != s.ops[id].slot
              && (s.free != [] ==> s.ops[i].slot != s.free[0])
  {
    assert s.free != [] ==> s.free[0] in s.free;
  }

  lemma KindsAgree(cfg: Config, s: State, id: nat)
    requires Inv(cfg, s) && id in s.ops
    ensures s.ops[id].slot < |s.conns| && s.conns[s.ops[id].slot].kind == s.ops[id].kind
    ensures s.ops[id].kind == Accept <==> s.ops[id].slot == 0
  {
    assert OneOk(cfg, s, s.ops[id]);
  }

  // ---------------------------------------------------------------- descriptors

  /** Every recv and send, and every close not yet executed, is on a descriptor that is open and belongs to the
      connection its slot serves; two such slots never share a descriptor. */
  lemma DescriptorsAreOwned(cfg: Config, s: State, i: nat, j: nat)
    requires Reachable(cfg, s) && WellFormed(s) && i in s.ops && j in s.ops && i != j
    requires UsesDescriptor(s.ops[i]) && UsesDescriptor(s.ops[j])
    ensures var a, b := s.ops[i].slot, s.ops[j].slot;
            && s.conns[a].fd == s.ops[i].fd && Holds(s.open, s.conns[a].fd, s.serials[a])
            && a != b && s.conns[a].fd != s.conns[b].fd && s.serials[a] != s.serials[b]
  {
    hide Reachable;
    ReachableIsSafe(cfg, s);
    assert OneOk(cfg, s, s.ops[i]) && OneOk(cfg, s, s.ops[j]);
    assert Busy(s.free, s.ops[i].slot) && Busy(s.free, s.ops[j].slot);
  }

  predicate UsesDescriptor(op: Op) {
    op.kind == Read || op.kind == Write || (op.kind == Close && !op.stage.Done?)
  }

  /** What a step closes, if it is the execution of a close. */
  function ClosedBy(s: State, step: Step): seq<nat> {
    match step
    case ExecuteStep(id, _, _) =>
      if id in s.ops && s.ops[id].kind == Close && s.ops[id].fd in s.open then [s.open[s.ops[id].fd]] else []
    case _ => []
  }

  lemma StepCloses(cfg: Config, s: State, step: Step, t: State)
    requires ValidConfig(cfg) && Inv(cfg, s) && IsStep(cfg, s, step, t)
    ensures t.closes == s.closes + ClosedBy(s, step)
  {
    hide Inv;
    match step
    case HandleStep(id, env) => HandleFrame(cfg, s, id, env);
    case _ =>
  }

  /** A close that the kernel executes always finds its descriptor open, held by the slot that asked for the close. */
  lemma CloseFindsItsDescriptor(cfg: Config, s: State, step: Step)
    requires Reachable(cfg, s) && Enabled(cfg, s, step) && step.ExecuteStep? && s.ops[step.id].kind == Close
    ensures ClosedBy(s, step) == [s.serials[s.ops[step.id].slot]]
  {
    hide Reachable, Inv, Execute;
    ReachableIsSafe(cfg, s);
    CloseExecutes(cfg, s, step.id, step.res, step.data);
  }

  lemma {:induction false} ClosesGrow(cfg: Config, raw: seq<Conn>, date: Text, trace: seq<State>, steps: seq<Step>,
                                      i: nat, j: nat)
    requires ValidConfig(cfg) && RawSlots(raw, date) && IsRun(cfg, raw, date, trace, steps) && i < j < |trace|
    ensures trace[i].closes + ClosedBy(trace[i], steps[i]) <= trace[j].closes
  {
    hide Inv, Take, Enabled, Start;
    var k := j - 1;
    RunsAreSafe(cfg, raw, date, trace, steps, k);
    assert IsStep(cfg, trace[k], steps[k], trace[k + 1]);
    StepCloses(cfg, trace[k], steps[k], trace[j]);
    if i < k { ClosesGrow(cfg, raw, date, trace, steps, i, k); }
  }

  /** No accepted connection is closed twice in a run, although descriptor numbers are reused at once. */
  lemma ClosedAtMostOnce(cfg: Config, raw: seq<Conn>, date: Text, trace: seq<State>, steps: seq<Step>, i: nat, j: nat)
    requires ValidConfig(cfg) && RawSlots(raw, date) && IsRun(cfg, raw, date, trace, steps) && i < j < |steps|
    ensures forall x | x in ClosedBy(trace[i], steps[i]) :: x !in ClosedBy(trace[j], steps[j])
  {
    hide Start, Take, Enabled;
    ClosesGrow(cfg, raw, date, trace, steps, i, j);
    RunsAreSafe(cfg, raw, date, trace, steps, j);
    hide Inv, ClosedBy;
    forall x | x in ClosedBy(trace[i], steps[i]) ensures x !in ClosedBy(trace[j], steps[j]) {
      assert x in trace[i].closes + ClosedBy(trace[i], steps[i]);
      OpenIsNotClosed(cfg, trace[j], steps[j], x);
    }
  }

  lemma OpenIsNotClosed(cfg: Config, s: State, step: Step, x: nat)
    requires Inv(cfg, s) && x in s.closes
    ensures x !in ClosedBy(s, step)
  {
  }

  /** Every connection ever accepted is either still open or was closed: none is lost or counted twice. */
  lemma AcceptedIsOpenOrClosed(cfg: Config, s: State)
    requires Reachable(cfg, s)
    ensures |s.open| + |s.closes| == s.nextSerial && Distinct(s.closes)
    ensures forall f | f in s.open :: s.open[f] !in s.closes
  {
    hide Reachable;
    ReachableIsSafe(cfg, s);
  }

  // ---------------------------------------------------------------- buffers, responses and lives

  /** Until the kernel executes a send, the slot's buffer begins with exactly the octets that were formatted, however
      long it waits. How many of them it then sends is its own choice. */
  lemma SentIsFormatted(cfg: Config, s: State, id: nat)
    requires Reachable(cfg, s) && id in s.ops && s.ops[id].kind == Write && !s.ops[id].stage.Done?
    ensures var op := s.ops[id]; op.slot < |s.conns| && op.text <= s.conns[op.slot].buf
  {
    hide Reachable;
    ReachableIsSafe(cfg, s);
    assert OneOk(cfg, s, s.ops[id]);
    var op := s.ops[id];
    var buf := s.conns[op.slot].buf;
    assert buf == buf[..|op.text|] + buf[|op.text|..];
  }

  /** The server examines exactly the octets that the kernel delivered. */
  lemma ExaminedIsDelivered(cfg: Config, s: State, id: nat)
    requires Reachable(cfg, s) && id in s.ops
    requires s.ops[id].kind == Read && s.ops[id].stage.Done? && s.ops[id].stage.res > 0
    ensures var op := s.ops[id];
            op.slot < |s.conns| && Front(s.conns[op.slot].buf, op.stage.res) == op.text
  {
    hide Reachable;
    ReachableIsSafe(cfg, s);
    assert OneOk(cfg, s, s.ops[id]);
  }

  /** The reaction to a request with the given octets at the given second: a send of that second's response, unless
      the date cannot be formatted (the slot is stranded) or TCP_NODELAY, needed to keep the connection, fails (a
      close). */
  ghost predicate Reacts(cfg: Config, s: State, t: State, c: nat, octets: Text, env: Env)
    requires WellFormed(s) && c < |s.conns|
  {
    var held := Search.Contains(octets, Search.CONNECTION_CLOSE);
    var fd := s.conns[c].fd;
    if !held && !s.conns[c].nodelaySet && !env.nodelayOk then
      t.ops == s.ops[s.nextId := Op(Close, c, fd, Queued, [], 0)]
    else match cfg.render(env.now)
      case None => t.ops == s.ops && c in t.stranded
      case Some(date) =>
        && t.ops == s.ops[s.nextId := Op(Write, c, fd, Queued, cfg.respond(date), 0)]
        && t.lives == s.lives[c := s.lives[c] + [LWrite(held)]]
  }

  /** The date that goes out at this second is its own, unless the second is 0 and none was ever formatted: then it is
      whatever the buffer held at the start, which may give the right response by chance. */
  predicate Current(cfg: Config, s: State, env: Env) {
    || env.now != 0 || s.dated
    || (cfg.render(0).Some? && cfg.respond(cfg.render(0).value) == cfg.respond(s.dateBuf))
  }

  /** TCP_NODELAY is needed to keep the connection, and cannot be set. */
  ghost predicate Refused(s: State, c: nat, octets: Text, env: Env)
    requires c < |s.conns|
  {
    !Search.Contains(octets, Search.CONNECTION_CLOSE) && !s.conns[c].nodelaySet && !env.nodelayOk
  }

  lemma SendReacts(cfg: Config, s: State, c: nat, octets: Text, env: Env)
    requires WellFormed(s) && c < |s.conns| && s.nextId !in s.ops && !Refused(s, c, octets, env)
    ensures var r := Send(cfg, s, c, octets);
            r.Next? ==> (Reacts(cfg, s, r.state, c, octets, env)
                         <==> cfg.render(env.now).Some?
                              && cfg.respond(cfg.render(env.now).value) == cfg.respond(s.dateBuf))
  {
    hide QueuedIds, Overwrite, Search.Contains;
    var r := Send(cfg, s, c, octets);
    if r.Next? {
      assert r.state.ops[s.nextId].text == cfg.respond(s.dateBuf) && r.state.ops != s.ops;
    }
  }

  lemma RespondReacts(cfg: Config, s: State, c: nat, octets: Text, env: Env)
    requires WellFormed(s) && c < |s.conns| && s.nextId !in s.ops && !Refused(s, c, octets, env)
    requires DateOk(cfg, s.prevNow, s.dateBuf, s.dated)
    ensures var r := Respond(cfg, s, c, octets, env);
            r.Next? ==> (Reacts(cfg, s, r.state, c, octets, env) <==> Current(cfg, s, env))
  {
    hide Send, Refused, Search.Contains;
    SendReacts(cfg, s, c, octets, env);
    match cfg.render(env.now)
    case None => StrandReacts(cfg, s, c, octets, env);
    case Some(date) =>
      var s1 := s.(dateBuf := date, prevNow := env.now, dated := true);
      RefusedFrame(s, s1, c, octets, env);
      SendReacts(cfg, s1, c, octets, env);
      ReactsFrame(cfg, s, s1, c, octets, env);
  }

  lemma StrandReacts(cfg: Config, s: State, c: nat, octets: Text, env: Env)
    requires WellFormed(s) && c < |s.conns| && cfg.render(env.now) == None && !Refused(s, c, octets, env)
    ensures Reacts(cfg, s, Strand(s, c), c, octets, env)
  {
  }

  lemma RefusedFrame(s: State, s1: State, c: nat, octets: Text, env: Env)
    requires c < |s.conns| == |s1.conns| && s1.conns[c].nodelaySet == s.conns[c].nodelaySet
    ensures Refused(s1, c, octets, env) <==> Refused(s, c, octets, env)
  {
  }

  /** The reaction is measured against operations, lives and the descriptor that were there before. */
  lemma ReactsFrame(cfg: Config, s: State, s1: State, c: nat, octets: Text, env: Env)
    requires WellFormed(s) && WellFormed(s1) && c < |s.conns| == |s1.conns|
    requires s1.ops == s.ops && s1.nextId == s.nextId && s1.lives == s.lives && s1.conns[c].fd == s.conns[c].fd
    requires Refused(s1, c, octets, env) <==> Refused(s, c, octets, env)
    ensures forall t :: Reacts(cfg, s1, t, c, octets, env) <==> Reacts(cfg, s, t, c, octets, env)
  {
    hide Search.Contains;
  }

  lemma ReadReacts(cfg: Config, s: State, c: nat, res: int, octets: Text, env: Env)
    requires WellFormed(s) && c < |s.conns| && s.nextId !in s.ops && DateOk(cfg, s.prevNow, s.dateBuf, s.dated)
    requires res > 0 && Front(s.conns[c].buf, res) == octets
    ensures var r := HandleRead(cfg, s, c, res, octets, env);
            r.Next? ==> (Reacts(cfg, s, r.state, c, octets, env)
                         <==> Refused(s, c, octets, env) || Current(cfg, s, env))
  {
    hide QueuedIds, Front, Search.Contains, Respond, Reacts, Current;
    var closing := Search.Contains(octets, Search.CONNECTION_CLOSE);
    var s1 := s.(conns := s.conns[c := s.conns[c].(closing := closing)]);
    var s2 := s1.(conns := s1.conns[c := s1.conns[c].(nodelaySet := true)]);
    SameDate(cfg, s, s1, env);
    SameDate(cfg, s, s2, env);
    if Refused(s, c, octets, env) {
      CloseReacts(cfg, s, s1, c, octets, env);
    } else if closing || s.conns[c].nodelaySet {
      RespondReacts(cfg, s1, c, octets, env);
      ReactsFrame(cfg, s, s1, c, octets, env);
    } else {
      RespondReacts(cfg, s2, c, octets, env);
      ReactsFrame(cfg, s, s2, c, octets, env);
    }
  }

  lemma SameDate(cfg: Config, s: State, s1: State, env: Env)
    requires s1.dated == s.dated && s1.dateBuf == s.dateBuf
    ensures Current(cfg, s1, env) <==> Current(cfg, s, env)
  {
  }

  lemma CloseReacts(cfg: Config, s: State, s1: State, c: nat, octets: Text, env: Env)
    requires WellFormed(s) && WellFormed(s1) && c < |s.conns| == |s1.conns| && Refused(s, c, octets, env)
    requires s1.ops == s.ops && s1.nextId == s.nextId && s1.conns[c].fd == s.conns[c].fd
    ensures var r := PrepClose(s1, c); r.Next? ==> Reacts(cfg, s, r.state, c, octets, env)
  {
    hide QueuedIds, Search.Contains;
  }

  /** A request is answered with the response for the second in which it is handled, whether or not the date was
      cached, if and only if TCP_NODELAY fails, or that second is not 0, or a date was formatted before, or the
      uninitialised date buffer happens to give the same response. */
  lemma RequestIsAnswered(cfg: Config, s: State, id: nat, env: Env)
    requires Reachable(cfg, s) && WellFormed(s)
    requires id in s.ops && s.ops[id].kind == Read && s.ops[id].stage.Done? && s.ops[id].stage.res > 0
    ensures var r, op := Handle(cfg, s, id, env), s.ops[id];
            && r.Next?
            && (Reacts(cfg, s.(ops := s.ops - {id}), r.state, op.slot, op.text, env)
                <==> Refused(s, op.slot, op.text, env) || Current(cfg, s, env))
  {
    hide Reachable, Inv, ValidConfig, HandleRead, Reacts, Front, Refused, Current;
    ReachableIsSafe(cfg, s);
    HandleKeeps(cfg, s, id, env);
    KindsAgree(cfg, s, id);
    ExaminedIsDelivered(cfg, s, id);
    DateIsOk(cfg, s);
    var s0, op := s.(ops := s.ops - {id}), s.ops[id];
    ReadReacts(cfg, s0, op.slot, op.stage.res, op.text, env);
    RefusedFrame(s, s0, op.slot, op.text, env);
    SameDate(cfg, s, s0, env);
  }

  lemma DateIsOk(cfg: Config, s: State)
    requires Inv(cfg, s)
    ensures DateOk(cfg, s.prevNow, s.dateBuf, s.dated) && s.nextId !in s.ops
  {
  }

  /** A finished recv with nothing to read closes; a finished send closes exactly when the request it answered asked
      for it, and otherwise the connection is read again. */
  lemma OtherReactions(cfg: Config, s: State, id: nat, env: Env)
    requires Reachable(cfg, s) && WellFormed(s) && id in s.ops && s.ops[id].stage.Done?
    requires s.ops[id].kind == Write || (s.ops[id].kind == Read && s.ops[id].stage.res <= 0)
    ensures var r, op := Handle(cfg, s, id, env), s.ops[id];
            var close := op.kind == Read || Answering(s.lives[op.slot], true);
            && r.Next?
            && r.state.ops
               == (s.ops - {id})[s.nextId := Op(if close then Close else Read, op.slot, op.fd, Queued, [], 0)]
  {
    hide Reachable, Inv, ValidConfig, QueuedIds, Answering;
    ReachableIsSafe(cfg, s);
    HandleKeeps(cfg, s, id, env);
    WriteFacts(cfg, s, id);
  }

  lemma WriteFacts(cfg: Config, s: State, id: nat)
    requires Inv(cfg, s) && id in s.ops
    ensures var op := s.ops[id];
            && op.slot < |s.conns| == |s.lives| && s.conns[op.slot].kind == op.kind && s.conns[op.slot].fd == op.fd
            && (op.kind == Write ==> (Answering(s.lives[op.slot], true) <==> s.conns[op.slot].closing))
  {
    assert OneOk(cfg, s, s.ops[id]);
  }

  /** Every life that ended, from get_connection to free_connection, is a word of the protocol, and every life in
      progress is the beginning of one. */
  lemma LivesFollowTheProtocol(cfg: Config, s: State)
    requires Reachable(cfg, s)
    ensures forall k | 0 <= k < |s.finished| :: CompleteLife(s.finished[k])
    ensures forall id | id in s.ops && s.ops[id].slot != 0 :: BeginsLife(s.lives, s.ops[id].slot)
    ensures forall c | c in s.stranded :: BeginsLife(s.lives, c)
  {
    hide Reachable;
    ReachableIsSafe(cfg, s);
    forall id | id in s.ops && s.ops[id].slot != 0 ensures BeginsLife(s.lives, s.ops[id].slot) {
      assert OneOk(cfg, s, s.ops[id]);
      PrefixOfLife(s.lives[s.ops[id].slot]);
    }
    forall c | c in s.stranded ensures BeginsLife(s.lives, c) {
      PrefixOfLife(s.lives[c]);
    }
  }

  ghost predicate BeginsLife(lives: seq<seq<LifeOp>>, c: nat) {
    c < |lives| && exists l :: lives[c] <= l && CompleteLife(l)
  }

  lemma PrefixOfLife(l: seq<LifeOp>)
    requires Looping(l) || Answering(l, true) || Answering(l, false) || CompleteLife(l)
    ensures exists m :: l <= m && CompleteLife(m)
  {
    LifeGrows(l, true);
    if CompleteLife(l) {
      assert l <= l;
    } else if Answering(l, false) {
      LifeGrows(l + [LRead], true);
      assert l <= l + [LRead] + [LClose];
    } else {
      assert l <= l + [LClose];
    }
  }
}
