/** When the completion engine asks for TCP_NODELAY: once for each connection, at its first request that keeps it. */
module UringNoDelay {
  import opened Bytes
  import opened Uring
  import opened UringSafety
  import opened UringRuns
  import opened UringProgress
  import Search

  // ---------------------------------------------------------------- the flag of a slot

  /** The flag is set exactly when the connection was answered and kept. */
  predicate FlagOk(c: Conn, life: seq<LifeOp>) {
    c.nodelaySet <==> LWrite(false) in life
  }

  ghost predicate FlagsOk(s: State) {
    forall id | id in s.ops && s.ops[id].slot != 0 :: FlagOkAt(s, s.ops[id].slot)
  }

  ghost predicate FlagOkAt(s: State, c: nat) {
    c < |s.conns| && c < |s.lives| && FlagOk(s.conns[c], s.lives[c])
  }

  lemma PrepFlags(s: State, c: nat, kind: Kind, fd: int, text: Text, life: LifeOp)
    requires WellFormed(s) && c < |s.conns|
    requires s.conns[c].nodelaySet <==> LWrite(false) in s.lives[c] || life == LWrite(false)
    ensures var r := Prep(s, c, kind, fd, text, [life]); r.Next? ==> FlagOkAt(r.state, c)
  {
    hide QueuedIds;
  }

  lemma SendFlags(cfg: Config, s: State, c: nat, delivered: Text)
    requires WellFormed(s) && c < |s.conns|
    requires var held := Search.Contains(delivered, Search.CONNECTION_CLOSE);
             s.conns[c].nodelaySet <==> LWrite(false) in s.lives[c] || !held
    ensures var r := Send(cfg, s, c, delivered); r.Next? ==> FlagOkAt(r.state, c)
  {
    hide Prep, Overwrite, Search.Contains, FlagOkAt;
    var text := cfg.respond(s.dateBuf);
    var s1 := s.(conns := s.conns[c := s.conns[c].(buf := Overwrite(s.conns[c].buf, text + [NUL]))]);
    PrepFlags(s1, c, Write, s.conns[c].fd, text, LWrite(Search.Contains(delivered, Search.CONNECTION_CLOSE)));
  }

  lemma RespondFlags(cfg: Config, s: State, c: nat, delivered: Text, env: Env)
    requires WellFormed(s) && c < |s.conns|
    requires var held := Search.Contains(delivered, Search.CONNECTION_CLOSE);
             s.conns[c].nodelaySet <==> LWrite(false) in s.lives[c] || !held
    ensures var r := Respond(cfg, s, c, delivered, env); r.Next? && r.state.ops != s.ops ==> FlagOkAt(r.state, c)
  {
    hide Send, Search.Contains, FlagOkAt;
    SendFlags(cfg, s, c, delivered);
    match cfg.render(env.now)
    case None =>
    case Some(date) => SendFlags(cfg, s.(dateBuf := date, prevNow := env.now, dated := true), c, delivered);
  }

  /** A request that keeps the connection sets the flag, unless setsockopt fails or nothing is sent. */
  lemma RequestFlags(cfg: Config, s: State, c: nat, res: int, octets: Text, env: Env)
    requires WellFormed(s) && c < |s.conns| && (res > 0 ==> Front(s.conns[c].buf, res) == octets) && FlagOkAt(s, c)
    ensures var r := HandleRead(cfg, s, c, res, octets, env);
            r.Next? && r.state.ops != s.ops ==> FlagOkAt(r.state, c)
  {
    FlagMeans(s, c);
    hide Prep, Respond, Front, Search.Contains, FlagOkAt;
    PrepFlags(s, c, Close, s.conns[c].fd, [], LClose);
    if res > 0 {
      var closing := Search.Contains(octets, Search.CONNECTION_CLOSE);
      var s1 := s.(conns := s.conns[c := s.conns[c].(closing := closing)]);
      var s2 := s1.(conns := s1.conns[c := s1.conns[c].(nodelaySet := true)]);
      PrepFlags(s1, c, Close, s.conns[c].fd, [], LClose);
      if closing || s.conns[c].nodelaySet {
        RespondFlags(cfg, s1, c, octets, env);
      } else {
        RespondFlags(cfg, s2, c, octets, env);
      }
    }
  }

  lemma FlagMeans(s: State, c: nat)
    requires FlagOkAt(s, c)
    ensures c < |s.conns| && c < |s.lives| && (s.conns[c].nodelaySet <==> LWrite(false) in s.lives[c])
  {
  }

  lemma FlagFrame(s: State, t: State, c: nat)
    requires FlagOkAt(s, c) && c < |t.conns| && c < |t.lives| && t.conns[c] == s.conns[c] && t.lives[c] == s.lives[c]
    ensures FlagOkAt(t, c)
  {
  }

  lemma HandleFlags(cfg: Config, s: State, id: nat, env: Env)
    requires Reachable(cfg, s) && WellFormed(s) && id in s.ops && s.ops[id].stage.Done? && FlagsOk(s)
    ensures var r := Handle(cfg, s, id, env); r.Next? ==> FlagsOk(r.state)
  {
    hide Reachable, Inv, Handle, FlagOkAt;
    ReachableIsSafe(cfg, s);
    HandleFrame(cfg, s, id, env);
    var op, r := s.ops[id], Handle(cfg, s, id, env);
    if r.Next? {
      NewFlags(cfg, s, id, env);
      forall i | i in r.state.ops && r.state.ops[i].slot != 0 ensures FlagOkAt(r.state, r.state.ops[i].slot) {
        if i in s.ops && i != id { FlagFrame(s, r.state, s.ops[i].slot); }
      }
    }
  }

  lemma NewFlags(cfg: Config, s: State, id: nat, env: Env)
    requires Reachable(cfg, s) && WellFormed(s) && id in s.ops && s.ops[id].stage.Done? && FlagsOk(s)
    ensures var r := Handle(cfg, s, id, env);
            r.Next? ==> forall i | i in r.state.ops && (i !in s.ops || i == id) && r.state.ops[i].slot != 0 ::
                          FlagOkAt(r.state, r.state.ops[i].slot)
  {
    hide Reachable, Inv, Handle, FlagOkAt, WorksOn;
    ReachableIsSafe(cfg, s);
    FreshId(cfg, s);
    match s.ops[id].kind
    case Accept => AcceptFlags(cfg, s, id, env);
    case Close => CloseReaction(cfg, s, id, env);
    case _ =>
      TransferWorksOn(cfg, s, id, env);
      TransferFlags(cfg, s, id, env);
      NewSlots(s, id, Handle(cfg, s, id, env));
  }

  lemma NewSlots(s: State, id: nat, r: Outcome)
    requires id in s.ops && (r.Next? ==> WorksOn(s.(ops := s.ops - {id}), r.state, s.ops[id].slot))
    ensures r.Next? ==> forall i | i in r.state.ops && (i !in s.ops || i == id) :: r.state.ops[i].slot == s.ops[id].slot
  {
  }

  lemma TransferFlags(cfg: Config, s: State, id: nat, env: Env)
    requires Reachable(cfg, s) && WellFormed(s) && id in s.ops && s.ops[id].stage.Done?
    requires s.ops[id].kind in {Read, Write} && FlagsOk(s)
    ensures var r := Handle(cfg, s, id, env);
            r.Next? && r.state.ops != s.ops - {id} ==> FlagOkAt(r.state, s.ops[id].slot)
  {
    hide Reachable, Inv, HandleRead, Prep, Front, FlagOkAt;
    ReachableIsSafe(cfg, s);
    KindsAgree(cfg, s, id);
    var op, s0 := s.ops[id], s.(ops := s.ops - {id});
    assert op.slot != 0 && FlagOkAt(s, op.slot);
    SlotFlags(s, s0, op.slot);
    FlagMeans(s0, op.slot);
    if op.kind == Read {
      if op.stage.res > 0 { ExaminedIsDelivered(cfg, s, id); }
      RequestFlags(cfg, s0, op.slot, op.stage.res, op.text, env);
    } else {
      PrepFlags(s0, op.slot, Close, s0.conns[op.slot].fd, [], LClose);
      PrepFlags(s0, op.slot, Read, s0.conns[op.slot].fd, [], LRead);
    }
  }

  lemma SlotFlags(s: State, s0: State, c: nat)
    requires s0.conns == s.conns && s0.lives == s.lives
    ensures FlagOkAt(s, c) <==> FlagOkAt(s0, c)
  {
  }

  lemma AcceptFlags(cfg: Config, s: State, id: nat, env: Env)
    requires Reachable(cfg, s) && WellFormed(s) && id in s.ops && s.ops[id].kind == Accept && s.ops[id].stage.Done?
    ensures var r := Handle(cfg, s, id, env);
            r.Next? ==> forall i | i in r.state.ops && (i !in s.ops || i == id) && r.state.ops[i].slot != 0 ::
                          FlagOkAt(r.state, r.state.ops[i].slot)
  {
    hide Reachable, Handle;
    AcceptReaction(cfg, s, id, env);
    FreshId(cfg, s);
  }

  lemma FreshId(cfg: Config, s: State)
    requires Reachable(cfg, s)
    ensures forall i | i in s.ops :: i < s.nextId
  {
    hide Reachable, Inv;
    ReachableIsSafe(cfg, s);
    IdsAreOld(cfg, s);
  }

  lemma IdsAreOld(cfg: Config, s: State)
    requires Inv(cfg, s)
    ensures forall i | i in s.ops :: i < s.nextId
  {
  }

  lemma StepFlags(cfg: Config, s: State, step: Step, t: State)
    requires Reachable(cfg, s) && IsStep(cfg, s, step, t) && FlagsOk(s)
    ensures FlagsOk(t)
  {
    hide Reachable, Handle;
    match step
    case SubmitStep => SubmitSubmits(cfg, s);
    case ExecuteStep(id, res, data) =>
    case HandleStep(id, env) => HandleFlags(cfg, s, id, env);
  }

  lemma NoFlagsYet(cfg: Config, raw: seq<Conn>, date: Text)
    requires |raw| == WORKER_CONNECTIONS
    ensures FlagsOk(Start(cfg, raw, date))
  {
  }

  lemma {:induction false} FlagsOnRuns(cfg: Config, raw: seq<Conn>, date: Text, trace: seq<State>, steps: seq<Step>,
                                       i: nat)
    requires ValidConfig(cfg) && RawSlots(raw, date) && IsRun(cfg, raw, date, trace, steps) && i < |trace|
    ensures FlagsOk(trace[i])
  {
    hide Start, IsStep, ValidConfig, Reachable, FlagsOk;
    if i == 0 {
      NoFlagsYet(cfg, raw, date);
    } else {
      FlagsOnRuns(cfg, raw, date, trace, steps, i - 1);
      PointIsReachable(cfg, raw, date, trace, steps, i - 1);
      assert IsStep(cfg, trace[i - 1], steps[i - 1], trace[i]);
      StepFlags(cfg, trace[i - 1], steps[i - 1], trace[i]);
    }
  }

  /** In every reachable state the flag of each pending client slot says exactly whether its connection was answered and
      kept, in a slot that was used before, too. */
  lemma FlagTellsIfAnswered(cfg: Config, s: State, id: nat)
    requires Reachable(cfg, s) && id in s.ops && s.ops[id].slot != 0
    ensures var c := s.ops[id].slot;
            c < |s.conns| && c < |s.lives| && (s.conns[c].nodelaySet <==> LWrite(false) in s.lives[c])
  {
    hide Start, IsStep, ValidConfig;
    var raw, date, trace, steps :| LeadsTo(cfg, raw, date, trace, steps, s);
    FlagsOnRuns(cfg, raw, date, trace, steps, |steps|);
    assert FlagOkAt(s, s.ops[id].slot);
  }

  // ---------------------------------------------------------------- over runs

  /** Step j handled a request on connection x, and queued a response that keeps the connection. */
  ghost predicate AnsweredAt(s: State, step: Step, t: State, x: nat) {
    && step.HandleStep? && step.id in s.ops && s.ops[step.id].kind == Read
    && var c := s.ops[step.id].slot;
    && c < |s.serials| && c < |s.lives| && c < |t.lives|
    && s.serials[c] == x && t.lives[c] == s.lives[c] + [LWrite(false)]
  }

  ghost predicate AnsweredBefore(trace: seq<State>, steps: seq<Step>, i: nat, x: nat)
    requires i <= |steps| < |trace|
  {
    exists j :: 0 <= j < i && AnsweredAt(trace[j], steps[j], trace[j + 1], x)
  }

  /** No accept that was executed, and not yet handled, brought this connection. */
  ghost predicate Unaccepted(s: State, x: nat) {
    x < s.nextSerial
    && forall id | id in s.ops && s.ops[id].kind == Accept && s.ops[id].stage.Done? && s.ops[id].stage.res >= 0 ::
         s.ops[id].serial != x
  }

  /** The life of a slot in use says whether its connection was answered and kept. */
  ghost predicate Remembers(trace: seq<State>, steps: seq<Step>, i: nat, c: nat)
    requires i <= |steps| < |trace|
  {
    && c < |trace[i].serials| && c < |trace[i].lives|
    && (LWrite(false) in trace[i].lives[c] <==> AnsweredBefore(trace, steps, i, trace[i].serials[c]))
  }

  ghost predicate AllRemember(trace: seq<State>, steps: seq<Step>, i: nat)
    requires i <= |steps| < |trace|
  {
    && (forall c: nat | Busy(trace[i].free, c) :: Remembers(trace, steps, i, c))
    && (forall x: nat | AnsweredBefore(trace, steps, i, x) :: Unaccepted(trace[i], x))
  }

  /** How one step changes what a slot in use remembers: its life grows by what the step issues, or it was just taken
      for a connection that was accepted. */
  ghost predicate MemoryStep(s: State, step: Step, t: State, c: nat) {
    && c < |t.serials| && c < |t.lives| && c < |s.serials| && c < |s.lives|
    && if Busy(s.free, c)
       then t.serials[c] == s.serials[c]
            && (LWrite(false) in t.lives[c]
                <==> LWrite(false) in s.lives[c] || AnsweredAt(s, step, t, s.serials[c]))
       else LWrite(false) !in t.lives[c] && !Unaccepted(s, t.serials[c])
  }

  lemma AnsweredOnce(cfg: Config, s: State, step: Step, t: State, x: nat)
    requires Reachable(cfg, s) && AnsweredAt(s, step, t, x)
    ensures |s.serials| == WORKER_CONNECTIONS && Busy(s.free, s.ops[step.id].slot)
    ensures forall b: nat | Busy(s.free, b) && b != s.ops[step.id].slot :: s.serials[b] != x
    ensures Unaccepted(s, x)
  {
    hide Reachable;
    ReachableIsSafe(cfg, s);
    assert OneOk(cfg, s, s.ops[step.id]);
    assert Busy(s.free, s.ops[step.id].slot);
    forall i | i in s.ops && s.ops[i].kind == Accept && s.ops[i].stage.Done? && s.ops[i].stage.res >= 0
      ensures s.ops[i].serial != x
    {
      assert OneOk(cfg, s, s.ops[i]);
    }
  }

  lemma StepUnaccepted(cfg: Config, s: State, step: Step, t: State, x: nat)
    requires Reachable(cfg, s) && IsStep(cfg, s, step, t) && Unaccepted(s, x)
    ensures Unaccepted(t, x)
  {
    hide Reachable, Inv, Handle;
    ReachableIsSafe(cfg, s);
    match step
    case SubmitStep => SubmitSubmits(cfg, s);
    case ExecuteStep(id, res, data) =>
    case HandleStep(id, env) =>
      HandleFrame(cfg, s, id, env);
      NewOperationsAreQueued(cfg, s, id, env);
  }

  /** A life that stayed as it was, or got one more operation. */
  predicate Grown(life: seq<LifeOp>, longer: seq<LifeOp>) {
    longer == life || (longer != [] && longer == life + [longer[|longer| - 1]])
  }

  predicate GrownAt(s: State, t: State, c: nat) {
    c < |s.lives| == |t.lives| && Grown(s.lives[c], t.lives[c])
  }

  lemma PrepGrows(s: State, c: nat, kind: Kind, fd: int, text: Text, life: LifeOp)
    requires WellFormed(s) && c < |s.conns|
    ensures var r := Prep(s, c, kind, fd, text, [life]);
            r.Next? ==> GrownAt(s, r.state, c) && r.state.lives[c] == s.lives[c] + [life]
  {
    hide QueuedIds;
  }

  lemma RespondGrows(cfg: Config, s: State, c: nat, delivered: Text, env: Env)
    requires WellFormed(s) && c < |s.conns|
    ensures var r := Respond(cfg, s, c, delivered, env); r.Next? ==> GrownAt(s, r.state, c)
  {
    hide QueuedIds, Overwrite, Search.Contains;
  }

  lemma ReadGrows(cfg: Config, s: State, c: nat, res: int, delivered: Text, env: Env)
    requires WellFormed(s) && c < |s.conns|
    ensures var r := HandleRead(cfg, s, c, res, delivered, env); r.Next? ==> GrownAt(s, r.state, c)
  {
    hide Prep, Respond, Front, Search.Contains;
    PrepGrows(s, c, Close, s.conns[c].fd, [], LClose);
    if res > 0 {
      var closing := Search.Contains(Front(s.conns[c].buf, res), Search.CONNECTION_CLOSE);
      var s1 := s.(conns := s.conns[c := s.conns[c].(closing := closing)]);
      var s2 := s1.(conns := s1.conns[c := s1.conns[c].(nodelaySet := true)]);
      PrepGrows(s1, c, Close, s.conns[c].fd, [], LClose);
      RespondGrows(cfg, s1, c, delivered, env);
      RespondGrows(cfg, s2, c, delivered, env);
    }
  }

  lemma SendDoneGrows(cfg: Config, s: State, id: nat, env: Env)
    requires Inv(cfg, s) && WellFormed(s) && id in s.ops && s.ops[id].stage.Done? && s.ops[id].kind == Write
    ensures var r, c := Handle(cfg, s, id, env), s.ops[id].slot;
            r.Next? ==> GrownAt(s, r.state, c) && (LWrite(false) in r.state.lives[c] <==> LWrite(false) in s.lives[c])
  {
    hide Inv, Prep;
    KindsAgree(cfg, s, id);
    var op, s0 := s.ops[id], s.(ops := s.ops - {id});
    PrepGrows(s0, op.slot, Close, s0.conns[op.slot].fd, [], LClose);
    PrepGrows(s0, op.slot, Read, s0.conns[op.slot].fd, [], LRead);
  }

  lemma ReadDoneGrows(cfg: Config, s: State, id: nat, env: Env)
    requires Inv(cfg, s) && WellFormed(s) && id in s.ops && s.ops[id].stage.Done? && s.ops[id].kind == Read
    ensures var r, c := Handle(cfg, s, id, env), s.ops[id].slot; r.Next? ==> GrownAt(s, r.state, c)
  {
    hide Inv, HandleRead;
    KindsAgree(cfg, s, id);
    var op, s0 := s.ops[id], s.(ops := s.ops - {id});
    ReadGrows(cfg, s0, op.slot, op.stage.res, op.text, env);
  }

  /** Handling a completion leaves the lives and connections of all slots but the one it works on, and the one it
      takes. */
  lemma HandleTouches(cfg: Config, s: State, id: nat, env: Env, x: nat)
    requires Inv(cfg, s) && WellFormed(s) && id in s.ops && s.ops[id].stage.Done? && x < |s.lives| == |s.serials|
    requires 0 < x && x != s.ops[id].slot && !(s.ops[id].kind == Accept && s.free != [] && x == s.free[0])
    ensures var r := Handle(cfg, s, id, env);
            r.Next? ==>
              && x < |r.state.lives| && r.state.lives[x] == s.lives[x]
              && x < |r.state.serials| && r.state.serials[x] == s.serials[x]
  {
    hide Inv, HandleAccept, HandleRead, Prep;
    var op, s0 := s.ops[id], s.(ops := s.ops - {id});
    KindsAgree(cfg, s, id);
    OthersApart(cfg, s, id);
    LengthsAgree(cfg, s);
    match op.kind
    case Accept => AcceptFrame(cfg, s0, op.stage.res, op.serial);
    case Read => ReadFrame(cfg, s0, op.slot, op.stage.res, op.text, env);
    case Write =>
      PrepFrame(s0, op.slot, Close, s.conns[op.slot].fd, [], [LClose], {op.slot});
      PrepFrame(s0, op.slot, Read, s.conns[op.slot].fd, [], [LRead], {op.slot});
    case Close =>
  }

  lemma LengthsAgree(cfg: Config, s: State)
    requires Inv(cfg, s)
    ensures |s.conns| == |s.serials| == |s.lives| == WORKER_CONNECTIONS
  {
  }

  /** Which slots are in use after a completion was handled. */
  lemma HandleFree(cfg: Config, s: State, id: nat, env: Env)
    requires Reachable(cfg, s) && WellFormed(s) && id in s.ops && s.ops[id].stage.Done?
    ensures var r, op := Handle(cfg, s, id, env), s.ops[id];
            r.Next? ==>
              r.state.free == if op.kind == Accept && op.stage.res >= 0 && s.free != [] then s.free[1..]
                              else if op.kind == Close then [op.slot] + s.free
                              else s.free
  {
    hide Reachable, Inv, Handle;
    ReachableIsSafe(cfg, s);
    match s.ops[id].kind
    case Accept => AcceptReaction(cfg, s, id, env);
    case Close => CloseReaction(cfg, s, id, env);
    case _ => TransferWorksOn(cfg, s, id, env);
  }

  lemma HandleMemory(cfg: Config, s: State, id: nat, env: Env, c: nat)
    requires Reachable(cfg, s) && WellFormed(s) && id in s.ops && s.ops[id].stage.Done?
    requires Handle(cfg, s, id, env).Next? && Busy(Handle(cfg, s, id, env).state.free, c)
    ensures MemoryStep(s, HandleStep(id, env), Handle(cfg, s, id, env).state, c)
  {
    hide Reachable, Inv, Handle, Unaccepted;
    ReachableIsSafe(cfg, s);
    LengthsAgree(cfg, s);
    HandleFree(cfg, s, id, env);
    var op, t := s.ops[id], Handle(cfg, s, id, env).state;
    if op.kind == Accept && op.stage.res >= 0 && s.free != [] && c == s.free[0] {
      AcceptReaction(cfg, s, id, env);
      TakenIsFree(s);
      BroughtByAccept(s, id);
    } else if c == op.slot {
      SlotInUse(cfg, s, id);
      SameSlotMemory(cfg, s, id, env);
    } else {
      StillBusy(s, t, op, c);
      HandleTouches(cfg, s, id, env, c);
      OnlyItsOwnAnswer(cfg, s, id, env, c);
    }
  }

  lemma TakenIsFree(s: State)
    requires s.free != []
    ensures !Busy(s.free, s.free[0])
  {
  }

  lemma BroughtByAccept(s: State, id: nat)
    requires id in s.ops && s.ops[id].kind == Accept && s.ops[id].stage.Done? && s.ops[id].stage.res >= 0
    ensures !Unaccepted(s, s.ops[id].serial)
  {
  }

  lemma StillBusy(s: State, t: State, op: Op, c: nat)
    requires Busy(t.free, c) && c != op.slot && op.stage.Done?
    requires t.free == if op.kind == Accept && op.stage.res >= 0 && s.free != [] then s.free[1..]
                       else if op.kind == Close then [op.slot] + s.free else s.free
    requires !(op.kind == Accept && op.stage.res >= 0 && s.free != [] && c == s.free[0])
    ensures Busy(s.free, c)
    ensures !(op.kind == Accept && s.free != [] && c == s.free[0])
  {
    if op.kind == Accept && op.stage.res >= 0 && s.free != [] {
      assert s.free == [s.free[0]] + s.free[1..];
    }
  }

  lemma SlotInUse(cfg: Config, s: State, id: nat)
    requires Inv(cfg, s) && id in s.ops
    ensures s.ops[id].slot !in s.free && s.ops[id].slot < WORKER_CONNECTIONS
    ensures s.ops[id].kind == Accept <==> s.ops[id].slot == 0
  {
    assert OneOk(cfg, s, s.ops[id]);
  }

  lemma SameSlotMemory(cfg: Config, s: State, id: nat, env: Env)
    requires Reachable(cfg, s) && WellFormed(s) && id in s.ops && s.ops[id].stage.Done? && s.ops[id].slot != 0
    requires Handle(cfg, s, id, env).Next? && Busy(Handle(cfg, s, id, env).state.free, s.ops[id].slot)
    ensures MemoryStep(s, HandleStep(id, env), Handle(cfg, s, id, env).state, s.ops[id].slot)
  {
    hide Reachable, Inv, Handle, Unaccepted;
    ReachableIsSafe(cfg, s);
    LengthsAgree(cfg, s);
    SlotInUse(cfg, s, id);
    match s.ops[id].kind
    case Close => CloseReaction(cfg, s, id, env);
    case Write =>
      SerialsStay(cfg, s, id, env);
      SendDoneGrows(cfg, s, id, env);
    case Read =>
      SerialsStay(cfg, s, id, env);
      ReadDoneGrows(cfg, s, id, env);
  }

  /** A completion answers on the connection of its own slot, which no other slot in use serves. */
  lemma OnlyItsOwnAnswer(cfg: Config, s: State, id: nat, env: Env, c: nat)
    requires Reachable(cfg, s) && WellFormed(s) && id in s.ops && s.ops[id].stage.Done? && Handle(cfg, s, id, env).Next?
    requires Busy(s.free, c) && c != s.ops[id].slot && c < |s.serials|
    ensures !AnsweredAt(s, HandleStep(id, env), Handle(cfg, s, id, env).state, s.serials[c])
  {
    hide Reachable, Handle;
    var t := Handle(cfg, s, id, env).state;
    if AnsweredAt(s, HandleStep(id, env), t, s.serials[c]) {
      AnsweredOnce(cfg, s, HandleStep(id, env), t, s.serials[c]);
    }
  }

  /** The kernel's steps change no slot's connection, life or place on the list. */
  lemma KernelLeavesMemory(cfg: Config, s: State, step: Step, t: State)
    requires IsStep(cfg, s, step, t) && !step.HandleStep?
    ensures t.serials == s.serials && t.lives == s.lives && t.free == s.free
  {
    hide SubmitOps, Overwrite;
  }

  lemma SameMemory(s: State, step: Step, t: State, c: nat)
    requires t.serials == s.serials && t.lives == s.lives && t.free == s.free && !step.HandleStep?
    requires Busy(t.free, c) && c < |s.serials| && c < |s.lives|
    ensures MemoryStep(s, step, t, c)
  {
  }

  lemma StepMemory(cfg: Config, s: State, step: Step, t: State, c: nat)
    requires Reachable(cfg, s) && IsStep(cfg, s, step, t) && Busy(t.free, c)
    ensures MemoryStep(s, step, t, c)
  {
    hide Reachable, Inv, Handle, Execute, Submit, MemoryStep;
    ReachableIsSafe(cfg, s);
    LengthsAgree(cfg, s);
    match step
    case HandleStep(id, env) => HandleMemory(cfg, s, id, env, c);
    case _ =>
      KernelLeavesMemory(cfg, s, step, t);
      SameMemory(s, step, t, c);
  }

  lemma OneStepMore(trace: seq<State>, steps: seq<Step>, i: nat, x: nat)
    requires i < |steps| < |trace|
    ensures AnsweredBefore(trace, steps, i + 1, x)
       <==> AnsweredBefore(trace, steps, i, x) || AnsweredAt(trace[i], steps[i], trace[i + 1], x)
  {
    hide AnsweredAt;
  }

  lemma {:induction false} RunsRemember(cfg: Config, raw: seq<Conn>, date: Text, trace: seq<State>, steps: seq<Step>,
                                        i: nat)
    requires ValidConfig(cfg) && RawSlots(raw, date) && IsRun(cfg, raw, date, trace, steps) && i < |trace|
    ensures AllRemember(trace, steps, i)
  {
    hide Start, IsStep, ValidConfig, Reachable, AllRemember;
    if i == 0 {
      NothingToRemember(cfg, raw, date, trace, steps);
    } else {
      RunsRemember(cfg, raw, date, trace, steps, i - 1);
      PointIsReachable(cfg, raw, date, trace, steps, i - 1);
      assert IsStep(cfg, trace[i - 1], steps[i - 1], trace[i]);
      StepRemembers(cfg, trace, steps, i - 1);
    }
  }

  lemma NothingToRemember(cfg: Config, raw: seq<Conn>, date: Text, trace: seq<State>, steps: seq<Step>)
    requires RawSlots(raw, date) && |trace| == |steps| + 1 && trace[0] == Start(cfg, raw, date)
    ensures AllRemember(trace, steps, 0)
  {
    var s := trace[0];
    assert forall i: nat :: !Busy(s.free, i) by { NobodyBusyYet(cfg, raw, date); }
  }

  lemma NobodyBusyYet(cfg: Config, raw: seq<Conn>, date: Text)
    requires RawSlots(raw, date)
    ensures forall i: nat :: !Busy(Start(cfg, raw, date).free, i)
  {
    var s := Start(cfg, raw, date);
    assert forall k | 0 <= k < |s.free| :: s.free[k] == k + 1;
    forall x: nat | 0 < x < WORKER_CONNECTIONS ensures x in s.free { assert s.free[x - 1] == x; }
  }

  lemma StepRemembers(cfg: Config, trace: seq<State>, steps: seq<Step>, i: nat)
    requires i < |steps| < |trace| && Reachable(cfg, trace[i]) && IsStep(cfg, trace[i], steps[i], trace[i + 1])
    requires AllRemember(trace, steps, i)
    ensures AllRemember(trace, steps, i + 1)
  {
    hide Reachable, IsStep, AnsweredBefore, AnsweredAt, Unaccepted;
    var s, step, t := trace[i], steps[i], trace[i + 1];
    forall c: nat | Busy(t.free, c) ensures Remembers(trace, steps, i + 1, c) {
      StepMemory(cfg, s, step, t, c);
      var x := t.serials[c];
      OneStepMore(trace, steps, i, x);
      if Busy(s.free, c) {
        assert Remembers(trace, steps, i, c);
      } else if AnsweredAt(s, step, t, x) {
        AnsweredOnce(cfg, s, step, t, x);
      }
    }
    forall x: nat | AnsweredBefore(trace, steps, i + 1, x) ensures Unaccepted(t, x) {
      OneStepMore(trace, steps, i, x);
      if AnsweredAt(s, step, t, x) { AnsweredOnce(cfg, s, step, t, x); }
      StepUnaccepted(cfg, s, step, t, x);
    }
  }

  /** In every run, whether a request is refused for want of TCP_NODELAY: if and only if it does not ask for a close,
      setsockopt fails, and no earlier request on its connection was answered and kept it. So setsockopt decides at the
      first such request of each connection, in a slot that was used before, too, and at no later one. */
  lemma RefusedExactly(cfg: Config, raw: seq<Conn>, date: Text, trace: seq<State>, steps: seq<Step>, i: nat, id: nat,
                       env: Env)
    requires ValidConfig(cfg) && RawSlots(raw, date) && IsRun(cfg, raw, date, trace, steps) && i < |trace|
    requires id in trace[i].ops && trace[i].ops[id].kind == Read
    ensures var s, c := trace[i], trace[i].ops[id].slot;
            && c < |s.conns| && c < |s.serials|
            && (Refused(s, c, s.ops[id].text, env)
                <==> !Search.Contains(s.ops[id].text, Search.CONNECTION_CLOSE) && !env.nodelayOk
                     && !AnsweredBefore(trace, steps, i, s.serials[c]))
  {
    hide Start, IsStep, ValidConfig, Reachable, Inv, AnsweredBefore, Search.Contains;
    var s, c := trace[i], trace[i].ops[id].slot;
    PointIsReachable(cfg, raw, date, trace, steps, i);
    ReachableIsSafe(cfg, s);
    LengthsAgree(cfg, s);
    SlotInUse(cfg, s, id);
    FlagTellsIfAnswered(cfg, s, id);
    RunsRemember(cfg, raw, date, trace, steps, i);
    assert Remembers(trace, steps, i, c);
  }
}
