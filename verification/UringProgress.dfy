/** What the completion engine can do: submission submits, the kernel is free, and every connection can end. */
module UringProgress {
  import opened Bytes
  import opened Uring
  import opened UringSafety
  import opened UringRuns
  import Search

  // ---------------------------------------------------------------- the steps that are possible

  /** A submit hands every queued entry to the kernel, as it was queued, and touches nothing else. */
  lemma SubmitSubmits(cfg: Config, s: State)
    ensures Enabled(cfg, s, SubmitStep)
    ensures var r := Take(cfg, s, SubmitStep);
            && r.Next? && r.state == s.(ops := r.state.ops)
            && r.state.ops.Keys == s.ops.Keys
            && (forall id | id in s.ops && s.ops[id].stage == Queued ::
                  r.state.ops[id] == s.ops[id].(stage := Submitted))
            && (forall id | id in s.ops && s.ops[id].stage != Queued :: r.state.ops[id] == s.ops[id])
            && (forall id | id in r.state.ops :: r.state.ops[id].stage != Queued)
  {
  }

  /** The kernel may execute any operation that was submitted, in any order: an accept with any error or any descriptor
      that is not open, a recv with any error or any octets that fit, a send with any error or any part, and a close
      with any result. And any executed operation may be handled next, whatever the clock and setsockopt say. */
  lemma KernelIsFree(cfg: Config, s: State, id: nat, res: int, data: Text, env: Env)
    requires WellFormed(s) && id in s.ops
    ensures s.ops[id].stage == Submitted && s.ops[id].kind == Accept ==>
              (Enabled(cfg, s, ExecuteStep(id, res, data)) <==> res < 0 || (res !in s.open && res != cfg.serverSock))
    ensures s.ops[id].stage == Submitted && s.ops[id].kind == Read ==>
              (Enabled(cfg, s, ExecuteStep(id, res, data))
               <==> (res < 0 && data == []) || (0 <= res <= BUF_SIZE && |data| == res))
    ensures s.ops[id].stage == Submitted && s.ops[id].kind == Write ==>
              (Enabled(cfg, s, ExecuteStep(id, res, data)) <==> res <= |s.ops[id].text|)
    ensures s.ops[id].stage == Submitted && s.ops[id].kind == Close ==> Enabled(cfg, s, ExecuteStep(id, res, data))
    ensures Enabled(cfg, s, HandleStep(id, env)) <==> s.ops[id].stage.Done?
  {
  }

  // ---------------------------------------------------------------- what the other completions do

  /** A connection that was accepted gets the first free slot, fresh, and its recv; the listener is armed again. */
  lemma AcceptReaction(cfg: Config, s: State, id: nat, env: Env)
    requires Reachable(cfg, s) && WellFormed(s) && id in s.ops && s.ops[id].kind == Accept && s.ops[id].stage.Done?
    ensures var r, op := Handle(cfg, s, id, env), s.ops[id];
            var listen := Op(Accept, 0, cfg.serverSock, Queued, [], 0);
            if op.stage.res < 0 then
              r.Next? && r.state.ops == (s.ops - {id})[s.nextId := listen] && r.state.free == s.free
            else
              r.Next? ==>
                && s.free != [] && r.state.free == s.free[1..]
                && var c := s.free[0];
                && r.state.ops
                   == (s.ops - {id})[s.nextId := Op(Read, c, op.stage.res, Queued, [], 0)][s.nextId + 1 := listen]
                && c < |r.state.conns| == |r.state.serials| == |r.state.lives|
                && r.state.serials[c] == op.serial && r.state.lives[c] == [LRead]
                && !r.state.conns[c].nodelaySet && !r.state.conns[c].closing
  {
    hide Reachable, Inv, ValidConfig, QueuedIds;
    ReachableIsSafe(cfg, s);
    HandleKeeps(cfg, s, id, env);
    KindsAgree(cfg, s, id);
    ClientSlots(cfg, s);
  }

  lemma ClientSlots(cfg: Config, s: State)
    requires Inv(cfg, s)
    ensures |s.conns| == |s.serials| == |s.lives| == WORKER_CONNECTIONS && forall x | x in s.free :: 0 < x
  {
  }

  /** A close that was executed puts its slot in front of the free list, where its life is complete, and leaves no
      operation behind. */
  lemma CloseReaction(cfg: Config, s: State, id: nat, env: Env)
    requires Reachable(cfg, s) && WellFormed(s) && id in s.ops && s.ops[id].kind == Close && s.ops[id].stage.Done?
    ensures var r := Handle(cfg, s, id, env);
            && r.Next? && r.state.ops == s.ops - {id} && r.state.free == [s.ops[id].slot] + s.free
            && r.state.closes == s.closes
            && s.ops[id].slot < |s.lives| && r.state.finished == s.finished + [s.lives[s.ops[id].slot]]
  {
    hide Reachable, Inv, ValidConfig;
    ReachableIsSafe(cfg, s);
    HandleKeeps(cfg, s, id, env);
    KindsAgree(cfg, s, id);
    ClientSlots(cfg, s);
  }

  /** A request's response and a NUL take the place of the front of the request, and the rest of the buffer stays. */
  lemma ResponseOverwritesRequest(cfg: Config, s: State, c: nat, delivered: Text)
    requires WellFormed(s) && c < |s.conns| && |cfg.respond(s.dateBuf)| < |s.conns[c].buf|
    ensures var r, text, buf := Send(cfg, s, c, delivered), cfg.respond(s.dateBuf), s.conns[c].buf;
            r.Next? ==> c < |r.state.conns| && r.state.conns[c].buf == text + [NUL] + buf[|text| + 1..]
  {
    hide QueuedIds, Search.Contains;
  }

  /** A prep_ function fails exactly when 2048 entries are queued. */
  lemma FullRingRefuses(s: State, c: nat, kind: Kind, fd: int, text: Text, life: seq<LifeOp>)
    requires WellFormed(s) && c < |s.conns|
    ensures var queued := set id | id in s.ops && s.ops[id].stage == Queued;
            Prep(s, c, kind, fd, text, life).Halted? <==> |queued| >= 2048
  {
    assert QueuedIds(s.ops) == set id | id in s.ops && s.ops[id].stage == Queued;
  }

  // ---------------------------------------------------------------- paths

  ghost predicate IsPath(cfg: Config, s: State, trace: seq<State>, steps: seq<Step>, t: State) {
    && |trace| == |steps| + 1 && trace[0] == s && trace[|steps|] == t
    && forall i | 0 <= i < |steps| :: IsStep(cfg, trace[i], steps[i], trace[i + 1])
  }

  /** Some run from s ends in t. */
  ghost predicate Leads(cfg: Config, s: State, t: State) {
    exists trace, steps :: IsPath(cfg, s, trace, steps, t)
  }

  lemma LeadsNowhere(cfg: Config, s: State)
    ensures Leads(cfg, s, s)
  {
    assert IsPath(cfg, s, [s], [], s);
  }

  /** A run goes on, and what it reaches stays reachable. */
  lemma LeadsOn(cfg: Config, s: State, t: State, step: Step, u: State)
    requires Leads(cfg, s, t) && Reachable(cfg, t) && IsStep(cfg, t, step, u)
    ensures Leads(cfg, s, u) && Reachable(cfg, u)
  {
    hide IsStep, ValidConfig, Start;
    var trace, steps :| IsPath(cfg, s, trace, steps, t);
    var longer, more := trace + [u], steps + [step];
    forall i | 0 <= i < |more| ensures IsStep(cfg, longer[i], more[i], longer[i + 1]) {
      if i < |steps| { assert IsStep(cfg, trace[i], steps[i], trace[i + 1]); }
    }
    assert IsPath(cfg, s, longer, more, u);
    NextIsReachable(cfg, t, step, u);
  }

  // ---------------------------------------------------------------- every connection can end

  /** The operation is a client slot's, and pending. */
  predicate Pending(s: State, id: nat, kind: Kind, c: nat) {
    id in s.ops && s.ops[id].kind == kind && s.ops[id].slot == c && c < |s.serials|
  }

  /** The kernel executes an operation that it may not even have been handed yet. */
  lemma Executed(cfg: Config, s0: State, s: State, id: nat, kind: Kind, c: nat) returns (t: State)
    requires Leads(cfg, s0, s) && Reachable(cfg, s) && Pending(s, id, kind, c) && kind != Accept
    ensures Leads(cfg, s0, t) && Reachable(cfg, t) && Pending(t, id, kind, c) && t.ops[id].stage.Done?
    ensures !s.ops[id].stage.Done? ==> t.ops[id].stage == Done(0)
    ensures s.ops[id].stage.Done? ==> t == s
    ensures t.serials == s.serials
    ensures kind == Close && !s.ops[id].stage.Done? ==> s.serials[c] in t.closes
  {
    hide Leads, Reachable, Inv, ValidConfig;
    t := s;
    if s.ops[id].stage == Queued {
      SubmitSubmits(cfg, s);
      t := Submit(s);
      LeadsOn(cfg, s0, s, SubmitStep, t);
    }
    if t.ops[id].stage == Submitted {
      var u := t;
      ReachableIsSafe(cfg, u);
      KernelIsFree(cfg, u, id, 0, [], Env(true, 0));
      t := Execute(cfg, u, id, 0, []);
      LeadsOn(cfg, s0, u, ExecuteStep(id, 0, []), t);
      if kind == Close {
        CloseFindsItsDescriptor(cfg, u, ExecuteStep(id, 0, []));
        StepCloses(cfg, u, ExecuteStep(id, 0, []), t);
      }
    }
  }

  /** The connection is closed and its slot is free again. */
  predicate HasEnded(t: State, c: nat, x: nat) {
    c in t.free && x in t.closes
  }

  lemma EndsFromClose(cfg: Config, s0: State, s: State, id: nat, c: nat) returns (t: State)
    requires Leads(cfg, s0, s) && Reachable(cfg, s) && Pending(s, id, Close, c)
    ensures Leads(cfg, s0, t) && HasEnded(t, c, s.serials[c])
  {
    hide Leads, Reachable, Inv, ValidConfig, Handle;
    DoneCloseIsClosed(cfg, s);
    var u := Executed(cfg, s0, s, id, Close, c);
    ReachableIsSafe(cfg, u);
    var env := Env(true, 0);
    CloseReaction(cfg, u, id, env);
    t := Handle(cfg, u, id, env).state;
    LeadsOn(cfg, s0, u, HandleStep(id, env), t);
  }

  /** A recv that brings nothing leads to the close. */
  lemma EndsFromSilence(cfg: Config, s0: State, s: State, id: nat, c: nat) returns (t: State)
    requires Leads(cfg, s0, s) && Reachable(cfg, s) && Pending(s, id, Read, c)
    requires s.ops[id].stage.Done? ==> s.ops[id].stage.res <= 0
    ensures Leads(cfg, s0, t) && HasEnded(t, c, s.serials[c])
  {
    hide Leads, Reachable, Inv, ValidConfig, Handle, Answering;
    var u := Executed(cfg, s0, s, id, Read, c);
    var v := NextOperation(cfg, s0, u, id, Read, c);
    t := EndsFromClose(cfg, s0, v, u.nextId, c);
  }

  /** A completion that is not a request: the next operation of its slot is a close or, after a send, perhaps a recv. */
  lemma NextOperation(cfg: Config, s0: State, s: State, id: nat, kind: Kind, c: nat) returns (t: State)
    requires Leads(cfg, s0, s) && Reachable(cfg, s) && Pending(s, id, kind, c) && s.ops[id].stage.Done?
    requires kind == Write || (kind == Read && s.ops[id].stage.res <= 0)
    ensures Leads(cfg, s0, t) && Reachable(cfg, t) && t.serials == s.serials
    ensures s.nextId in t.ops && t.ops[s.nextId].stage == Queued
    ensures Pending(t, s.nextId, Close, c) || (kind == Write && Pending(t, s.nextId, Read, c))
  {
    hide Leads, Reachable, Inv, ValidConfig, Handle, Answering;
    var env := Env(true, 0);
    ReachableIsSafe(cfg, s);
    OtherReactions(cfg, s, id, env);
    SerialsStay(cfg, s, id, env);
    t := Handle(cfg, s, id, env).state;
    LeadsOn(cfg, s0, s, HandleStep(id, env), t);
  }

  /** Slots keep their connections, no slot is taken or returned, and what is new in the ring is queued for slot c. */
  ghost predicate WorksOn(s: State, t: State, c: nat) {
    && t.serials == s.serials && t.free == s.free
    && forall i | i in t.ops && i !in s.ops ::
         t.ops[i].slot == c && t.ops[i].kind != Accept && t.ops[i].stage == Queued
  }

  lemma PrepWorksOn(s: State, c: nat, kind: Kind, fd: int, text: Text, life: seq<LifeOp>)
    requires WellFormed(s) && c < |s.conns| && kind != Accept
    ensures var r := Prep(s, c, kind, fd, text, life); r.Next? ==> WorksOn(s, r.state, c)
  {
    hide QueuedIds;
  }

  lemma RespondWorksOn(cfg: Config, s: State, c: nat, delivered: Text, env: Env)
    requires WellFormed(s) && c < |s.conns|
    ensures var r := Respond(cfg, s, c, delivered, env); r.Next? ==> WorksOn(s, r.state, c)
  {
    hide QueuedIds, Overwrite, Search.Contains;
  }

  lemma ReadWorksOn(cfg: Config, s: State, c: nat, res: int, delivered: Text, env: Env)
    requires WellFormed(s) && c < |s.conns|
    ensures var r := HandleRead(cfg, s, c, res, delivered, env); r.Next? ==> WorksOn(s, r.state, c)
  {
    hide Prep, Respond, Front, Search.Contains;
    PrepWorksOn(s, c, Close, s.conns[c].fd, [], [LClose]);
    if res > 0 {
      var closing := Search.Contains(Front(s.conns[c].buf, res), Search.CONNECTION_CLOSE);
      var s1 := s.(conns := s.conns[c := s.conns[c].(closing := closing)]);
      var s2 := s1.(conns := s1.conns[c := s1.conns[c].(nodelaySet := true)]);
      PrepWorksOn(s1, c, Close, s.conns[c].fd, [], [LClose]);
      RespondWorksOn(cfg, s1, c, delivered, env);
      RespondWorksOn(cfg, s2, c, delivered, env);
    }
  }

  /** What recvs and sends that are handled do with slots and ring. */
  lemma TransferWorksOn(cfg: Config, s: State, id: nat, env: Env)
    requires Inv(cfg, s) && WellFormed(s) && id in s.ops && s.ops[id].stage.Done? && s.ops[id].kind in {Read, Write}
    ensures var r := Handle(cfg, s, id, env); r.Next? ==> WorksOn(s.(ops := s.ops - {id}), r.state, s.ops[id].slot)
  {
    hide Inv, Prep, HandleRead;
    KindsAgree(cfg, s, id);
    var op, s0 := s.ops[id], s.(ops := s.ops - {id});
    if op.kind == Read {
      ReadWorksOn(cfg, s0, op.slot, op.stage.res, op.text, env);
    } else {
      PrepWorksOn(s0, op.slot, Close, s0.conns[op.slot].fd, [], [LClose]);
      PrepWorksOn(s0, op.slot, Read, s0.conns[op.slot].fd, [], [LRead]);
    }
  }

  /** Only an accept gives a slot to another connection. */
  lemma SerialsStay(cfg: Config, s: State, id: nat, env: Env)
    requires Inv(cfg, s) && WellFormed(s) && id in s.ops && s.ops[id].stage.Done? && s.ops[id].kind in {Read, Write}
    ensures var r := Handle(cfg, s, id, env); r.Next? ==> r.state.serials == s.serials
  {
    hide Inv, Handle;
    TransferWorksOn(cfg, s, id, env);
  }

  lemma EndsFromWrite(cfg: Config, s0: State, s: State, id: nat, c: nat) returns (t: State)
    requires Leads(cfg, s0, s) && Reachable(cfg, s) && Pending(s, id, Write, c)
    ensures Leads(cfg, s0, t) && HasEnded(t, c, s.serials[c])
  {
    hide Leads, Reachable;
    var u := Executed(cfg, s0, s, id, Write, c);
    var v := NextOperation(cfg, s0, u, id, Write, c);
    if v.ops[u.nextId].kind == Close {
      t := EndsFromClose(cfg, s0, v, u.nextId, c);
    } else {
      t := EndsFromSilence(cfg, s0, v, u.nextId, c);
    }
  }

  /** A request that is handled in the cached second gets its send. */
  lemma RequestIsSent(cfg: Config, s: State, id: nat)
    requires Reachable(cfg, s) && WellFormed(s) && id in s.ops && s.ops[id].kind == Read
    requires s.ops[id].stage.Done? && s.ops[id].stage.res > 0
    ensures var r := Handle(cfg, s, id, Env(true, s.prevNow));
            && r.Next? && s.nextId in r.state.ops
            && r.state.ops[s.nextId].kind == Write && r.state.ops[s.nextId].slot == s.ops[id].slot
  {
    hide Reachable, Inv, ValidConfig, QueuedIds, Overwrite, Front, Search.Contains;
    ReachableIsSafe(cfg, s);
    HandleKeeps(cfg, s, id, Env(true, s.prevNow));
    KindsAgree(cfg, s, id);
  }

  lemma EndsFromRequest(cfg: Config, s0: State, s: State, id: nat, c: nat) returns (t: State)
    requires Leads(cfg, s0, s) && Reachable(cfg, s) && Pending(s, id, Read, c) && s.ops[id].stage.Done?
    requires s.ops[id].stage.res > 0
    ensures Leads(cfg, s0, t) && HasEnded(t, c, s.serials[c])
  {
    hide Leads, Reachable, Inv, ValidConfig, Handle;
    var env := Env(true, s.prevNow);
    ReachableIsSafe(cfg, s);
    RequestIsSent(cfg, s, id);
    SerialsStay(cfg, s, id, env);
    var u := Handle(cfg, s, id, env).state;
    LeadsOn(cfg, s0, s, HandleStep(id, env), u);
    t := EndsFromWrite(cfg, s0, u, s.nextId, c);
  }

  /** From every reachable state, whatever a client's slot is waiting for, some run closes its connection and puts the
      slot back on the free list; in particular a close that is pending can always be carried out. */
  lemma EveryConnectionCanEnd(cfg: Config, s: State, id: nat)
    requires Reachable(cfg, s) && id in s.ops && s.ops[id].slot != 0
    ensures exists t :: Leads(cfg, s, t) && s.ops[id].slot < |s.serials|
                        && HasEnded(t, s.ops[id].slot, s.serials[s.ops[id].slot])
  {
    hide Leads, Reachable, Inv, ValidConfig;
    ReachableIsSafe(cfg, s);
    LeadsNowhere(cfg, s);
    KindsAgree(cfg, s, id);
    ClientSlots(cfg, s);
    var t, c := s, s.ops[id].slot;
    match s.ops[id].kind {
      case Accept =>
      case Close => t := EndsFromClose(cfg, s, s, id, c);
      case Write => t := EndsFromWrite(cfg, s, s, id, c);
      case Read =>
        if s.ops[id].stage.Done? && s.ops[id].stage.res > 0 {
          t := EndsFromRequest(cfg, s, s, id, c);
        } else {
          t := EndsFromSilence(cfg, s, s, id, c);
        }
    }
  }

  // ---------------------------------------------------------------- an executed close has closed

  ghost predicate DoneClosesAreClosed(s: State) {
    forall id | id in s.ops && s.ops[id].kind == Close && s.ops[id].stage.Done? ::
      s.ops[id].slot < |s.serials| && s.serials[s.ops[id].slot] in s.closes
  }

  lemma ExecuteClosesDone(cfg: Config, s: State, id: nat, res: int, data: Text)
    requires Reachable(cfg, s) && CanExecute(cfg, s, id, res, data) && DoneClosesAreClosed(s)
    ensures DoneClosesAreClosed(Execute(cfg, s, id, res, data))
  {
    hide Reachable, Inv, Overwrite;
    ReachableIsSafe(cfg, s);
    ClientSlots(cfg, s);
    if s.ops[id].kind == Close { CloseFindsItsDescriptor(cfg, s, ExecuteStep(id, res, data)); }
  }

  lemma HandleClosesDone(cfg: Config, s: State, id: nat, env: Env)
    requires Reachable(cfg, s) && WellFormed(s) && id in s.ops && s.ops[id].stage.Done? && DoneClosesAreClosed(s)
    ensures var r := Handle(cfg, s, id, env); r.Next? ==> DoneClosesAreClosed(r.state)
  {
    hide Reachable, Inv, Handle;
    ReachableIsSafe(cfg, s);
    HandleFrame(cfg, s, id, env);
    NewOperationsAreQueued(cfg, s, id, env);
  }

  lemma StepClosesDone(cfg: Config, s: State, step: Step, t: State)
    requires Reachable(cfg, s) && IsStep(cfg, s, step, t) && DoneClosesAreClosed(s)
    ensures DoneClosesAreClosed(t)
  {
    hide Reachable, Handle, Execute;
    match step
    case SubmitStep => SubmitSubmits(cfg, s);
    case ExecuteStep(id, res, data) => ExecuteClosesDone(cfg, s, id, res, data);
    case HandleStep(id, env) => HandleClosesDone(cfg, s, id, env);
  }

  lemma NewOperationsAreQueued(cfg: Config, s: State, id: nat, env: Env)
    requires Reachable(cfg, s) && WellFormed(s) && id in s.ops && s.ops[id].stage.Done?
    ensures var r := Handle(cfg, s, id, env);
            r.Next? ==> forall i | i in r.state.ops && (i !in s.ops || i == id) :: r.state.ops[i].stage == Queued
  {
    hide Reachable, Inv, Handle;
    ReachableIsSafe(cfg, s);
    match s.ops[id].kind
    case Accept => AcceptReaction(cfg, s, id, env);
    case Close => CloseReaction(cfg, s, id, env);
    case _ => TransferWorksOn(cfg, s, id, env);
  }

  lemma {:induction false} DoneClosesOnRuns(cfg: Config, raw: seq<Conn>, date: Text, trace: seq<State>,
                                            steps: seq<Step>,
                                            i: nat)
    requires ValidConfig(cfg) && RawSlots(raw, date) && IsRun(cfg, raw, date, trace, steps) && i < |trace|
    ensures DoneClosesAreClosed(trace[i])
  {
    hide Start, IsStep, ValidConfig, Reachable, DoneClosesAreClosed;
    if i == 0 {
      NothingDoneYet(cfg, raw, date);
    } else {
      DoneClosesOnRuns(cfg, raw, date, trace, steps, i - 1);
      PointIsReachable(cfg, raw, date, trace, steps, i - 1);
      assert IsStep(cfg, trace[i - 1], steps[i - 1], trace[i]);
      StepClosesDone(cfg, trace[i - 1], steps[i - 1], trace[i]);
    }
  }

  lemma NothingDoneYet(cfg: Config, raw: seq<Conn>, date: Text)
    requires |raw| == WORKER_CONNECTIONS
    ensures DoneClosesAreClosed(Start(cfg, raw, date))
  {
  }

  lemma DoneCloseIsClosed(cfg: Config, s: State)
    requires Reachable(cfg, s)
    ensures DoneClosesAreClosed(s)
  {
    hide Start, IsStep, ValidConfig, DoneClosesAreClosed;
    var raw, date, trace, steps :| LeadsTo(cfg, raw, date, trace, steps, s);
    DoneClosesOnRuns(cfg, raw, date, trace, steps, |steps|);
  }
}
