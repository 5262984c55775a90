/** What the completion engine loses: slots, when a date cannot be formatted, and the ends of responses, when the kernel
    sends less than it was given. */
module UringLosses {
  import opened Bytes
  import opened Uring
  import opened UringSafety
  import opened UringRuns
  import Search

  // ---------------------------------------------------------------- stranded slots

  /** The slot that a step strands: a request is handled in a second that is not the cached one and whose date cannot be
      formatted, unless TCP_NODELAY has already failed. */
  ghost function StrandedBy(cfg: Config, s: State, step: Step): set<nat> {
    match step
    case HandleStep(id, env) =>
      if && id in s.ops && s.ops[id].kind == Read && s.ops[id].stage.Done? && s.ops[id].stage.res > 0
         && s.ops[id].slot < |s.conns| && !Refused(s, s.ops[id].slot, s.ops[id].text, env)
         && env.now != s.prevNow && cfg.render(env.now) == None
      then {s.ops[id].slot}
      else {}
    case _ => {}
  }

  lemma PrepStrands(s: State, c: nat, kind: Kind, fd: int, text: Text, life: seq<LifeOp>)
    requires WellFormed(s) && c < |s.conns|
    ensures var r := Prep(s, c, kind, fd, text, life); r.Next? ==> r.state.stranded == s.stranded
  {
  }

  lemma AcceptStrands(cfg: Config, s: State, res: int, serial: nat)
    requires WellFormed(s)
    ensures var r := HandleAccept(cfg, s, res, serial); r.Next? ==> r.state.stranded == s.stranded
  {
    hide QueuedIds;
  }

  lemma RespondStrands(cfg: Config, s: State, c: nat, delivered: Text, env: Env)
    requires WellFormed(s) && c < |s.conns|
    ensures var r := Respond(cfg, s, c, delivered, env);
            r.Next? ==> r.state.stranded
                        == if env.now != s.prevNow && cfg.render(env.now) == None then s.stranded + {c} else s.stranded
  {
    hide QueuedIds, Overwrite, Search.Contains;
  }

  lemma ReadStrands(cfg: Config, s: State, c: nat, res: int, octets: Text, env: Env)
    requires WellFormed(s) && c < |s.conns| && (res > 0 ==> Front(s.conns[c].buf, res) == octets)
    ensures var r := HandleRead(cfg, s, c, res, octets, env);
            r.Next? ==> r.state.stranded
                        == if res > 0 && !Refused(s, c, octets, env)
                              && env.now != s.prevNow && cfg.render(env.now) == None
                           then s.stranded + {c} else s.stranded
  {
    hide Prep, Front, Search.Contains, Respond;
    PrepStrands(s, c, Close, s.conns[c].fd, [], [LClose]);
    if res > 0 {
      var closing := Search.Contains(octets, Search.CONNECTION_CLOSE);
      var s1 := s.(conns := s.conns[c := s.conns[c].(closing := closing)]);
      var s2 := s1.(conns := s1.conns[c := s1.conns[c].(nodelaySet := true)]);
      PrepStrands(s1, c, Close, s.conns[c].fd, [], [LClose]);
      RespondStrands(cfg, s1, c, octets, env);
      RespondStrands(cfg, s2, c, octets, env);
    }
  }

  /** A step strands exactly that slot, and no step takes a stranded slot back. */
  lemma StepStrands(cfg: Config, s: State, step: Step, t: State)
    requires Reachable(cfg, s) && IsStep(cfg, s, step, t)
    ensures t.stranded == s.stranded + StrandedBy(cfg, s, step)
  {
    hide Reachable, Inv, Prep, HandleRead, HandleAccept, CanExecute, Front, Search.Contains, Refused;
    ReachableIsSafe(cfg, s);
    match step
    case HandleStep(id, env) =>
      KindsAgree(cfg, s, id);
      if s.ops[id].kind == Read && s.ops[id].stage.res > 0 { ExaminedIsDelivered(cfg, s, id); }
      HandleStrands(cfg, s, id, env);
    case _ =>
  }

  lemma HandleStrands(cfg: Config, s: State, id: nat, env: Env)
    requires WellFormed(s) && id in s.ops && s.ops[id].stage.Done? && s.conns[s.ops[id].slot].kind == s.ops[id].kind
    requires s.ops[id].kind == Read && s.ops[id].stage.res > 0 ==>
               Front(s.conns[s.ops[id].slot].buf, s.ops[id].stage.res) == s.ops[id].text
    ensures var r := Handle(cfg, s, id, env);
            r.Next? ==> r.state.stranded == s.stranded + StrandedBy(cfg, s, HandleStep(id, env))
  {
    hide Prep, HandleRead, HandleAccept, Front, Search.Contains, Refused;
    var op, s0 := s.ops[id], s.(ops := s.ops - {id});
    RefusedFrame(s, s0, op.slot, op.text, env);
    match op.kind
    case Accept => AcceptStrands(cfg, s0, op.stage.res, op.serial);
    case Read => ReadStrands(cfg, s0, op.slot, op.stage.res, op.text, env);
    case Write =>
      PrepStrands(s0, op.slot, Close, s0.conns[op.slot].fd, [], [LClose]);
      PrepStrands(s0, op.slot, Read, s0.conns[op.slot].fd, [], [LRead]);
    case Close =>
  }

  lemma NothingStrandedYet(cfg: Config, raw: seq<Conn>, date: Text)
    requires |raw| == WORKER_CONNECTIONS
    ensures Start(cfg, raw, date).stranded == {}
  {
  }

  /** In every run the stranded slots are exactly those that some step before has stranded. */
  lemma {:induction false} StrandedExactly(cfg: Config, raw: seq<Conn>, date: Text, trace: seq<State>, steps: seq<Step>,
                                           i: nat)
    requires ValidConfig(cfg) && RawSlots(raw, date) && IsRun(cfg, raw, date, trace, steps) && i < |trace|
    ensures forall x :: x in trace[i].stranded <==> exists j :: 0 <= j < i && x in StrandedBy(cfg, trace[j], steps[j])
  {
    hide Start, IsStep, ValidConfig, Reachable, StrandedBy;
    if i == 0 {
      NothingStrandedYet(cfg, raw, date);
    } else {
      StrandedExactly(cfg, raw, date, trace, steps, i - 1);
      PointIsReachable(cfg, raw, date, trace, steps, i - 1);
      assert IsStep(cfg, trace[i - 1], steps[i - 1], trace[i]);
      StepStrands(cfg, trace[i - 1], steps[i - 1], trace[i]);
    }
  }

  /** A run has stranded no slot if and only if none of its steps was such a step. */
  lemma NothingStranded(cfg: Config, raw: seq<Conn>, date: Text, trace: seq<State>, steps: seq<Step>, i: nat)
    requires ValidConfig(cfg) && RawSlots(raw, date) && IsRun(cfg, raw, date, trace, steps) && i < |trace|
    ensures trace[i].stranded == {} <==> forall j | 0 <= j < i :: StrandedBy(cfg, trace[j], steps[j]) == {}
  {
    StrandedExactly(cfg, raw, date, trace, steps, i);
    hide StrandedBy, IsRun, ValidConfig;
    if j :| 0 <= j < i && StrandedBy(cfg, trace[j], steps[j]) != {} {
      var x :| x in StrandedBy(cfg, trace[j], steps[j]);
      assert x in trace[i].stranded;
    }
  }

  /** What a step leaves of the slots it does not work on. */
  lemma StrandedStays(cfg: Config, s: State, step: Step, t: State, c: nat)
    requires Reachable(cfg, s) && IsStep(cfg, s, step, t) && c in s.stranded
    ensures c < |s.conns| == |t.conns| && c < |s.serials| == |t.serials|
    ensures t.conns[c] == s.conns[c] && t.serials[c] == s.serials[c]
  {
    hide Reachable, Inv, Handle, Execute, Submit;
    ReachableIsSafe(cfg, s);
    StrandedIsApart(cfg, s, c);
    match step
    case SubmitStep => SubmitLeavesSlots(s);
    case ExecuteStep(id, res, data) => ExecuteLeavesSlots(cfg, s, id, res, data, c);
    case HandleStep(id, env) => HandleLeavesSlots(cfg, s, id, env, c);
  }

  lemma StrandedIsApart(cfg: Config, s: State, c: nat)
    requires Inv(cfg, s) && c in s.stranded
    ensures 0 < c < |s.conns| == |s.serials| && c !in s.free && forall id | id in s.ops :: s.ops[id].slot != c
    ensures Holds(s.open, s.conns[c].fd, s.serials[c])
  {
  }

  lemma SubmitLeavesSlots(s: State)
    ensures Submit(s).conns == s.conns && Submit(s).serials == s.serials
  {
  }

  lemma ExecuteLeavesSlots(cfg: Config, s: State, id: nat, res: int, data: Text, c: nat)
    requires CanExecute(cfg, s, id, res, data) && c < |s.conns| && s.ops[id].slot != c
    ensures var t := Execute(cfg, s, id, res, data);
            |t.conns| == |s.conns| && t.conns[c] == s.conns[c] && t.serials == s.serials
  {
  }

  lemma HandleLeavesSlots(cfg: Config, s: State, id: nat, env: Env, c: nat)
    requires Inv(cfg, s) && WellFormed(s) && id in s.ops && s.ops[id].stage.Done?
    requires 0 < c < |s.conns| == |s.serials| && c !in s.free && s.ops[id].slot != c
    ensures var r := Handle(cfg, s, id, env);
            r.Next? ==>
              && |r.state.conns| == |s.conns| && |r.state.serials| == |s.serials|
              && r.state.conns[c] == s.conns[c] && r.state.serials[c] == s.serials[c]
  {
    hide Inv, HandleAccept, HandleRead, Prep;
    var op, s0 := s.ops[id], s.(ops := s.ops - {id});
    KindsAgree(cfg, s, id);
    OthersApart(cfg, s, id);
    match op.kind
    case Accept => AcceptFrame(cfg, s0, op.stage.res, op.serial);
    case Read => ReadFrame(cfg, s0, op.slot, op.stage.res, op.text, env);
    case Write =>
      PrepFrame(s0, op.slot, Close, s.conns[op.slot].fd, [], [LClose], {op.slot});
      PrepFrame(s0, op.slot, Read, s.conns[op.slot].fd, [], [LRead], {op.slot});
    case Close =>
  }

  /** A stranded slot is lost for ever, and its connection with it: at every later point it is still stranded, is on no
      list, has no pending operation, and holds the same descriptor of the same connection, which stays open. */
  lemma {:induction false} StrandedForEver(cfg: Config, raw: seq<Conn>, date: Text, trace: seq<State>, steps: seq<Step>,
                                           i: nat, j: nat, c: nat)
    requires ValidConfig(cfg) && RawSlots(raw, date) && IsRun(cfg, raw, date, trace, steps) && i <= j < |trace|
    requires c in trace[i].stranded
    ensures var s, t := trace[i], trace[j];
            && c in t.stranded && c !in t.free && (forall id | id in t.ops :: t.ops[id].slot != c)
            && c < |s.conns| && c < |t.conns| && t.conns[c] == s.conns[c]
            && c < |s.serials| && c < |t.serials| && t.serials[c] == s.serials[c]
            && Holds(t.open, t.conns[c].fd, t.serials[c])
    decreases j
  {
    hide Start, IsStep, ValidConfig, Reachable, StrandedBy, Inv;
    if i < j {
      StrandedForEver(cfg, raw, date, trace, steps, i, j - 1, c);
      PointIsReachable(cfg, raw, date, trace, steps, j - 1);
      assert IsStep(cfg, trace[j - 1], steps[j - 1], trace[j]);
      StepStrands(cfg, trace[j - 1], steps[j - 1], trace[j]);
      StrandedStays(cfg, trace[j - 1], steps[j - 1], trace[j], c);
    }
    PointIsReachable(cfg, raw, date, trace, steps, j);
    ReachableIsSafe(cfg, trace[j]);
    StrandedIsApart(cfg, trace[j], c);
  }

  // ---------------------------------------------------------------- what is sent

  /** The step executes a send for connection x. */
  predicate Sends(s: State, step: Step, x: nat) {
    && step.ExecuteStep? && step.id in s.ops && s.ops[step.id].kind == Write
    && s.ops[step.id].slot < |s.serials| && s.serials[s.ops[step.id].slot] == x
  }

  /** The kernel sends everything it was given. */
  predicate SendsAll(s: State, step: Step) {
    step.ExecuteStep? && step.id in s.ops && (if step.res < 0 then 0 else step.res) == |s.ops[step.id].text|
  }

  /** What it really sends; a failed send sends nothing. */
  function Part(s: State, step: Step): Text
    requires step.ExecuteStep? && step.id in s.ops
  {
    Front(s.ops[step.id].text, if step.res < 0 then 0 else step.res)
  }

  /** The octets that have gone out on connection x in the first i steps. */
  function Sent(trace: seq<State>, steps: seq<Step>, x: nat, i: nat): Text
    requires i <= |steps| <= |trace|
  {
    if i == 0 then []
    else Sent(trace, steps, x, i - 1)
         + if Sends(trace[i - 1], steps[i - 1], x) then Part(trace[i - 1], steps[i - 1]) else []
  }

  /** The responses that the kernel was given to send on connection x, as far as it has executed their sends. */
  function Responses(trace: seq<State>, steps: seq<Step>, x: nat, i: nat): seq<Text>
    requires i <= |steps| <= |trace|
  {
    if i == 0 then []
    else Responses(trace, steps, x, i - 1)
         + if Sends(trace[i - 1], steps[i - 1], x) then [trace[i - 1].ops[steps[i - 1].id].text] else []
  }

  lemma {:induction false} ConcatAppend(ts: seq<Text>, t: Text)
    ensures Concat(ts + [t]) == Concat(ts) + t
  {
    if ts == [] {
      assert Concat([t]) == t + Concat([]);
    } else {
      assert (ts + [t])[1..] == ts[1..] + [t];
      ConcatAppend(ts[1..], t);
    }
  }

  lemma PartIsShorter(s: State, step: Step)
    requires step.ExecuteStep? && step.id in s.ops
    requires step.res <= |s.ops[step.id].text|
    ensures Part(s, step) <= s.ops[step.id].text
    ensures Part(s, step) == s.ops[step.id].text <==> SendsAll(s, step)
  {
  }

  lemma SendIsPermitted(cfg: Config, s: State, step: Step, t: State, x: nat)
    requires IsStep(cfg, s, step, t) && Sends(s, step, x)
    ensures step.res <= |s.ops[step.id].text|
  {
  }

  /** What goes out on a connection is the responses, whole and one behind the other, if and only if the kernel sent all
      of each; otherwise it is shorter, since nobody looks at how much was sent. */
  lemma {:induction false} WholeResponses(cfg: Config, raw: seq<Conn>, date: Text, trace: seq<State>, steps: seq<Step>,
                                          x: nat, i: nat)
    requires |raw| == WORKER_CONNECTIONS && IsRun(cfg, raw, date, trace, steps) && i <= |steps|
    ensures |Sent(trace, steps, x, i)| <= |Concat(Responses(trace, steps, x, i))|
    ensures Sent(trace, steps, x, i) == Concat(Responses(trace, steps, x, i))
       <==> forall j | 0 <= j < i && Sends(trace[j], steps[j], x) :: SendsAll(trace[j], steps[j])
  {
    hide Start, IsStep, SendsAll, Sends, Part, Concat;
    if i == 0 {
      NothingToSend();
    } else {
      WholeResponses(cfg, raw, date, trace, steps, x, i - 1);
      var s, step := trace[i - 1], steps[i - 1];
      if Sends(s, step, x) {
        assert IsStep(cfg, s, step, trace[i]);
        SendIsPermitted(cfg, s, step, trace[i], x);
        SendIsExecute(s, step, x);
        PartIsShorter(s, step);
        var before, texts := Sent(trace, steps, x, i - 1), Responses(trace, steps, x, i - 1);
        ConcatAppend(texts, s.ops[step.id].text);
        Longer(before, Concat(texts), Part(s, step), s.ops[step.id].text);
      } else {
        assert Responses(trace, steps, x, i) == Responses(trace, steps, x, i - 1);
        assert Sent(trace, steps, x, i) == Sent(trace, steps, x, i - 1);
      }
    }
  }

  lemma NothingToSend()
    ensures Concat([]) == []
  {
  }

  lemma SendIsExecute(s: State, step: Step, x: nat)
    requires Sends(s, step, x)
    ensures step.ExecuteStep? && step.id in s.ops
  {
  }

  lemma Longer(a: Text, b: Text, c: Text, d: Text)
    requires |a| <= |b| && c <= d
    ensures |a + c| <= |b + d|
    ensures a + c == b + d <==> a == b && c == d
  {
    if a + c == b + d {
      assert |a| == |b| && |c| == |d|;
      assert a == (a + c)[..|a|] && b == (b + d)[..|b|];
    }
  }

  // ---------------------------------------------------------------- what a response is

  /** Everything queued for sending is a response around some date. */
  ghost predicate WritesAreResponses(cfg: Config, ops: map<nat, Op>) {
    forall id | id in ops && ops[id].kind == Write :: IsResponse(cfg, ops[id].text)
  }

  ghost predicate IsResponse(cfg: Config, t: Text) {
    exists d: Text :: |d| < HTTP_DATE_BUF_LEN && t == cfg.respond(d)
  }

  lemma PrepResponds(cfg: Config, s: State, c: nat, kind: Kind, fd: int, text: Text, life: seq<LifeOp>)
    requires WellFormed(s) && c < |s.conns| && WritesAreResponses(cfg, s.ops)
    requires kind == Write ==> IsResponse(cfg, text)
    ensures var r := Prep(s, c, kind, fd, text, life); r.Next? ==> WritesAreResponses(cfg, r.state.ops)
  {
    hide QueuedIds, IsResponse;
  }

  lemma SendResponds(cfg: Config, s: State, c: nat, delivered: Text)
    requires WellFormed(s) && c < |s.conns| && WritesAreResponses(cfg, s.ops) && |s.dateBuf| < HTTP_DATE_BUF_LEN
    ensures var r := Send(cfg, s, c, delivered); r.Next? ==> WritesAreResponses(cfg, r.state.ops)
  {
    hide Prep, Overwrite, WritesAreResponses;
    var text := cfg.respond(s.dateBuf);
    var s1 := s.(conns := s.conns[c := s.conns[c].(buf := Overwrite(s.conns[c].buf, text + [NUL]))]);
    assert IsResponse(cfg, text);
    PrepResponds(cfg, s1, c, Write, s.conns[c].fd, text, [LWrite(Search.Contains(delivered, Search.CONNECTION_CLOSE))]);
  }

  lemma RespondResponds(cfg: Config, s: State, c: nat, delivered: Text, env: Env)
    requires ValidConfig(cfg) && WellFormed(s) && c < |s.conns|
    requires WritesAreResponses(cfg, s.ops) && |s.dateBuf| < HTTP_DATE_BUF_LEN
    ensures var r := Respond(cfg, s, c, delivered, env); r.Next? ==> WritesAreResponses(cfg, r.state.ops)
  {
    hide Send, WritesAreResponses;
    SendResponds(cfg, s, c, delivered);
    match cfg.render(env.now)
    case None =>
    case Some(date) =>
      SendResponds(cfg, s.(dateBuf := date, prevNow := env.now, dated := true), c, delivered);
  }

  lemma ReadResponds(cfg: Config, s: State, c: nat, res: int, delivered: Text, env: Env)
    requires ValidConfig(cfg) && WellFormed(s) && c < |s.conns|
    requires WritesAreResponses(cfg, s.ops) && |s.dateBuf| < HTTP_DATE_BUF_LEN
    ensures var r := HandleRead(cfg, s, c, res, delivered, env); r.Next? ==> WritesAreResponses(cfg, r.state.ops)
  {
    hide Prep, Respond, WritesAreResponses, ValidConfig;
    PrepResponds(cfg, s, c, Close, s.conns[c].fd, [], [LClose]);
    if res > 0 {
      var closing := Search.Contains(Front(s.conns[c].buf, res), Search.CONNECTION_CLOSE);
      var s1 := s.(conns := s.conns[c := s.conns[c].(closing := closing)]);
      var s2 := s1.(conns := s1.conns[c := s1.conns[c].(nodelaySet := true)]);
      PrepResponds(cfg, s1, c, Close, s.conns[c].fd, [], [LClose]);
      RespondResponds(cfg, s1, c, delivered, env);
      RespondResponds(cfg, s2, c, delivered, env);
    }
  }

  lemma AcceptResponds(cfg: Config, s: State, res: int, serial: nat)
    requires WellFormed(s) && WritesAreResponses(cfg, s.ops)
    ensures var r := HandleAccept(cfg, s, res, serial); r.Next? ==> WritesAreResponses(cfg, r.state.ops)
  {
    hide Prep, WritesAreResponses;
    var s1 := s;
    if res >= 0 {
      if s.free == [] { return; }
      PrepResponds(cfg, Get(s, serial), s.free[0], Read, res, [], [LRead]);
      var r := PrepRecv(Get(s, serial), s.free[0], res);
      if r.Halted? { return; }
      PrepWellFormed(Get(s, serial), s.free[0], Read, res, [], [LRead]);
      s1 := r.state;
    }
    PrepResponds(cfg, s1, 0, Accept, cfg.serverSock, [], []);
  }

  lemma PrepWellFormed(s: State, c: nat, kind: Kind, fd: int, text: Text, life: seq<LifeOp>)
    requires WellFormed(s) && c < |s.conns|
    ensures var r := Prep(s, c, kind, fd, text, life); r.Next? ==> WellFormed(r.state)
  {
  }

  lemma DropResponds(cfg: Config, ops: map<nat, Op>, id: nat)
    requires WritesAreResponses(cfg, ops)
    ensures WritesAreResponses(cfg, ops - {id})
  {
  }

  lemma HandleResponds(cfg: Config, s: State, id: nat, env: Env)
    requires ValidConfig(cfg) && WellFormed(s) && id in s.ops && s.ops[id].stage.Done?
    requires WritesAreResponses(cfg, s.ops) && |s.dateBuf| < HTTP_DATE_BUF_LEN
    ensures var r := Handle(cfg, s, id, env); r.Next? ==> WritesAreResponses(cfg, r.state.ops)
  {
    hide Prep, HandleRead, HandleAccept, WritesAreResponses, ValidConfig;
    DropResponds(cfg, s.ops, id);
    var op, s0 := s.ops[id], s.(ops := s.ops - {id});
    match s.conns[op.slot].kind
    case Accept => AcceptResponds(cfg, s0, op.stage.res, op.serial);
    case Read => ReadResponds(cfg, s0, op.slot, op.stage.res, op.text, env);
    case Write =>
      PrepResponds(cfg, s0, op.slot, Close, s0.conns[op.slot].fd, [], [LClose]);
      PrepResponds(cfg, s0, op.slot, Read, s0.conns[op.slot].fd, [], [LRead]);
    case Close =>
  }

  lemma StepResponds(cfg: Config, s: State, step: Step, t: State)
    requires Reachable(cfg, s) && IsStep(cfg, s, step, t) && WritesAreResponses(cfg, s.ops)
    ensures WritesAreResponses(cfg, t.ops)
  {
    hide Reachable, Inv, Handle, ValidConfig, IsResponse;
    ReachableIsSafe(cfg, s);
    match step
    case SubmitStep =>
    case ExecuteStep(_, _, _) =>
    case HandleStep(id, env) =>
      DateFits(cfg, s);
      hide WritesAreResponses;
      HandleResponds(cfg, s, id, env);
  }

  lemma DateFits(cfg: Config, s: State)
    requires Inv(cfg, s)
    ensures |s.dateBuf| < HTTP_DATE_BUF_LEN
  {
  }

  lemma NothingQueuedYet(cfg: Config, raw: seq<Conn>, date: Text)
    requires |raw| == WORKER_CONNECTIONS
    ensures WritesAreResponses(cfg, Start(cfg, raw, date).ops)
  {
  }

  /** At every point of a run everything queued for sending is a response. */
  lemma {:induction false} OnlyResponsesAreSent(cfg: Config, raw: seq<Conn>, date: Text, trace: seq<State>,
                                                steps: seq<Step>, i: nat)
    requires ValidConfig(cfg) && RawSlots(raw, date) && IsRun(cfg, raw, date, trace, steps) && i < |trace|
    ensures WritesAreResponses(cfg, trace[i].ops)
  {
    hide Start, IsStep, ValidConfig, Reachable, WritesAreResponses;
    if i == 0 {
      NothingQueuedYet(cfg, raw, date);
    } else {
      OnlyResponsesAreSent(cfg, raw, date, trace, steps, i - 1);
      PointIsReachable(cfg, raw, date, trace, steps, i - 1);
      assert IsStep(cfg, trace[i - 1], steps[i - 1], trace[i]);
      StepResponds(cfg, trace[i - 1], steps[i - 1], trace[i]);
    }
  }

  /** What the kernel is given to send on a connection are responses, each in full. */
  lemma {:induction false} EachIsAResponse(cfg: Config, raw: seq<Conn>, date: Text, trace: seq<State>, steps: seq<Step>,
                                           x: nat, i: nat)
    requires ValidConfig(cfg) && RawSlots(raw, date) && IsRun(cfg, raw, date, trace, steps) && i <= |steps|
    ensures forall k | 0 <= k < |Responses(trace, steps, x, i)| :: IsResponse(cfg, Responses(trace, steps, x, i)[k])
  {
    hide Start, IsStep, ValidConfig, IsResponse;
    if i > 0 {
      EachIsAResponse(cfg, raw, date, trace, steps, x, i - 1);
      OnlyResponsesAreSent(cfg, raw, date, trace, steps, i - 1);
    }
  }
}
