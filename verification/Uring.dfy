/** The completion engine of the io_uring server: `serve` handles one completion at a time, while the kernel
    executes submitted operations in any order and with any result. The machine below has one step for each. */
module Uring {
  import opened Bytes
  import Pools
  import Search

  const WORKER_CONNECTIONS: nat := 1024
  const SQ_ENTRIES: nat := 2048
  const BUF_SIZE: nat := 1024
  const HTTP_DATE_BUF_LEN: nat := 30

  // ---------------------------------------------------------------- state

  datatype Kind = Accept | Read | Write | Close

  /** Where an operation is: in the submission ring, with the kernel, or executed and waiting to be handled. */
  datatype Stage = Queued | Submitted | Done(res: int)

  /** An operation and the slot it carries as user data. text is what a send was told to transmit, or what a completed
      recv delivered; serial numbers the connection that a completed accept produced. */
  datatype Op = Op(kind: Kind, slot: nat, fd: int, stage: Stage, text: Text, serial: nat)

  /** The C struct `connection`, except that its free-list link is the sequence `free` of the state. */
  datatype Conn = Conn(kind: Kind, closing: bool, nodelaySet: bool, fd: int, buf: Text)

  /** The operations that a slot has issued since get_connection. WRITE records whether the request it answers held
      "Connection: close" as delivered by the kernel. */
  datatype LifeOp = LRead | LWrite(held: bool) | LClose

  datatype State = State(
    // the program
    conns: seq<Conn>, free: seq<nat>, freeN: int, prevNow: int, dateBuf: Text,
    // the ring
    ops: map<nat, Op>, nextId: nat,
    // the kernel's open client descriptors, each with the serial of its connection
    open: map<int, nat>, nextSerial: nat,
    // history: whether a date was ever formatted, the connection that each slot serves or served last, and what the
    // slot has issued for it
    dated: bool, serials: seq<nat>, lives: seq<seq<LifeOp>>, stranded: set<nat>, finished: seq<seq<LifeOp>>,
    closes: seq<nat>)

  /** The listening socket, and the two library renderings the server relies on: the date (None when gmtime fails)
      and the response around it. */
  datatype Config = Config(serverSock: int, render: int -> Option<Text>, respond: Text -> Text)

  ghost predicate ValidConfig(cfg: Config) {
    && (forall t :: cfg.render(t).Some? ==> |cfg.render(t).value| < HTTP_DATE_BUF_LEN)
    && (forall d :: |d| < HTTP_DATE_BUF_LEN ==> |cfg.respond(d)| < BUF_SIZE)
  }

  /** What the environment answers while a completion is handled: setsockopt's success and the clock. */
  datatype Env = Env(nodelayOk: bool, now: int)

  /** The process goes on, or dies: on a NULL connection, or on a NULL submission entry. */
  datatype Halt = NoSlot | NoEntry
  datatype Outcome = Next(state: State) | Halted(why: Halt) {
    predicate IsFailure() { Halted? }
    function PropagateFailure(): Outcome requires Halted? { this }
    function Extract(): State requires Next? { state }
  }

  predicate WellFormed(s: State) {
    && |s.conns| == |s.serials| == |s.lives| > 0
    && (forall k | 0 <= k < |s.free| :: s.free[k] < |s.conns|)
    && (forall id | id in s.ops :: s.ops[id].slot < |s.conns|)
  }

  function QueuedIds(ops: map<nat, Op>): set<nat> {
    set id | id in ops && ops[id].stage == Queued
  }

  /** memcpy and snprintf into a buffer: the front is replaced. */
  function Overwrite(buf: Text, t: Text): (r: Text)
    ensures |r| == |buf|
    ensures |t| <= |buf| ==> r[..|t|] == t
  {
    if |t| <= |buf| then t + buf[|t|..] else t[..|buf|]
  }

  function Front(buf: Text, n: nat): Text {
    if n <= |buf| then buf[..n] else buf
  }

  // ---------------------------------------------------------------- the program's operations

  function Post(s: State, c: nat, kind: Kind, fd: int, text: Text, life: seq<LifeOp>): State
    requires WellFormed(s) && c < |s.conns|
  {
    s.(conns := s.conns[c := s.conns[c].(kind := kind, fd := fd)],
       lives := s.lives[c := s.lives[c] + life],
       ops := s.ops[s.nextId := Op(kind, c, fd, Queued, text, 0)],
       nextId := s.nextId + 1)
  }

  /** Every prep_ function first asks for a submission entry; the ring refuses when it is full. */
  function Prep(s: State, c: nat, kind: Kind, fd: int, text: Text, life: seq<LifeOp>): Outcome
    requires WellFormed(s) && c < |s.conns|
  {
    if |QueuedIds(s.ops)| >= SQ_ENTRIES then Halted(NoEntry) else Next(Post(s, c, kind, fd, text, life))
  }

  function PrepAccept(cfg: Config, s: State, c: nat): Outcome
    requires WellFormed(s) && c < |s.conns|
  {
    Prep(s, c, Accept, cfg.serverSock, [], [])
  }

  function PrepRecv(s: State, c: nat, fd: int): Outcome
    requires WellFormed(s) && c < |s.conns|
  {
    Prep(s, c, Read, fd, [], [LRead])
  }

  function PrepSend(s: State, c: nat, text: Text, held: bool): Outcome
    requires WellFormed(s) && c < |s.conns|
  {
    Prep(s, c, Write, s.conns[c].fd, text, [LWrite(held)])
  }

  function PrepClose(s: State, c: nat): Outcome
    requires WellFormed(s) && c < |s.conns|
  {
    Prep(s, c, Close, s.conns[c].fd, [], [LClose])
  }

  /** get_connection on a list that is not empty, for the connection with the given serial. */
  function Get(s: State, serial: nat): (r: State)
    requires WellFormed(s) && s.free != []
    ensures WellFormed(r) && |r.conns| == |s.conns|
  {
    var c := s.free[0];
    s.(free := s.free[1..], freeN := s.freeN - 1,
       conns := s.conns[c := s.conns[c].(closing := false, nodelaySet := false)],
       serials := s.serials[c := serial], lives := s.lives[c := []])
  }

  function Free(s: State, c: nat): State
    requires WellFormed(s) && c < |s.conns|
  {
    s.(free := [c] + s.free, freeN := s.freeN + 1, finished := s.finished + [s.lives[c]])
  }

  function Strand(s: State, c: nat): State {
    s.(stranded := s.stranded + {c})
  }

  // ---------------------------------------------------------------- one completion

  function HandleAccept(cfg: Config, s: State, res: int, serial: nat): Outcome
    requires WellFormed(s)
  {
    if res < 0 then PrepAccept(cfg, s, 0)
    else if s.free == [] then Halted(NoSlot)
    else
      var s1 :- PrepRecv(Get(s, serial), s.free[0], res);
      PrepAccept(cfg, s1, 0)
  }

  ghost function HandleRead(cfg: Config, s: State, c: nat, res: int, delivered: Text, env: Env): Outcome
    requires WellFormed(s) && c < |s.conns|
  {
    if res <= 0 then PrepClose(s, c)
    else
      var closing := Search.Contains(Front(s.conns[c].buf, res), Search.CONNECTION_CLOSE);
      var s1 := s.(conns := s.conns[c := s.conns[c].(closing := closing)]);
      if !closing && !s.conns[c].nodelaySet then
        if env.nodelayOk
        then Respond(cfg, s1.(conns := s1.conns[c := s1.conns[c].(nodelaySet := true)]), c, delivered, env)
        else PrepClose(s1, c)
      else Respond(cfg, s1, c, delivered, env)
  }

  ghost function Respond(cfg: Config, s: State, c: nat, delivered: Text, env: Env): Outcome
    requires WellFormed(s) && c < |s.conns|
  {
    if env.now == s.prevNow then Send(cfg, s, c, delivered)
    else match cfg.render(env.now)
      case None => Next(Strand(s, c))
      case Some(date) => Send(cfg, s.(dateBuf := date, prevNow := env.now, dated := true), c, delivered)
  }

  /** Formats the response over the request, with snprintf's NUL, and queues it. */
  ghost function Send(cfg: Config, s: State, c: nat, delivered: Text): Outcome
    requires WellFormed(s) && c < |s.conns|
  {
    var text := cfg.respond(s.dateBuf);
    var s1 := s.(conns := s.conns[c := s.conns[c].(buf := Overwrite(s.conns[c].buf, text + [NUL]))]);
    PrepSend(s1, c, text, Search.Contains(delivered, Search.CONNECTION_CLOSE))
  }

  /** The switch of `serve`: it looks at the slot's type, not at what the operation was. */
  ghost function Handle(cfg: Config, s: State, id: nat, env: Env): Outcome
    requires WellFormed(s) && id in s.ops && s.ops[id].stage.Done?
  {
    var op := s.ops[id];
    var s0 := s.(ops := s.ops - {id});
    match s.conns[op.slot].kind
    case Accept => HandleAccept(cfg, s0, op.stage.res, op.serial)
    case Read => HandleRead(cfg, s0, op.slot, op.stage.res, op.text, env)
    case Write =>
      if s0.conns[op.slot].closing then PrepClose(s0, op.slot) else PrepRecv(s0, op.slot, s0.conns[op.slot].fd)
    case Close => Next(Free(s0, op.slot))
  }

  // ---------------------------------------------------------------- the kernel

  function SubmitOps(ops: map<nat, Op>): (r: map<nat, Op>)
    ensures r.Keys == ops.Keys
  {
    map id | id in ops :: if ops[id].stage == Queued then ops[id].(stage := Submitted) else ops[id]
  }

  /** io_uring_submit_and_wait: every queued entry goes to the kernel. */
  function Submit(s: State): State {
    s.(ops := SubmitOps(s.ops))
  }

  /** The kernel's contract: a new descriptor is one that is not open, a recv fits the buffer it was given. */
  predicate Permits(cfg: Config, ops: map<nat, Op>, open: map<int, nat>, id: nat, res: int, data: Text) {
    && id in ops && ops[id].stage == Submitted
    && match ops[id].kind
       case Accept => res < 0 || (res !in open && res != cfg.serverSock)
       case Read => res <= BUF_SIZE && |data| == if res < 0 then 0 else res
       case Write => res <= |ops[id].text|
       case Close => true
  }

  predicate CanExecute(cfg: Config, s: State, id: nat, res: int, data: Text) {
    WellFormed(s) && Permits(cfg, s.ops, s.open, id, res, data)
  }

  /** The kernel carries out a submitted operation, in any order, with any result that its contract allows. */
  function Execute(cfg: Config, s: State, id: nat, res: int, data: Text): State
    requires CanExecute(cfg, s, id, res, data)
  {
    var op := s.ops[id];
    var done := op.(stage := Done(res));
    match op.kind
    case Accept =>
      if res < 0 then s.(ops := s.ops[id := done])
      else s.(ops := s.ops[id := done.(serial := s.nextSerial)],
              open := s.open[res := s.nextSerial], nextSerial := s.nextSerial + 1)
    case Read =>
      s.(ops := s.ops[id := done.(text := data)],
         conns := s.conns[op.slot := s.conns[op.slot].(buf := Overwrite(s.conns[op.slot].buf, data))])
    case Write => s.(ops := s.ops[id := done])
    case Close =>
      if op.fd in s.open
      then s.(ops := s.ops[id := done], open := s.open - {op.fd}, closes := s.closes + [s.open[op.fd]])
      else s.(ops := s.ops[id := done])
  }

  // ---------------------------------------------------------------- runs

  datatype Step = SubmitStep | ExecuteStep(id: nat, res: int, data: Text) | HandleStep(id: nat, env: Env)

  predicate Enabled(cfg: Config, s: State, step: Step) {
    match step
    case SubmitStep => true
    case ExecuteStep(id, res, data) => CanExecute(cfg, s, id, res, data)
    case HandleStep(id, _) => WellFormed(s) && id in s.ops && s.ops[id].stage.Done?
  }

  ghost function Take(cfg: Config, s: State, step: Step): Outcome
    requires Enabled(cfg, s, step)
  {
    match step
    case SubmitStep => Next(Submit(s))
    case ExecuteStep(id, res, data) => Next(Execute(cfg, s, id, res, data))
    case HandleStep(id, env) => Handle(cfg, s, id, env)
  }

  function InitialState(raw: seq<Conn>, date: Text): State
    requires |raw| == WORKER_CONNECTIONS
  {
    State(Unlinked(raw), Pools.Indices(|raw|), WORKER_CONNECTIONS, 0, date, map[], 0, map[], 0, false,
          NoSerials(|raw|), NoLives(|raw|), {}, [], [])
  }

  function Unlinked(raw: seq<Conn>): (r: seq<Conn>)
    ensures |r| == |raw| && forall i | 0 <= i < |raw| :: r[i] == raw[i].(kind := Accept, fd := -1)
  {
    seq(|raw|, i requires 0 <= i < |raw| => raw[i].(kind := Accept, fd := -1))
  }

  function NoSerials(n: nat): (r: seq<nat>)
    ensures |r| == n
  {
    seq(n, i => 0)
  }

  function NoLives(n: nat): (r: seq<seq<LifeOp>>)
    ensures |r| == n
  {
    seq(n, i => [])
  }

  /** Start-up, on malloc'ed slots with any contents: link the slots, take the first one and queue the accept. */
  function Start(cfg: Config, raw: seq<Conn>, date: Text): State
    requires |raw| == WORKER_CONNECTIONS
  {
    var s := InitialState(raw, date);
    assert s.free[0] == 0;
    Post(Get(s, 0), 0, Accept, cfg.serverSock, [], [])
  }

  /** A finite run: every step is enabled and none ends the process. */
  ghost predicate IsRun(cfg: Config, raw: seq<Conn>, date: Text, trace: seq<State>, steps: seq<Step>)
    requires |raw| == WORKER_CONNECTIONS
  {
    && |trace| == |steps| + 1 && trace[0] == Start(cfg, raw, date)
    && forall i | 0 <= i < |steps| :: IsStep(cfg, trace[i], steps[i], trace[i + 1])
  }

  ghost predicate IsStep(cfg: Config, s: State, step: Step, t: State) {
    Enabled(cfg, s, step) && Take(cfg, s, step) == Next(t)
  }

  // ---------------------------------------------------------------- what the environment makes of the program

  /** The run so far, and, if the process has died, the step at which it did and why. */
  datatype Stop = Stop(step: Step, why: Halt)
  datatype Progress = Progress(trace: seq<State>, steps: seq<Step>, stop: Option<Stop>)

  ghost function Last(p: Progress): State
    requires p.trace != []
  {
    p.trace[|p.trace| - 1]
  }

  /** The run with one more step, if the process lives and the step is possible. */
  ghost function Advance(cfg: Config, p: Progress, step: Step): (q: Progress)
    requires p.trace != []
    ensures q.trace != []
  {
    if p.stop.Some? || !Enabled(cfg, Last(p), step) then p
    else match Take(cfg, Last(p), step)
      case Next(t) => Progress(p.trace + [t], p.steps + [step], None)
      case Halted(why) => p.(stop := Some(Stop(step, why)))
  }

  /** The run that the machine makes from s when it is offered the steps of a schedule: each offer that is possible at
      its moment is taken, every other is passed over, and nothing happens after the process has died. */
  ghost function Follow(cfg: Config, s: State, schedule: seq<Step>): (p: Progress)
    ensures p.trace != []
  {
    if schedule == [] then Progress([s], [], None)
    else Advance(cfg, Follow(cfg, s, schedule[..|schedule| - 1]), schedule[|schedule| - 1])
  }
}
