/** `serve` in the form of the C source: an array of slots, the linked free list and the ring, updated in place.
    Each method is proved against the transition function of module Uring. */
module UringServer {
  import opened Bytes
  import opened Uring
  import opened UringSafety
  import opened UringRuns
  import Pools
  import Search

  /** The part of init_connections that resets descriptors and types. */
  method UnlinkAll(conns: array<Conn>)
    modifies conns
    ensures conns[..] == Unlinked(old(conns[..]))
  {
    ghost var before := conns[..];
    var i := conns.Length;
    while i > 0
      invariant 0 <= i <= conns.Length
      invariant forall k | 0 <= k < i :: conns[k] == before[k]
      invariant forall k | i <= k < conns.Length :: conns[k] == before[k].(kind := Accept, fd := -1)
    {
      i := i - 1;
      conns[i] := conns[i].(kind := Accept, fd := -1);
    }
  }

  class Server {
    const cfg: Config
    const conns: array<Conn>
    const pool: Pools.FreeList
    var freeN: int
    var prevNow: int
    var dateBuf: Text

    // the ring and the kernel's descriptors
    var ops: map<nat, Op>
    var nextId: nat
    var open: map<int, nat>
    var nextSerial: nat

    // history
    ghost var dated: bool
    ghost var serials: seq<nat>
    ghost var lives: seq<seq<LifeOp>>
    ghost var stranded: set<nat>
    ghost var finished: seq<seq<LifeOp>>
    ghost var closes: seq<nat>

    ghost predicate Valid()
      reads this, conns, pool, pool.next
    {
      pool.Valid() && pool.next.Length == conns.Length == WORKER_CONNECTIONS == |serials| == |lives|
    }

    ghost function Abs(): State
      reads this, conns, pool
    {
      State(conns[..], pool.stack, freeN, prevNow, dateBuf, ops, nextId, open, nextSerial,
            dated, serials, lives, stranded, finished, closes)
    }

    /** Start-up on malloc'ed slots, whatever they hold. */
    constructor (cfg: Config, raw: array<Conn>, date: Text)
      requires raw.Length == WORKER_CONNECTIONS
      modifies raw
      ensures Valid() && conns == raw && fresh(pool) && fresh(pool.next)
      ensures this.cfg == cfg && Abs() == InitialState(old(raw[..]), date)
    {
      this.cfg := cfg;
      conns := raw;
      pool := new Pools.FreeList(WORKER_CONNECTIONS);
      freeN, prevNow, dateBuf := WORKER_CONNECTIONS, 0, date;
      ops, nextId, open, nextSerial := map[], 0, map[], 0;
      dated, serials, lives := false, NoSerials(WORKER_CONNECTIONS), NoLives(WORKER_CONNECTIONS);
      stranded, finished, closes := {}, [], [];
      new;
      UnlinkAll(raw);
    }

    /** Takes the first slot for the listener and queues the accept. */
    method ArmListener()
      requires Valid() && WellFormed(Abs()) && pool.stack != [] && ops == map[]
      modifies this, conns, pool
      ensures Valid()
      ensures Abs() == Post(Get(old(Abs()), 0), old(pool.stack)[0], Accept, cfg.serverSock, [], [])
    {
      var acceptConn := GetConnection(0);
      assert QueuedIds(ops) == {};
      var ok := Prep(acceptConn, Accept, cfg.serverSock, [], []);
    }

    /** Puts an operation for slot c into the ring, unless the ring is full. */
    method Prep(c: nat, kind: Kind, fd: int, text: Text, ghost life: seq<LifeOp>) returns (ok: bool)
      requires Valid() && WellFormed(Abs()) && c < WORKER_CONNECTIONS
      modifies this, conns
      ensures Valid()
      ensures Uring.Prep(old(Abs()), c, kind, fd, text, life) == if ok then Next(Abs()) else Halted(NoEntry)
      ensures ok ==> WellFormed(Abs())
    {
      if |QueuedIds(ops)| >= SQ_ENTRIES {
        return false;
      }
      ops := ops[nextId := Op(kind, c, fd, Queued, text, 0)];
      nextId := nextId + 1;
      conns[c] := conns[c].(kind := kind, fd := fd);
      lives := lives[c := lives[c] + life];
      return true;
    }

    /** get_connection for the connection with the given serial; NIL when the list is empty. */
    method GetConnection(ghost serial: nat) returns (c: int)
      requires Valid() && WellFormed(Abs())
      modifies this, conns, pool
      ensures Valid()
      ensures old(pool.stack) == [] ==> c == Pools.NIL && Abs() == old(Abs())
      ensures old(pool.stack) != [] ==> c == old(pool.stack)[0] && Abs() == Get(old(Abs()), serial)
    {
      c := pool.Take();
      if c == Pools.NIL {
        return;
      }
      freeN := freeN - 1;
      conns[c] := conns[c].(closing := false, nodelaySet := false);
      serials := serials[c := serial];
      lives := lives[c := []];
    }

    method FreeConnection(c: nat)
      requires Valid() && WellFormed(Abs()) && c < WORKER_CONNECTIONS && c !in pool.stack
      modifies this, pool, pool.next
      ensures Valid()
      ensures Abs() == Free(old(Abs()), c)
    {
      pool.Give(c);
      freeN := freeN + 1;
      finished := finished + [lives[c]];
    }

    /** The switch of `serve` for one completion. */
    method HandleCompletion(id: nat, env: Env) returns (halt: Option<Halt>)
      requires Valid() && WellFormed(Abs()) && id in ops && ops[id].stage.Done? && ops[id].slot !in pool.stack
      modifies this, conns, pool, pool.next
      ensures Valid()
      ensures Handle(cfg, old(Abs()), id, env) == if halt == None then Next(Abs()) else Halted(halt.value)
    {
      var op := ops[id];
      ops := ops - {id};
      var c, res, ok := op.slot, op.stage.res, true;
      match conns[c].kind {
        case Accept =>
          halt := AcceptCompleted(res, op.serial);
          return;
        case Read =>
          ok := ReadCompleted(c, res, op.text, env);
        case Write =>
          if conns[c].closing {
            ok := Prep(c, Close, conns[c].fd, [], [LClose]);
          } else {
            ok := Prep(c, Read, conns[c].fd, [], [LRead]);
          }
        case Close =>
          FreeConnection(c);
      }
      halt := if ok then None else Some(NoEntry);
    }

    method AcceptCompleted(res: int, serial: nat) returns (halt: Option<Halt>)
      requires Valid() && WellFormed(Abs())
      modifies this, conns, pool
      ensures Valid()
      ensures HandleAccept(cfg, old(Abs()), res, serial) == if halt == None then Next(Abs()) else Halted(halt.value)
    {
      var ok;
      if res >= 0 {
        var c := GetConnection(serial);
        if c == Pools.NIL {
          return Some(NoSlot);
        }
        ok := Prep(c, Read, res, [], [LRead]);
        if !ok {
          return Some(NoEntry);
        }
      }
      ok := Prep(0, Accept, cfg.serverSock, [], []);
      halt := if ok then None else Some(NoEntry);
    }

    method ReadCompleted(c: nat, res: int, ghost delivered: Text, env: Env) returns (ok: bool)
      requires Valid() && WellFormed(Abs()) && c < WORKER_CONNECTIONS
      modifies this, conns
      ensures Valid()
      ensures HandleRead(cfg, old(Abs()), c, res, delivered, env) == if ok then Next(Abs()) else Halted(NoEntry)
    {
      hide QueuedIds, Overwrite, Front, Search.Contains;
      if res <= 0 {
        ok := Prep(c, Close, conns[c].fd, [], [LClose]);
        return;
      }
      var closing := Search.HasConnectionClose(Front(conns[c].buf, res));
      conns[c] := conns[c].(closing := closing);
      if !closing && !conns[c].nodelaySet {
        if !env.nodelayOk {
          ok := Prep(c, Close, conns[c].fd, [], [LClose]);
          return;
        }
        conns[c] := conns[c].(nodelaySet := true);
      }
      ok := AnswerRequest(c, delivered, env);
    }

    /** The rest of the READ case: the date, the response over the request, and the send. */
    method AnswerRequest(c: nat, ghost delivered: Text, env: Env) returns (ok: bool)
      requires Valid() && WellFormed(Abs()) && c < WORKER_CONNECTIONS
      modifies this, conns
      ensures Valid()
      ensures Respond(cfg, old(Abs()), c, delivered, env) == if ok then Next(Abs()) else Halted(NoEntry)
    {
      hide QueuedIds, Overwrite, Search.Contains;
      if env.now != prevNow {
        var date := cfg.render(env.now);
        if date == None {
          stranded := stranded + {c};
          return true;
        }
        dateBuf := date.value;
        prevNow := env.now;
        dated := true;
      }
      var text := cfg.respond(dateBuf);
      conns[c] := conns[c].(buf := Overwrite(conns[c].buf, text + [NUL]));
      ok := Prep(c, Write, conns[c].fd, text, [LWrite(Search.Contains(delivered, Search.CONNECTION_CLOSE))]);
    }

    /** io_uring_submit_and_wait, up to the hand-over of the queued entries. */
    method SubmitAll()
      requires Valid()
      modifies this
      ensures Valid() && Abs() == Submit(old(Abs()))
    {
      ops := SubmitOps(ops);
    }

    /** The kernel's side of an operation, as a change of the shared state. */
    method KernelExecutes(id: nat, res: int, data: Text)
      requires Valid() && CanExecute(cfg, Abs(), id, res, data)
      modifies this, conns
      ensures Valid() && Abs() == Execute(cfg, old(Abs()), id, res, data)
    {
      var op := ops[id];
      var done := op.(stage := Done(res));
      match op.kind
      case Accept =>
        if res < 0 {
          ops := ops[id := done];
        } else {
          ops := ops[id := done.(serial := nextSerial)];
          open := open[res := nextSerial];
          nextSerial := nextSerial + 1;
        }
      case Read =>
        ops := ops[id := done.(text := data)];
        conns[op.slot] := conns[op.slot].(buf := Overwrite(conns[op.slot].buf, data));
      case Write =>
        ops := ops[id := done];
      case Close =>
        ops := ops[id := done];
        if op.fd in open {
          closes := closes + [open[op.fd]];
          open := open - {op.fd};
        }
    }

    /** One offer of the environment: performed if it is possible now, otherwise passed over. */
    method TryStep(step: Step) returns (done: bool, halt: Option<Halt>)
      requires Valid() && WellFormed(Abs()) && PendingSlotsAreTaken(Abs())
      modifies this, conns, pool, pool.next
      ensures Valid()
      ensures done <==> Enabled(cfg, old(Abs()), step)
      ensures done ==> Take(cfg, old(Abs()), step) == if halt == None then Next(Abs()) else Halted(halt.value)
      ensures !done ==> halt == None && Abs() == old(Abs())
    {
      hide Handle, Execute, Submit;
      done, halt := true, None;
      match step {
        case SubmitStep =>
          SubmitAll();
        case ExecuteStep(id, res, data) =>
          if !Permits(cfg, ops, open, id, res, data) {
            return false, None;
          }
          KernelExecutes(id, res, data);
        case HandleStep(id, env) =>
          if id !in ops || !ops[id].stage.Done? {
            return false, None;
          }
          halt := HandleCompletion(id, env);
      }
    }

    /** The same offer, seen as the machine's progress. */
    method TakeOffer(step: Step, ghost p: Progress) returns (halt: Option<Halt>, ghost q: Progress)
      requires ValidConfig(cfg) && Valid() && Inv(cfg, Abs())
      requires p.trace != [] && p.stop == None && Last(p) == Abs()
      modifies this, conns, pool, pool.next
      ensures Valid()
      ensures q == Advance(cfg, p, step)
      ensures halt == if q.stop.Some? then Some(q.stop.value.why) else None
      ensures halt in {None, Some(NoSlot)}
      ensures halt == None ==> Inv(cfg, Abs()) && Abs() == Last(q)
    {
      hide Inv, Uring.Take, Enabled, ValidConfig, WellFormed, PendingSlotsAreTaken;
      ghost var s := Abs();
      PendingSlots(cfg, s);
      if Enabled(cfg, s, step) { StepKeeps(cfg, s, step); }
      var done;
      done, halt := TryStep(step);
      q := Advance(cfg, p, step);
    }
  }

  /** The part of `serve` before its loop. */
  method StartServer(cfg: Config, raw: array<Conn>, date: Text) returns (server: Server)
    requires raw.Length == WORKER_CONNECTIONS
    modifies raw
    ensures fresh(server) && fresh(server.pool) && fresh(server.pool.next)
    ensures server.Valid() && server.conns == raw && server.cfg == cfg
    ensures server.Abs() == Start(cfg, old(raw[..]), date)
  {
    server := new Server(cfg, raw, date);
    server.ArmListener();
  }

  /** `serve` against an environment that offers the steps of a schedule. Whatever the schedule, the program's states
      are exactly those that the machine goes through: they are a run, so every result about reachable states holds of
      the program. When it stops, the machine stops at that offer, and it is for want of a slot. */
  method Serve(cfg: Config, raw: array<Conn>, date: Text, schedule: seq<Step>)
    returns (server: Server, halt: Option<Halt>, ghost p: Progress)
    requires ValidConfig(cfg) && raw.Length == WORKER_CONNECTIONS && RawSlots(raw[..], date)
    modifies raw
    ensures p == Follow(cfg, Start(cfg, old(raw[..]), date), schedule)
    ensures IsRun(cfg, old(raw[..]), date, p.trace, p.steps) && Reachable(cfg, Last(p))
    ensures p.stop.Some? ==> StopsAt(cfg, Last(p), p.stop.value)
    ensures halt == if p.stop.Some? then Some(p.stop.value.why) else None
    ensures halt in {None, Some(NoSlot)}
    ensures halt == None ==> server.Valid() && server.Abs() == Last(p)
  {
    hide Inv, Start, Advance, Follow, IsRun, Reachable, ValidConfig, StopsAt, RawSlots;
    ghost var before := raw[..];
    StartInv(cfg, before, date);
    server := StartServer(cfg, raw, date);
    halt, p := None, Progress([server.Abs()], [], None);
    NothingFollowedYet(cfg, server.Abs());
    ghost var start := server.Abs();
    var i := 0;
    while i < |schedule| && halt == None
      invariant 0 <= i <= |schedule| && fresh(server) && fresh(server.pool) && fresh(server.pool.next)
      invariant server.conns == raw && server.cfg == cfg && server.Valid()
      invariant p == Follow(cfg, start, schedule[..i])
      invariant halt == if p.stop.Some? then Some(p.stop.value.why) else None
      invariant halt in {None, Some(NoSlot)}
      invariant halt == None ==> Inv(cfg, server.Abs()) && server.Abs() == Last(p)
    {
      OneMoreOffer(cfg, start, schedule, i);
      halt, p := server.TakeOffer(schedule[i], p);
      i := i + 1;
    }
    StoppedForGood(cfg, start, schedule, i);
    FollowIsRun(cfg, before, date, schedule);
  }

  ghost predicate PendingSlotsAreTaken(s: State) {
    forall id | id in s.ops :: s.ops[id].slot !in s.free
  }

  lemma PendingSlots(cfg: Config, s: State)
    requires Inv(cfg, s)
    ensures WellFormed(s) && PendingSlotsAreTaken(s)
  {
    InvIsWellFormed(cfg, s, {});
  }

  ghost predicate StopsAt(cfg: Config, s: State, stop: Stop) {
    Enabled(cfg, s, stop.step) && Take(cfg, s, stop.step) == Halted(stop.why)
  }

  // ---------------------------------------------------------------- the machine under a schedule

  lemma NothingFollowedYet(cfg: Config, s: State)
    ensures Follow(cfg, s, []) == Progress([s], [], None)
  {
  }

  lemma OneMoreOffer(cfg: Config, s: State, schedule: seq<Step>, i: nat)
    requires i < |schedule|
    ensures Follow(cfg, s, schedule[..i + 1]) == Advance(cfg, Follow(cfg, s, schedule[..i]), schedule[i])
  {
    assert schedule[..i + 1][..i] == schedule[..i];
  }

  lemma {:induction false} StoppedForGood(cfg: Config, s: State, schedule: seq<Step>, i: nat)
    requires i <= |schedule|
    requires i < |schedule| ==> Follow(cfg, s, schedule[..i]).stop.Some?
    ensures Follow(cfg, s, schedule) == Follow(cfg, s, schedule[..i])
  {
    if i == |schedule| {
      assert schedule[..i] == schedule;
    } else {
      var front := schedule[..|schedule| - 1];
      assert front[..i] == schedule[..i];
      StoppedForGood(cfg, s, front, i);
    }
  }

  /** The progress is a run, and when it has stopped its last step could be taken and ends the process. */
  ghost predicate Sound(cfg: Config, raw: seq<Conn>, date: Text, p: Progress)
    requires |raw| == WORKER_CONNECTIONS
  {
    && IsRun(cfg, raw, date, p.trace, p.steps)
    && (p.stop.Some? ==> StopsAt(cfg, Last(p), p.stop.value))
  }

  lemma AdvanceSound(cfg: Config, raw: seq<Conn>, date: Text, p: Progress, step: Step)
    requires |raw| == WORKER_CONNECTIONS && Sound(cfg, raw, date, p)
    ensures Sound(cfg, raw, date, Advance(cfg, p, step))
  {
    hide Enabled, Take, Start;
    var q := Advance(cfg, p, step);
    forall i | 0 <= i < |q.steps| ensures IsStep(cfg, q.trace[i], q.steps[i], q.trace[i + 1]) {
      if i < |p.steps| { assert IsStep(cfg, p.trace[i], p.steps[i], p.trace[i + 1]); }
    }
  }

  lemma {:induction false} FollowSound(cfg: Config, raw: seq<Conn>, date: Text, schedule: seq<Step>)
    requires |raw| == WORKER_CONNECTIONS
    ensures Sound(cfg, raw, date, Follow(cfg, Start(cfg, raw, date), schedule))
  {
    hide Start, Advance;
    if schedule != [] {
      var n := |schedule| - 1;
      FollowSound(cfg, raw, date, schedule[..n]);
      AdvanceSound(cfg, raw, date, Follow(cfg, Start(cfg, raw, date), schedule[..n]), schedule[n]);
    }
  }

  /** And every run is what the machine does under some schedule, namely under the steps of the run. */
  lemma {:induction false} EveryRunIsFollowed(cfg: Config, raw: seq<Conn>, date: Text, trace: seq<State>,
                                              steps: seq<Step>)
    requires |raw| == WORKER_CONNECTIONS && IsRun(cfg, raw, date, trace, steps)
    ensures Follow(cfg, Start(cfg, raw, date), steps) == Progress(trace, steps, None)
    decreases |steps|
  {
    hide Start, Enabled, Take;
    if steps == [] {
      assert trace == [trace[0]];
    } else {
      var n := |steps| - 1;
      forall i | 0 <= i < n ensures IsStep(cfg, trace[..n + 1][i], steps[..n][i], trace[..n + 1][i + 1]) {
        assert IsStep(cfg, trace[i], steps[i], trace[i + 1]);
      }
      EveryRunIsFollowed(cfg, raw, date, trace[..n + 1], steps[..n]);
      assert IsStep(cfg, trace[n], steps[n], trace[n + 1]);
      assert trace[..n + 1] + [trace[n + 1]] == trace && steps[..n] + [steps[n]] == steps;
    }
  }

  /** What the machine does under any schedule is a run; it ends in a reachable state, and where it stops the process
      really dies. */
  lemma FollowIsRun(cfg: Config, raw: seq<Conn>, date: Text, schedule: seq<Step>)
    requires ValidConfig(cfg) && RawSlots(raw, date)
    ensures var p := Follow(cfg, Start(cfg, raw, date), schedule);
            && IsRun(cfg, raw, date, p.trace, p.steps) && Reachable(cfg, Last(p))
            && (p.stop.Some? ==> StopsAt(cfg, Last(p), p.stop.value))
  {
    FollowSound(cfg, raw, date, schedule);
    var p := Follow(cfg, Start(cfg, raw, date), schedule);
    assert LeadsTo(cfg, raw, date, p.trace, p.steps, Last(p));
  }
}
