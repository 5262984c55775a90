/** What every step of the completion engine keeps, and what follows for whole runs. */
module UringSafety {
  import opened Bytes
  import opened Uring
  import opened Counting
  import Search

  // ---------------------------------------------------------------- the language of slot lives

  /** READ (WRITE READ)*, where every answered request held no close. */
  predicate Looping(l: seq<LifeOp>) {
    && |l| % 2 == 1
    && forall k | 0 <= k < |l| :: l[k] == if k % 2 == 0 then LRead else LWrite(false)
  }

  /** ... then WRITE for a request of which `held` says whether it asked for a close. */
  predicate Answering(l: seq<LifeOp>, held: bool) {
    |l| > 0 && l[|l| - 1] == LWrite(held) && Looping(l[..|l| - 1])
  }

  /** READ (WRITE READ)* CLOSE, or READ (WRITE READ)* WRITE CLOSE with a close held by the last request only. */
  predicate CompleteLife(l: seq<LifeOp>) {
    |l| > 0 && l[|l| - 1] == LClose && (Looping(l[..|l| - 1]) || Answering(l[..|l| - 1], true))
  }

  // ---------------------------------------------------------------- the invariant

  /** A slot other than the listener's that is not on the free list. */
  predicate Busy(free: seq<nat>, i: nat) {
    0 < i < WORKER_CONNECTIONS && i !in free
  }

  predicate Holds(open: map<int, nat>, fd: int, serial: nat) {
    fd in open && open[fd] == serial
  }

  ghost predicate Unused(serial: nat, free: seq<nat>, serials: seq<nat>)
    requires |serials| == WORKER_CONNECTIONS
  {
    forall i: nat | Busy(free, i) :: serials[i] != serial
  }

  ghost predicate Shape(s: State) {
    && |s.conns| == |s.serials| == |s.lives| == WORKER_CONNECTIONS
    && (forall i | 0 <= i < |s.conns| :: |s.conns[i].buf| == BUF_SIZE)
    && (forall id | id in s.ops :: id < s.nextId)
    && |s.dateBuf| < HTTP_DATE_BUF_LEN
  }

  /** No two operations carry the same slot. */
  ghost predicate Apart(ops: map<nat, Op>) {
    forall i, j | i in ops && j in ops && i != j :: ops[i].slot != ops[j].slot
  }

  /** Every slot is in one place: on the free list, owning one operation, stranded, or in the hand of the program. */
  ghost predicate Owned(free: seq<nat>, freeN: int, ops: map<nat, Op>, stranded: set<nat>, hand: set<nat>) {
    && Distinct(free)
    && (forall x | x in free :: 0 < x < WORKER_CONNECTIONS && x !in hand && x !in stranded)
    && (forall x | x in hand :: x < WORKER_CONNECTIONS && x !in stranded)
    && (forall x | x in stranded :: 0 < x < WORKER_CONNECTIONS)
    && (forall id | id in ops ::
          ops[id].slot < WORKER_CONNECTIONS && ops[id].slot !in free && ops[id].slot !in hand
          && ops[id].slot !in stranded)
    && Apart(ops)
    && |free| + |ops| + |stranded| + |hand| == WORKER_CONNECTIONS
    && freeN == |free|
  }

  /** Each descriptor that is open belongs to one connection, not yet closed; busy slots serve different connections. */
  ghost predicate Kernel(sock: int, open: map<int, nat>, next: nat, closes: seq<nat>, free: seq<nat>, serials: seq<nat>)
    requires |serials| == WORKER_CONNECTIONS
  {
    && sock !in open
    && (forall f | f in open :: open[f] < next && open[f] !in closes)
    && (forall f, g | f in open && g in open && f != g :: open[f] != open[g])
    && (forall x | x in closes :: x < next)
    && |open| + |closes| == next
    && Distinct(closes)
    && (forall i: nat | Busy(free, i) :: serials[i] < next)
    && (forall i: nat, j: nat | Busy(free, i) && Busy(free, j) && i != j :: serials[i] != serials[j])
  }

  ghost predicate StrandedOk(s: State) {
    forall c | c in s.stranded ::
      c < |s.conns| == |s.serials| == |s.lives| && Holds(s.open, s.conns[c].fd, s.serials[c]) && Looping(s.lives[c])
  }

  ghost predicate FinishedOk(finished: seq<seq<LifeOp>>) {
    forall k | 0 <= k < |finished| :: CompleteLife(finished[k])
  }

  /** The cached date is that of its second, once one has been formatted; until then the second is 0. */
  ghost predicate DateOk(cfg: Config, prevNow: int, dateBuf: Text, dated: bool) {
    if dated then cfg.render(prevNow) == Some(dateBuf) else prevNow == 0
  }

  /** What one outstanding operation, its slot and its slot's history say about each other. */
  ghost predicate OpOk(op: Op, c: Conn, serial: nat, life: seq<LifeOp>, open: map<int, nat>) {
    && c.kind == op.kind && c.fd == op.fd && |c.buf| == BUF_SIZE
    && (op.kind == Accept <==> op.slot == 0)
    && match op.kind
       case Accept => true
       case Read =>
         && Holds(open, op.fd, serial) && Looping(life)
         && (op.stage.Done? && op.stage.res > 0 ==>
             op.stage.res == |op.text| <= BUF_SIZE && c.buf[..op.stage.res] == op.text)
       case Write =>
         && Holds(open, op.fd, serial) && Answering(life, c.closing)
         && (!op.stage.Done? ==> |op.text| <= BUF_SIZE && c.buf[..|op.text|] == op.text)
       case Close =>
         CompleteLife(life) && (!op.stage.Done? ==> Holds(open, op.fd, serial))
  }

  ghost predicate AcceptOk(sock: int, op: Op, free: seq<nat>, serials: seq<nat>, open: map<int, nat>)
    requires |serials| == WORKER_CONNECTIONS
  {
    op.kind == Accept ==>
      && op.fd == sock
      && (op.stage.Done? && op.stage.res >= 0 ==>
          Holds(open, op.stage.res, op.serial) && Unused(op.serial, free, serials))
  }

  ghost predicate OpsOk(cfg: Config, s: State)
    requires Shape(s)
  {
    forall id | id in s.ops :: OneOk(cfg, s, s.ops[id])
  }

  ghost predicate OneOk(cfg: Config, s: State, op: Op)
    requires Shape(s)
  {
    && op.slot < WORKER_CONNECTIONS
    && OpOk(op, s.conns[op.slot], s.serials[op.slot], s.lives[op.slot], s.open)
    && AcceptOk(cfg.serverSock, op, s.free, s.serials, s.open)
  }

  ghost predicate InvWith(cfg: Config, s: State, hand: set<nat>) {
    && Shape(s) && Owned(s.free, s.freeN, s.ops, s.stranded, hand)
    && Kernel(cfg.serverSock, s.open, s.nextSerial, s.closes, s.free, s.serials)
    && StrandedOk(s) && FinishedOk(s.finished) && DateOk(cfg, s.prevNow, s.dateBuf, s.dated)
    && OpsOk(cfg, s)
  }

  ghost predicate Inv(cfg: Config, s: State) {
    InvWith(cfg, s, {})
  }

  lemma InvIsWellFormed(cfg: Config, s: State, hand: set<nat>)
    requires InvWith(cfg, s, hand)
    ensures WellFormed(s)
  {
    assert forall k | 0 <= k < |s.free| :: s.free[k] in s.free;
  }

  // ---------------------------------------------------------------- what each piece of a handler keeps

  /** Reading a completion takes its operation out of the ring and its slot into the program's hand. */
  lemma TakeUp(cfg: Config, s: State, hand: set<nat>, id: nat)
    requires InvWith(cfg, s, hand) && id in s.ops
    ensures InvWith(cfg, s.(ops := s.ops - {id}), hand + {s.ops[id].slot})
  {
    hide Owned, Kernel, OpOk, AcceptOk, FinishedOk, DateOk, Holds, Looping;
    var t := s.(ops := s.ops - {id});
    OwnTakeUp(s, hand, id);
    forall i | i in t.ops ensures OneOk(cfg, t, t.ops[i]) { assert OneOk(cfg, s, s.ops[i]); }
  }

  lemma OwnTakeUp(s: State, hand: set<nat>, id: nat)
    requires Owned(s.free, s.freeN, s.ops, s.stranded, hand) && id in s.ops
    ensures Owned(s.free, s.freeN, s.ops - {id}, s.stranded, hand + {s.ops[id].slot})
  {
    assert (s.ops - {id}).Keys == s.ops.Keys - {id};
  }

  /** Preparing an operation hands the slot over to the ring. */
  lemma PostKeeps(cfg: Config, s: State, hand: set<nat>, c: nat, kind: Kind, fd: int, text: Text, life: seq<LifeOp>)
    requires InvWith(cfg, s, hand) && WellFormed(s) && c in hand
    requires c < WORKER_CONNECTIONS
    requires OpOk(Op(kind, c, fd, Queued, text, 0), s.conns[c].(kind := kind, fd := fd), s.serials[c],
                  s.lives[c] + life, s.open)
    requires kind == Accept ==> fd == cfg.serverSock
    ensures InvWith(cfg, Post(s, c, kind, fd, text, life), hand - {c})
  {
    hide Owned, Kernel, OpOk, AcceptOk, FinishedOk, DateOk, Holds, Looping;
    var t, op := Post(s, c, kind, fd, text, life), Op(kind, c, fd, Queued, text, 0);
    OwnPost(s, hand, op);
    assert AcceptOk(cfg.serverSock, op, t.free, t.serials, t.open) by { QueuedAcceptOk(cfg.serverSock, op, t); }
    forall i | i in t.ops ensures OneOk(cfg, t, t.ops[i]) {
      if i != s.nextId { assert OneOk(cfg, s, s.ops[i]); }
    }
  }

  lemma QueuedAcceptOk(sock: int, op: Op, s: State)
    requires |s.serials| == WORKER_CONNECTIONS
    requires op.stage == Queued && (op.kind == Accept ==> op.fd == sock)
    ensures AcceptOk(sock, op, s.free, s.serials, s.open)
  {
  }

  lemma OwnPost(s: State, hand: set<nat>, op: Op)
    requires Owned(s.free, s.freeN, s.ops, s.stranded, hand) && s.nextId !in s.ops && op.slot in hand
    ensures Owned(s.free, s.freeN, s.ops[s.nextId := op], s.stranded, hand - {op.slot})
    ensures op.slot !in s.stranded && forall i | i in s.ops :: s.ops[i].slot != op.slot
  {
    hide Apart;
    var ops := s.ops[s.nextId := op];
    assert ops.Keys == s.ops.Keys + {s.nextId};
    assert forall i | i in s.ops :: s.ops[i].slot != op.slot;
    ApartPost(s.ops, s.nextId, op);
    assert |hand - {op.slot}| == |hand| - 1;
    assert |ops| == |s.ops| + 1;
  }

  lemma ApartPost(ops: map<nat, Op>, id: nat, op: Op)
    requires Apart(ops) && id !in ops && forall i | i in ops :: ops[i].slot != op.slot
    ensures Apart(ops[id := op])
  {
  }

  /** get_connection moves the first free slot into the program's hand, for a connection that no slot serves yet. */
  lemma GetKeeps(cfg: Config, s: State, hand: set<nat>, fd: int, serial: nat)
    requires InvWith(cfg, s, hand) && WellFormed(s) && 0 in hand && s.free != []
    requires Holds(s.open, fd, serial) && Unused(serial, s.free, s.serials)
    ensures InvWith(cfg, Get(s, serial), hand + {s.free[0]})
    ensures 0 < s.free[0] < WORKER_CONNECTIONS && s.free[0] !in hand
  {
    hide Owned, Kernel, OpOk, AcceptOk, FinishedOk, DateOk, Holds, Looping, Unused;
    var t, c := Get(s, serial), s.free[0];
    OwnGet(s, hand);
    KernelGet(cfg.serverSock, s, fd, serial, hand);
    forall i | i in t.ops ensures OneOk(cfg, t, t.ops[i]) {
      assert OneOk(cfg, s, s.ops[i]);
      var d := s.ops[i].slot;
      ClientAcceptOk(cfg.serverSock, s.ops[i], s.conns[d], s.serials[d], s.lives[d], t);
    }
  }

  lemma OwnGet(s: State, hand: set<nat>)
    requires Owned(s.free, s.freeN, s.ops, s.stranded, hand) && s.free != []
    ensures Owned(s.free[1..], s.freeN - 1, s.ops, s.stranded, hand + {s.free[0]})
    ensures 0 < s.free[0] < WORKER_CONNECTIONS && s.free[0] !in hand && s.free[0] !in s.stranded
    ensures forall i | i in s.ops :: s.ops[i].slot != s.free[0]
    ensures 0 in hand ==> forall i | i in s.ops :: s.ops[i].slot != 0
  {
    assert s.free[0] in s.free;
    TailDistinct(s.free);
    assert |hand + {s.free[0]}| == |hand| + 1;
  }

  lemma KernelGet(sock: int, s: State, fd: int, serial: nat, hand: set<nat>)
    requires |s.serials| == WORKER_CONNECTIONS && s.free != [] && s.free[0] < WORKER_CONNECTIONS
    requires Kernel(sock, s.open, s.nextSerial, s.closes, s.free, s.serials)
    requires Holds(s.open, fd, serial) && Unused(serial, s.free, s.serials)
    ensures Kernel(sock, s.open, s.nextSerial, s.closes, s.free[1..], s.serials[s.free[0] := serial])
  {
    var c := s.free[0];
    assert forall i: nat :: Busy(s.free[1..], i) ==> i == c || Busy(s.free, i);
  }

  /** An operation whose slot is not the listener's is no accept. */
  lemma ClientAcceptOk(sock: int, op: Op, c: Conn, serial: nat, life: seq<LifeOp>, t: State)
    requires OpOk(op, c, serial, life, t.open) && op.slot != 0 && |t.serials| == WORKER_CONNECTIONS
    ensures AcceptOk(sock, op, t.free, t.serials, t.open)
  {
  }

  lemma FreeKeeps(cfg: Config, s: State, hand: set<nat>, c: nat)
    requires InvWith(cfg, s, hand) && WellFormed(s) && c in hand && 0 < c < WORKER_CONNECTIONS
    requires CompleteLife(s.lives[c])
    ensures InvWith(cfg, Free(s, c), hand - {c})
  {
    hide Owned, Kernel, OpOk, AcceptOk, FinishedOk, DateOk, Holds, Looping, CompleteLife;
    FinishedFree(s.finished, s.lives[c]);
    var t := Free(s, c);
    OwnFree(s, hand, c);
    KernelFree(cfg.serverSock, s, c);
    forall i | i in t.ops ensures OneOk(cfg, t, t.ops[i]) {
      assert OneOk(cfg, s, s.ops[i]);
      AcceptFree(cfg.serverSock, s.ops[i], s, c);
    }
  }

  lemma FinishedFree(finished: seq<seq<LifeOp>>, life: seq<LifeOp>)
    requires FinishedOk(finished) && CompleteLife(life)
    ensures FinishedOk(finished + [life])
  {
  }

  lemma AcceptFree(sock: int, op: Op, s: State, c: nat)
    requires |s.serials| == WORKER_CONNECTIONS && AcceptOk(sock, op, s.free, s.serials, s.open)
    ensures AcceptOk(sock, op, [c] + s.free, s.serials, s.open)
  {
    assert forall x: nat :: Busy([c] + s.free, x) ==> Busy(s.free, x);
  }

  lemma OwnFree(s: State, hand: set<nat>, c: nat)
    requires Owned(s.free, s.freeN, s.ops, s.stranded, hand) && c in hand && c != 0
    ensures Owned([c] + s.free, s.freeN + 1, s.ops, s.stranded, hand - {c})
  {
  }

  lemma KernelFree(sock: int, s: State, c: nat)
    requires |s.serials| == WORKER_CONNECTIONS
    requires Kernel(sock, s.open, s.nextSerial, s.closes, s.free, s.serials)
    ensures Kernel(sock, s.open, s.nextSerial, s.closes, [c] + s.free, s.serials)
  {
    assert forall x: nat :: Busy([c] + s.free, x) ==> Busy(s.free, x);
  }

  lemma StrandKeeps(cfg: Config, s: State, hand: set<nat>, c: nat)
    requires InvWith(cfg, s, hand) && c in hand && 0 < c < WORKER_CONNECTIONS
    requires Holds(s.open, s.conns[c].fd, s.serials[c]) && Looping(s.lives[c])
    ensures InvWith(cfg, Strand(s, c), hand - {c})
  {
    hide Owned, Kernel, OpOk, AcceptOk, FinishedOk, DateOk, Holds, Looping;
    var t := Strand(s, c);
    OwnStrand(s, hand, c);
    forall i | i in t.ops ensures OneOk(cfg, t, t.ops[i]) { assert OneOk(cfg, s, s.ops[i]); }
  }

  lemma OwnStrand(s: State, hand: set<nat>, c: nat)
    requires Owned(s.free, s.freeN, s.ops, s.stranded, hand) && c in hand && c != 0
    ensures Owned(s.free, s.freeN, s.ops, s.stranded + {c}, hand - {c})
  {
  }

  /** The program may rewrite what it holds: a slot in its hand, and the cached date. */
  lemma TouchKeeps(cfg: Config, s: State, hand: set<nat>, c: nat, conn: Conn, date: Text, prevNow: int,
      dated: bool)
    requires InvWith(cfg, s, hand) && c in hand && c < WORKER_CONNECTIONS
    requires |conn.buf| == BUF_SIZE && |date| < HTTP_DATE_BUF_LEN && DateOk(cfg, prevNow, date, dated)
    ensures InvWith(cfg, s.(conns := s.conns[c := conn], dateBuf := date, prevNow := prevNow, dated := dated), hand)
  {
    hide Kernel, OpOk, AcceptOk, FinishedOk, DateOk, Holds, Looping;
    var t := s.(conns := s.conns[c := conn], dateBuf := date, prevNow := prevNow, dated := dated);
    forall i | i in t.ops ensures OneOk(cfg, t, t.ops[i]) { assert OneOk(cfg, s, s.ops[i]); }
  }

  // ---------------------------------------------------------------- the queue bound

  /** Ownership bounds the ring: no more entries are queued than there are slots outside every other place. */
  lemma QueueBound(s: State, hand: set<nat>)
    requires Owned(s.free, s.freeN, s.ops, s.stranded, hand)
    ensures |QueuedIds(s.ops)| <= |s.ops| <= WORKER_CONNECTIONS - |hand| < SQ_ENTRIES
  {
    SubsetSize(QueuedIds(s.ops), s.ops.Keys);
  }

  // ---------------------------------------------------------------- one completion

  /** With the slot in hand, a prep_ function always finds an entry. */
  lemma PrepKeeps(cfg: Config, s: State, hand: set<nat>, c: nat, kind: Kind, fd: int, text: Text, life: seq<LifeOp>)
    requires InvWith(cfg, s, hand) && WellFormed(s) && c in hand && c < WORKER_CONNECTIONS
    requires OpOk(Op(kind, c, fd, Queued, text, 0), s.conns[c].(kind := kind, fd := fd), s.serials[c],
                  s.lives[c] + life, s.open)
    requires kind == Accept ==> fd == cfg.serverSock
    ensures Prep(s, c, kind, fd, text, life) == Next(Post(s, c, kind, fd, text, life))
    ensures InvWith(cfg, Post(s, c, kind, fd, text, life), hand - {c})
    ensures WellFormed(Post(s, c, kind, fd, text, life))
  {
    hide Owned, Kernel, OpOk, AcceptOk, StrandedOk, FinishedOk, DateOk, OpsOk, Post;
    QueueBound(s, hand);
    PostKeeps(cfg, s, hand, c, kind, fd, text, life);
    InvIsWellFormed(cfg, Post(s, c, kind, fd, text, life), hand - {c});
  }

  /** The accepting slot is always armed again; the process dies exactly on a success with no free slot. */
  lemma AcceptKeeps(cfg: Config, s: State, res: int, serial: nat)
    requires InvWith(cfg, s, {0}) && WellFormed(s)
    requires res >= 0 ==> Holds(s.open, res, serial) && Unused(serial, s.free, s.serials)
    ensures var r := HandleAccept(cfg, s, res, serial);
            if res >= 0 && s.free == [] then r == Halted(NoSlot) else r.Next? && Inv(cfg, r.state)
  {
    hide Owned, Kernel, AcceptOk, StrandedOk, FinishedOk, DateOk, OpsOk, Unused;
    var s1, hand := s, {0};
    if res >= 0 {
      if s.free == [] { return; }
      var c := s.free[0];
      var s0 := Get(s, serial);
      GetKeeps(cfg, s, hand, res, serial);
      assert s0.lives[c] + [LRead] == [LRead];
      PrepKeeps(cfg, s0, hand + {c}, c, Read, res, [], [LRead]);
      s1 := Post(s0, c, Read, res, [], [LRead]);
      assert hand + {c} - {c} == hand;
    }
    assert |s1.conns[0].buf| == BUF_SIZE;
    PrepKeeps(cfg, s1, hand, 0, Accept, cfg.serverSock, [], []);
    assert hand - {0} == {};
  }

  lemma LifeGrows(l: seq<LifeOp>, held: bool)
    ensures Looping([LRead])
    ensures Looping(l) ==> CompleteLife(l + [LClose]) && Answering(l + [LWrite(held)], held)
    ensures Answering(l, true) ==> CompleteLife(l + [LClose])
    ensures Answering(l, false) ==> Looping(l + [LRead])
  {
    assert (l + [LClose])[..|l|] == l && (l + [LWrite(held)])[..|l|] == l;
    if Answering(l, false) {
      var front := l[..|l| - 1];
      assert l == front + [LWrite(false)];
      assert forall k | 0 <= k < |front| :: l[k] == front[k];
    }
  }

  lemma CloseKeeps(cfg: Config, s: State, c: nat)
    requires InvWith(cfg, s, {c}) && WellFormed(s) && 0 < c < WORKER_CONNECTIONS
    requires Holds(s.open, s.conns[c].fd, s.serials[c])
    requires Looping(s.lives[c]) || Answering(s.lives[c], true)
    ensures var r := PrepClose(s, c); r.Next? && Inv(cfg, r.state)
  {
    hide Owned, Kernel, AcceptOk, StrandedOk, FinishedOk, DateOk, OpsOk, Looping, Answering, CompleteLife;
    LifeGrows(s.lives[c], true);
    PrepKeeps(cfg, s, {c}, c, Close, s.conns[c].fd, [], [LClose]);
    assert {c} - {c} == {};
  }

  /** The response goes out from the slot's buffer, and the recorded WRITE says what the kernel had delivered. */
  lemma SendKeeps(cfg: Config, s: State, c: nat, delivered: Text)
    requires ValidConfig(cfg) && InvWith(cfg, s, {c}) && WellFormed(s) && 0 < c < WORKER_CONNECTIONS
    requires Holds(s.open, s.conns[c].fd, s.serials[c]) && Looping(s.lives[c])
    requires s.conns[c].closing == Search.Contains(delivered, Search.CONNECTION_CLOSE)
    ensures var r := Send(cfg, s, c, delivered); r.Next? && Inv(cfg, r.state)
  {
    hide Owned, Kernel, AcceptOk, StrandedOk, FinishedOk, DateOk, OpsOk, Looping, Answering, Search.Contains;
    var text := cfg.respond(s.dateBuf);
    var conn := s.conns[c].(buf := Overwrite(s.conns[c].buf, text + [NUL]));
    var s1 := s.(conns := s.conns[c := conn]);
    assert conn.buf[..|text|] == text by { assert conn.buf[..|text|] == conn.buf[..|text| + 1][..|text|]; }
    TouchKeeps(cfg, s, {c}, c, conn, s.dateBuf, s.prevNow, s.dated);
    LifeGrows(s.lives[c], conn.closing);
    PrepKeeps(cfg, s1, {c}, c, Write, conn.fd, text, [LWrite(conn.closing)]);
    assert {c} - {c} == {};
  }

  lemma RespondKeeps(cfg: Config, s: State, c: nat, delivered: Text, env: Env)
    requires ValidConfig(cfg) && InvWith(cfg, s, {c}) && WellFormed(s) && 0 < c < WORKER_CONNECTIONS
    requires Holds(s.open, s.conns[c].fd, s.serials[c]) && Looping(s.lives[c])
    requires s.conns[c].closing == Search.Contains(delivered, Search.CONNECTION_CLOSE)
    ensures var r := Respond(cfg, s, c, delivered, env); r.Next? && Inv(cfg, r.state)
  {
    hide Owned, Kernel, AcceptOk, StrandedOk, FinishedOk, OpsOk, Looping, Search.Contains, Send;
    if env.now == s.prevNow {
      SendKeeps(cfg, s, c, delivered);
    } else {
      match cfg.render(env.now)
      case None =>
        StrandKeeps(cfg, s, {c}, c);
        assert {c} - {c} == {};
      case Some(date) =>
        var s1 := s.(dateBuf := date, prevNow := env.now, dated := true);
        assert s1 == s.(conns := s.conns[c := s.conns[c]], dateBuf := date, prevNow := env.now, dated := true);
        TouchKeeps(cfg, s, {c}, c, s.conns[c], date, env.now, true);
        SendKeeps(cfg, s1, c, delivered);
    }
  }

  lemma ReadKeeps(cfg: Config, s: State, c: nat, res: int, delivered: Text, env: Env)
    requires ValidConfig(cfg) && InvWith(cfg, s, {c}) && WellFormed(s) && 0 < c < WORKER_CONNECTIONS
    requires Holds(s.open, s.conns[c].fd, s.serials[c]) && Looping(s.lives[c])
    requires res > 0 ==> res <= BUF_SIZE && s.conns[c].buf[..res] == delivered
    ensures var r := HandleRead(cfg, s, c, res, delivered, env); r.Next? && Inv(cfg, r.state)
  {
    hide Owned, Kernel, AcceptOk, StrandedOk, FinishedOk, DateOk, OpsOk, Looping, Search.Contains, Respond, PrepClose;
    if res <= 0 {
      CloseKeeps(cfg, s, c);
    } else {
      var conn := s.conns[c].(closing := Search.Contains(delivered, Search.CONNECTION_CLOSE));
      var s1 := s.(conns := s.conns[c := conn]);
      TouchKeeps(cfg, s, {c}, c, conn, s.dateBuf, s.prevNow, s.dated);
      if conn.closing || conn.nodelaySet {
        RespondKeeps(cfg, s1, c, delivered, env);
      } else if env.nodelayOk {
        var conn2 := conn.(nodelaySet := true);
        var s2 := s1.(conns := s1.conns[c := conn2]);
        TouchKeeps(cfg, s1, {c}, c, conn2, s.dateBuf, s.prevNow, s.dated);
        RespondKeeps(cfg, s2, c, delivered, env);
      } else {
        CloseKeeps(cfg, s1, c);
      }
    }
  }

  lemma WriteKeeps(cfg: Config, s: State, c: nat)
    requires InvWith(cfg, s, {c}) && WellFormed(s) && 0 < c < WORKER_CONNECTIONS
    requires Holds(s.open, s.conns[c].fd, s.serials[c]) && Answering(s.lives[c], s.conns[c].closing)
    ensures var r := if s.conns[c].closing then PrepClose(s, c) else PrepRecv(s, c, s.conns[c].fd);
            r.Next? && Inv(cfg, r.state)
  {
    hide Owned, Kernel, AcceptOk, StrandedOk, FinishedOk, DateOk, OpsOk, Looping, Answering, PrepClose;
    if s.conns[c].closing {
      CloseKeeps(cfg, s, c);
    } else {
      LifeGrows(s.lives[c], false);
      PrepKeeps(cfg, s, {c}, c, Read, s.conns[c].fd, [], [LRead]);
      assert {c} - {c} == {};
    }
  }

  /** Handling any completion keeps the invariant. The process can die in one way only: on a successful accept when
      every slot but the listener's is taken, by an operation or by a date that could not be formatted. */
  lemma HandleKeeps(cfg: Config, s: State, id: nat, env: Env)
    requires ValidConfig(cfg) && Inv(cfg, s) && WellFormed(s) && id in s.ops && s.ops[id].stage.Done?
    ensures var r := Handle(cfg, s, id, env);
            && (r.Next? ==> Inv(cfg, r.state))
            && (r.Halted? <==> s.ops[id].kind == Accept && s.ops[id].stage.res >= 0
                               && |s.ops| + |s.stranded| == WORKER_CONNECTIONS)
            && (r.Halted? ==> r.why == NoSlot)
  {
    var op := s.ops[id];
    var c, s0 := op.slot, s.(ops := s.ops - {id});
    assert OneOk(cfg, s, op);
    FreeIsEmpty(s);
    TakeUp(cfg, s, {}, id);
    assert {} + {c} == {c};
    hide Owned, Kernel, StrandedOk, FinishedOk, DateOk, OpsOk, Looping, Answering, CompleteLife,
         PrepClose, PrepRecv, HandleAccept, HandleRead, Unused;
    match op.kind
    case Accept => AcceptKeeps(cfg, s0, op.stage.res, op.serial);
    case Read => ReadKeeps(cfg, s0, c, op.stage.res, op.text, env);
    case Write => WriteKeeps(cfg, s0, c);
    case Close =>
      FreeKeeps(cfg, s0, {c}, c);
      assert {c} - {c} == {};
  }

  lemma FreeIsEmpty(s: State)
    requires Owned(s.free, s.freeN, s.ops, s.stranded, {})
    ensures s.free == [] <==> |s.ops| + |s.stranded| == WORKER_CONNECTIONS
  {
  }

  // ---------------------------------------------------------------- one kernel step

  lemma SubmitKeeps(cfg: Config, s: State)
    requires Inv(cfg, s)
    ensures Inv(cfg, Submit(s))
  {
    hide Owned, Kernel, OpOk, AcceptOk, FinishedOk, DateOk, Holds, Looping, SubmitOps;
    var t := Submit(s);
    OwnSubmit(s);
    forall i | i in t.ops ensures OneOk(cfg, t, t.ops[i]) {
      assert OneOk(cfg, s, s.ops[i]);
      SubmitOne(cfg, s, i);
    }
  }

  lemma OwnSubmit(s: State)
    requires Owned(s.free, s.freeN, s.ops, s.stranded, {})
    ensures Owned(s.free, s.freeN, SubmitOps(s.ops), s.stranded, {})
  {
    assert |SubmitOps(s.ops)| == |SubmitOps(s.ops).Keys| == |s.ops|;
    assert forall i | i in s.ops :: SubmitOps(s.ops)[i].slot == s.ops[i].slot;
  }

  lemma SubmitOne(cfg: Config, s: State, i: nat)
    requires Shape(s) && i in s.ops && OneOk(cfg, s, s.ops[i])
    ensures OneOk(cfg, s, SubmitOps(s.ops)[i])
  {
  }

  lemma OwnExecute(s: State, id: nat, op: Op)
    requires Owned(s.free, s.freeN, s.ops, s.stranded, {}) && id in s.ops && op.slot == s.ops[id].slot
    ensures Owned(s.free, s.freeN, s.ops[id := op], s.stranded, {})
    ensures op.slot !in s.free && op.slot !in s.stranded
    ensures forall i | i in s.ops && i != id :: s.ops[i].slot != op.slot && s.ops[i].slot !in s.free
    ensures forall x | x in s.stranded :: 0 < x < WORKER_CONNECTIONS && x !in s.free
  {
    hide Apart, Distinct;
    assert forall i | i in s.ops && i != id :: s.ops[i].slot != op.slot by { ApartReplace(s.ops, id, op); }
    ApartReplace(s.ops, id, op);
    assert s.ops[id := op].Keys == s.ops.Keys;
    assert |s.ops[id := op]| == |s.ops[id := op].Keys| == |s.ops|;
  }

  lemma ApartReplace(ops: map<nat, Op>, id: nat, op: Op)
    requires Apart(ops) && id in ops && op.slot == ops[id].slot
    ensures Apart(ops[id := op]) && forall i | i in ops && i != id :: ops[i].slot != op.slot
  {
  }

  lemma KernelAccept(cfg: Config, s: State, fd: int)
    requires |s.serials| == WORKER_CONNECTIONS && fd !in s.open && fd != cfg.serverSock
    requires Kernel(cfg.serverSock, s.open, s.nextSerial, s.closes, s.free, s.serials)
    ensures Kernel(cfg.serverSock, s.open[fd := s.nextSerial], s.nextSerial + 1, s.closes, s.free, s.serials)
    ensures Unused(s.nextSerial, s.free, s.serials)
  {
    assert s.open[fd := s.nextSerial].Keys == s.open.Keys + {fd};
  }

  lemma OpSurvivesAccept(op: Op, c: Conn, serial: nat, life: seq<LifeOp>, open: map<int, nat>, fd: int, n: nat)
    requires OpOk(op, c, serial, life, open) && fd !in open
    ensures OpOk(op, c, serial, life, open[fd := n])
  {
  }

  lemma AcceptExecutes(cfg: Config, s: State, id: nat, res: int)
    requires Inv(cfg, s) && CanExecute(cfg, s, id, res, []) && s.ops[id].kind == Accept
    ensures Inv(cfg, Execute(cfg, s, id, res, []))
  {
    hide Owned, Kernel, FinishedOk, DateOk, Looping, Answering, CompleteLife, Unused, OpOk;
    var t, b := Execute(cfg, s, id, res, []), s.ops[id].slot;
    assert OneOk(cfg, s, s.ops[id]);
    OwnExecute(s, id, t.ops[id]);
    if res >= 0 { KernelAccept(cfg, s, res); }
    forall i | i in t.ops ensures OneOk(cfg, t, t.ops[i]) {
      var c := s.ops[i].slot;
      assert OneOk(cfg, s, s.ops[i]);
      AcceptsAreFirst(s.ops[i], s.conns[c], s.serials[c], s.lives[c], s.open);
      AcceptsAreFirst(s.ops[id], s.conns[b], s.serials[b], s.lives[b], s.open);
      AcceptMoves(t.ops[id], s.ops[id], s.conns[b], s.serials[b], s.lives[b], s.open);
      if res >= 0 { OpSurvivesAccept(t.ops[i], s.conns[c], s.serials[c], s.lives[c], s.open, res, s.nextSerial); }
    }
  }

  lemma AcceptsAreFirst(op: Op, c: Conn, serial: nat, life: seq<LifeOp>, open: map<int, nat>)
    requires OpOk(op, c, serial, life, open)
    ensures op.kind == Accept <==> op.slot == 0
  {
  }

  lemma AcceptMoves(after: Op, before: Op, c: Conn, serial: nat, life: seq<LifeOp>, open: map<int, nat>)
    requires OpOk(before, c, serial, life, open) && before.kind == Accept
    requires after.kind == before.kind && after.slot == before.slot && after.fd == before.fd
    ensures OpOk(after, c, serial, life, open)
  {
  }

  /** What recv and send do to the slot of their own operation. */
  function Transferred(op: Op, c: Conn, data: Text): Conn {
    if op.kind == Read then c.(buf := Overwrite(c.buf, data)) else c
  }

  lemma TransferredOk(op: Op, res: int, data: Text, c: Conn, serial: nat, life: seq<LifeOp>, open: map<int, nat>)
    requires OpOk(op, c, serial, life, open) && op.kind in {Read, Write} && op.stage == Submitted
    requires op.kind == Read ==> res <= BUF_SIZE && |data| == if res < 0 then 0 else res
    ensures var done := if op.kind == Read then op.(stage := Done(res), text := data) else op.(stage := Done(res));
            OpOk(done, Transferred(op, c, data), serial, life, open) && op.slot != 0
  {
    hide Looping, Answering, CompleteLife;
  }

  /** recv and send change no slot but that of their own operation, and of that only the buffer, and only for a recv. */
  lemma TransferTouchesItsBuffer(cfg: Config, s: State, id: nat, res: int, data: Text)
    requires CanExecute(cfg, s, id, res, data) && s.ops[id].kind in {Read, Write}
    ensures var c := s.ops[id].slot;
            Execute(cfg, s, id, res, data).conns == s.conns[c := Transferred(s.ops[id], s.conns[c], data)]
  {
  }

  lemma TransferExecutes(cfg: Config, s: State, id: nat, res: int, data: Text)
    requires Inv(cfg, s) && CanExecute(cfg, s, id, res, data) && s.ops[id].kind in {Read, Write}
    ensures Inv(cfg, Execute(cfg, s, id, res, data))
  {
    hide Owned, Kernel, FinishedOk, DateOk, Looping, Answering, CompleteLife, Unused, OpOk, AcceptOk, Overwrite;
    var t, op := Execute(cfg, s, id, res, data), s.ops[id];
    assert OneOk(cfg, s, op);
    TransferredOk(op, res, data, s.conns[op.slot], s.serials[op.slot], s.lives[op.slot], s.open);
    OwnExecute(s, id, t.ops[id]);
    forall i | i in t.ops ensures OneOk(cfg, t, t.ops[i]) {
      assert OneOk(cfg, s, s.ops[i]);
      if i == id {
        ClientAcceptOk(cfg.serverSock, t.ops[i], t.conns[op.slot], s.serials[op.slot], s.lives[op.slot], t);
      }
    }
  }

  /** A close removes one descriptor. What other connections hold stays. */
  lemma OpSurvivesClose(op: Op, c: Conn, serial: nat, life: seq<LifeOp>, open: map<int, nat>, gone: int)
    requires OpOk(op, c, serial, life, open) && gone in open && (op.slot != 0 ==> serial != open[gone])
    ensures OpOk(op, c, serial, life, open - {gone})
  {
  }

  lemma AcceptSurvivesClose(cfg: Config, s: State, op: Op, gone: int, slot: nat)
    requires |s.serials| == WORKER_CONNECTIONS && AcceptOk(cfg.serverSock, op, s.free, s.serials, s.open)
    requires Busy(s.free, slot) && Holds(s.open, gone, s.serials[slot])
    ensures AcceptOk(cfg.serverSock, op, s.free, s.serials, s.open - {gone})
  {
  }

  lemma StrandedSurviveClose(s: State, gone: int, slot: nat)
    requires Shape(s) && StrandedOk(s) && slot < WORKER_CONNECTIONS && Holds(s.open, gone, s.serials[slot])
    requires forall x | x in s.stranded :: x < WORKER_CONNECTIONS && s.serials[x] != s.serials[slot]
    ensures StrandedOk(s.(open := s.open - {gone}))
  {
  }

  lemma KernelClose(cfg: Config, s: State, fd: int)
    requires |s.serials| == WORKER_CONNECTIONS && fd in s.open
    requires Kernel(cfg.serverSock, s.open, s.nextSerial, s.closes, s.free, s.serials)
    ensures Kernel(cfg.serverSock, s.open - {fd}, s.nextSerial, s.closes + [s.open[fd]], s.free, s.serials)
  {
    assert (s.open - {fd}).Keys == s.open.Keys - {fd};
  }

  lemma SerialsDiffer(cfg: Config, s: State, i: nat, j: nat)
    requires |s.serials| == WORKER_CONNECTIONS
    requires Kernel(cfg.serverSock, s.open, s.nextSerial, s.closes, s.free, s.serials)
    requires Busy(s.free, i) && Busy(s.free, j) && i != j
    ensures s.serials[i] != s.serials[j]
  {
  }

  lemma ClosedOpOk(op: Op, res: int, c: Conn, serial: nat, life: seq<LifeOp>, open: map<int, nat>)
    requires OpOk(op, c, serial, life, open) && op.kind == Close && op.stage == Submitted
    ensures op.slot != 0 && Holds(open, op.fd, serial)
    ensures OpOk(op.(stage := Done(res)), c, serial, life, open - {op.fd})
  {
  }

  /** A close that the kernel executes is for a descriptor that is open and held by the operation's slot. */
  lemma CloseExecutes(cfg: Config, s: State, id: nat, res: int, data: Text)
    requires Inv(cfg, s) && CanExecute(cfg, s, id, res, data) && s.ops[id].kind == Close
    ensures Holds(s.open, s.ops[id].fd, s.serials[s.ops[id].slot])
    ensures Inv(cfg, Execute(cfg, s, id, res, data))
  {
    hide Owned, Kernel, FinishedOk, DateOk, Looping, Answering, CompleteLife, Unused, OpOk, AcceptOk, StrandedOk;
    var op := s.ops[id];
    var b := op.slot;
    assert OneOk(cfg, s, op);
    ClosedOpOk(op, res, s.conns[b], s.serials[b], s.lives[b], s.open);
    var t := Execute(cfg, s, id, res, data);
    OwnExecute(s, id, t.ops[id]);
    KernelClose(cfg, s, op.fd);
    forall i | i in t.ops ensures OneOk(cfg, t, t.ops[i]) {
      var c := s.ops[i].slot;
      assert OneOk(cfg, s, s.ops[i]);
      if i == id {
        ClientAcceptOk(cfg.serverSock, t.ops[i], s.conns[b], s.serials[b], s.lives[b], t);
      } else {
        if c != 0 { SerialsDiffer(cfg, s, b, c); }
        OpSurvivesClose(s.ops[i], s.conns[c], s.serials[c], s.lives[c], s.open, op.fd);
        AcceptSurvivesClose(cfg, s, s.ops[i], op.fd, b);
      }
    }
    forall x | x in s.stranded ensures x < WORKER_CONNECTIONS && s.serials[x] != s.serials[b] {
      SerialsDiffer(cfg, s, x, b);
    }
    StrandedSurviveClose(s, op.fd, b);
    StrandedFrame(s.(open := s.open - {op.fd}), t);
  }

  lemma StrandedFrame(s: State, t: State)
    requires StrandedOk(s) && t.stranded == s.stranded && t.conns == s.conns && t.serials == s.serials
    requires t.lives == s.lives && t.open == s.open
    ensures StrandedOk(t)
  {
  }

  lemma ExecuteKeeps(cfg: Config, s: State, id: nat, res: int, data: Text)
    requires Inv(cfg, s) && CanExecute(cfg, s, id, res, data)
    ensures Inv(cfg, Execute(cfg, s, id, res, data))
  {
    match s.ops[id].kind
    case Accept => AcceptExecutes(cfg, s, id, res);
    case Read => TransferExecutes(cfg, s, id, res, data);
    case Write => TransferExecutes(cfg, s, id, res, data);
    case Close => CloseExecutes(cfg, s, id, res, data);
  }
}
