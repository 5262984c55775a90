/** The epoll event loop of the threaded and the multi-process server, over the same slot pool. A batch of events is
    handled one by one, and slots are freed and taken again while events of the same batch are still waiting. */
module Epoll {
  import opened Bytes
  import opened Counting
  import Pools

  const WORKER_CONNECTIONS: nat := 1024
  const MAX_EVENTS: nat := 512

  /** The two servers differ in what they do when a new descriptor cannot be registered. */
  datatype Variant = Threaded | MultiProcess

  datatype Slot = Slot(fd: int, nodelaySet: bool)

  /** What epoll_wait reports: the data pointer registered with the descriptor, and, for the record, the descriptor and
      the serial number of the connection that the slot served when the event was reported. */
  datatype Event = ServerReady | ClientReady(slot: nat, fd: int, serial: nat)

  datatype State = State(
    // the program
    slots: seq<Slot>, free: seq<nat>, counter: nat, requests: nat, prevNow: int,
    // the events of this batch that are still to be handled
    batch: seq<Event>,
    // the kernel: open client descriptors, and the slots registered with them
    open: set<int>, registered: map<int, nat>,
    // history: the connection that each slot serves or served last, slots lost, and registrations that failed
    serials: seq<nat>, nextSerial: nat, lost: set<nat>, failures: nat)

  /** The answers of the system calls while one event is handled. closing is the recogniser's verdict. */
  datatype Env = Env(accepted: int, readdOk: bool, addOk: bool, received: int, closing: bool,
                     now: int, dateOk: bool, written: bool, nodelayOk: bool)

  datatype Halt = NoSlot | Exited
  datatype Outcome = Next(state: State) | Halted(why: Halt)

  predicate WellFormed(s: State) {
    && |s.serials| == |s.slots|
    && (forall k | 0 <= k < |s.free| :: s.free[k] < |s.slots|)
    && (forall k | 0 <= k < |s.batch| :: s.batch[k].ClientReady? ==> s.batch[k].slot < |s.slots|)
  }

  /** get_connection, for a new connection. `*free_connection_n--` moves the local pointer, so the counter stays as it
      is. */
  function Get(s: State, fd: int): State
    requires WellFormed(s) && s.free != []
  {
    var c := s.free[0];
    s.(free := s.free[1..], slots := s.slots[c := Slot(fd, false)],
       serials := s.serials[c := s.nextSerial], nextSerial := s.nextSerial + 1)
  }

  /** close(2), which also ends the descriptor's registration. */
  function Close(s: State, fd: int): State {
    s.(open := s.open - {fd}, registered := s.registered - {fd})
  }

  /** close_connection: the slot goes back to the list first, then its descriptor is closed. */
  function CloseConnection(s: State, c: nat): State
    requires c < |s.slots|
  {
    Close(s.(free := [c] + s.free), s.slots[c].fd)
  }

  function HandleServer(variant: Variant, s: State, env: Env): Outcome
    requires WellFormed(s)
  {
    if env.accepted == -1 then Next(s)
    else if s.requests % 16 == 0 && !env.readdOk then Halted(Exited)
    else Admit(variant, s.(open := s.open + {env.accepted}, requests := s.requests + 1), env.accepted, env.addOk)
  }

  /** A new connection gets a slot and is registered. */
  function Admit(variant: Variant, s: State, fd: int, addOk: bool): Outcome
    requires WellFormed(s)
  {
    if s.free == [] then Halted(NoSlot)
    else
      var c, s1 := s.free[0], Get(s, fd);
      if addOk then Next(s1.(registered := s1.registered[fd := c]))
      else Next(Refuse(variant, s1, c, fd))
  }

  /** epoll_ctl could not register the descriptor: one server returns the slot, the other only closes. */
  function Refuse(variant: Variant, s: State, c: nat, fd: int): State
    requires c < |s.slots|
  {
    var s1 := s.(failures := s.failures + 1);
    match variant
    case Threaded => CloseConnection(s1, c)
    case MultiProcess => Close(s1, fd).(lost := s1.lost + {c})
  }

  function HandleClient(s: State, c: nat, env: Env): State
    requires c < |s.slots|
  {
    if env.received <= 0 then CloseConnection(s, c)
    else if env.now != s.prevNow && !env.dateOk then s
    else
      var s1 := s.(prevNow := env.now);
      if !env.written || env.closing then CloseConnection(s1, c)
      else if !s.slots[c].nodelaySet && !env.nodelayOk then CloseConnection(s1, c)
      else s1.(slots := s1.slots[c := s1.slots[c].(nodelaySet := true)])
  }

  function HandleEvent(variant: Variant, s: State, env: Env): Outcome
    requires WellFormed(s) && s.batch != []
  {
    var s0 := s.(batch := s.batch[1..]);
    match s.batch[0]
    case ServerReady => HandleServer(variant, s0, env)
    case ClientReady(c, _, _) => Next(HandleClient(s0, c, env))
  }

  // ---------------------------------------------------------------- the environment

  /** The event is about a live registration, and its slot serves the connection that it served when the event was
      reported. */
  predicate Names(e: Event, registered: map<int, nat>, serials: seq<nat>) {
    e.ClientReady? ==>
      && e.fd in registered && registered[e.fd] == e.slot
      && e.slot < |serials| && serials[e.slot] == e.serial
  }

  /** epoll_wait reports registered descriptors only, each at most once, with the data they were registered with. */
  predicate CanReport(s: State, events: seq<Event>) {
    s.batch == [] && Reportable(s.registered, s.serials, events)
  }

  predicate Reportable(registered: map<int, nat>, serials: seq<nat>, events: seq<Event>) {
    && |events| <= MAX_EVENTS
    && (forall k | 0 <= k < |events| :: Names(events[k], registered, serials))
    && (forall j, k | 0 <= j < k < |events| :: events[j] != events[k])
  }

  /** accept4 fails with -1, or yields a descriptor that is not open; the listening socket is open throughout. */
  predicate CanAnswer(serverFd: int, s: State, env: Env) {
    && WellFormed(s) && s.batch != []
    && (s.batch[0].ServerReady? ==> env.accepted == -1 || (env.accepted !in s.open && env.accepted != serverFd))
  }

  datatype Step = WaitStep(events: seq<Event>) | WaitFails | EventStep(env: Env)

  predicate Enabled(serverFd: int, s: State, step: Step) {
    match step
    case WaitStep(events) => CanReport(s, events)
    case WaitFails => s.batch == []
    case EventStep(env) => CanAnswer(serverFd, s, env)
  }

  function Take(variant: Variant, serverFd: int, s: State, step: Step): Outcome
    requires Enabled(serverFd, s, step)
  {
    match step
    case WaitStep(events) => Next(s.(batch := events))
    case WaitFails => Halted(Exited)
    case EventStep(env) => HandleEvent(variant, s, env)
  }

  function Start(slots: seq<Slot>): State {
    State(Unlinked(slots), Pools.Indices(|slots|), WORKER_CONNECTIONS, 0, 0, [], {}, map[], NoSerials(|slots|), 0, {}, 0)
  }

  /** init_connections on slots with any contents: no descriptor, and TCP_NODELAY not set. */
  function Unlinked(slots: seq<Slot>): (r: seq<Slot>)
    ensures |r| == |slots| && forall i | 0 <= i < |slots| :: r[i] == Slot(-1, false)
  {
    seq(|slots|, i => Slot(-1, false))
  }

  function NoSerials(n: nat): (r: seq<nat>)
    ensures |r| == n
  {
    seq(n, i => 0)
  }

  ghost predicate IsRun(variant: Variant, serverFd: int, slots: seq<Slot>, trace: seq<State>, steps: seq<Step>) {
    && |trace| == |steps| + 1 && |slots| == WORKER_CONNECTIONS && trace[0] == Start(slots)
    && forall i | 0 <= i < |steps| :: IsStep(variant, serverFd, trace[i], steps[i], trace[i + 1])
  }

  ghost predicate IsStep(variant: Variant, serverFd: int, s: State, step: Step, t: State) {
    Enabled(serverFd, s, step) && Take(variant, serverFd, s, step) == Next(t)
  }

  // ---------------------------------------------------------------- what the environment makes of the loop

  /** The run so far, and, if the process has died, the step at which it did and why. */
  datatype Stop = Stop(step: Step, why: Halt)
  datatype Progress = Progress(trace: seq<State>, steps: seq<Step>, stop: Option<Stop>)

  function Last(p: Progress): State
    requires p.trace != []
  {
    p.trace[|p.trace| - 1]
  }

  /** The run with one more step, if the process lives and the step is possible. */
  function Advance(variant: Variant, serverFd: int, p: Progress, step: Step): (q: Progress)
    requires p.trace != []
    ensures q.trace != []
  {
    if p.stop.Some? || !Enabled(serverFd, Last(p), step) then p
    else match Take(variant, serverFd, Last(p), step)
      case Next(t) => Progress(p.trace + [t], p.steps + [step], None)
      case Halted(why) => p.(stop := Some(Stop(step, why)))
  }

  /** accept4 never yields an open descriptor: such an answer counts as a failure. */
  function Possible(serverFd: int, event: Event, open: set<int>, env: Env): Env {
    if event.ServerReady? && (env.accepted in open || env.accepted == serverFd) then env.(accepted := -1) else env
  }

  /** What one call of epoll_wait brings: an error, or events together with the system calls' answers to each. */
  datatype Report = Report(event: Event, answer: Env)
  datatype Turn = WaitError | Batch(reports: seq<Report>)

  function Events(reports: seq<Report>): (r: seq<Event>)
    ensures |r| == |reports| && forall k | 0 <= k < |r| :: r[k] == reports[k].event
  {
    seq(|reports|, k requires 0 <= k < |reports| => reports[k].event)
  }

  /** The run after the first n events of a batch, handled in order. */
  function AfterEvents(variant: Variant, serverFd: int, p: Progress, reports: seq<Report>, n: nat): (q: Progress)
    requires p.trace != [] && n <= |reports|
    ensures q.trace != []
  {
    if n == 0 then Advance(variant, serverFd, p, WaitStep(Events(reports)))
    else
      var before := AfterEvents(variant, serverFd, p, reports, n - 1);
      var env := Possible(serverFd, reports[n - 1].event, Last(before).open, reports[n - 1].answer);
      Advance(variant, serverFd, before, EventStep(env))
  }

  /** One turn of the outer loop; a batch that epoll_wait cannot report is passed over. */
  function AfterTurn(variant: Variant, serverFd: int, p: Progress, turn: Turn): (q: Progress)
    requires p.trace != []
    ensures q.trace != []
  {
    match turn
    case WaitError => Advance(variant, serverFd, p, WaitFails)
    case Batch(reports) =>
      if p.stop.Some? || !CanReport(Last(p), Events(reports)) then p
      else AfterEvents(variant, serverFd, p, reports, |reports|)
  }

  function AfterTurns(variant: Variant, serverFd: int, slots: seq<Slot>, turns: seq<Turn>): (q: Progress)
    ensures q.trace != []
  {
    if turns == [] then Progress([Start(slots)], [], None)
    else
      var n := |turns| - 1;
      AfterTurn(variant, serverFd, AfterTurns(variant, serverFd, slots, turns[..n]), turns[n])
  }

  // ---------------------------------------------------------------- the invariant

  /** Slots split into the list, the registered ones, one for each open client descriptor, and the lost ones. */
  ghost predicate Split(free: seq<nat>, registered: map<int, nat>, lost: set<nat>) {
    && Distinct(free) && Injective(registered)
    && (forall x | x in free :: x < WORKER_CONNECTIONS && x !in lost)
    && (forall f | f in registered ::
          registered[f] < WORKER_CONNECTIONS && registered[f] !in free && registered[f] !in lost)
    && (forall x | x in lost :: x < WORKER_CONNECTIONS)
    && |free| + |registered| + |lost| == WORKER_CONNECTIONS
  }

  /** Every registered slot holds the descriptor it is registered with. */
  ghost predicate Holding(slots: seq<Slot>, registered: map<int, nat>) {
    forall f | f in registered :: registered[f] < |slots| && slots[registered[f]].fd == f
  }

  /** Every event still to be handled is about a live registration of the connection it was reported for, and about
      each at most once. */
  ghost predicate BatchOk(batch: seq<Event>, registered: map<int, nat>, serials: seq<nat>) {
    && (forall k | 0 <= k < |batch| :: Names(batch[k], registered, serials))
    && Distinct(batch)
  }

  /** The connections served are ones accepted before, and different slots serve different ones. */
  ghost predicate SerialsOk(registered: map<int, nat>, serials: seq<nat>, next: nat) {
    && |serials| == WORKER_CONNECTIONS
    && (forall f | f in registered :: registered[f] < |serials| && serials[registered[f]] < next)
    && (forall f, g | f in registered && g in registered && f != g :: serials[registered[f]] != serials[registered[g]])
  }

  ghost predicate Losses(variant: Variant, s: State) {
    |s.lost| == if variant == Threaded then 0 else s.failures
  }

  ghost predicate Inv(variant: Variant, serverFd: int, s: State) {
    && |s.slots| == WORKER_CONNECTIONS && s.counter == WORKER_CONNECTIONS
    && Split(s.free, s.registered, s.lost) && Holding(s.slots, s.registered)
    && BatchOk(s.batch, s.registered, s.serials)
    && SerialsOk(s.registered, s.serials, s.nextSerial)
    && s.open == s.registered.Keys && serverFd !in s.open
    && Losses(variant, s)
  }

  lemma InvIsWellFormed(variant: Variant, serverFd: int, s: State)
    requires Inv(variant, serverFd, s)
    ensures WellFormed(s)
  {
    assert forall k | 0 <= k < |s.free| :: s.free[k] in s.free;
  }
}
