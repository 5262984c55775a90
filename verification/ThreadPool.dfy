/** The thread pool of the toy server: workers that share one receiver behind a mutex, as steps that interleave. */
module ThreadPool {
  import opened Bytes

  datatype Job = Job(id: nat)

  /** Why a worker thread ended: its job panicked, recv found the channel disconnected, or lock found the mutex
      poisoned. In the last two cases an unwrap panics. */
  datatype Reason = JobPanicked | Disconnected | Poisoned

  /** A worker between jobs, holding the receiver inside recv, running a job, or dead. The guard of
      `receiver.lock().unwrap().recv().unwrap()` is dropped at the end of that statement, before the job runs. */
  datatype Worker = Idle | Holding | Running(job: Job) | Dead(why: Reason)

  datatype State = State(
    workers: seq<Worker>, holder: Option<nat>, poisoned: bool, queue: seq<Job>, senderAlive: bool,
    // history: jobs sent, jobs taken with the worker that took each, and how they ended
    sent: seq<Job>, taken: seq<(nat, Job)>, finished: seq<Job>, panicked: seq<Job>)

  datatype Step =
    | Send(job: Job) | DropSender
    | Lock(w: nat) | Recv(w: nat) | Finish(w: nat) | Panic(w: nat)

  function Start(size: nat): State {
    State(seq(size, i => Idle), None, false, [], true, [], [], [], [])
  }

  predicate Alive(s: State, w: nat) {
    w < |s.workers| && !s.workers[w].Dead?
  }

  predicate SomeAlive(s: State) {
    exists w: nat :: w < |s.workers| && Alive(s, w)
  }

  /** What may happen next. A lock waits for the holder; recv waits while the queue is empty and the sender lives. */
  predicate Enabled(s: State, step: Step) {
    match step
    case Send(_) => s.senderAlive && SomeAlive(s)
    case DropSender => s.senderAlive
    case Lock(w) => w < |s.workers| && s.workers[w] == Idle && s.holder == None
    case Recv(w) => w < |s.workers| && s.workers[w] == Holding && (s.queue != [] || !s.senderAlive)
    case Finish(w) => w < |s.workers| && s.workers[w].Running?
    case Panic(w) => w < |s.workers| && s.workers[w].Running?
  }

  function Take(s: State, step: Step): State
    requires Enabled(s, step)
  {
    match step
    case Send(job) => s.(queue := s.queue + [job], sent := s.sent + [job])
    case DropSender => s.(senderAlive := false)
    case Lock(w) =>
      if s.poisoned then s.(workers := s.workers[w := Dead(Poisoned)])
      else s.(workers := s.workers[w := Holding], holder := Some(w))
    case Recv(w) =>
      if s.queue != [] then
        s.(workers := s.workers[w := Running(s.queue[0])], holder := None,
           queue := s.queue[1..], taken := s.taken + [(w, s.queue[0])])
      else
        s.(workers := s.workers[w := Dead(Disconnected)], holder := None, poisoned := true)
    case Finish(w) => s.(workers := s.workers[w := Idle], finished := s.finished + [s.workers[w].job])
    case Panic(w) => s.(workers := s.workers[w := Dead(JobPanicked)], panicked := s.panicked + [s.workers[w].job])
  }

  ghost predicate IsRun(size: nat, trace: seq<State>, steps: seq<Step>) {
    && |trace| == |steps| + 1 && trace[0] == Start(size)
    && forall i | 0 <= i < |steps| :: IsStep(trace[i], steps[i], trace[i + 1])
  }

  ghost predicate IsStep(s: State, step: Step, t: State) {
    Enabled(s, step) && Take(s, step) == t
  }

  // ---------------------------------------------------------------- the program

  /** ThreadPool::new: refuses a size of zero and spawns the workers one by one. */
  method New(size: nat) returns (pool: Option<State>)
    ensures pool == if size == 0 then None else Some(Start(size))
  {
    if size == 0 {
      return None;
    }
    var workers: seq<Worker> := [];
    for id := 0 to size
      invariant |workers| == id && forall k | 0 <= k < id :: workers[k] == Idle
    {
      workers := workers + [Idle];
    }
    assert workers == Start(size).workers;
    return Some(State(workers, None, false, [], true, [], [], [], []));
  }

  // ---------------------------------------------------------------- the invariant

  predicate IsRunning(x: Worker) { x.Running? }
  predicate HasPanicked(x: Worker) { x == Dead(JobPanicked) }
  predicate IsDisconnected(x: Worker) { x == Dead(Disconnected) }
  predicate HasLeft(x: Worker) { x == Dead(Disconnected) || x == Dead(Poisoned) }

  lemma DeadOtherwise(x: Worker)
    ensures x.Dead? <==> HasPanicked(x) || HasLeft(x)
  {
    if x.Dead? {
      match x.why
      case JobPanicked =>
      case Disconnected =>
      case Poisoned =>
    }
  }

  function Count(p: Worker -> bool, l: seq<Worker>): nat {
    if l == [] then 0 else Count(p, l[..|l| - 1]) + if p(l[|l| - 1]) then 1 else 0
  }

  lemma {:induction false} CountUpdate(p: Worker -> bool, l: seq<Worker>, w: nat, x: Worker)
    requires w < |l|
    ensures Count(p, l[w := x]) == Count(p, l) - (if p(l[w]) then 1 else 0) + (if p(x) then 1 else 0)
  {
    var n := |l| - 1;
    if w == n {
      assert l[w := x][..n] == l[..n];
    } else {
      assert l[w := x][..n] == l[..n][w := x];
      CountUpdate(p, l[..n], w, x);
    }
  }

  lemma {:induction false} CountBounds(p: Worker -> bool, l: seq<Worker>)
    ensures Count(p, l) <= |l|
    ensures Count(p, l) == |l| <==> forall k | 0 <= k < |l| :: p(l[k])
    ensures Count(p, l) == 0 <==> forall k | 0 <= k < |l| :: !p(l[k])
  {
    if l != [] {
      CountBounds(p, l[..|l| - 1]);
      assert forall k | 0 <= k < |l| - 1 :: l[..|l| - 1][k] == l[k];
    }
  }

  function Jobs(taken: seq<(nat, Job)>): (r: seq<Job>)
    ensures |r| == |taken| && forall k | 0 <= k < |r| :: r[k] == taken[k].1
  {
    seq(|taken|, k requires 0 <= k < |taken| => taken[k].1)
  }

  /** Exactly the holder of the lock is inside recv. */
  ghost predicate LockOk(s: State) {
    && (forall w: nat | w < |s.workers| :: s.workers[w] == Holding <==> s.holder == Some(w))
    && (s.holder.Some? ==> s.holder.value < |s.workers|)
  }

  /** The jobs taken are the first ones sent, in order; the queue holds the others. */
  ghost predicate OrderOk(s: State) {
    s.sent == Jobs(s.taken) + s.queue && forall k | 0 <= k < |s.taken| :: s.taken[k].0 < |s.workers|
  }

  /** The jobs that are being run now. */
  function RunningJobs(l: seq<Worker>): multiset<Job> {
    if l == [] then multiset{} else RunningJobs(l[..|l| - 1]) + JobOf(l[|l| - 1])
  }

  function JobOf(x: Worker): multiset<Job> {
    match x case Running(job) => multiset{job} case _ => multiset{}
  }

  /** Every job taken is running, finished or panicked, and these were all taken, each as often as it was taken. */
  ghost predicate JobsOk(s: State) {
    multiset(Jobs(s.taken)) == RunningJobs(s.workers) + EndedJobs(s.finished, s.panicked)
  }

  function EndedJobs(finished: seq<Job>, panicked: seq<Job>): multiset<Job> {
    multiset(finished) + multiset(panicked)
  }

  /** A worker runs the job that it took last. */
  ghost predicate OwnJobOk(s: State) {
    forall w: nat | w < |s.workers| && s.workers[w].Running? :: LastTaken(s.taken, w) == Some(s.workers[w].job)
  }

  function LastTaken(taken: seq<(nat, Job)>, w: nat): Option<Job> {
    if taken == [] then None
    else if taken[|taken| - 1].0 == w then Some(taken[|taken| - 1].1)
    else LastTaken(taken[..|taken| - 1], w)
  }

  /** One worker panicked for each job that did, and one saw the disconnection if the lock is poisoned. */
  ghost predicate CountsOk(s: State) {
    && |s.panicked| == Count(HasPanicked, s.workers)
    && Count(IsDisconnected, s.workers) == if s.poisoned then 1 else 0
  }

  /** A worker sees the end only when nothing is queued and nothing can be sent any more. */
  ghost predicate EndOk(s: State) {
    && (forall w: nat | w < |s.workers| && HasLeft(s.workers[w]) :: s.poisoned)
    && (s.poisoned ==> s.queue == [] && !s.senderAlive && s.holder == None)
  }

  ghost predicate Inv(s: State) {
    LockOk(s) && OrderOk(s) && JobsOk(s) && OwnJobOk(s) && CountsOk(s) && EndOk(s)
  }

  lemma StartInv(size: nat)
    ensures Inv(Start(size))
  {
    CountBounds(HasPanicked, Start(size).workers);
    CountBounds(IsDisconnected, Start(size).workers);
    NobodyRuns(Start(size).workers);
  }

  lemma {:induction false} NobodyRuns(l: seq<Worker>)
    requires forall k | 0 <= k < |l| :: l[k] == Idle
    ensures RunningJobs(l) == multiset{}
  {
    if l != [] { NobodyRuns(l[..|l| - 1]); }
  }

  lemma {:induction false} RunningUpdate(l: seq<Worker>, w: nat, x: Worker)
    requires w < |l|
    ensures RunningJobs(l[w := x]) + JobOf(l[w]) == RunningJobs(l) + JobOf(x)
  {
    hide JobOf;
    var n := |l| - 1;
    var front := RunningJobs(l[..n]);
    if w == n {
      assert l[w := x][..n] == l[..n];
      assert front + JobOf(x) + JobOf(l[w]) == front + JobOf(l[w]) + JobOf(x);
    } else {
      assert l[w := x][..n] == l[..n][w := x];
      RunningUpdate(l[..n], w, x);
      Regroup(RunningJobs(l[..n][w := x]), front, JobOf(l[w]), JobOf(x), JobOf(l[n]));
    }
  }

  lemma Regroup(a: multiset<Job>, b: multiset<Job>, c: multiset<Job>, d: multiset<Job>, e: multiset<Job>)
    requires a + c == b + d
    ensures a + e + c == b + e + d
  {
    assert a + e + c == a + c + e && b + e + d == b + d + e;
  }

  lemma {:induction false} RunningSize(l: seq<Worker>)
    ensures |RunningJobs(l)| == Count(IsRunning, l)
  {
    if l != [] { RunningSize(l[..|l| - 1]); }
  }

  lemma JobsAppend(s: seq<(nat, Job)>, x: (nat, Job))
    ensures multiset(Jobs(s + [x])) == multiset(Jobs(s)) + multiset{x.1}
  {
    assert Jobs(s + [x]) == Jobs(s) + [x.1];
  }

  /** Jobs coming in are taken by a worker, jobs going out have finished or panicked. */
  lemma Balance(taken: multiset<Job>, running: multiset<Job>, ended: multiset<Job>, incoming: multiset<Job>,
                outgoing: multiset<Job>, running': multiset<Job>)
    requires taken == running + ended && running' + outgoing == running + incoming
    ensures taken + incoming == running' + (ended + outgoing)
  {
    forall j ensures (taken + incoming)[j] == (running' + (ended + outgoing))[j] {
      assert (running' + outgoing)[j] == (running + incoming)[j];
      assert taken[j] == (running + ended)[j];
    }
  }

  lemma JobsStep(s: State, step: Step)
    requires JobsOk(s) && Enabled(s, step)
    ensures JobsOk(Take(s, step))
  {
    hide Jobs, RunningJobs, JobOf, EndedJobs;
    var t := Take(s, step);
    if !step.Send? && !step.DropSender? {
      var w := step.w;
      var incoming, outgoing := JobOf(t.workers[w]), JobOf(s.workers[w]);
      RunningUpdate(s.workers, w, t.workers[w]);
      assert t.workers == s.workers[w := t.workers[w]];
      Balance(multiset(Jobs(s.taken)), RunningJobs(s.workers), EndedJobs(s.finished, s.panicked),
              incoming, outgoing, RunningJobs(t.workers));
      StepTakesJobs(s, step);
      StepEndsJobs(s, step);
    }
  }

  lemma StepTakesJobs(s: State, step: Step)
    requires Enabled(s, step) && !step.Send? && !step.DropSender?
    ensures var t := Take(s, step); multiset(Jobs(t.taken)) == multiset(Jobs(s.taken)) + JobOf(t.workers[step.w])
  {
    hide Jobs;
    NothingMoves(multiset(Jobs(s.taken)));
    if step.Recv? && s.queue != [] { JobsAppend(s.taken, (step.w, s.queue[0])); }
  }

  lemma StepEndsJobs(s: State, step: Step)
    requires Enabled(s, step) && !step.Send? && !step.DropSender?
    ensures var t := Take(s, step);
            EndedJobs(t.finished, t.panicked) == EndedJobs(s.finished, s.panicked) + JobOf(s.workers[step.w])
  {
    hide EndedJobs;
    NothingMoves(EndedJobs(s.finished, s.panicked));
    if s.workers[step.w].Running? { EndedAppend(s.finished, s.panicked, s.workers[step.w].job); }
  }

  lemma NothingMoves(jobs: multiset<Job>)
    ensures jobs + multiset{} == jobs
  {
  }

  lemma EndedAppend(finished: seq<Job>, panicked: seq<Job>, job: Job)
    ensures EndedJobs(finished + [job], panicked) == EndedJobs(finished, panicked) + multiset{job}
    ensures EndedJobs(finished, panicked + [job]) == EndedJobs(finished, panicked) + multiset{job}
  {
  }

  lemma LastTakenAppend(taken: seq<(nat, Job)>, x: (nat, Job), w: nat)
    ensures LastTaken(taken + [x], w) == if x.0 == w then Some(x.1) else LastTaken(taken, w)
  {
    assert (taken + [x])[..|taken|] == taken;
  }

  lemma OwnJobStep(s: State, step: Step)
    requires OwnJobOk(s) && Enabled(s, step)
    ensures OwnJobOk(Take(s, step))
  {
    hide LastTaken;
    var t := Take(s, step);
    if step.Recv? && s.queue != [] {
      forall v: nat | v < |t.workers| && t.workers[v].Running? ensures LastTaken(t.taken, v) == Some(t.workers[v].job) {
        LastTakenAppend(s.taken, (step.w, s.queue[0]), v);
      }
    }
  }

  lemma LockStep(s: State, step: Step)
    requires LockOk(s) && EndOk(s) && Enabled(s, step)
    ensures LockOk(Take(s, step)) && EndOk(Take(s, step))
  {
    hide Count, Jobs;
  }

  lemma OrderStep(s: State, step: Step)
    requires OrderOk(s) && Enabled(s, step)
    ensures OrderOk(Take(s, step))
  {
    hide Count;
    var t := Take(s, step);
    match step {
      case Send(job) =>
      case Recv(w) => assert t.taken != s.taken ==> Jobs(t.taken) == Jobs(s.taken) + [s.queue[0]];
      case _ =>
    }
  }

  lemma CountsStep(s: State, step: Step)
    requires CountsOk(s) && LockOk(s) && EndOk(s) && Enabled(s, step)
    ensures CountsOk(Take(s, step))
  {
    hide Count, Jobs;
    var t := Take(s, step);
    if !step.Send? && !step.DropSender? {
      var w := step.w;
      CountUpdate(HasPanicked, s.workers, w, t.workers[w]);
      CountUpdate(IsDisconnected, s.workers, w, t.workers[w]);
      assert t.workers == s.workers[w := t.workers[w]];
    }
  }

  lemma StepKeeps(s: State, step: Step)
    requires Inv(s) && Enabled(s, step)
    ensures Inv(Take(s, step)) && |Take(s, step).workers| == |s.workers|
  {
    hide LockOk, OrderOk, JobsOk, OwnJobOk, CountsOk, EndOk;
    LockStep(s, step);
    OrderStep(s, step);
    JobsStep(s, step);
    OwnJobStep(s, step);
    CountsStep(s, step);
  }

  /** In every interleaving, at every point, the invariant holds. */
  lemma {:induction false} RunsAreSafe(size: nat, trace: seq<State>, steps: seq<Step>, i: nat)
    requires IsRun(size, trace, steps) && i < |trace|
    ensures Inv(trace[i]) && |trace[i].workers| == size
  {
    if i == 0 {
      StartInv(size);
    } else {
      RunsAreSafe(size, trace, steps, i - 1);
      var s, step := trace[i - 1], steps[i - 1];
      assert IsStep(s, step, trace[i]);
      hide LockOk, OrderOk, JobsOk, OwnJobOk, CountsOk, EndOk, Enabled;
      StepKeeps(s, step);
    }
  }

  // ---------------------------------------------------------------- reachable states

  ghost predicate LeadsTo(size: nat, trace: seq<State>, steps: seq<Step>, s: State) {
    IsRun(size, trace, steps) && trace[|steps|] == s
  }

  /** Some interleaving of a pool with `size` workers ends in s. */
  ghost predicate Reachable(size: nat, s: State) {
    exists trace, steps :: LeadsTo(size, trace, steps, s)
  }

  lemma ReachableIsSafe(size: nat, s: State)
    requires Reachable(size, s)
    ensures Inv(s) && |s.workers| == size
  {
    hide Inv, IsStep;
    var trace, steps :| LeadsTo(size, trace, steps, s);
    RunsAreSafe(size, trace, steps, |steps|);
  }

  // ---------------------------------------------------------------- conservation, the lock, panics

  /** Jobs are conserved and taken in the order in which they were sent: those taken are, each as often as it was
      taken, the ones that run, have finished or have panicked, and at most `size` of them run. */
  lemma Conservation(size: nat, s: State)
    requires Reachable(size, s)
    ensures s.sent == Jobs(s.taken) + s.queue
    ensures multiset(Jobs(s.taken)) == RunningJobs(s.workers) + (multiset(s.finished) + multiset(s.panicked))
    ensures |RunningJobs(s.workers)| == Count(IsRunning, s.workers) <= size
  {
    hide Reachable;
    ReachableIsSafe(size, s);
    RunningSize(s.workers);
    CountBounds(IsRunning, s.workers);
  }

  /** A running worker runs the job that it took last. */
  lemma RunsWhatItTook(size: nat, s: State, w: nat)
    requires Reachable(size, s) && w < |s.workers| && s.workers[w].Running?
    ensures LastTaken(s.taken, w) == Some(s.workers[w].job)
    ensures exists k :: 0 <= k < |s.taken| && s.taken[k] == (w, s.workers[w].job)
                        && forall j | k < j < |s.taken| :: s.taken[j].0 != w
  {
    hide Reachable;
    ReachableIsSafe(size, s);
    LastTakenAt(s.taken, w);
  }

  lemma {:induction false} LastTakenAt(taken: seq<(nat, Job)>, w: nat)
    requires LastTaken(taken, w).Some?
    ensures exists k :: 0 <= k < |taken| && taken[k] == (w, LastTaken(taken, w).value)
                        && forall j | k < j < |taken| :: taken[j].0 != w
  {
    var n := |taken| - 1;
    if taken[n].0 == w {
      assert taken[n] == (w, LastTaken(taken, w).value);
    } else {
      LastTakenAt(taken[..n], w);
      var k :| 0 <= k < n && taken[..n][k] == (w, LastTaken(taken, w).value)
               && forall j | k < j < n :: taken[..n][j].0 != w;
      assert forall j | k < j < |taken| :: taken[j].0 == if j == n then taken[n].0 else taken[..n][j].0;
      assert taken[k] == (w, LastTaken(taken, w).value);
    }
  }

  /** At most one worker holds the receiver, and no worker holds it while it runs a job. */
  lemma OneHolder(size: nat, s: State, v: nat, w: nat)
    requires Reachable(size, s) && v < |s.workers| && w < |s.workers|
    ensures s.workers[v] == Holding && s.workers[w] == Holding ==> v == w
    ensures s.workers[w].Running? ==> s.holder != Some(w)
  {
    hide Reachable;
    ReachableIsSafe(size, s);
  }

  /** A job that panics takes down its own worker and nothing else: the lock is neither taken nor poisoned. */
  lemma PanicIsContained(size: nat, s: State, w: nat)
    requires Reachable(size, s) && Enabled(s, Panic(w))
    ensures var t := Take(s, Panic(w));
            && t.poisoned == s.poisoned && t.holder == s.holder && t.queue == s.queue
            && forall v | 0 <= v < |s.workers| && v != w :: t.workers[v] == s.workers[v]
  {
    hide Reachable;
    ReachableIsSafe(size, s);
  }

  /** While the pool's owner lives the mutex is never poisoned and only job panics have killed workers, so `execute`
      fails exactly when as many jobs have panicked as there were workers. */
  lemma ExecuteFailsWhenAllPanicked(size: nat, s: State, job: Job)
    requires Reachable(size, s) && s.senderAlive
    ensures !s.poisoned
    ensures !Enabled(s, Send(job)) <==> |s.panicked| == |s.workers|
  {
    hide Reachable;
    ReachableIsSafe(size, s);
    CountBounds(HasPanicked, s.workers);
    if |s.panicked| < |s.workers| {
      var w: nat :| w < |s.workers| && !HasPanicked(s.workers[w]);
      DeadOtherwise(s.workers[w]);
      assert Alive(s, w);
    }
  }

  // ---------------------------------------------------------------- progress

  /** 1 while somebody must first lock, 0 while somebody is inside recv. */
  function LocksToGo(s: State): nat {
    if s.holder == None then 1 else 0
  }

  /** With a job queued and a live worker that is not running one, some worker can lock or receive. */
  lemma SomebodyCanMove(size: nat, s: State, v: nat)
    requires Reachable(size, s) && s.queue != [] && Alive(s, v) && !s.workers[v].Running?
    ensures exists w :: Enabled(s, Lock(w)) || Enabled(s, Recv(w))
  {
    hide Reachable;
    ReachableIsSafe(size, s);
    if s.holder == None {
      assert Enabled(s, Lock(v));
    } else {
      assert Enabled(s, Recv(s.holder.value));
    }
  }

  /** While a job is queued every lock brings the next take one step closer and every recv takes the first job;
      nothing else sets this back. */
  lemma TakingGetsCloser(size: nat, s: State, step: Step)
    requires Reachable(size, s) && s.queue != [] && Enabled(s, step)
    ensures var t := Take(s, step);
            match step
            case Lock(_) => LocksToGo(t) < LocksToGo(s) && t.queue == s.queue
            case Recv(w) => t.taken == s.taken + [(w, s.queue[0])] && t.queue == s.queue[1..]
            case _ => LocksToGo(t) == LocksToGo(s) && t.taken == s.taken && s.queue <= t.queue
  {
    hide Reachable;
    ReachableIsSafe(size, s);
  }

  // ---------------------------------------------------------------- every job can run

  /** What each worker can do next: a job that runs may return and may panic, a worker between jobs can lock exactly
      when nobody holds the receiver, and whoever holds it can receive exactly when a job is queued or none can come.
      */
  lemma WhatWorkersCanDo(size: nat, s: State, w: nat)
    requires Reachable(size, s) && w < |s.workers|
    ensures s.workers[w].Running? ==> Enabled(s, Finish(w)) && Enabled(s, Panic(w))
    ensures s.workers[w] == Idle ==>
              (Enabled(s, Lock(w)) <==> forall v: nat | v < |s.workers| :: s.workers[v] != Holding)
    ensures s.workers[w] == Holding ==> (Enabled(s, Recv(w)) <==> s.queue != [] || !s.senderAlive)
  {
    hide Reachable;
    ReachableIsSafe(size, s);
    if s.holder.Some? { assert s.workers[s.holder.value] == Holding; }
  }

  /** What a step of worker w does: it touches no other worker, and what it changes is stated in full. */
  lemma WhatWorkersBecome(size: nat, s: State, step: Step)
    requires Reachable(size, s) && Enabled(s, step) && !step.Send? && !step.DropSender?
    ensures var t, w := Take(s, step), step.w;
            && |t.workers| == |s.workers| && (forall v | 0 <= v < |s.workers| && v != w :: t.workers[v] == s.workers[v])
            && t.sent == s.sent && t.senderAlive == s.senderAlive
            && match step
               case Lock(_) =>
                 && t == s.(workers := t.workers, holder := t.holder)
                 && (s.poisoned ==> t.workers[w] == Dead(Poisoned) && t.holder == None)
                 && (!s.poisoned ==> t.workers[w] == Holding && t.holder == Some(w))
                 && (s.queue != [] ==> !s.poisoned)
               case Recv(_) =>
                 && t.holder == None && t.finished == s.finished && t.panicked == s.panicked
                 && (s.queue != [] ==>
                       && t.workers[w] == Running(s.queue[0]) && t.queue == s.queue[1..]
                       && t.taken == s.taken + [(w, s.queue[0])] && t.poisoned == s.poisoned)
                 && (s.queue == [] ==>
                       t.workers[w] == Dead(Disconnected) && t.poisoned && t.queue == [] && t.taken == s.taken)
               case Finish(_) =>
                 && s.workers[w].Running? && t.workers[w] == Idle && t.finished == s.finished + [s.workers[w].job]
                 && t == s.(workers := t.workers, finished := t.finished)
               case Panic(_) =>
                 && s.workers[w].Running? && t.workers[w] == Dead(JobPanicked)
                 && t.panicked == s.panicked + [s.workers[w].job]
                 && t == s.(workers := t.workers, panicked := t.panicked)
  {
    hide Reachable;
    ReachableIsSafe(size, s);
  }

  /** What the pool's owner can do, while it lives: send, if a worker lives, which puts the job at the end of the queue;
      and go away, which changes nothing else. */
  lemma WhatTheOwnerCanDo(s: State, job: Job)
    ensures Enabled(s, Send(job)) <==> s.senderAlive && exists w :: 0 <= w < |s.workers| && !s.workers[w].Dead?
    ensures Enabled(s, Send(job)) ==> Take(s, Send(job)) == s.(queue := s.queue + [job], sent := s.sent + [job])
    ensures Enabled(s, DropSender) <==> s.senderAlive
    ensures s.senderAlive ==> Take(s, DropSender) == s.(senderAlive := false)
  {
    if w :| 0 <= w < |s.workers| && !s.workers[w].Dead? { assert Alive(s, w); }
  }

  ghost predicate IsTail(trace: seq<State>, steps: seq<Step>) {
    |trace| == |steps| + 1 && forall i | 0 <= i < |steps| :: IsStep(trace[i], steps[i], trace[i + 1])
  }

  /** A run from s to t in which no job panics and nothing is sent. */
  ghost predicate IsCalmPath(s: State, trace: seq<State>, steps: seq<Step>, t: State) {
    && IsTail(trace, steps) && trace[0] == s && trace[|steps|] == t
    && forall i | 0 <= i < |steps| :: steps[i].Lock? || steps[i].Recv? || steps[i].Finish?
  }

  ghost predicate LeadsCalmly(s: State, t: State) {
    exists trace, steps :: IsCalmPath(s, trace, steps, t)
  }

  lemma LeadsNowhere(s: State)
    ensures LeadsCalmly(s, s)
  {
    assert IsCalmPath(s, [s], [], s);
  }

  lemma LeadsOn(size: nat, s: State, t: State, step: Step)
    requires LeadsCalmly(s, t) && Reachable(size, t) && Enabled(t, step) && (step.Lock? || step.Recv? || step.Finish?)
    ensures LeadsCalmly(s, Take(t, step)) && Reachable(size, Take(t, step))
  {
    var u := Take(t, step);
    PathGoesOn(s, t, step, u);
    RunGoesOn(size, t, step, u);
  }

  lemma PathGoesOn(s: State, t: State, step: Step, u: State)
    requires LeadsCalmly(s, t) && IsStep(t, step, u) && (step.Lock? || step.Recv? || step.Finish?)
    ensures LeadsCalmly(s, u)
  {
    hide IsStep;
    var trace, steps :| IsCalmPath(s, trace, steps, t);
    var longer, more := trace + [u], steps + [step];
    forall i | 0 <= i < |more| ensures IsStep(longer[i], more[i], longer[i + 1]) {
      if i < |steps| { assert IsStep(trace[i], steps[i], trace[i + 1]); }
    }
    assert IsCalmPath(s, longer, more, u);
  }

  lemma RunGoesOn(size: nat, t: State, step: Step, u: State)
    requires Reachable(size, t) && IsStep(t, step, u)
    ensures Reachable(size, u)
  {
    hide IsStep;
    var trace, steps :| LeadsTo(size, trace, steps, t);
    var longer, more := trace + [u], steps + [step];
    forall i | 0 <= i < |more| ensures IsStep(longer[i], more[i], longer[i + 1]) {
      if i < |steps| { assert IsStep(trace[i], steps[i], trace[i + 1]); }
    }
    assert LeadsTo(size, longer, more, u);
  }

  /** A state in which some live worker runs no job. */
  lemma SomebodyReady(size: nat, s0: State, s: State, w: nat) returns (t: State, v: nat)
    requires LeadsCalmly(s0, s) && Reachable(size, s) && s.queue != [] && Alive(s, w)
    ensures LeadsCalmly(s0, t) && Reachable(size, t) && t.queue == s.queue && t.taken == s.taken
    ensures s.finished <= t.finished && t.panicked == s.panicked && t.sent == s.sent
    ensures v < |t.workers| && t.workers[v] == Holding
  {
    hide LeadsCalmly, Reachable, Take, Enabled, Inv;
    WhatWorkersCanDo(size, s, w);
    t, v := s, w;
    if s.workers[w].Running? {
      WhatWorkersBecome(size, s, Finish(w));
      LeadsOn(size, s0, s, Finish(w));
      t := Take(s, Finish(w));
    }
    WhatWorkersCanDo(size, t, w);
    if t.workers[w] == Idle {
      if h: nat :| h < |t.workers| && t.workers[h] == Holding {
        v := h;
      } else {
        WhatWorkersBecome(size, t, Lock(w));
        LeadsOn(size, s0, t, Lock(w));
        t := Take(t, Lock(w));
      }
    }
  }

  /** From every reachable state with a queued job and a live worker some run, without any panic, takes the job at the
      head of the queue and finishes it. */
  lemma HeadCanFinish(size: nat, s0: State, s: State, w: nat) returns (t: State, v: nat)
    requires LeadsCalmly(s0, s) && Reachable(size, s) && s.queue != [] && Alive(s, w)
    ensures LeadsCalmly(s0, t) && Reachable(size, t) && Alive(t, v) && t.sent == s.sent
    ensures t.queue == s.queue[1..] && t.taken == s.taken + [(v, s.queue[0])] && t.panicked == s.panicked
    ensures |t.finished| > |s.finished| && s.finished <= t.finished && t.finished[|t.finished| - 1] == s.queue[0]
  {
    hide LeadsCalmly, Reachable, Take, Enabled, Inv;
    var u;
    u, v := SomebodyReady(size, s0, s, w);
    WhatWorkersCanDo(size, u, v);
    WhatWorkersBecome(size, u, Recv(v));
    SentStays(u, Recv(v));
    LeadsOn(size, s0, u, Recv(v));
    var x := Take(u, Recv(v));
    WhatWorkersCanDo(size, x, v);
    WhatWorkersBecome(size, x, Finish(v));
    LeadsOn(size, s0, x, Finish(v));
    t := Take(x, Finish(v));
  }

  lemma SentStays(s: State, step: Step)
    requires Enabled(s, step) && !step.Send?
    ensures Take(s, step).sent == s.sent
  {
  }

  /** The pool can always finish all jobs that were sent, as long as one worker lives. */
  lemma {:induction false} QueueCanDrain(size: nat, s0: State, s: State, w: nat) returns (t: State)
    requires LeadsCalmly(s0, s) && Reachable(size, s) && Alive(s, w)
    ensures LeadsCalmly(s0, t) && Reachable(size, t) && t.queue == [] && t.sent == s.sent == Jobs(t.taken)
    ensures s.finished <= t.finished && t.panicked == s.panicked && |t.finished| >= |s.finished| + |s.queue|
    decreases |s.queue|
  {
    hide LeadsCalmly, Reachable, Alive, Inv;
    if s.queue == [] {
      t := s;
      Conservation(size, s);
      assert s.sent == Jobs(s.taken) + [] == Jobs(s.taken);
    } else {
      var u, v := HeadCanFinish(size, s0, s, w);
      t := QueueCanDrain(size, s0, u, v);
    }
  }

  /** In every reachable state of the pool with a live worker, whoever runs what: some run without a panic ends with
      every job that was sent taken, and with as many more jobs finished as were queued. */
  lemma EveryJobCanFinish(size: nat, s: State, w: nat)
    requires Reachable(size, s) && Alive(s, w)
    ensures exists t :: LeadsCalmly(s, t) && t.queue == [] && Jobs(t.taken) == t.sent == s.sent
                        && s.finished <= t.finished && t.panicked == s.panicked
                        && |t.finished| >= |s.finished| + |s.queue|
  {
    LeadsNowhere(s);
    hide LeadsCalmly, Reachable;
    var t := QueueCanDrain(size, s, s, w);
  }

  /** And the job at the head of the queue is then the last one to finish, and the next one to be taken. */
  lemma HeadOfQueueCanFinish(size: nat, s: State, w: nat)
    requires Reachable(size, s) && Alive(s, w) && s.queue != []
    ensures exists t, v :: LeadsCalmly(s, t) && t.taken == s.taken + [(v, s.queue[0])] && t.queue == s.queue[1..]
                           && |t.finished| > |s.finished| && s.finished <= t.finished && t.panicked == s.panicked
                           && t.finished[|t.finished| - 1] == s.queue[0]
  {
    LeadsNowhere(s);
    hide LeadsCalmly, Reachable, Alive;
    var t, v := HeadCanFinish(size, s, s, w);
  }

  // ---------------------------------------------------------------- shutdown

  function Rank(x: Worker): nat {
    match x case Idle => 2 case Holding => 1 case Running(_) => 3 case Dead(_) => 0
  }

  function Ranks(l: seq<Worker>): nat {
    if l == [] then 0 else Ranks(l[..|l| - 1]) + Rank(l[|l| - 1])
  }

  lemma {:induction false} RanksUpdate(l: seq<Worker>, w: nat, x: Worker)
    requires w < |l|
    ensures Ranks(l[w := x]) == Ranks(l) - Rank(l[w]) + Rank(x)
  {
    var n := |l| - 1;
    if w == n {
      assert l[w := x][..n] == l[..n];
    } else {
      assert l[w := x][..n] == l[..n][w := x];
      RanksUpdate(l[..n], w, x);
    }
  }

  /** How many more worker steps are possible if nothing more is sent. */
  function Remaining(s: State): nat {
    3 * |s.queue| + Ranks(s.workers)
  }

  lemma WorkerStepsDecrease(s: State, step: Step)
    requires Enabled(s, step) && !step.Send? && !step.DropSender?
    ensures Remaining(Take(s, step)) < Remaining(s)
  {
    hide Ranks;
    var t, w := Take(s, step), step.w;
    RanksUpdate(s.workers, w, t.workers[w]);
    assert t.workers == s.workers[w := t.workers[w]];
  }

  lemma LastStep(trace: seq<State>, steps: seq<Step>)
    requires IsTail(trace, steps) && steps != []
    ensures var n := |steps|;
            && IsTail(trace[..n], steps[..n - 1])
            && Enabled(trace[n - 1], steps[n - 1]) && trace[n] == Take(trace[n - 1], steps[n - 1])
            && (!trace[n - 1].senderAlive ==> !trace[n].senderAlive && !steps[n - 1].Send? && !steps[n - 1].DropSender?)
  {
    var n := |steps|;
    assert IsStep(trace[n - 1], steps[n - 1], trace[n]);
    forall i | 0 <= i < n - 1 ensures IsStep(trace[..n][i], steps[..n - 1][i], trace[..n][i + 1]) {
      assert IsStep(trace[i], steps[i], trace[i + 1]);
    }
  }

  /** After the sender is dropped a run is at most as long as the work that was left ... */
  lemma {:induction false} ShutdownIsBounded(size: nat, trace: seq<State>, steps: seq<Step>)
    requires IsTail(trace, steps) && Reachable(size, trace[0]) && !trace[0].senderAlive
    ensures var last := trace[|steps|];
            && Inv(last) && !last.senderAlive && |last.workers| == size
            && |steps| + Remaining(last) <= Remaining(trace[0])
    decreases |steps|
  {
    hide Reachable, Inv, IsStep, Remaining;
    ReachableIsSafe(size, trace[0]);
    var n := |steps|;
    if n > 0 {
      ShutdownIsBounded(size, trace[..n], steps[..n - 1]);
      var s, step := trace[n - 1], steps[n - 1];
      LastStep(trace, steps);
      StepKeeps(s, step);
      WorkerStepsDecrease(s, step);
    }
  }

  /** ... and it can stop only when every worker is dead. Unless all of them died of panicking jobs, no job is left
      behind, exactly one worker saw the disconnection and the others the poisoned lock. */
  lemma ShutdownIsComplete(size: nat, s: State)
    requires Reachable(size, s) && !s.senderAlive && forall step :: !Enabled(s, step)
    ensures forall w | 0 <= w < |s.workers| :: s.workers[w].Dead?
    ensures |s.panicked| < |s.workers| ==>
              s.queue == [] && Jobs(s.taken) == s.sent && Count(IsDisconnected, s.workers) == 1
  {
    hide Reachable;
    ReachableIsSafe(size, s);
    forall w: nat | w < |s.workers| ensures s.workers[w].Dead? {
      assert !Enabled(s, Finish(w)) && !Enabled(s, Lock(w)) && !Enabled(s, Recv(w));
      assert s.holder.Some? ==> Enabled(s, Recv(s.holder.value));
    }
    CountBounds(HasPanicked, s.workers);
    if |s.panicked| < |s.workers| {
      var w: nat :| w < |s.workers| && !HasPanicked(s.workers[w]);
      DeadOtherwise(s.workers[w]);
      assert HasLeft(s.workers[w]);
    }
  }

  /** No worker gives up on the channel while a job is queued or could still be sent. */
  lemma NobodyLeavesEarly(size: nat, s: State, w: nat)
    requires Reachable(size, s) && w < |s.workers| && HasLeft(s.workers[w])
    ensures s.queue == [] && !s.senderAlive && Jobs(s.taken) == s.sent
  {
    hide Reachable;
    ReachableIsSafe(size, s);
  }
}
