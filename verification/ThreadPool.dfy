/** The request pool as a step machine: submitters, workers, the condition
    variable and shutdown. Everything between two lock operations is one step;
    `notify_one` and `notify_all` come after the lock is released, so they are
    steps of their own that a submitter or a shutdown still owes. */
module ThreadPool {

  datatype Worker =
    | Ready                 // awake, about to take the lock and test the predicate
    | Asleep                // inside condition.wait
    | Running(task: nat)    // outside the lock, executing a task
    | Exited

  datatype Pool = Pool(
    capacity: nat,
    queue: seq<nat>,
    stopping: bool,
    workers: seq<Worker>,
    highWater: nat,
    owed: nat,              // pushes whose notify_one is still to come
    owedAll: nat,           // shutdowns whose notify_all is still to come
    submitted: seq<nat>,    // accepted tasks, in order
    started: seq<nat>,      // tasks taken by workers, in order
    finished: seq<nat>)     // tasks that returned, in order

  datatype Event =
    | Push(task: nat)
    | NotifyOne(wake: nat)  // an asleep worker, or anything if none is asleep
    | BeginShutdown
    | NotifyAll
    | Spurious(worker: nat)
    | Check(worker: nat)    // the locked section of worker_loop
    | Finish(worker: nat)

  function Start(workers: nat, capacity: nat): Pool {
    Pool(capacity, [], false, seq(workers, _ => Ready), 0, 0, 0, [], [], [])
  }

  predicate Enabled(s: Pool, e: Event) {
    match e
    case Push(t) => !s.stopping && |s.queue| < s.capacity
    case NotifyOne(w) => s.owed > 0 && ((w < |s.workers| && s.workers[w].Asleep?) || Count(s.workers, 1) == 0)
    case BeginShutdown => true
    case NotifyAll => s.owedAll > 0
    case Spurious(w) => w < |s.workers| && s.workers[w].Asleep?
    case Check(w) => w < |s.workers| && s.workers[w].Ready?
    case Finish(w) => w < |s.workers| && s.workers[w].Running?
  }

  function Max(a: nat, b: nat): nat { if a < b then b else a }

  function Apply(s: Pool, e: Event): Pool
    requires Enabled(s, e)
  {
    match e
    case Push(t) =>
      s.(queue := s.queue + [t], highWater := Max(s.highWater, |s.queue| + 1), owed := s.owed + 1,
         submitted := s.submitted + [t])
    case NotifyOne(w) =>
      if w < |s.workers| && s.workers[w].Asleep? then s.(owed := s.owed - 1, workers := s.workers[w := Ready])
      else s.(owed := s.owed - 1)
    case BeginShutdown => s.(stopping := true, owedAll := s.owedAll + 1)
    case NotifyAll => s.(owedAll := s.owedAll - 1, workers := WakeAll(s.workers))
    case Spurious(w) => s.(workers := s.workers[w := Ready])
    case Check(w) =>
      if s.queue != [] then
        s.(queue := s.queue[1..], workers := s.workers[w := Running(s.queue[0])], started := s.started + [s.queue[0]])
      else s.(workers := s.workers[w := if s.stopping then Exited else Asleep])
    case Finish(w) =>
      s.(workers := s.workers[w := Ready], finished := s.finished + [s.workers[w].task])
  }

  function WakeAll(ws: seq<Worker>): (r: seq<Worker>)
    ensures |r| == |ws|
  {
    if ws == [] then [] else [if ws[0].Asleep? then Ready else ws[0]] + WakeAll(ws[1..])
  }

  // ---- Counting workers ----------------------------------------------------------

  /** 0 ready, 1 asleep, 2 running, 3 exited. */
  function KindOf(w: Worker): nat {
    match w
    case Ready => 0
    case Asleep => 1
    case Running(_) => 2
    case Exited => 3
  }

  function Count(ws: seq<Worker>, kind: nat): nat {
    if ws == [] then 0 else (if KindOf(ws[0]) == kind then 1 else 0) + Count(ws[1..], kind)
  }

  function InProgress(ws: seq<Worker>): multiset<nat> {
    if ws == [] then multiset{} else (if ws[0].Running? then multiset{ws[0].task} else multiset{}) + InProgress(ws[1..])
  }

  lemma {:induction false} CountUpdate(ws: seq<Worker>, w: nat, x: Worker, kind: nat)
    requires w < |ws|
    ensures Count(ws[w := x], kind) + (if KindOf(ws[w]) == kind then 1 else 0)
            == Count(ws, kind) + (if KindOf(x) == kind then 1 else 0)
    decreases |ws|
  {
    if w > 0 {
      CountUpdate(ws[1..], w - 1, x, kind);
      assert ws[w := x][1..] == ws[1..][w - 1 := x];
    } else {
      assert ws[w := x][1..] == ws[1..];
    }
  }

  lemma {:induction false} InProgressUpdate(ws: seq<Worker>, w: nat, x: Worker)
    requires w < |ws|
    ensures !ws[w].Running? && !x.Running? ==> InProgress(ws[w := x]) == InProgress(ws)
    ensures !ws[w].Running? && x.Running? ==> InProgress(ws[w := x]) == InProgress(ws) + multiset{x.task}
    ensures ws[w].Running? && !x.Running? ==> InProgress(ws) == InProgress(ws[w := x]) + multiset{ws[w].task}
    decreases |ws|
  {
    var head := if ws[0].Running? then multiset{ws[0].task} else multiset{};
    var rest := InProgress(ws[1..]);
    if w > 0 {
      InProgressUpdate(ws[1..], w - 1, x);
      assert ws[w := x][1..] == ws[1..][w - 1 := x];
      var rest' := InProgress(ws[1..][w - 1 := x]);
      if x.Running? { AddAssoc(head, rest, multiset{x.task}); }
      if ws[w].Running? { AddAssoc(head, rest', multiset{ws[w].task}); }
    } else {
      assert ws[w := x][1..] == ws[1..];
      AddNothing(rest);
      if x.Running? { AddSwap(multiset{x.task}, rest); }
      if ws[w].Running? { AddSwap(multiset{ws[w].task}, rest); }
    }
  }

  lemma AddAssoc(a: multiset<nat>, b: multiset<nat>, c: multiset<nat>)
    ensures a + (b + c) == (a + b) + c
  {}

  lemma AddSwap(a: multiset<nat>, b: multiset<nat>)
    ensures a + b == b + a
  {}

  lemma AddNothing(a: multiset<nat>)
    ensures multiset{} + a == a
  {}

  lemma {:induction false} CountAll(ws: seq<Worker>)
    ensures Count(ws, 0) + Count(ws, 1) + Count(ws, 2) + Count(ws, 3) == |ws|
    ensures Count(WakeAll(ws), 0) == Count(ws, 0) + Count(ws, 1) && Count(WakeAll(ws), 1) == 0
    ensures Count(WakeAll(ws), 2) == Count(ws, 2) && Count(WakeAll(ws), 3) == Count(ws, 3)
    ensures InProgress(WakeAll(ws)) == InProgress(ws)
  {
    if ws != [] {
      CountAll(ws[1..]);
      assert WakeAll(ws)[1..] == WakeAll(ws[1..]);
    }
  }

  lemma {:induction false} CountedWorker(ws: seq<Worker>, kind: nat)
    ensures Count(ws, kind) > 0 <==> exists w :: 0 <= w < |ws| && KindOf(ws[w]) == kind
  {
    if ws != [] {
      CountedWorker(ws[1..], kind);
      if w :| 0 <= w < |ws| && KindOf(ws[w]) == kind {
        if w > 0 { assert ws[1..][w - 1] == ws[w]; }
      }
      if Count(ws[1..], kind) > 0 {
        var w :| 0 <= w < |ws| - 1 && KindOf(ws[1..][w]) == kind;
        assert KindOf(ws[w + 1]) == kind;
      }
    }
  }

  lemma {:induction false} NoneInProgress(ws: seq<Worker>)
    requires Count(ws, 2) == 0
    ensures InProgress(ws) == multiset{}
  {
    if ws != [] {
      NoneInProgress(ws[1..]);
    }
  }

  // ---- The invariant ---------------------------------------------------------------

  ghost predicate Inv(s: Pool) {
    // every accepted task is started once, in submission order, or still queued
    && s.submitted == s.started + s.queue
    // every started task is finished once or in progress
    && multiset(s.started) == multiset(s.finished) + InProgress(s.workers)
    && |s.queue| <= s.highWater <= s.capacity
    // no lost wakeup: while somebody sleeps, every queued task has a waker
    && (Count(s.workers, 1) > 0 ==> |s.queue| <= s.owed + Count(s.workers, 0))
    && (s.stopping && Count(s.workers, 1) > 0 ==> s.owedAll > 0)
    && (s.owedAll > 0 ==> s.stopping)
    && (Count(s.workers, 3) > 0 ==> s.stopping && s.queue == [])
  }

  lemma {:induction false} StartCounts(n: nat, ws: seq<Worker>)
    requires |ws| == n && forall i :: 0 <= i < n ==> ws[i] == Ready
    ensures Count(ws, 0) == n && Count(ws, 1) == 0 && Count(ws, 2) == 0 && Count(ws, 3) == 0
            && InProgress(ws) == multiset{}
  {
    if n > 0 { StartCounts(n - 1, ws[1..]); }
  }

  lemma StartInv(workers: nat, capacity: nat)
    ensures Inv(Start(workers, capacity))
  {
    StartCounts(workers, Start(workers, capacity).workers);
  }

  /** One worker changing from `ws[w]` to `x`: the effect on every counter. */
  lemma MoveWorker(ws: seq<Worker>, w: nat, x: Worker)
    requires w < |ws|
    ensures forall kind :: 0 <= kind < 4 ==>
              Count(ws[w := x], kind) + (if KindOf(ws[w]) == kind then 1 else 0)
              == Count(ws, kind) + (if KindOf(x) == kind then 1 else 0)
    ensures !ws[w].Running? && !x.Running? ==> InProgress(ws[w := x]) == InProgress(ws)
    ensures !ws[w].Running? && x.Running? ==> InProgress(ws[w := x]) == InProgress(ws) + multiset{x.task}
    ensures ws[w].Running? && !x.Running? ==> InProgress(ws) == InProgress(ws[w := x]) + multiset{ws[w].task}
  {
    forall kind | 0 <= kind < 4
      ensures Count(ws[w := x], kind) + (if KindOf(ws[w]) == kind then 1 else 0)
              == Count(ws, kind) + (if KindOf(x) == kind then 1 else 0)
    {
      CountUpdate(ws, w, x, kind);
    }
    InProgressUpdate(ws, w, x);
  }

  lemma StepInv(s: Pool, e: Event)
    requires Inv(s) && Enabled(s, e)
    ensures Inv(Apply(s, e))
  {
    hide Count, InProgress, WakeAll;
    match e
    case Push(t) =>
      assert (s.started + s.queue) + [t] == s.started + (s.queue + [t]);
    case NotifyOne(w) =>
      if w < |s.workers| && s.workers[w].Asleep? { MoveWorker(s.workers, w, Ready); }
    case BeginShutdown =>
    case NotifyAll => CountAll(s.workers);
    case Spurious(w) => MoveWorker(s.workers, w, Ready);
    case Check(w) => CheckInv(s, w);
    case Finish(w) =>
      MoveWorker(s.workers, w, Ready);
      assert multiset(s.finished + [s.workers[w].task]) == multiset(s.finished) + multiset{s.workers[w].task};
  }

  lemma CheckInv(s: Pool, w: nat)
    requires Inv(s) && Enabled(s, Check(w))
    ensures Inv(Apply(s, Check(w)))
  {
    hide Count, InProgress, WakeAll;
    MoveWorker(s.workers, w, Apply(s, Check(w)).workers[w]);
    if s.queue != [] {
      assert s.started + s.queue == (s.started + [s.queue[0]]) + s.queue[1..];
      assert multiset(s.started + [s.queue[0]]) == multiset(s.started) + multiset{s.queue[0]};
    }
  }

  // ---- Runs -----------------------------------------------------------------------

  ghost predicate Run(s: Pool, events: seq<Event>, r: Pool)
    decreases |events|
  {
    if events == [] then r == s
    else Enabled(s, events[0]) && Run(Apply(s, events[0]), events[1..], r)
  }

  ghost predicate Reachable(workers: nat, capacity: nat, r: Pool) {
    exists events :: Run(Start(workers, capacity), events, r)
  }

  lemma {:induction false} RunInv(s: Pool, events: seq<Event>, r: Pool)
    requires Inv(s) && Run(s, events, r)
    ensures Inv(r) && |r.workers| == |s.workers| && r.capacity == s.capacity
    decreases |events|
  {
    hide Inv, Enabled, Apply;
    if events != [] {
      StepInv(s, events[0]);
      StepShape(s, events[0]);
      RunInv(Apply(s, events[0]), events[1..], r);
    }
  }

  lemma StepShape(s: Pool, e: Event)
    requires Enabled(s, e)
    ensures |Apply(s, e).workers| == |s.workers| && Apply(s, e).capacity == s.capacity
  {}

  lemma ReachableInv(workers: nat, capacity: nat, s: Pool)
    requires Reachable(workers, capacity, s)
    ensures Inv(s) && |s.workers| == workers && s.capacity == capacity
  {
    hide Inv, Run;
    var events :| Run(Start(workers, capacity), events, s);
    StartInv(workers, capacity);
    RunInv(Start(workers, capacity), events, s);
  }

  /** In every reachable state: tasks start in submission order, the queue and its
      high-water mark respect the capacity, and a nonempty queue with every worker
      asleep has a notify still to come. */
  lemma PoolSafety(workers: nat, capacity: nat, s: Pool)
    requires Reachable(workers, capacity, s)
    ensures s.started <= s.submitted && |s.queue| <= s.highWater <= capacity
    ensures s.queue != [] && s.workers != [] && (forall w :: 0 <= w < |s.workers| ==> s.workers[w].Asleep?) ==>
              s.owed > 0
  {
    ReachableInv(workers, capacity, s);
    CountAll(s.workers);
    CountedWorker(s.workers, 0);
    CountedWorker(s.workers, 1);
    if s.workers != [] && (forall w :: 0 <= w < |s.workers| ==> s.workers[w].Asleep?) {
      assert KindOf(s.workers[0]) == 1;
    }
  }

  ghost predicate Joined(s: Pool) { forall w :: 0 <= w < |s.workers| ==> s.workers[w].Exited? }

  /** After shutdown and join every accepted task has run exactly once, in order,
      if and only if the pool has a worker or accepted nothing. */
  lemma JoinedMeansDone(workers: nat, capacity: nat, s: Pool)
    requires Reachable(workers, capacity, s) && Joined(s)
    ensures (s.started == s.submitted && multiset(s.finished) == multiset(s.submitted)) <==>
              (workers > 0 || s.submitted == [])
  {
    ReachableInv(workers, capacity, s);
    CountAll(s.workers);
    CountedWorker(s.workers, 2);
    CountedWorker(s.workers, 3);
    NoneInProgress(s.workers);
    if workers > 0 {
      assert KindOf(s.workers[0]) == 3;
      assert s.started + [] == s.started;
    } else {
      NothingStarts(workers, capacity, s);
    }
  }

  /** A pool without workers that accepted a task: joined, and the task never starts. */
  lemma JoinedWithoutWorkers() returns (s: Pool)
    ensures Reachable(0, 1, s) && Joined(s) && s.submitted == [7] && s.started == []
  {
    var start := Start(0, 1);
    s := Apply(start, Push(7));
    assert Run(s, [], s);
    assert [Push(7)][1..] == [];
    assert Run(start, [Push(7)], s);
  }

  lemma {:induction false} NothingStartsFrom(s: Pool, events: seq<Event>, r: Pool)
    requires s.workers == [] && s.started == [] && Run(s, events, r)
    ensures r.started == []
    decreases |events|
  {
    if events != [] { NothingStartsFrom(Apply(s, events[0]), events[1..], r); }
  }

  lemma NothingStarts(workers: nat, capacity: nat, s: Pool)
    requires workers == 0 && Reachable(workers, capacity, s)
    ensures s.started == []
  {
    var events :| Run(Start(workers, capacity), events, s);
    NothingStartsFrom(Start(workers, capacity), events, s);
  }

  // ---- Every accepted task starts ---------------------------------------------------

  /** Turns of the pool itself. */
  predicate Inner(e: Event) { e.NotifyOne? || e.Check? || e.Finish? || e.NotifyAll? }

  /** With a worker, a queued task never waits for a wakeup that is not coming: some turn of the pool
      uses up work, and the first task is taken or stays first. */
  lemma QueuedProgress(s: Pool) returns (e: Event)
    requires Inv(s) && s.queue != [] && s.workers != []
    ensures Enabled(s, e) && Inner(e) && Work(Apply(s, e)) < Work(s)
    ensures Apply(s, e).started == s.started + s.queue[..1]
              || (Apply(s, e).started == s.started && Apply(s, e).queue == s.queue)
  {
    hide Count, InProgress, WakeAll;
    CountAll(s.workers);
    CountedWorker(s.workers, 0);
    CountedWorker(s.workers, 1);
    CountedWorker(s.workers, 2);
    if Count(s.workers, 0) > 0 {
      var w :| 0 <= w < |s.workers| && KindOf(s.workers[w]) == 0;
      e := Check(w);
      MoveWorker(s.workers, w, Running(s.queue[0]));
      assert s.queue[..1] == [s.queue[0]];
    } else if Count(s.workers, 2) > 0 {
      var w :| 0 <= w < |s.workers| && KindOf(s.workers[w]) == 2;
      e := Finish(w);
      MoveWorker(s.workers, w, Ready);
    } else {
      var w :| 0 <= w < |s.workers| && KindOf(s.workers[w]) == 1;
      e := NotifyOne(w);
      MoveWorker(s.workers, w, Ready);
    }
  }

  /** So from every state with a worker the first queued task can be started by the pool's own turns,
      stopping or not. */
  lemma {:induction false} QueuedTaskStarts(s: Pool) returns (events: seq<Event>, r: Pool)
    requires Inv(s) && s.queue != [] && s.workers != []
    ensures Run(s, events, r) && (forall e :: e in events ==> Inner(e))
    ensures r.started == s.started + s.queue[..1]
    decreases Work(s)
  {
    hide Inv, Enabled, Apply, Work, Inner;
    var e := QueuedProgress(s);
    var next := Apply(s, e);
    StepInv(s, e);
    StepShape(s, e);
    if next.started == s.started + s.queue[..1] {
      events, r := [e], next;
      assert events[1..] == [] && Run(next, [], next);
    } else {
      var more;
      more, r := QueuedTaskStarts(next);
      events := [e] + more;
      assert events[1..] == more;
    }
  }

  // ---- The high-water mark -------------------------------------------------------------

  /** The longest the queue gets along a run. */
  ghost function Longest(s: Pool, events: seq<Event>): nat
    decreases |events|
  {
    if events == [] || !Enabled(s, events[0]) then |s.queue|
    else Max(|s.queue|, Longest(Apply(s, events[0]), events[1..]))
  }

  lemma HighWaterStep(s: Pool, e: Event)
    requires Enabled(s, e)
    ensures Apply(s, e).highWater == Max(s.highWater, |Apply(s, e).queue|) || |Apply(s, e).queue| <= |s.queue|
    ensures |Apply(s, e).queue| <= |s.queue| ==> Apply(s, e).highWater == s.highWater
  {
    hide Count, WakeAll;
  }

  lemma {:induction false} HighWaterRun(s: Pool, events: seq<Event>, r: Pool)
    requires |s.queue| <= s.highWater && Run(s, events, r)
    ensures r.highWater == Max(s.highWater, Longest(s, events))
    decreases |events|
  {
    hide Enabled, Apply;
    if events != [] {
      HighWaterStep(s, events[0]);
      HighWaterRun(Apply(s, events[0]), events[1..], r);
    }
  }

  /** The high-water mark is the longest the queue has been. */
  lemma HighWaterIsLongest(workers: nat, capacity: nat, events: seq<Event>, r: Pool)
    requires Run(Start(workers, capacity), events, r)
    ensures r.highWater == Longest(Start(workers, capacity), events)
  {
    HighWaterRun(Start(workers, capacity), events, r);
  }

  // ---- Shutdown always completes -------------------------------------------------

  /** What is left to do. */
  function Work(s: Pool): nat {
    2 * |s.queue| + Count(s.workers, 0) + 2 * Count(s.workers, 1) + 2 * Count(s.workers, 2) + s.owed + s.owedAll
  }

  /** Once stopping, every step but another shutdown call uses up work. */
  lemma StoppingStepDecreases(s: Pool, e: Event)
    requires Inv(s) && s.stopping && Enabled(s, e) && !e.BeginShutdown?
    ensures Apply(s, e).stopping && Work(Apply(s, e)) < Work(s)
  {
    hide Count, InProgress, WakeAll;
    match e
    case NotifyOne(w) =>
      if w < |s.workers| && s.workers[w].Asleep? { MoveWorker(s.workers, w, Ready); }
    case NotifyAll => CountAll(s.workers);
    case Spurious(w) => MoveWorker(s.workers, w, Ready);
    case Check(w) => MoveWorker(s.workers, w, Apply(s, e).workers[w]);
    case Finish(w) => MoveWorker(s.workers, w, Ready);
  }

  /** ... and as long as a worker has not exited, some such step is enabled. */
  lemma StoppingNeverStuck(s: Pool) returns (e: Event)
    requires Inv(s) && s.stopping && !Joined(s)
    ensures Enabled(s, e) && (e.Check? || e.Finish? || e.NotifyAll?)
  {
    CountedWorker(s.workers, 1);
    var w :| 0 <= w < |s.workers| && !s.workers[w].Exited?;
    e := match s.workers[w]
      case Ready => Check(w)
      case Running(_) => Finish(w)
      case Asleep => NotifyAll;
    if s.workers[w].Asleep? {
      assert KindOf(s.workers[w]) == 1;
    }
  }

  /** So from every reachable stopping state no run of pool steps is longer than
      the work left, and one that cannot be continued has joined every worker:
      `join` always returns. */
  lemma {:induction false} ShutdownTerminates(s: Pool, events: seq<Event>, r: Pool)
    requires Inv(s) && s.stopping && Run(s, events, r) && forall e :: e in events ==> !e.BeginShutdown?
    ensures |events| <= Work(s) - Work(r) && r.stopping && Inv(r)
    ensures Joined(r) || exists e :: Enabled(r, e) && !e.BeginShutdown?
    decreases |events|
  {
    hide Inv, Enabled, Apply, Work;
    if events == [] {
      if !Joined(r) {
        var e := StoppingNeverStuck(r);
      }
    } else {
      assert events[0] in events;
      StepInv(s, events[0]);
      StoppingStepDecreases(s, events[0]);
      assert forall e :: e in events[1..] ==> e in events;
      ShutdownTerminates(Apply(s, events[0]), events[1..], r);
    }
  }

  // ---- The locked sections of the source ------------------------------------------

  datatype Turn = Sleep | Exit | Take(task: nat)

  /** The fields under the pool's mutex. Each method is one locked section and is
      exactly the corresponding step of the machine. */
  class Monitor {
    const queueCapacity: nat
    var tasks: seq<nat>
    var stopping: bool
    var queueHighWater: nat
    ghost var pool: Pool

    ghost predicate Valid()
      reads this
    {
      Inv(pool) && pool.capacity == queueCapacity && pool.queue == tasks && pool.stopping == stopping
        && pool.highWater == queueHighWater
    }

    constructor (workers: nat, capacity: nat)
      ensures Valid() && pool == Start(workers, capacity)
    {
      queueCapacity, tasks, stopping, queueHighWater := capacity, [], false, 0;
      pool := Start(workers, capacity);
      StartInv(workers, capacity);
    }

    /** `submit`: refused when stopping or full, else pushed; the notify is owed. */
    method Submit(task: nat) returns (accepted: bool)
      requires Valid()
      modifies this
      ensures Valid() && accepted == Enabled(old(pool), Push(task))
      ensures pool == if accepted then Apply(old(pool), Push(task)) else old(pool)
      ensures accepted <==> !old(stopping) && |old(tasks)| < queueCapacity
      ensures tasks == (if accepted then old(tasks) + [task] else old(tasks)) && stopping == old(stopping)
    {
      hide Count, InProgress;
      if stopping || |tasks| >= queueCapacity {
        return false;
      }
      StepInv(pool, Push(task));
      tasks := tasks + [task];
      queueHighWater := if queueHighWater < |tasks| then |tasks| else queueHighWater;
      pool := Apply(pool, Push(task));
      return true;
    }

    method BeginShutdown()
      requires Valid()
      modifies this
      ensures Valid() && pool == Apply(old(pool), Event.BeginShutdown) && stopping && tasks == old(tasks)
    {
      hide Count, InProgress;
      StepInv(pool, Event.BeginShutdown);
      stopping := true;
      pool := Apply(pool, Event.BeginShutdown);
    }

    /** One pass through the locked section of `worker_loop`: sleep while there is
        nothing to do, exit when stopping and drained, else take the oldest task. */
    method WorkerTurn(w: nat) returns (turn: Turn)
      requires Valid() && Enabled(pool, Check(w))
      modifies this
      ensures Valid() && pool == Apply(old(pool), Check(w))
      ensures turn == match pool.workers[w] case Running(t) => Take(t) case Exited => Exit case _ => Sleep
      ensures turn == if old(tasks) != [] then Take(old(tasks)[0]) else if old(stopping) then Exit else Sleep
      ensures tasks == (if old(tasks) != [] then old(tasks)[1..] else []) && stopping == old(stopping)
    {
      hide Count, InProgress;
      CheckInv(pool, w);
      pool := Apply(pool, Check(w));
      if !(stopping || tasks != []) {
        return Sleep;
      }
      if stopping && tasks == [] {
        return Exit;
      }
      var task := tasks[0];
      tasks := tasks[1..];
      return Take(task);
    }
  }
}
