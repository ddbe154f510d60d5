/** The event loop and the request pool together. The pool's workers take what the loop
    submitted, a task ends when its completion is posted, and the two machines move in step:
    every joint move is a step of one of them or one step of each. */
module PooledLoop {
  import L = EventLoop
  import P = ThreadPool
  import D = LoopDrain

  /** `jobs` is history: what each task number of the pool stands for. */
  datatype System = System(loop: L.Loop, pool: P.Pool, jobs: seq<L.Job>)

  datatype Move =
    | LoopOnly(step: L.Event)
    | PoolOnly(turn: P.Event)
    | Submit                                        // the loop's submit is the pool's push
    | SubmitForeign                                 // another loop's
    | Take(worker: nat)                             // a worker takes the oldest task
    | Post(worker: nat, i: nat, response: string)   // a worker's task posts its completion and ends
    | Stop                                          // begin_drain begins the pool's shutdown
    | StopForeign

  function Start(workers: nat, capacity: nat): System {
    System(L.Start(capacity), P.Start(workers, capacity), [])
  }

  /** Loop events that do not touch the pool. */
  predicate Private(e: L.Event) {
    !e.SubmitAccepted? && !e.ForeignSubmit? && !e.StartTask? && !e.PostCompletion? && !e.BeginDrain?
      && !e.ForeignShutdown?
  }

  /** Pool events that do not touch the loop. */
  predicate Internal(s: System, e: P.Event) {
    || e.NotifyOne? || e.NotifyAll? || e.Spurious?
    || (e.Check? && s.pool.queue == [])
    || (e.Finish? && e.worker < |s.pool.workers| && Does(s.pool.workers[e.worker], s.jobs, L.Foreign))
  }

  /** The worker runs this job. */
  predicate Does(w: P.Worker, jobs: seq<L.Job>, job: L.Job) {
    w.Running? && w.task < |jobs| && jobs[w.task] == job
  }

  /** The loop's half of a move. */
  function LoopHalf(m: Move): L.Event
    requires !m.PoolOnly?
  {
    match m
    case LoopOnly(e) => e
    case Submit => L.SubmitAccepted
    case SubmitForeign => L.ForeignSubmit
    case Take(_) => L.StartTask
    case Post(_, i, response) => L.PostCompletion(i, response)
    case Stop => L.BeginDrain
    case StopForeign => L.ForeignShutdown
  }

  /** The pool's half. */
  function PoolHalf(s: System, m: Move): P.Event
    requires !m.LoopOnly?
  {
    match m
    case PoolOnly(e) => e
    case Submit => P.Push(|s.jobs|)
    case SubmitForeign => P.Push(|s.jobs|)
    case Take(w) => P.Check(w)
    case Post(w, _, _) => P.Finish(w)
    case Stop => P.BeginShutdown
    case StopForeign => P.BeginShutdown
  }

  predicate Enabled(s: System, m: Move) {
    && (!m.PoolOnly? ==> L.Enabled(s.loop, LoopHalf(m)))
    && (!m.LoopOnly? ==> P.Enabled(s.pool, PoolHalf(s, m)))
    && match m
       case LoopOnly(e) => Private(e)
       case PoolOnly(e) => Internal(s, e)
       case Post(w, i, _) => Does(s.pool.workers[w], s.jobs, L.Own(s.loop.running[i]))
       case _ => true
  }

  function Apply(s: System, m: Move): System
    requires Enabled(s, m)
  {
    var loop := if m.PoolOnly? then s.loop else L.Apply(s.loop, LoopHalf(m));
    var pool := if m.LoopOnly? then s.pool else P.Apply(s.pool, PoolHalf(s, m));
    var jobs := match m
      case Submit => s.jobs + [loop.queue[|s.loop.queue|]]
      case SubmitForeign => s.jobs + [L.Foreign]
      case _ => s.jobs;
    System(loop, pool, jobs)
  }

  // ---- What ties the two together -----------------------------------------------------

  /** How many workers run this job. */
  function Doing(ws: seq<P.Worker>, jobs: seq<L.Job>, job: L.Job): nat {
    if ws == [] then 0 else (if Does(ws[0], jobs, job) then 1 else 0) + Doing(ws[1..], jobs, job)
  }

  predicate Known(ws: seq<P.Worker>, n: nat) {
    forall w :: 0 <= w < |ws| && ws[w].Running? ==> ws[w].task < n
  }

  /** The loop's view of the queue is the pool's queue. */
  predicate SameQueue(queue: seq<L.Job>, ids: seq<nat>, jobs: seq<L.Job>) {
    |queue| == |ids| && forall i :: 0 <= i < |ids| ==> ids[i] < |jobs| && queue[i] == jobs[ids[i]]
  }

  /** The loop's running tasks are the workers'. */
  ghost predicate SameRunning(running: seq<L.Task>, ws: seq<P.Worker>, jobs: seq<L.Job>) {
    forall t: L.Task :: multiset(running)[t] == Doing(ws, jobs, L.Own(t))
  }

  ghost predicate Linked(s: System) {
    && s.pool.capacity == s.loop.capacity && s.pool.stopping == s.loop.stopping
    && SameQueue(s.loop.queue, s.pool.queue, s.jobs)
    && Known(s.pool.workers, |s.jobs|)
    && SameRunning(s.loop.running, s.pool.workers, s.jobs)
  }

  ghost predicate Inv(s: System) { L.Inv(s.loop) && P.Inv(s.pool) && Linked(s) }

  lemma {:induction false} DoingUpdate(ws: seq<P.Worker>, jobs: seq<L.Job>, w: nat, x: P.Worker, job: L.Job)
    requires w < |ws|
    ensures Doing(ws[w := x], jobs, job) + (if Does(ws[w], jobs, job) then 1 else 0)
            == Doing(ws, jobs, job) + (if Does(x, jobs, job) then 1 else 0)
    decreases |ws|
  {
    hide Does;
    if w > 0 {
      DoingUpdate(ws[1..], jobs, w - 1, x, job);
      assert ws[w := x][1..] == ws[1..][w - 1 := x];
    } else {
      assert ws[0 := x][1..] == ws[1..];
    }
  }

  /** Workers that change nothing about what runs. */
  lemma {:induction false} DoingSame(ws: seq<P.Worker>, vs: seq<P.Worker>, jobs: seq<L.Job>, more: seq<L.Job>,
                                     job: L.Job)
    requires |ws| == |vs| && jobs <= more && Known(ws, |jobs|)
    requires forall w :: 0 <= w < |ws| ==> ws[w] == vs[w] || (!ws[w].Running? && !vs[w].Running?)
    ensures Doing(vs, more, job) == Doing(ws, jobs, job)
    decreases |ws|
  {
    if ws != [] {
      assert forall w :: 0 <= w < |ws[1..]| ==> ws[1..][w] == ws[w + 1] && vs[1..][w] == vs[w + 1];
      DoingSame(ws[1..], vs[1..], jobs, more, job);
    }
  }

  lemma {:induction false} WokenSame(ws: seq<P.Worker>, w: nat)
    requires w < |ws|
    ensures P.WakeAll(ws)[w] == ws[w] || (!ws[w].Running? && !P.WakeAll(ws)[w].Running?)
    decreases |ws|
  {
    if w > 0 { WokenSame(ws[1..], w - 1); }
  }

  // ---- Every move keeps it ---------------------------------------------------------------

  /** A move that neither starts nor ends a task. */
  lemma QuietLinked(s: System, r: System)
    requires Linked(s) && r.pool.capacity == r.loop.capacity && r.pool.stopping == r.loop.stopping
    requires r.loop.running == s.loop.running && s.jobs <= r.jobs && |r.pool.workers| == |s.pool.workers|
    requires forall w :: 0 <= w < |s.pool.workers| ==>
               s.pool.workers[w] == r.pool.workers[w] || (!s.pool.workers[w].Running? && !r.pool.workers[w].Running?)
    requires SameQueue(r.loop.queue, r.pool.queue, r.jobs)
    ensures Linked(r)
  {
    hide Doing;
    forall t: L.Task ensures multiset(r.loop.running)[t] == Doing(r.pool.workers, r.jobs, L.Own(t)) {
      DoingSame(s.pool.workers, r.pool.workers, s.jobs, r.jobs, L.Own(t));
    }
  }

  lemma PrivateKeeps(s: L.Loop, e: L.Event)
    requires L.Enabled(s, e) && Private(e)
    ensures var r := L.Apply(s, e);
            r.capacity == s.capacity && r.stopping == s.stopping && r.queue == s.queue && r.running == s.running
  {
    hide L.Touch, L.Answer, L.Overloaded, L.Put;
    match e
    case Accept(x) => L.PutKeeps(s, x, L.Keep(L.NewConn(s)));
    case OnConn(x, what) => L.PutKeeps(s, x, L.Touch(s.conns[x], what));
    case Dispatch(x) => L.PutKeeps(s, x, L.Keep(L.Mark(s.conns[x])));
    case SubmitRefused(text) => L.PutKeeps(s, s.pc.fd, L.Keep(L.Overloaded(s.conns[s.pc.fd], text)));
    case ApplyCompletion =>
      var done := s.pc.rest[0];
      if L.Addressed(s, done) { L.PutKeeps(s, done.task.fd, L.Answer(s.conns[done.task.fd], done)); }
    case _ =>
  }

  lemma InternalKeeps(s: System, e: P.Event)
    requires P.Enabled(s.pool, e) && Internal(s, e) && !e.Finish?
    ensures var r := P.Apply(s.pool, e);
            && r.capacity == s.pool.capacity && r.stopping == s.pool.stopping && r.queue == s.pool.queue
            && |r.workers| == |s.pool.workers|
            && forall w :: 0 <= w < |r.workers| ==>
                 s.pool.workers[w] == r.workers[w] || (!s.pool.workers[w].Running? && !r.workers[w].Running?)
  {
    hide P.WakeAll, P.Count;
    if e.NotifyAll? {
      forall w | 0 <= w < |s.pool.workers|
        ensures P.WakeAll(s.pool.workers)[w] == s.pool.workers[w]
                || (!s.pool.workers[w].Running? && !P.WakeAll(s.pool.workers)[w].Running?)
      {
        WokenSame(s.pool.workers, w);
      }
    }
  }

  /** A foreign task ends: the loop's are as they were. */
  lemma ForeignEndLinked(s: System, w: nat)
    requires Linked(s) && Enabled(s, PoolOnly(P.Finish(w)))
    ensures Linked(Apply(s, PoolOnly(P.Finish(w))))
  {
    hide Doing;
    var r := Apply(s, PoolOnly(P.Finish(w)));
    forall t: L.Task ensures multiset(r.loop.running)[t] == Doing(r.pool.workers, r.jobs, L.Own(t)) {
      DoingUpdate(s.pool.workers, s.jobs, w, P.Ready, L.Own(t));
    }
  }

  lemma TakeLinked(s: System, w: nat)
    requires Linked(s) && Enabled(s, Take(w))
    ensures Linked(Apply(s, Take(w)))
  {
    hide Doing;
    var r := Apply(s, Take(w));
    var job := s.loop.queue[0];
    forall t: L.Task ensures multiset(r.loop.running)[t] == Doing(r.pool.workers, r.jobs, L.Own(t)) {
      DoingUpdate(s.pool.workers, s.jobs, w, P.Running(s.pool.queue[0]), L.Own(t));
      if job.Own? { L.Snoc(s.loop.running, job.task, t); }
    }
  }

  lemma PostLinked(s: System, w: nat, i: nat, response: string)
    requires Linked(s) && Enabled(s, Post(w, i, response))
    ensures Linked(Apply(s, Post(w, i, response)))
  {
    hide Doing;
    var r := Apply(s, Post(w, i, response));
    forall t: L.Task ensures multiset(r.loop.running)[t] == Doing(r.pool.workers, r.jobs, L.Own(t)) {
      DoingUpdate(s.pool.workers, s.jobs, w, P.Ready, L.Own(t));
      L.Remove(s.loop.running, i, t);
    }
  }

  lemma MoveLinked(s: System, m: Move)
    requires Linked(s) && Enabled(s, m)
    ensures Linked(Apply(s, m))
  {
    hide Linked, Doing, L.Touch, L.Answer, L.Overloaded, P.WakeAll, P.Count;
    var r := Apply(s, m);
    match m
    case LoopOnly(e) =>
      PrivateKeeps(s.loop, e);
      LinkedParts(s);
      QuietLinked(s, r);
    case PoolOnly(e) =>
      if e.Finish? {
        ForeignEndLinked(s, e.worker);
      } else {
        InternalKeeps(s, e);
        LinkedParts(s);
        QuietLinked(s, r);
      }
    case Take(w) => TakeLinked(s, w);
    case Post(w, i, response) => PostLinked(s, w, i, response);
    case _ =>
      LinkedParts(s);
      QuietLinked(s, r);
  }

  lemma LinkedParts(s: System)
    requires Linked(s)
    ensures s.pool.capacity == s.loop.capacity && s.pool.stopping == s.loop.stopping
    ensures SameQueue(s.loop.queue, s.pool.queue, s.jobs)
  {}

  lemma MoveInv(s: System, m: Move)
    requires Inv(s) && Enabled(s, m)
    ensures Inv(Apply(s, m)) && |Apply(s, m).pool.workers| == |s.pool.workers|
  {
    hide L.Inv, P.Inv, Linked, L.Apply, P.Apply, L.Enabled, P.Enabled;
    MoveLinked(s, m);
    if !m.PoolOnly? { L.StepInv(s.loop, LoopHalf(m)); }
    if !m.LoopOnly? {
      P.StepInv(s.pool, PoolHalf(s, m));
      P.StepShape(s.pool, PoolHalf(s, m));
    }
  }

  lemma StartInv(workers: nat, capacity: nat)
    ensures Inv(Start(workers, capacity))
  {
    hide L.Inv, P.Inv;
    var s := Start(workers, capacity);
    L.StartInv(capacity);
    P.StartInv(workers, capacity);
    forall t: L.Task ensures multiset(s.loop.running)[t] == Doing(s.pool.workers, s.jobs, L.Own(t)) {
      NobodyDoes(s.pool.workers, L.Own(t));
    }
  }

  lemma {:induction false} NobodyDoes(ws: seq<P.Worker>, job: L.Job)
    ensures Doing(ws, [], job) == 0
    decreases |ws|
  {
    if ws != [] { NobodyDoes(ws[1..], job); }
  }

  // ---- Runs ----------------------------------------------------------------------------------

  ghost predicate Run(s: System, moves: seq<Move>, r: System)
    decreases |moves|
  {
    if moves == [] then r == s
    else Enabled(s, moves[0]) && Run(Apply(s, moves[0]), moves[1..], r)
  }

  /** A joint run is a run of each machine, so every theorem about either holds of the whole. */
  lemma {:induction false} RunProjects(s: System, moves: seq<Move>, r: System)
    returns (steps: seq<L.Event>, turns: seq<P.Event>)
    requires Inv(s) && Run(s, moves, r)
    ensures L.Run(s.loop, steps, r.loop) && P.Run(s.pool, turns, r.pool)
    ensures Inv(r) && |r.pool.workers| == |s.pool.workers|
    decreases |moves|
  {
    hide Inv, L.Apply, P.Apply, L.Enabled, P.Enabled;
    steps, turns := [], [];
    if moves != [] {
      var m := moves[0];
      MoveInv(s, m);
      steps, turns := RunProjects(Apply(s, m), moves[1..], r);
      if !m.PoolOnly? {
        assert ([LoopHalf(m)] + steps)[1..] == steps;
        steps := [LoopHalf(m)] + steps;
      }
      if !m.LoopOnly? {
        assert ([PoolHalf(s, m)] + turns)[1..] == turns;
        turns := [PoolHalf(s, m)] + turns;
      }
    }
  }

  /** A dispatch is never stuck between loop and pool: once counted, its task is either submitted, if
      and only if the pool has room and is not stopping, or refused. */
  lemma DispatchNeverStuck(s: System, text: string)
    requires Inv(s) && s.loop.pc.Counted?
    ensures Enabled(s, Submit) <==> !s.pool.stopping && |s.pool.queue| < s.pool.capacity
    ensures Enabled(s, LoopOnly(L.SubmitRefused(text))) <==> !Enabled(s, Submit)
  {
    hide L.Conserved, L.Streams, P.Inv, Doing;
  }

  // ---- Shutdown of the whole -------------------------------------------------------------------

  /** The loop may exit and every worker has returned. */
  ghost predicate Finished(s: System) { L.CanExit(s.loop) && P.Joined(s.pool) }

  ghost function Load(s: System, overloaded: string): nat { D.Weight(s.loop, overloaded) + P.Work(s.pool) }

  lemma {:induction false} DoingPositive(ws: seq<P.Worker>, jobs: seq<L.Job>, w: nat, job: L.Job)
    requires w < |ws| && Does(ws[w], jobs, job)
    ensures Doing(ws, jobs, job) > 0
    decreases |ws|
  {
    if w > 0 { DoingPositive(ws[1..], jobs, w - 1, job); }
  }

  lemma {:induction false} DoingNothing(ws: seq<P.Worker>, jobs: seq<L.Job>, job: L.Job)
    requires forall w :: 0 <= w < |ws| ==> !ws[w].Running?
    ensures Doing(ws, jobs, job) == 0
    decreases |ws|
  {
    if ws != [] { DoingNothing(ws[1..], jobs, job); }
  }

  /** The move does something and is neither new input nor another call for shutdown. */
  predicate Works(s: System, m: Move, overloaded: string)
    requires Enabled(s, m)
  {
    (m.LoopOnly? && D.Works(s.loop, m.step, overloaded)) || m.PoolOnly? || m.Take? || m.Post?
  }

  /** The move is a pool step or a drain step of the loop thread, with the environment's answers. */
  predicate Says(s: System, m: Move, respond: L.Task -> string, overloaded: string)
    requires Enabled(s, m)
  {
    && Works(s, m, overloaded) && (m.LoopOnly? ==> D.LoopStep(m.step))
    && (m.Post? ==> m.i < |s.loop.running| && m.response == respond(s.loop.running[m.i]))
  }

  /** A turn of the pool as a move of the whole. */
  lemma PoolMove(s: System, e: P.Event, respond: L.Task -> string) returns (m: Move)
    requires Linked(s) && P.Enabled(s.pool, e) && (e.Check? || e.Finish? || e.NotifyAll?)
    ensures Enabled(s, m) && !m.LoopOnly? && PoolHalf(s, m) == e
    ensures m.Take? || m.Post? || m.PoolOnly?
    ensures m.Post? ==> m.i < |s.loop.running| && m.response == respond(s.loop.running[m.i])
  {
    hide Doing;
    if e.Check? && s.pool.queue != [] {
      m := Take(e.worker);
    } else if e.Finish? && s.jobs[s.pool.workers[e.worker].task].Own? {
      var t := s.jobs[s.pool.workers[e.worker].task].task;
      DoingPositive(s.pool.workers, s.jobs, e.worker, L.Own(t));
      assert t in multiset(s.loop.running);
      var i: nat :| i < |s.loop.running| && s.loop.running[i] == t;
      m := Post(e.worker, i, respond(t));
    } else {
      m := PoolOnly(e);
    }
  }

  /** Every such move uses up what is left to do. */
  lemma EveryMoveWorks(s: System, m: Move, overloaded: string)
    requires Inv(s) && Enabled(s, m) && s.loop.draining && Works(s, m, overloaded)
    ensures Load(Apply(s, m), overloaded) < Load(s, overloaded)
  {
    hide L.Inv, P.Inv, P.Work, D.Weight, Linked, P.Apply, P.Enabled, L.Apply, L.Enabled, D.Works;
    DrainFlags(s);
    if !m.LoopOnly? { P.StoppingStepDecreases(s.pool, PoolHalf(s, m)); }
    if m.LoopOnly? {
      D.EveryStepWorks(s.loop, m.step, overloaded);
    } else if m.Take? {
      TakeWorks(s.loop, overloaded);
    } else if m.Post? {
      PostWorks(s.loop, m.i, m.response, overloaded);
    }
  }

  lemma TakeWorks(s: L.Loop, overloaded: string)
    requires L.Inv(s) && s.draining && L.Enabled(s, L.StartTask)
    ensures D.Weight(L.Apply(s, L.StartTask), overloaded) < D.Weight(s, overloaded)
  {
    hide L.Inv, D.Weight;
    assert |L.Apply(s, L.StartTask).queue| < |s.queue|;
    D.EveryStepWorks(s, L.StartTask, overloaded);
  }

  lemma PostWorks(s: L.Loop, i: nat, response: string, overloaded: string)
    requires L.Inv(s) && s.draining && L.Enabled(s, L.PostCompletion(i, response))
    ensures D.Weight(L.Apply(s, L.PostCompletion(i, response)), overloaded) < D.Weight(s, overloaded)
  {
    hide L.Inv, D.Weight;
    assert |L.Apply(s, L.PostCompletion(i, response)).running| < |s.running|;
    D.EveryStepWorks(s, L.PostCompletion(i, response), overloaded);
  }

  lemma MoveCloses(s: System, m: Move)
    requires Enabled(s, m) && (m.PoolOnly? || m.Take? || m.Post? || (m.LoopOnly? && D.LoopStep(m.step)))
    ensures D.DrainCloses(s.loop, Apply(s, m).loop)
  {
    hide L.Apply, L.Enabled, P.Apply, P.Enabled;
    if !m.PoolOnly? { D.LoopStepCloses(s.loop, LoopHalf(m)); }
  }

  /** When every worker has returned, and there was one, nothing of the loop is left in the pool. */
  lemma JoinedIsDone(s: System)
    requires Inv(s) && P.Joined(s.pool) && (s.pool.workers != [] || L.Owned(s.loop.queue) == [])
    ensures D.PoolIsDone(s.loop)
  {
    hide L.Inv, Doing, L.Owned;
    P.CountedWorker(s.pool.workers, 3);
    if s.pool.workers != [] {
      assert P.KindOf(s.pool.workers[0]) == 3;
      EmptyQueue(s.loop.queue);
    }
    if s.loop.running != [] {
      var t := s.loop.running[0];
      assert t in multiset(s.loop.running);
      DoingNothing(s.pool.workers, s.jobs, L.Own(t));
    }
  }

  lemma EmptyQueue(queue: seq<L.Job>)
    ensures queue == [] ==> L.Owned(queue) == []
  {}

  /** The pool can be brought to work this loop's tasks off. */
  predicate Served(s: System) { s.pool.workers != [] || L.Owned(s.loop.queue) == [] }

  lemma DrainFlags(s: System)
    requires Inv(s) && s.loop.draining
    ensures s.pool.stopping
  {
    hide L.Conserved, L.Streams, P.Inv, Doing;
  }

  /** Moves that do not submit leave the queue alone when nobody takes. */
  lemma MoveDrains(s: System, m: Move, overloaded: string)
    requires Enabled(s, m) && Works(s, m, overloaded) && s.loop.draining && Served(s)
    ensures Apply(s, m).loop.draining && Served(Apply(s, m))
  {
    hide L.Touch, L.Answer, L.Overloaded, P.WakeAll, L.Owned, P.Count, Doing, Does, D.Works;
    if !m.PoolOnly? { L.StaysDraining(s.loop, LoopHalf(m)); }
    if m.LoopOnly? { PrivateKeeps(s.loop, m.step); }
    if !m.LoopOnly? { P.StepShape(s.pool, PoolHalf(s, m)); }
  }

  /** While draining, some move does something: a pool step until every worker has returned, then
      a step of the loop thread. */
  lemma DrainMove(s: System, respond: L.Task -> string, overloaded: string) returns (m: Move)
    requires Inv(s) && s.loop.draining && Served(s) && !Finished(s)
    ensures Enabled(s, m) && Says(s, m, respond, overloaded)
  {
    hide L.Inv, P.Inv, Linked, L.Enabled, P.Enabled, L.Apply, P.Apply, L.Owned, L.CanExit, D.Works, D.LoopStep;
    DrainFlags(s);
    if !P.Joined(s.pool) {
      var e := P.StoppingNeverStuck(s.pool);
      m := PoolMove(s, e, respond);
    } else {
      JoinedIsDone(s);
      var e := D.LoopProgress(s.loop, overloaded);
      LoopStepsArePrivate(e);
      m := LoopOnly(e);
    }
  }

  lemma LoopStepsArePrivate(e: L.Event)
    requires D.LoopStep(e)
    ensures Private(e)
  {}

  /** Every move of the run does something and is neither new input nor another shutdown. */
  ghost predicate AllWork(s: System, moves: seq<Move>, overloaded: string)
    decreases |moves|
  {
    moves == [] ||
    (&& Enabled(s, moves[0]) && Works(s, moves[0], overloaded)
     && AllWork(Apply(s, moves[0]), moves[1..], overloaded))
  }

  /** Every schedule shuts down: with a worker, or with nothing of the loop in the queue, however
      worker turns, notifications, spurious wakeups, completions, sends and closes are interleaved,
      without new input such a run is bounded, and where it cannot be continued the loop may exit
      and every worker has returned. */
  lemma {:induction false} EveryShutdownEnds(s: System, moves: seq<Move>, r: System, overloaded: string)
    requires Inv(s) && s.loop.draining && Served(s) && Run(s, moves, r) && AllWork(s, moves, overloaded)
    ensures |moves| <= Load(s, overloaded) - Load(r, overloaded)
    ensures Finished(r) || exists m :: Enabled(r, m) && Works(r, m, overloaded)
    decreases |moves|
  {
    hide Inv, Enabled, Apply, Load, Works, Finished, Served;
    if moves == [] {
      if !Finished(r) { var m := SomeWork(r, overloaded); }
    } else {
      MoveInv(s, moves[0]);
      MoveDrains(s, moves[0], overloaded);
      EveryMoveWorks(s, moves[0], overloaded);
      EveryShutdownEnds(Apply(s, moves[0]), moves[1..], r, overloaded);
    }
  }

  lemma SomeWork(s: System, overloaded: string) returns (m: Move)
    requires Inv(s) && s.loop.draining && Served(s) && !Finished(s)
    ensures Enabled(s, m) && Works(s, m, overloaded)
  {
    hide Inv, Enabled, Works, Finished, Served;
    m := DrainMove(s, _ => "", overloaded);
  }

  /** Every move of the run has the environment's answers. */
  ghost predicate AllSay(s: System, moves: seq<Move>, respond: L.Task -> string, overloaded: string)
    decreases |moves|
  {
    moves == [] ||
    (&& Enabled(s, moves[0]) && Says(s, moves[0], respond, overloaded)
     && AllSay(Apply(s, moves[0]), moves[1..], respond, overloaded))
  }

  /** And from every draining state with a worker, or with nothing of the loop in the queue, whatever
      the tasks answer, the loop can be brought to its exit and every worker to its return. */
  lemma {:induction false} DrainCompletes(s: System, respond: L.Task -> string, overloaded: string)
    returns (moves: seq<Move>, r: System)
    requires Inv(s) && s.loop.draining && Served(s)
    ensures Run(s, moves, r) && Finished(r)
    ensures AllSay(s, moves, respond, overloaded) && D.DrainCloses(s.loop, r.loop)
    decreases Load(s, overloaded)
  {
    hide Inv, Enabled, Apply, Load, Finished, Served, Works;
    if Finished(s) {
      moves, r := [], s;
    } else {
      var m := DrainMove(s, respond, overloaded);
      SaysSteps(s, m, respond, overloaded);
      MoveInv(s, m);
      MoveDrains(s, m, overloaded);
      EveryMoveWorks(s, m, overloaded);
      MoveCloses(s, m);
      var more;
      more, r := DrainCompletes(Apply(s, m), respond, overloaded);
      moves := [m] + more;
      assert moves[1..] == more;
    }
  }

  lemma SaysSteps(s: System, m: Move, respond: L.Task -> string, overloaded: string)
    requires Enabled(s, m) && Says(s, m, respond, overloaded)
    ensures m.PoolOnly? || m.Take? || m.Post? || (m.LoopOnly? && D.LoopStep(m.step))
  {
    hide Enabled, D.LoopStep, D.Works;
  }

  /** Without a worker a queued task of the loop stays queued. */
  lemma StuckMove(s: System, m: Move)
    requires Enabled(s, m) && s.pool.workers == [] && L.Owned(s.loop.queue) != []
    ensures Apply(s, m).pool.workers == [] && L.Owned(Apply(s, m).loop.queue) != []
  {
    hide L.Touch, L.Answer, L.Overloaded, P.WakeAll, L.Owned, P.Count, Doing, Does;
    if !m.LoopOnly? { P.StepShape(s.pool, PoolHalf(s, m)); }
    match m
    case LoopOnly(e) => PrivateKeeps(s.loop, e);
    case Submit => L.OwnedConcat(s.loop.queue, [L.Own(L.NewTask(s.loop, s.loop.pc.fd))]);
    case SubmitForeign => L.OwnedConcat(s.loop.queue, [L.Foreign]);
    case _ =>
  }

  lemma {:induction false} StuckForever(s: System, moves: seq<Move>, r: System)
    requires Inv(s) && Run(s, moves, r) && s.pool.workers == [] && L.Owned(s.loop.queue) != []
    ensures !L.CanExit(r.loop)
    decreases |moves|
  {
    hide L.Inv, P.Inv, Linked, Enabled, Apply, L.Owned;
    if moves == [] {
      QueuedIsOutstanding(s.loop);
    } else {
      MoveInv(s, moves[0]);
      StuckMove(s, moves[0]);
      StuckForever(Apply(s, moves[0]), moves[1..], r);
    }
  }

  lemma QueuedIsOutstanding(s: L.Loop)
    requires L.Inv(s) && L.Owned(s.queue) != []
    ensures s.outstanding > 0
  {
    hide L.Streams, L.NoneStranded, L.OpenCopies;
  }

  lemma Submits(s: L.Loop, fd: int)
    requires s.pc == L.Marked(fd) && fd in s.conns && s.queue == [] && !s.stopping && s.capacity > 0
    ensures L.Enabled(s, L.CountTask) && L.Enabled(L.Apply(s, L.CountTask), L.SubmitAccepted)
    ensures L.Apply(s, L.CountTask).queue == []
    ensures var r := L.Apply(L.Apply(s, L.CountTask), L.SubmitAccepted);
            r.pc.Idle? && |r.queue| == 1 && r.queue[0].Own?
  {}

  lemma OwnQueued(queue: seq<L.Job>)
    requires |queue| == 1 && queue[0].Own?
    ensures L.Owned(queue) != []
  {
    assert queue == [queue[0]];
    L.OwnedOne(queue[0]);
  }

  lemma PoolAccepts(s: P.Pool, task: nat)
    requires !s.stopping && s.queue == [] && s.capacity > 0
    ensures P.Enabled(s, P.Push(task))
    ensures P.Apply(s, P.Push(task)).workers == s.workers && P.Enabled(P.Apply(s, P.Push(task)), P.BeginShutdown)
    ensures P.Apply(P.Apply(s, P.Push(task)), P.BeginShutdown).workers == s.workers
  {}

  /** Such a state is reached: a request accepted and queued before the drain begins. */
  lemma StuckReachably() returns (s: System)
    ensures Reachable(0, 1, s) && s.loop.draining && !Served(s)
  {
    hide Reachable, Run, L.Apply, L.Enabled, P.Apply, P.Enabled, L.Owned, Apply, Enabled;
    var start := Start(0, 1);
    var b := RequestMarked(start);
    PoolAccepts(start.pool, 0);
    var d := RequestQueued(b);
    s := DrainBegun(d);
    OwnQueued(s.loop.queue);
    RunNothing(s);
    RunTwo(d, LoopOnly(L.RequestShutdown), Stop, [], s);
    var moves := [LoopOnly(L.RequestShutdown)] + ([Stop] + []);
    RunTwo(b, LoopOnly(L.CountTask), Submit, moves, s);
    moves := [LoopOnly(L.CountTask)] + ([Submit] + moves);
    RunTwo(start, LoopOnly(L.Accept(3)), LoopOnly(L.Dispatch(3)), moves, s);
    FromStart(0, 1, [LoopOnly(L.Accept(3))] + ([LoopOnly(L.Dispatch(3))] + moves), s);
  }

  /** Two moves, one after the other. */
  ghost predicate Two(s: System, m: Move, n: Move, r: System) {
    Enabled(s, m) && Enabled(Apply(s, m), n) && r == Apply(Apply(s, m), n)
  }

  lemma RunTwo(s: System, m: Move, n: Move, rest: seq<Move>, r: System)
    requires Enabled(s, m) && Enabled(Apply(s, m), n) && Run(Apply(Apply(s, m), n), rest, r)
    ensures Run(s, [m] + ([n] + rest), r)
  {
    hide Enabled, Apply, Run;
    RunFirst(Apply(s, m), n, rest, r);
    RunFirst(s, m, [n] + rest, r);
  }

  lemma RequestMarked(s: System) returns (r: System)
    requires s.loop.pc.Idle? && !s.loop.draining && 3 !in s.loop.conns
    ensures Two(s, LoopOnly(L.Accept(3)), LoopOnly(L.Dispatch(3)), r)
    ensures r.pool == s.pool && r.jobs == s.jobs && r.loop.pc == L.Marked(3) && 3 in r.loop.conns
    ensures r.loop.queue == s.loop.queue && r.loop.stopping == s.loop.stopping && r.loop.capacity == s.loop.capacity
  {
    hide L.Apply, L.Enabled, P.Apply, P.Enabled;
    L.Accepts(s.loop, 3);
    var a := Apply(s, LoopOnly(L.Accept(3)));
    L.Dispatches(a.loop, 3);
    r := Apply(a, LoopOnly(L.Dispatch(3)));
  }

  lemma RequestQueued(s: System) returns (r: System)
    requires s.loop.pc == L.Marked(3) && 3 in s.loop.conns && s.loop.queue == [] && !s.loop.stopping
    requires s.loop.capacity > 0 && P.Enabled(s.pool, P.Push(|s.jobs|))
    ensures Two(s, LoopOnly(L.CountTask), Submit, r)
    ensures r.pool == P.Apply(s.pool, P.Push(|s.jobs|))
    ensures r.loop.pc.Idle? && |r.loop.queue| == 1 && r.loop.queue[0].Own?
  {
    hide L.Apply, L.Enabled, P.Apply, P.Enabled;
    Submits(s.loop, 3);
    var a := Apply(s, LoopOnly(L.CountTask));
    r := SubmitNow(a);
  }

  lemma DrainBegun(s: System) returns (r: System)
    requires s.loop.pc.Idle? && P.Enabled(s.pool, P.BeginShutdown)
    ensures Two(s, LoopOnly(L.RequestShutdown), Stop, r)
    ensures r.pool == P.Apply(s.pool, P.BeginShutdown) && r.loop.queue == s.loop.queue && r.loop.draining
  {
    hide L.Apply, L.Enabled, P.Apply, P.Enabled;
    L.Requests(s.loop);
    var a := Apply(s, LoopOnly(L.RequestShutdown));
    L.Drains(a.loop);
    r := Apply(a, Stop);
  }

  lemma SubmitNow(s: System) returns (r: System)
    requires L.Enabled(s.loop, L.SubmitAccepted) && P.Enabled(s.pool, P.Push(|s.jobs|))
    requires s.loop.queue == []
    ensures Enabled(s, Submit) && r == Apply(s, Submit)
    ensures r.loop == L.Apply(s.loop, L.SubmitAccepted) && r.pool == P.Apply(s.pool, P.Push(|s.jobs|))
  {
    hide P.Apply, P.Enabled;
    r := Apply(s, Submit);
  }

  /** Once draining, the loop can exit and the pool be joined if and only if the pool has a
      worker or none of the loop's tasks is queued. */
  lemma DrainNeedsWorker(s: System)
    requires Inv(s) && s.loop.draining
    ensures (exists moves, r :: Run(s, moves, r) && Finished(r)) <==> Served(s)
  {
    hide Inv, Run, L.Owned, L.CanExit, P.Joined;
    if Served(s) {
      var moves, r := DrainCompletes(s, _ => "", "");
    } else {
      forall moves, r | Run(s, moves, r) ensures !Finished(r) {
        StuckForever(s, moves, r);
      }
    }
  }

  lemma RunNothing(s: System)
    ensures Run(s, [], s)
  {}

  lemma FromStart(workers: nat, capacity: nat, moves: seq<Move>, s: System)
    requires Run(Start(workers, capacity), moves, s)
    ensures Reachable(workers, capacity, s)
  {}

  lemma RunFirst(s: System, m: Move, rest: seq<Move>, r: System)
    requires Enabled(s, m) && Run(Apply(s, m), rest, r)
    ensures Run(s, [m] + rest, r)
  {
    hide Enabled, Apply;
    assert ([m] + rest)[1..] == rest;
  }

  ghost predicate Reachable(workers: nat, capacity: nat, s: System) {
    exists moves :: Run(Start(workers, capacity), moves, s)
  }

  /** In every reachable state of the whole the two machines are reachable, in step with each other. */
  lemma ReachableInv(workers: nat, capacity: nat, s: System)
    requires Reachable(workers, capacity, s)
    ensures Inv(s) && L.Reachable(capacity, s.loop) && P.Reachable(workers, capacity, s.pool)
    ensures |s.pool.workers| == workers
  {
    hide Inv, Run, L.Run, P.Run;
    var moves :| Run(Start(workers, capacity), moves, s);
    StartInv(workers, capacity);
    var steps, turns := RunProjects(Start(workers, capacity), moves, s);
  }

  /** When the whole has finished, every task the pool accepted from this loop ran, and its
      completion was processed, exactly once. */
  lemma FinishedMeansDone(workers: nat, capacity: nat, s: System)
    requires Reachable(workers, capacity, s) && Finished(s) && workers > 0
    ensures s.pool.started == s.pool.submitted && multiset(s.pool.finished) == multiset(s.pool.submitted)
    ensures forall t: L.Task :: t in s.loop.issued ==> multiset(s.loop.processed)[t] == 1
  {
    hide Inv, Run, L.Run, P.Run, P.Reachable, L.Reachable;
    ReachableInv(workers, capacity, s);
    P.JoinedMeansDone(workers, capacity, s.pool);
    L.SafeExit(capacity, s.loop);
  }
}
