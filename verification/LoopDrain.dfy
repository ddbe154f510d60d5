/** Draining comes to its end. Apart from new bytes of a peer, every step of a draining loop
    uses up some of a weight that counts the tasks left and the bytes left to send, and short
    of the exit there always is such a step. */
module LoopDrain {
  import opened EventLoop

  // ---- What is left to do -----------------------------------------------------------

  /** One for being there, one for a buffer to release, one for a peer that may still close,
      and the bytes to send. */
  function ConnWeight(c: Conn): nat {
    1 + (if c.outbound != "" then 1 else 0) + (if c.peerClosed then 0 else 1) +
    (if c.offset <= |c.outbound| then Pending(c) else 0)
  }

  ghost function Total(conns: map<int, Conn>): nat
    decreases |conns|
  {
    if exists fd :: fd in conns then
      var fd :| fd in conns;
      ConnWeight(conns[fd]) + Total(conns - {fd})
    else 0
  }

  lemma {:induction false} TotalWithout(conns: map<int, Conn>, fd: int)
    requires fd in conns
    ensures Total(conns) == ConnWeight(conns[fd]) + Total(conns - {fd})
    decreases |conns|
  {
    hide ConnWeight;
    var k :| k in conns && Total(conns) == ConnWeight(conns[k]) + Total(conns - {k});
    if k != fd {
      TotalWithout(conns - {k}, fd);
      TotalWithout(conns - {fd}, k);
      assert conns - {k} - {fd} == conns - {fd} - {k};
    }
  }

  /** Changing one connection changes the total by its weight. */
  lemma TotalPut(conns: map<int, Conn>, fd: int, c: Conn)
    requires fd in conns
    ensures Total(conns[fd := c]) + ConnWeight(conns[fd]) == Total(conns) + ConnWeight(c)
    ensures Total(conns - {fd}) + ConnWeight(conns[fd]) == Total(conns)
  {
    hide ConnWeight, Total;
    TotalWithout(conns, fd);
    TotalWithout(conns[fd := c], fd);
    assert conns[fd := c] - {fd} == conns - {fd};
  }

  /** A dispatch under way still appends the refusal; a completion appends at most the limit. */
  function PcWeight(pc: Pc, overloaded: string): nat {
    match pc
    case Idle => 0
    case Marked(_) => |overloaded| + 3
    case Counted(_) => |overloaded| + 2
    case Applying(rest) => 1 + (MAX_OUTBOUND_BYTES + 2) * |rest|
  }

  ghost function Weight(s: Loop, overloaded: string): nat {
    (MAX_OUTBOUND_BYTES + 6) * |s.queue| + (MAX_OUTBOUND_BYTES + 5) * |s.running|
    + (MAX_OUTBOUND_BYTES + 4) * |s.completions| + PcWeight(s.pc, overloaded) + Total(s.conns)
  }

  // ---- Every step but new input uses it up ----------------------------------------------

  /** New bytes of a peer: a request, or something that does not parse. */
  predicate NewInput(e: Event) { e.Dispatch? || (e.OnConn? && e.what.ParseFails?) }

  /** The step does something and is not new input; a refusal says `overloaded`. */
  predicate Works(s: Loop, e: Event, overloaded: string)
    requires Enabled(s, e)
  {
    && !NewInput(e) && Apply(s, e) != s
    && !(e.SwapCompletions? && s.completions == [])
    && (e.SubmitRefused? ==> e.text == overloaded)
  }

  /** What a step on a connection does to its weight. */
  lemma TouchWeighs(c: Conn, e: ConnEvent)
    requires c.offset <= |c.outbound| && !e.ParseFails? && (e.Send? ==> 0 < e.n <= Pending(c))
    requires e.FlushDone? ==> Pending(c) == 0
    ensures Touch(c, e).Drop? || Touch(c, e).conn == c || ConnWeight(Touch(c, e).conn) < ConnWeight(c)
  {}

  lemma ConnWorks(s: Loop, fd: int, what: ConnEvent, overloaded: string)
    requires Enabled(s, OnConn(fd, what)) && Works(s, OnConn(fd, what), overloaded)
    ensures Weight(Apply(s, OnConn(fd, what)), overloaded) < Weight(s, overloaded)
  {
    hide ConnWeight, Total, Touch, PcWeight;
    var c, o := s.conns[fd], Touch(s.conns[fd], what);
    TouchWeighs(c, what);
    TotalPut(s.conns, fd, o.conn);
    SomeWeight(c);
    assert s.conns[fd := c] == s.conns;
  }

  lemma SomeWeight(c: Conn)
    ensures ConnWeight(c) > 0
  {}

  lemma RefusedWorks(s: Loop, overloaded: string)
    requires Enabled(s, SubmitRefused(overloaded)) && s.conns[s.pc.fd].offset <= |s.conns[s.pc.fd].outbound|
    ensures Weight(Apply(s, SubmitRefused(overloaded)), overloaded) < Weight(s, overloaded)
  {
    hide Total;
    var c := s.conns[s.pc.fd];
    TotalPut(s.conns, s.pc.fd, Overloaded(c, overloaded));
  }

  /** A completion adds at most the limit, or closes. */
  lemma AnswerWeighs(c: Conn, done: Completion)
    requires c.offset <= |c.outbound|
    ensures Answer(c, done).Drop? || ConnWeight(Answer(c, done).conn) <= ConnWeight(c) + MAX_OUTBOUND_BYTES + 1
  {}

  lemma ApplyWorks(s: Loop, overloaded: string)
    requires Enabled(s, ApplyCompletion)
    ensures Weight(Apply(s, ApplyCompletion), overloaded) < Weight(s, overloaded)
  {
    hide Total, ConnWeight, Answer;
    var done := s.pc.rest[0];
    if Addressed(s, done) {
      var c := s.conns[done.task.fd];
      AnswerWeighs(c, done);
      TotalPut(s.conns, done.task.fd, Answer(c, done).conn);
    }
  }

  lemma PlainWorks(s: Loop, e: Event, overloaded: string)
    requires Enabled(s, e) && Works(s, e, overloaded) && s.draining && s.stopping && s.shutdown
    requires !e.OnConn? && !e.SubmitRefused? && !e.ApplyCompletion?
    ensures Weight(Apply(s, e), overloaded) < Weight(s, overloaded)
  {
    hide Total, Deliver, Overloaded, Touch;
  }

  lemma EveryStepWorks(s: Loop, e: Event, overloaded: string)
    requires Inv(s) && s.draining && Enabled(s, e) && Works(s, e, overloaded)
    ensures Weight(Apply(s, e), overloaded) < Weight(s, overloaded)
  {
    hide Conserved, Concat, AnsweredOnce, Weight, Enabled, Apply;
    if e.OnConn? {
      ConnWorks(s, e.fd, e.what, overloaded);
    } else if e.SubmitRefused? {
      RefusedHas(s, e.text);
      RefusedWorks(s, e.text);
    } else if e.ApplyCompletion? {
      ApplyWorks(s, overloaded);
    } else {
      PlainWorks(s, e, overloaded);
    }
  }

  lemma RefusedHas(s: Loop, text: string)
    requires Inv(s) && Enabled(s, SubmitRefused(text))
    ensures s.conns[s.pc.fd].offset <= |s.conns[s.pc.fd].outbound|
  {
    hide Conserved, Concat, AnsweredOnce;
  }

  // ---- Short of the exit there is one --------------------------------------------------------

  lemma SomeConnection(conns: map<int, Conn>) returns (fd: int)
    ensures |conns| == 0 || fd in conns
  {
    fd := 0;
    if x :| x in conns.Keys {
      fd := x;
    } else {
      assert forall x: int :: x !in conns.Keys;
      assert conns.Keys == {};
    }
  }

  /** Nothing of this loop is queued or running. */
  predicate PoolIsDone(s: Loop) { Owned(s.queue) == [] && s.running == [] }

  /** With nothing open, nobody is in flight. */
  lemma NobodyInFlight(s: Loop, fd: int)
    requires Inv(s) && s.pc.Idle? && PoolIsDone(s) && s.completions == [] && fd in s.conns
    ensures !s.conns[fd].inFlight && Has(s, fd)
  {
    hide Conserved, Concat, OpenCopies, Streams;
    StreamsParts(s);
    NothingOpen(s);
  }

  lemma NothingOpen(s: Loop)
    requires s.pc.Idle? && PoolIsDone(s) && s.completions == []
    ensures forall t: Task :: OpenCopies(s, t) == 0
  {
    assert TasksOf([]) == [];
  }

  lemma NothingOutstanding(s: Loop)
    requires Conserved(s) && s.pc.Idle? && PoolIsDone(s) && s.completions == []
    ensures s.outstanding == 0
  {}

  /** A step that only the loop thread takes. */
  predicate LoopStep(e: Event) {
    e.CountTask? || e.SubmitRefused? || e.SwapCompletions? || e.ApplyCompletion? || e.AppliedAll? ||
    (e.OnConn? && (e.what.Send? || e.what.DrainClose?))
  }

  /** The closes a drain may add: nothing pending, or a response over the limit. */
  predicate DrainCloses(s: Loop, r: Loop) {
    && s.closed <= r.closed
    && forall i :: |s.closed| <= i < |r.closed| ==> r.closed[i].cause.Drained? || r.closed[i].cause.LimitBreach?
  }

  lemma LoopStepCloses(s: Loop, e: Event)
    requires Enabled(s, e) && (LoopStep(e) || e.StartTask? || e.PostCompletion?)
    ensures DrainCloses(s, Apply(s, e))
  {
    hide Overloaded, Put, Answer, Touch;
    match e
    case OnConn(fd, what) =>
      DrainTouch(s.conns[fd], what);
      PutCloses(s, fd, Touch(s.conns[fd], what));
    case SubmitRefused(text) => PutCloses(s, s.pc.fd, Keep(Overloaded(s.conns[s.pc.fd], text)));
    case ApplyCompletion =>
      var done := s.pc.rest[0];
      if Addressed(s, done) {
        AnswerCloses(s.conns[done.task.fd], done);
        PutCloses(s, done.task.fd, Answer(s.conns[done.task.fd], done));
      }
    case _ =>
  }

  lemma PutCloses(s: Loop, fd: int, o: Outcome)
    ensures Put(s, fd, o).closed == if o.Keep? then s.closed else s.closed + [Closed(o.conn, o.cause)]
  {}

  lemma DrainTouch(c: Conn, e: ConnEvent)
    requires c.offset <= |c.outbound| && ((e.Send? && e.n <= Pending(c)) || e.DrainClose?)
    ensures Touch(c, e).Drop? ==> Touch(c, e).cause.Drained?
  {}

  lemma AnswerCloses(c: Conn, done: Completion)
    requires c.offset <= |c.outbound|
    ensures Answer(c, done).Drop? ==> Answer(c, done).cause.LimitBreach?
  {}

  /** While draining, with nothing of this loop left in the pool and not yet able to exit, the
      loop thread has work to do, whatever the refusal says. */
  lemma LoopProgress(s: Loop, overloaded: string) returns (e: Event)
    requires Inv(s) && s.draining && !CanExit(s) && (Quiet(s.pc) ==> PoolIsDone(s))
    ensures Enabled(s, e) && LoopStep(e) && Works(s, e, overloaded)
  {
    hide Conserved, Streams, Answer, Touch, Owned;
    if s.pc.Marked? {
      e := CountTask;
    } else if s.pc.Counted? {
      e := SubmitRefused(overloaded);
    } else if s.pc.Applying? {
      e := if s.pc.rest == [] then AppliedAll else ApplyCompletion;
      if s.pc.rest != [] { assert Apply(s, e).pc.rest == s.pc.rest[1..]; }
    } else if s.completions != [] {
      e := SwapCompletions;
    } else {
      e := LastConnections(s, overloaded);
    }
  }

  lemma LastConnections(s: Loop, overloaded: string) returns (e: Event)
    requires Inv(s) && s.draining && !CanExit(s) && s.pc.Idle? && PoolIsDone(s) && s.completions == []
    ensures Enabled(s, e) && LoopStep(e) && Works(s, e, overloaded)
  {
    hide Conserved, Streams, NoneStranded;
    NothingOutstanding(s);
    var fd := SomeConnection(s.conns);
    NobodyInFlight(s, fd);
    var c := s.conns[fd];
    if Pending(c) > 0 {
      e := OnConn(fd, Send(Pending(c)));
      assert Apply(s, e).conns[fd].offset != c.offset;
    } else {
      e := OnConn(fd, DrainClose);
      assert fd !in Apply(s, e).conns;
    }
  }

  /** While draining and not yet able to exit there is work to do: a pool step, a completion, a
      send, or the close of a connection with nothing pending. What the tasks answer and what
      the refusal says is not ours to choose. */
  lemma DrainProgress(s: Loop, respond: Task -> string, overloaded: string) returns (e: Event)
    requires Inv(s) && s.draining && !CanExit(s)
    ensures Enabled(s, e) && (LoopStep(e) || e.StartTask? || e.PostCompletion?) && Works(s, e, overloaded)
    ensures e.PostCompletion? ==> e.response == respond(s.running[e.i])
  {
    hide Inv, Answer, Touch, CanExit;
    if s.queue != [] {
      e := StartTask;
      assert |Apply(s, e).queue| < |s.queue|;
    } else if s.running != [] {
      e := PostCompletion(0, respond(s.running[0]));
      assert |Apply(s, e).running| < |s.running|;
    } else {
      e := LoopProgress(s, overloaded);
    }
  }

  // ---- Runs --------------------------------------------------------------------------------

  /** Every step of the run does something and is not new input. */
  ghost predicate AllWork(s: Loop, events: seq<Event>, overloaded: string)
    decreases |events|
  {
    events == [] ||
    (Enabled(s, events[0]) && Works(s, events[0], overloaded) && AllWork(Apply(s, events[0]), events[1..], overloaded))
  }

  /** Every schedule drains: however pool steps, completions, sends, flushes, closes and failures
      are interleaved, without new input such a run is no longer than the weight it uses up, and
      where it cannot be continued the loop may exit. */
  lemma {:induction false} EveryDrainEnds(s: Loop, events: seq<Event>, r: Loop, overloaded: string)
    requires Inv(s) && s.draining && Run(s, events, r) && AllWork(s, events, overloaded)
    ensures |events| <= Weight(s, overloaded) - Weight(r, overloaded)
    ensures CanExit(r) || exists e :: Enabled(r, e) && Works(r, e, overloaded)
    decreases |events|
  {
    hide Inv, Enabled, Apply, Weight, Works, CanExit, LoopStep;
    if events == [] {
      if !CanExit(r) {
        var e := DrainProgress(r, _ => "", overloaded);
      }
    } else {
      StepInv(s, events[0]);
      StaysDraining(s, events[0]);
      EveryStepWorks(s, events[0], overloaded);
      EveryDrainEnds(Apply(s, events[0]), events[1..], r, overloaded);
    }
  }

  /** Every answer on the way is the environment's. */
  ghost predicate Answers(s: Loop, events: seq<Event>, respond: Task -> string, overloaded: string)
    decreases |events|
  {
    events == [] ||
    (&& Enabled(s, events[0])
     && (LoopStep(events[0]) || events[0].StartTask? || events[0].PostCompletion?)
     && (events[0].SubmitRefused? ==> events[0].text == overloaded)
     && (events[0].PostCompletion? ==> events[0].response == respond(s.running[events[0].i]))
     && Answers(Apply(s, events[0]), events[1..], respond, overloaded))
  }

  /** And from every draining state, whatever the tasks answer, the loop can be brought to its exit
      by pool steps, completions, sends and closes, and a connection is closed on the way only
      with nothing pending or because its response is over the limit. */
  lemma {:induction false} DrainCanFinish(s: Loop, respond: Task -> string, overloaded: string)
    returns (events: seq<Event>, r: Loop)
    requires Inv(s) && s.draining
    ensures Run(s, events, r) && CanExit(r)
    ensures Answers(s, events, respond, overloaded) && DrainCloses(s, r)
    decreases Weight(s, overloaded)
  {
    hide Inv, Enabled, Apply, Weight, CanExit, LoopStep;
    if CanExit(s) {
      events, r := [], s;
    } else {
      var e := DrainProgress(s, respond, overloaded);
      StepInv(s, e);
      StaysDraining(s, e);
      EveryStepWorks(s, e, overloaded);
      LoopStepCloses(s, e);
      var more;
      more, r := DrainCanFinish(Apply(s, e), respond, overloaded);
      events := [e] + more;
      assert events[1..] == more;
    }
  }
}
