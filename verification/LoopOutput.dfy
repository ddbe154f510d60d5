/** The output of a connection, told from the events alone: what was said to it, when it counts as
    closed by its peer, and which events close it. */
module LoopOutput {
  import opened EventLoop
  import opened LoopAnswers

  predicate OpenAt(s: Loop, fd: int, instance: nat) { fd in s.conns && s.conns[fd].instance == instance }

  /** What an event says to the connection at `fd`: the 400 to something that does not parse, the
      503 to a dispatch that the pool refuses, and the response to the request it waits for. */
  function Says(s: Loop, e: Event, fd: int): seq<Chunk>
    requires fd in s.conns && Enabled(s, e)
  {
    match e
    case OnConn(x, ParseFails(text)) => if x == fd then [Refusal(text)] else []
    case SubmitRefused(text) => if s.pc.fd == fd then [Refusal(text)] else []
    case ApplyCompletion =>
      var done := s.pc.rest[0];
      if done.task.origin == s.conns[fd].instance && s.conns[fd].inFlight then [Response(done.task, done.response)]
      else []
    case _ => []
  }

  /** Which events close it: failures, the two idle closes, a finished flush after the peer has
      closed, and an answer over the limit, from which the 503 is exempt. */
  predicate Closes(s: Loop, e: Event, fd: int)
    requires fd in s.conns && Enabled(s, e)
  {
    || (e.OnConn? && e.fd == fd && (e.what.Fail? || e.what.DispatchFails? || e.what.CloseIdle? || e.what.DrainClose?))
    || (e.OnConn? && e.fd == fd && e.what.FlushDone? && s.conns[fd].peerClosed)
    || (Says(s, e, fd) != [] && !e.SubmitRefused? && s.conns[fd].offset <= |s.conns[fd].outbound|
        && Pending(s.conns[fd]) + |Says(s, e, fd)[0].text| > MAX_OUTBOUND_BYTES)
  }

  /** After this its peer counts as closed. */
  predicate HalfCloses(s: Loop, e: Event, fd: int)
    requires fd in s.conns && Enabled(s, e)
  {
    (e.OnConn? && e.fd == fd && e.what.PeerCloses?) || Says(s, e, fd) != []
  }

  /** The effect of an event on the connection at `fd`. */
  ghost predicate AsTold(s: Loop, e: Event, fd: int, r: Loop)
    requires fd in s.conns && Enabled(s, e)
  {
    if Closes(s, e, fd) then fd !in r.conns
    else
      && OpenAt(r, fd, s.conns[fd].instance)
      && r.conns[fd].chunks == s.conns[fd].chunks + Says(s, e, fd)
      && r.conns[fd].peerClosed == (s.conns[fd].peerClosed || HalfCloses(s, e, fd))
  }

  lemma TouchTold(s: Loop, fd: int, what: ConnEvent)
    requires Enabled(s, OnConn(fd, what))
    ensures AsTold(s, OnConn(fd, what), fd, Apply(s, OnConn(fd, what)))
  {}

  lemma RefusedTold(s: Loop, text: string)
    requires Enabled(s, SubmitRefused(text)) && Has(s, s.pc.fd)
    ensures AsTold(s, SubmitRefused(text), s.pc.fd, Apply(s, SubmitRefused(text)))
  {}

  /** A completion reaches the instance whose request it answers, and no other. */
  lemma ApplyTold(s: Loop, fd: int)
    requires Inv(s) && AnswersInv(s) && Enabled(s, ApplyCompletion) && fd in s.conns
    ensures AsTold(s, ApplyCompletion, fd, Apply(s, ApplyCompletion))
  {
    hide Conserved, NoneStranded, Concat, AnsweredOnce, AnswersOk, PostedOk;
    var done := s.pc.rest[0];
    ApplyFacts(s);
    assert ConnOk(s.accepted, s.processed, s.conns[fd]);
    if Addressed(s, done) {
      PutKeeps(s, done.task.fd, Answer(s.conns[done.task.fd], done));
    }
  }

  /** Steps on another connection. */
  lemma OtherTold(s: Loop, e: Event, fd: int, x: int, o: Outcome, r: Loop)
    requires Enabled(s, e) && fd in s.conns && x != fd && r.conns == Put(s, x, o).conns
    requires Says(s, e, fd) == [] && !Closes(s, e, fd) && !HalfCloses(s, e, fd)
    ensures AsTold(s, e, fd, r)
  {
    assert fd in r.conns && r.conns[fd] == s.conns[fd];
  }

  lemma SameTold(s: Loop, e: Event, fd: int, r: Loop)
    requires Enabled(s, e) && fd in s.conns && fd in r.conns
    requires r.conns[fd].chunks == s.conns[fd].chunks && r.conns[fd].instance == s.conns[fd].instance
    requires r.conns[fd].peerClosed == s.conns[fd].peerClosed
    requires Says(s, e, fd) == [] && !Closes(s, e, fd) && !HalfCloses(s, e, fd)
    ensures AsTold(s, e, fd, r)
  {
    assert s.conns[fd].chunks + [] == s.conns[fd].chunks;
  }

  /** Every step does to every connection what its event tells. */
  lemma EveryStepAsTold(s: Loop, e: Event, fd: int)
    requires Inv(s) && AnswersInv(s) && Enabled(s, e) && fd in s.conns
    ensures AsTold(s, e, fd, Apply(s, e))
  {
    hide Inv, AnswersInv, Touch, Overloaded, Answer, Put, AsTold;
    match e
    case Accept(x) => OtherTold(s, e, fd, x, Keep(NewConn(s)), Apply(s, e));
    case OnConn(x, what) =>
      if x == fd { TouchTold(s, fd, what); } else { OtherTold(s, e, fd, x, Touch(s.conns[x], what), Apply(s, e)); }
    case Dispatch(x) =>
      PutKeeps(s, x, Keep(Mark(s.conns[x])));
      if x == fd {
        SameTold(s, e, fd, Apply(s, e));
      } else {
        OtherTold(s, e, fd, x, Keep(Mark(s.conns[x])), Apply(s, e));
      }
    case SubmitRefused(text) => RefusedStep(s, text, fd);
    case ApplyCompletion => ApplyTold(s, fd);
    case _ =>
      ConnsSame(s, e);
      SameTold(s, e, fd, Apply(s, e));
  }

  lemma RefusedStep(s: Loop, text: string, fd: int)
    requires Inv(s) && Enabled(s, SubmitRefused(text)) && fd in s.conns
    ensures AsTold(s, SubmitRefused(text), fd, Apply(s, SubmitRefused(text)))
  {
    hide Conserved, NoneStranded, Concat, AnsweredOnce, Overloaded, AsTold;
    var r := Apply(s, SubmitRefused(text));
    assert ConnOk(s.accepted, s.processed, s.conns[s.pc.fd]);
    if s.pc.fd == fd {
      RefusedTold(s, text);
    } else {
      OtherTold(s, SubmitRefused(text), fd, s.pc.fd, Keep(Overloaded(s.conns[s.pc.fd], text)), r);
    }
  }

  // ---- Over runs -----------------------------------------------------------------------------

  /** Everything a run says to the instance at `fd`. */
  ghost function Said(s: Loop, events: seq<Event>, fd: int, instance: nat): seq<Chunk>
    decreases |events|
  {
    if events == [] || !Enabled(s, events[0]) then []
    else
      (if OpenAt(s, fd, instance) then Says(s, events[0], fd) else [])
      + Said(Apply(s, events[0]), events[1..], fd, instance)
  }

  /** The run half-closes it. */
  ghost predicate HalfClosed(s: Loop, events: seq<Event>, fd: int, instance: nat)
    decreases |events|
  {
    && events != [] && Enabled(s, events[0])
    && ((OpenAt(s, fd, instance) && HalfCloses(s, events[0], fd))
        || HalfClosed(Apply(s, events[0]), events[1..], fd, instance))
  }

  /** A connection was there before the step, or is the one it accepts. */
  lemma StepOrigin(s: Loop, e: Event, fd: int)
    requires Inv(s) && Enabled(s, e) && fd in Apply(s, e).conns
    ensures OpenAt(s, fd, Apply(s, e).conns[fd].instance)
            || (e == Accept(fd) && Apply(s, e).conns[fd] == NewConn(s))
    ensures s.accepted <= Apply(s, e).accepted && (e.Accept? ==> Apply(s, e).accepted == s.accepted + 1)
  {
    hide Inv, Touch, Overloaded, Answer, Put;
    match e
    case Accept(x) => PutKeeps(s, x, Keep(NewConn(s)));
    case OnConn(x, what) => PutKeeps(s, x, Touch(s.conns[x], what));
    case Dispatch(x) => PutKeeps(s, x, Keep(Mark(s.conns[x])));
    case SubmitRefused(text) => PutKeeps(s, s.pc.fd, Keep(Overloaded(s.conns[s.pc.fd], text)));
    case ApplyCompletion =>
      var done := s.pc.rest[0];
      if Addressed(s, done) { PutKeeps(s, done.task.fd, Answer(s.conns[done.task.fd], done)); }
    case _ => ConnsSame(s, e);
  }

  lemma {:induction false} RunOrigin(s: Loop, events: seq<Event>, r: Loop, fd: int)
    requires Inv(s) && Run(s, events, r) && fd in r.conns
    ensures OpenAt(s, fd, r.conns[fd].instance) || r.conns[fd].instance >= s.accepted
    decreases |events|
  {
    hide Inv, Enabled, Apply;
    if events != [] {
      var next := Apply(s, events[0]);
      StepInv(s, events[0]);
      RunOrigin(next, events[1..], r, fd);
      if OpenAt(next, fd, r.conns[fd].instance) { StepOrigin(s, events[0], fd); } else { StepGrows(s, events[0]); }
    }
  }

  lemma StepGrows(s: Loop, e: Event)
    requires Enabled(s, e)
    ensures s.accepted <= Apply(s, e).accepted
  {
    hide Touch, Overloaded, Answer, Put;
    match e
    case Accept(x) => ClosedPut(s, x, Keep(NewConn(s)));
    case OnConn(x, what) => ClosedPut(s, x, Touch(s.conns[x], what));
    case Dispatch(x) => ClosedPut(s, x, Keep(Mark(s.conns[x])));
    case SubmitRefused(text) => ClosedPut(s, s.pc.fd, Keep(Overloaded(s.conns[s.pc.fd], text)));
    case ApplyCompletion =>
      var done := s.pc.rest[0];
      if Addressed(s, done) { ClosedPut(s, done.task.fd, Answer(s.conns[done.task.fd], done)); }
    case _ =>
  }

  lemma NotYet(s: Loop, fd: int, instance: nat)
    requires AnswersInv(s) && instance >= s.accepted
    ensures !OpenAt(s, fd, instance)
  {
    hide PostedOk, AnswersOk;
  }

  /** What an open connection has been sent so far, and whether its peer counts as closed. */
  ghost predicate Tells(s: Loop, events: seq<Event>, r: Loop, fd: int)
    requires fd in r.conns
  {
    var i := r.conns[fd].instance;
    && r.conns[fd].chunks == (if OpenAt(s, fd, i) then s.conns[fd].chunks else []) + Said(s, events, fd, i)
    && (r.conns[fd].peerClosed
        <==> (OpenAt(s, fd, i) && s.conns[fd].peerClosed) || HalfClosed(s, events, fd, i))
  }

  lemma {:induction false} RunTells(s: Loop, events: seq<Event>, r: Loop, fd: int)
    requires Inv(s) && AnswersInv(s) && Run(s, events, r) && fd in r.conns
    ensures Tells(s, events, r, fd)
    decreases |events|
  {
    hide Inv, AnswersInv, Enabled, Apply, Says, Closes, HalfCloses;
    if events == [] {
      assert r.conns[fd].chunks + [] == r.conns[fd].chunks;
    } else {
      var e, next := events[0], Apply(s, events[0]);
      StepInv(s, e);
      AnswersStep(s, e);
      RunTells(next, events[1..], r, fd);
      TellsFirst(s, events, r, fd);
    }
  }

  lemma TellsFirst(s: Loop, events: seq<Event>, r: Loop, fd: int)
    requires Inv(s) && AnswersInv(s) && events != [] && Enabled(s, events[0]) && fd in r.conns
    requires Run(Apply(s, events[0]), events[1..], r)
    requires Inv(Apply(s, events[0])) && AnswersInv(Apply(s, events[0]))
    requires Tells(Apply(s, events[0]), events[1..], r, fd)
    ensures Tells(s, events, r, fd)
  {
    hide Inv, AnswersInv, Enabled, Apply, Says, Closes, HalfCloses;
    var e, next, i := events[0], Apply(s, events[0]), r.conns[fd].instance;
    var later := Said(next, events[1..], fd, i);
    RunOrigin(next, events[1..], r, fd);
    if OpenAt(next, fd, i) {
      StepOrigin(s, e, fd);
      if OpenAt(s, fd, i) {
        EveryStepAsTold(s, e, fd);
        assert s.conns[fd].chunks + Says(s, e, fd) + later == s.conns[fd].chunks + (Says(s, e, fd) + later);
      } else {
        Newborn(s);
        assert [] + later == later;
      }
    } else {
      StepGrows(s, e);
      NotYet(s, fd, i);
      assert [] + later == later;
    }
  }

  lemma Newborn(s: Loop)
    ensures NewConn(s).chunks == [] && !NewConn(s).peerClosed
  {}

  /** In every run, an open connection has been sent exactly what the events said to it, in order,
      and its peer counts as closed exactly if one of them half-closed it. */
  lemma OutputIsWhatWasSaid(capacity: nat, events: seq<Event>, r: Loop, fd: int)
    requires Run(Start(capacity), events, r) && fd in r.conns
    ensures r.conns[fd].chunks == Said(Start(capacity), events, fd, r.conns[fd].instance)
    ensures r.conns[fd].peerClosed <==> HalfClosed(Start(capacity), events, fd, r.conns[fd].instance)
  {
    hide Inv, AnswersInv, Run, Said, HalfClosed;
    StartInv(capacity);
    StartAnswers(capacity);
    RunTells(Start(capacity), events, r, fd);
    var said := Said(Start(capacity), events, fd, r.conns[fd].instance);
    assert [] + said == said;
  }

  // ---- Why connections were closed --------------------------------------------------------------

  /** A connection closed as finished had a closed peer and nothing unsent; one closed as drained
      was closed by a draining loop and waited for nothing. */
  ghost predicate CausesOk(s: Loop) {
    forall x :: x in s.closed ==>
      && (x.cause.Finished? ==> x.conn.peerClosed && x.conn.offset == |x.conn.outbound|)
      && (x.cause.Drained? ==> s.draining && !x.conn.inFlight && x.conn.offset == |x.conn.outbound|)
  }

  lemma TouchCause(pc: Pc, draining: bool, c: Conn, e: ConnEvent)
    requires c.offset <= |c.outbound| && Allowed(pc, draining, c, e)
    ensures Touch(c, e).Drop? ==>
              var x := Closed(Touch(c, e).conn, Touch(c, e).cause);
              && (x.cause.Finished? ==> x.conn.peerClosed && x.conn.offset == |x.conn.outbound|)
              && (x.cause.Drained? ==> draining && !x.conn.inFlight && x.conn.offset == |x.conn.outbound|)
  {}

  lemma CausesStep(s: Loop, e: Event)
    requires CausesOk(s) && Enabled(s, e)
    ensures CausesOk(Apply(s, e))
  {
    hide Touch, Overloaded, Answer, Put;
    match e
    case Accept(x) => ClosedPut(s, x, Keep(NewConn(s)));
    case OnConn(x, what) =>
      TouchCause(s.pc, s.draining, s.conns[x], what);
      ClosedPut(s, x, Touch(s.conns[x], what));
    case Dispatch(x) => ClosedPut(s, x, Keep(Mark(s.conns[x])));
    case SubmitRefused(text) => ClosedPut(s, s.pc.fd, Keep(Overloaded(s.conns[s.pc.fd], text)));
    case ApplyCompletion =>
      var done := s.pc.rest[0];
      if Addressed(s, done) {
        AnswerCause(s.conns[done.task.fd], done);
        ClosedPut(s, done.task.fd, Answer(s.conns[done.task.fd], done));
      }
    case _ =>
  }

  lemma AnswerCause(c: Conn, done: Completion)
    requires c.offset <= |c.outbound|
    ensures Answer(c, done).Drop? ==> Answer(c, done).cause.LimitBreach?
  {}

  lemma ClosedPut(s: Loop, fd: int, o: Outcome)
    ensures Put(s, fd, o) == s.(conns := Put(s, fd, o).conns, closed := Put(s, fd, o).closed)
    ensures Put(s, fd, o).closed == if o.Keep? then s.closed else s.closed + [Closed(o.conn, o.cause)]
  {}

  lemma {:induction false} CausesRun(s: Loop, events: seq<Event>, r: Loop)
    requires CausesOk(s) && Run(s, events, r)
    ensures CausesOk(r)
    decreases |events|
  {
    hide CausesOk, Enabled, Apply;
    if events != [] {
      CausesStep(s, events[0]);
      CausesRun(Apply(s, events[0]), events[1..], r);
    }
  }

  /** In every reachable state: whoever was closed as finished had a closed peer and everything
      sent, and whoever was drained waited for nothing, had everything sent, and the loop drains. */
  lemma ClosedForCause(capacity: nat, s: Loop, x: Closed)
    requires Reachable(capacity, s) && x in s.closed
    ensures x.cause.Finished? ==> x.conn.peerClosed && x.conn.wire == Concat(x.conn.chunks)
    ensures x.cause.Drained? ==> s.draining && !x.conn.inFlight && x.conn.wire == Concat(x.conn.chunks)
  {
    hide Conserved, NoneStranded, Concat, Run;
    ReachableInv(capacity, s);
    var events :| Run(Start(capacity), events, s);
    CausesRun(Start(capacity), events, s);
  }
}
