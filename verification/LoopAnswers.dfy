/** What becomes of every request. A connection's requests are answered one for one, except that
    a dispatch begun while another is in flight costs one answer: the first completion clears the
    flag that the second one needs. */
module LoopAnswers {
  import opened EventLoop

  // ---- Who is where -----------------------------------------------------------------------

  /** Instances are distinct, none is lost, and tasks know where theirs is. */
  ghost predicate Placed(s: Loop) {
    && (forall fd, gd :: fd in s.conns && gd in s.conns && s.conns[fd].instance == s.conns[gd].instance ==> fd == gd)
    && (forall fd :: fd in s.conns ==> s.conns[fd].instance < s.accepted)
    && (forall x :: x in s.closed ==> x.conn.instance < s.accepted)
    && (forall fd, x :: fd in s.conns && x in s.closed ==> s.conns[fd].instance != x.conn.instance)
    && (forall t :: t in s.issued ==> t.origin < s.accepted)
    && (forall t, fd :: t in s.issued && fd in s.conns && s.conns[fd].instance == t.origin ==> t.fd == fd)
    && (forall i: nat :: i < s.accepted ==> Open(s, i) || Gone(s, i))
  }

  ghost predicate Open(s: Loop, instance: nat) { exists fd :: fd in s.conns && s.conns[fd].instance == instance }

  ghost predicate Gone(s: Loop, instance: nat) { exists x :: x in s.closed && x.conn.instance == instance }

  /** Nothing about connections and tasks differs. */
  ghost predicate Same(s: Loop, r: Loop) {
    && r.conns == s.conns && r.closed == s.closed && r.issued == s.issued && r.posted == s.posted
    && r.processed == s.processed && r.accepted == s.accepted
    && forall fd :: Dispatching(r, fd) == Dispatching(s, fd)
  }

  /** Connection `fd` got outcome `o`, and nothing else differs. */
  ghost predicate Changed(s: Loop, r: Loop, fd: int, o: Outcome) {
    && fd in s.conns && o.conn.instance == s.conns[fd].instance
    && r.conns == Put(s, fd, o).conns && r.closed == Put(s, fd, o).closed
    && r.issued == s.issued && r.posted == s.posted && r.accepted == s.accepted
  }

  lemma PlacedSame(s: Loop, r: Loop)
    requires Placed(s) && r.conns == s.conns && r.closed == s.closed && r.issued == s.issued && r.accepted == s.accepted
    ensures Placed(r)
  {
    forall i: nat | i < r.accepted ensures Open(r, i) || Gone(r, i) {
      assert Open(s, i) || Gone(s, i);
    }
  }

  lemma PlacedChanged(s: Loop, r: Loop, fd: int, o: Outcome)
    requires Placed(s) && Changed(s, r, fd, o)
    ensures Placed(r)
  {
    PutKeeps(s, fd, o);
    forall i: nat | i < r.accepted ensures Open(r, i) || Gone(r, i) {
      PutKeepsOpen(s, r, fd, o, i);
    }
    forall x | x in r.closed ensures x in s.closed || (o.Drop? && x.conn.instance == s.conns[fd].instance) {}
  }

  lemma PutKeepsOpen(s: Loop, r: Loop, fd: int, o: Outcome, i: nat)
    requires Placed(s) && Changed(s, r, fd, o) && i < s.accepted
    ensures Open(r, i) || Gone(r, i)
  {
    assert Open(s, i) || Gone(s, i);
    if Open(s, i) {
      var x :| x in s.conns && s.conns[x].instance == i;
      if x != fd {
        assert x in r.conns && r.conns[x] == s.conns[x];
      } else if o.Keep? {
        assert fd in r.conns && r.conns[fd] == o.conn;
      } else {
        assert Closed(o.conn, o.cause) in r.closed;
      }
    } else {
      var x :| x in s.closed && x.conn.instance == i;
      assert x in r.closed;
    }
  }

  // ---- Completions carry what was posted ------------------------------------------------------

  /** What is on its way was posted, and every task's completion was posted once, if at all. */
  ghost predicate PostedOk(s: Loop) {
    && (forall c :: c in s.completions || c in Rest(s.pc) ==> c in s.posted)
    && (forall t: Task :: multiset(TasksOf(s.posted))[t]
                          == multiset(TasksOf(s.completions))[t] + multiset(TasksOf(Rest(s.pc)))[t]
                             + multiset(s.processed)[t])
  }

  // ---- Answers -----------------------------------------------------------------------------------

  predicate Answered(c: Conn, done: Completion) { Response(done.task, done.response) in c.chunks }

  /** An open connection without overlap has answered every request that was processed, and at
      most one is on its way, for which it waits. */
  ghost predicate OpenOk(s: Loop, fd: int)
    requires fd in s.conns
  {
    var c := s.conns[fd];
    c.overlaps == 0 ==>
      && (forall d :: d in s.posted && d.task.origin == c.instance && d.task in s.processed ==> Answered(c, d))
      && (forall t :: t in s.issued && t.origin == c.instance && t !in s.processed ==>
            c.inFlight && !Dispatching(s, fd))
      && (forall t, u :: t in s.issued && u in s.issued && t.origin == u.origin == c.instance ==>
            t in s.processed || u in s.processed || t == u)
  }

  /** A closed one without overlap answered every request that was processed, or was closed while
      it waited, or because of that answer's size. */
  ghost predicate ClosedOk(s: Loop, x: Closed) {
    var c := x.conn;
    c.overlaps == 0 ==>
      && (forall d :: d in s.posted && d.task.origin == c.instance && d.task in s.processed ==>
            Answered(c, d) || c.inFlight || OverLimit(x, d))
      && (forall t :: t in s.issued && t.origin == c.instance && t !in s.processed ==> c.inFlight)
  }

  predicate OverLimit(x: Closed, done: Completion) {
    x.cause.LimitBreach? && x.conn.offset <= |x.conn.outbound|
    && Pending(x.conn) + |done.response| > MAX_OUTBOUND_BYTES
  }

  ghost predicate AnswersOk(s: Loop) {
    && (forall fd :: fd in s.conns ==> OpenOk(s, fd))
    && (forall x :: x in s.closed ==> ClosedOk(s, x))
    && (s.pc.Marked? || s.pc.Counted? ==> s.pc.fd in s.conns && s.conns[s.pc.fd].inFlight)
  }

  lemma AnswersSame(s: Loop, r: Loop)
    requires AnswersOk(s) && Same(s, r)
    requires r.pc.Marked? || r.pc.Counted? ==> Dispatching(s, r.pc.fd)
    ensures AnswersOk(r)
  {
    forall fd | fd in r.conns ensures OpenOk(r, fd) { assert OpenOk(s, fd); }
    forall x | x in r.closed ensures ClosedOk(r, x) { assert ClosedOk(s, x); }
  }

  /** A step on a connection that keeps its flag and adds no overlap, or closes it. */
  lemma AnswersTouched(s: Loop, r: Loop, fd: int, o: Outcome)
    requires AnswersOk(s) && Placed(s) && Changed(s, r, fd, o) && r.processed == s.processed
    requires Quiet(s.pc) && Quiet(r.pc)
    requires o.conn.overlaps == s.conns[fd].overlaps && s.conns[fd].chunks <= o.conn.chunks
    requires o.conn.inFlight == s.conns[fd].inFlight || (o.Drop? && o.conn.inFlight)
    ensures AnswersOk(r)
  {
    hide Placed;
    PutKeeps(s, fd, o);
    assert OpenOk(s, fd);
    forall x | x in r.conns ensures OpenOk(r, x) {
      assert OpenOk(s, x);
      ChunksGrow(s.conns[fd].chunks, o.conn.chunks);
    }
    forall x | x in r.closed ensures ClosedOk(r, x) {
      if x in s.closed { assert ClosedOk(s, x); } else { ChunksGrow(s.conns[fd].chunks, o.conn.chunks); }
    }
  }

  lemma ChunksGrow(a: seq<Chunk>, b: seq<Chunk>)
    requires a <= b
    ensures forall k :: k in a ==> k in b
  {
    assert b == a + b[|a|..];
  }

  lemma AnswersAccept(s: Loop, r: Loop, fd: int, c: Conn)
    requires AnswersOk(s) && Placed(s) && fd !in s.conns && c.instance == s.accepted && s.pc.Idle? && r.pc.Idle?
    requires r.conns == s.conns[fd := c] && r.closed == s.closed && r.issued == s.issued && r.posted == s.posted
    requires r.processed == s.processed && (forall d :: d in s.posted ==> d.task in s.issued)
    ensures AnswersOk(r)
  {
    forall x | x in r.conns ensures OpenOk(r, x) {
      if x != fd { assert OpenOk(s, x); }
    }
    forall x | x in r.closed ensures ClosedOk(r, x) { assert ClosedOk(s, x); }
  }

  lemma AnswersMarked(s: Loop, r: Loop, fd: int)
    requires AnswersOk(s) && Placed(s) && s.pc.Idle? && r.pc == Marked(fd) && fd in s.conns
    requires Changed(s, r, fd, Keep(Mark(s.conns[fd]))) && r.processed == s.processed
    ensures AnswersOk(r)
  {
    PutKeeps(s, fd, Keep(Mark(s.conns[fd])));
    forall x | x in r.conns ensures OpenOk(r, x) { assert OpenOk(s, x); }
    forall x | x in r.closed ensures ClosedOk(r, x) { assert ClosedOk(s, x); }
  }

  lemma AnswersRefused(s: Loop, r: Loop, fd: int, text: string)
    requires AnswersOk(s) && Placed(s) && s.pc == Counted(fd) && r.pc.Idle?
    requires fd in s.conns && Changed(s, r, fd, Keep(Overloaded(s.conns[fd], text))) && r.processed == s.processed
    ensures AnswersOk(r)
  {
    var c := Overloaded(s.conns[fd], text);
    PutKeeps(s, fd, Keep(c));
    assert OpenOk(s, fd);
    ChunksGrow(s.conns[fd].chunks, c.chunks);
    forall x | x in r.conns ensures OpenOk(r, x) { assert OpenOk(s, x); }
    forall x | x in r.closed ensures ClosedOk(r, x) { assert ClosedOk(s, x); }
  }

  lemma AnswersAccepted(s: Loop, r: Loop, fd: int, t: Task)
    requires AnswersOk(s) && Placed(s) && s.pc == Counted(fd) && r.pc.Idle? && fd in s.conns
    requires r.conns == s.conns && r.closed == s.closed && r.issued == s.issued + [t] && r.posted == s.posted
    requires r.processed == s.processed && t.origin == s.conns[fd].instance
    requires t !in s.processed && (forall d :: d in s.posted ==> d.task in s.issued)
    ensures AnswersOk(r)
  {
    assert OpenOk(s, fd);
    forall x | x in r.conns ensures OpenOk(r, x) { assert OpenOk(s, x); }
    forall x | x in r.closed ensures ClosedOk(r, x) { assert ClosedOk(s, x); }
  }

  lemma AnswersPosted(s: Loop, r: Loop, d: Completion)
    requires AnswersOk(s) && d.task !in s.processed
    requires r == s.(running := r.running, completions := r.completions, posted := s.posted + [d])
    ensures AnswersOk(r)
  {
    forall x | x in r.conns ensures OpenOk(r, x) { assert OpenOk(s, x); }
    forall x | x in r.closed ensures ClosedOk(r, x) { assert ClosedOk(s, x); }
  }

  /** A completion for nobody: its connection is closed, or does not wait for it. */
  lemma AnswersMissed(s: Loop, r: Loop, done: Completion)
    requires AnswersOk(s) && Placed(s) && Streams(s) && s.pc.Applying? && r.pc.Applying?
    requires r.conns == s.conns && r.closed == s.closed && r.issued == s.issued && r.posted == s.posted
    requires r.processed == s.processed + [done.task] && done.task in s.issued && done.task !in s.processed
    requires !Addressed(s, done)
    ensures AnswersOk(r)
  {
    hide Concat, AnsweredOnce;
    forall x | x in r.conns ensures OpenOk(r, x) {
      assert OpenOk(s, x) && ConnOk(s.accepted, s.processed, s.conns[x]);
      assert s.conns[x].instance == done.task.origin ==> done.task.fd == x;
    }
    forall x | x in r.closed ensures ClosedOk(r, x) { assert ClosedOk(s, x); }
  }

  /** A completion for the connection that waits for it. */
  lemma AnswersDelivered(s: Loop, r: Loop, done: Completion)
    requires AnswersOk(s) && Placed(s) && Streams(s) && s.pc.Applying? && r.pc.Applying? && Addressed(s, done)
    requires Changed(s, r, done.task.fd, Answer(s.conns[done.task.fd], done))
    requires r.processed == s.processed + [done.task] && done.task in s.issued && done.task !in s.processed
    requires forall d :: d in s.posted && d.task == done.task ==> d == done
    requires s.conns[done.task.fd].instance == done.task.origin
    ensures AnswersOk(r)
  {
    hide Concat, AnsweredOnce, Streams;
    var fd := done.task.fd;
    var c, o := s.conns[fd], Answer(s.conns[fd], done);
    PutKeeps(s, fd, o);
    assert OpenOk(s, fd);
    AnswerAdds(c, done);
    forall x | x in r.conns ensures OpenOk(r, x) { assert OpenOk(s, x); }
    forall x | x in r.closed ensures ClosedOk(r, x) {
      if x in s.closed { assert ClosedOk(s, x); } else { assert x == Closed(o.conn, o.cause); }
    }
  }

  lemma AnswerAdds(c: Conn, done: Completion)
    requires c.offset <= |c.outbound|
    ensures var o := Answer(c, done);
            && o.conn.overlaps == c.overlaps && (forall k :: k in c.chunks ==> k in o.conn.chunks)
            && (o.Keep? ==> Answered(o.conn, done))
            && (o.Drop? ==> OverLimit(Closed(o.conn, o.cause), done))
  {}

  // ---- Postings ----------------------------------------------------------------------------------

  lemma PostedSame(s: Loop, r: Loop)
    requires PostedOk(s) && r.posted == s.posted && r.completions == s.completions && r.processed == s.processed
    requires Rest(r.pc) == Rest(s.pc)
    ensures PostedOk(r)
  {
    forall t: Task ensures multiset(TasksOf(r.posted))[t]
                           == multiset(TasksOf(r.completions))[t] + multiset(TasksOf(Rest(r.pc)))[t]
                              + multiset(r.processed)[t] {}
  }

  lemma PostedPosts(s: Loop, r: Loop, d: Completion)
    requires PostedOk(s) && r.posted == s.posted + [d] && r.completions == s.completions + [d]
    requires r.processed == s.processed && r.pc == s.pc
    ensures PostedOk(r)
  {
    hide TasksOf;
    TasksSnoc(s.posted, d);
    TasksSnoc(s.completions, d);
    forall t: Task ensures multiset(TasksOf(r.posted))[t]
                           == multiset(TasksOf(r.completions))[t] + multiset(TasksOf(Rest(r.pc)))[t]
                              + multiset(r.processed)[t] {
      Snoc(TasksOf(s.posted), d.task, t);
      Snoc(TasksOf(s.completions), d.task, t);
    }
  }

  lemma PostedSwaps(s: Loop, r: Loop)
    requires PostedOk(s) && s.pc.Idle? && r == s.(pc := Applying(s.completions), completions := [])
    ensures PostedOk(r)
  {
    forall t: Task ensures multiset(TasksOf(r.posted))[t]
                           == multiset(TasksOf(r.completions))[t] + multiset(TasksOf(Rest(r.pc)))[t]
                              + multiset(r.processed)[t] {}
  }

  lemma PostedApplies(s: Loop, r: Loop)
    requires PostedOk(s) && s.pc.Applying? && s.pc.rest != [] && r.pc == Applying(s.pc.rest[1..])
    requires r.posted == s.posted && r.completions == s.completions
    requires r.processed == s.processed + [s.pc.rest[0].task]
    ensures PostedOk(r)
  {
    hide TasksOf;
    var task := s.pc.rest[0].task;
    TasksFirst(s.pc.rest);
    forall t: Task ensures multiset(TasksOf(r.posted))[t]
                           == multiset(TasksOf(r.completions))[t] + multiset(TasksOf(Rest(r.pc)))[t]
                              + multiset(r.processed)[t] {
      Cons(TasksOf(s.pc.rest[1..]), task, t);
      Snoc(s.processed, task, t);
    }
  }

  /** Posted tasks were issued, each once, and are neither queued nor running any more. */
  lemma PostedCounts(s: Loop, t: Task)
    requires Conserved(s) && PostedOk(s)
    ensures multiset(TasksOf(s.posted))[t] + multiset(s.running)[t] <= 1
    ensures multiset(TasksOf(s.posted))[t] > 0 ==> t in s.issued
    ensures t in s.running ==> t !in s.processed
  {
    hide Owned, TasksOf;
    assert OpenCopies(s, t) + multiset(s.processed)[t] == multiset(s.issued)[t];
    if t in s.issued { IssuedOnce(s, t); }
  }

  lemma PostedIn(posted: seq<Completion>, d: Completion)
    requires d in posted
    ensures multiset(TasksOf(posted))[d.task] > 0
  {
    var i :| 0 <= i < |posted| && posted[i] == d;
    assert TasksOf(posted)[i] == d.task;
  }

  lemma PostedOnce(s: Loop, d: Completion, e: Completion)
    requires Conserved(s) && PostedOk(s) && d in s.posted && e in s.posted && d.task == e.task
    ensures d == e
  {
    hide Conserved, PostedOk;
    var i :| 0 <= i < |s.posted| && s.posted[i] == d;
    var j :| 0 <= j < |s.posted| && s.posted[j] == e;
    PostedCounts(s, d.task);
    if i != j { Twice(TasksOf(s.posted), i, j); }
  }

  lemma Twice(a: seq<Task>, i: nat, j: nat)
    requires i < |a| && j < |a| && i != j && a[i] == a[j]
    ensures multiset(a)[a[i]] >= 2
  {
    Remove(a, i, a[i]);
    var b := a[..i] + a[i + 1..];
    assert b[if j < i then j else j - 1] == a[i];
  }

  // ---- Every step keeps it --------------------------------------------------------------------------

  ghost predicate AnswersInv(s: Loop) { Placed(s) && PostedOk(s) && AnswersOk(s) }

  lemma PostedWasIssued(s: Loop)
    requires Conserved(s) && PostedOk(s)
    ensures forall d :: d in s.posted ==> d.task in s.issued
  {
    hide Conserved, PostedOk;
    forall d | d in s.posted ensures d.task in s.issued {
      PostedIn(s.posted, d);
      PostedCounts(s, d.task);
    }
  }

  lemma AcceptKeeps(s: Loop, fd: int)
    requires Inv(s) && AnswersInv(s) && Enabled(s, Accept(fd))
    ensures AnswersInv(Apply(s, Accept(fd)))
  {
    hide Conserved, Streams, NoneStranded, AnswersOk, PostedOk;
    var r := Apply(s, Accept(fd));
    PostedWasIssued(s);
    PostedSame(s, r);
    AnswersAccept(s, r, fd, NewConn(s));
    forall i: nat | i < r.accepted ensures Open(r, i) || Gone(r, i) {
      if i < s.accepted {
        assert Open(s, i) || Gone(s, i);
        if Open(s, i) {
          var x :| x in s.conns && s.conns[x].instance == i;
          assert x in r.conns && r.conns[x].instance == i;
        }
      } else {
        assert fd in r.conns && r.conns[fd].instance == i;
      }
    }
  }

  lemma TouchKeeps(s: Loop, fd: int, what: ConnEvent)
    requires Inv(s) && AnswersInv(s) && Enabled(s, OnConn(fd, what))
    ensures AnswersInv(Apply(s, OnConn(fd, what)))
  {
    hide Conserved, Streams, NoneStranded, AnswersOk, PostedOk, Placed, Touch;
    var r, o := Apply(s, OnConn(fd, what)), Touch(s.conns[fd], what);
    TouchShape(s.conns[fd], what);
    PutKeeps(s, fd, o);
    PostedSame(s, r);
    PlacedChanged(s, r, fd, o);
    AnswersTouched(s, r, fd, o);
  }

  lemma TouchShape(c: Conn, e: ConnEvent)
    requires c.offset <= |c.outbound| && (e.Send? ==> e.n <= Pending(c))
    ensures var o := Touch(c, e);
            && o.conn.overlaps == c.overlaps && c.chunks <= o.conn.chunks
            && (o.conn.inFlight == c.inFlight || (o.Drop? && o.conn.inFlight))
  {}

  lemma DispatchKeeps(s: Loop, fd: int)
    requires Inv(s) && AnswersInv(s) && Enabled(s, Dispatch(fd))
    ensures AnswersInv(Apply(s, Dispatch(fd)))
  {
    hide Conserved, Streams, NoneStranded, AnswersOk, PostedOk, Placed, Mark;
    var r, o := Apply(s, Dispatch(fd)), Keep(Mark(s.conns[fd]));
    PutKeeps(s, fd, o);
    PostedSame(s, r);
    PlacedChanged(s, r, fd, o);
    AnswersMarked(s, r, fd);
  }

  lemma RefusedKeeps(s: Loop, text: string)
    requires Inv(s) && AnswersInv(s) && Enabled(s, SubmitRefused(text))
    ensures AnswersInv(Apply(s, SubmitRefused(text)))
  {
    hide Conserved, Streams, NoneStranded, AnswersOk, PostedOk, Placed, Overloaded;
    var fd := s.pc.fd;
    var r, o := Apply(s, SubmitRefused(text)), Keep(Overloaded(s.conns[fd], text));
    PutKeeps(s, fd, o);
    PostedSame(s, r);
    PlacedChanged(s, r, fd, o);
    AnswersRefused(s, r, fd, text);
  }

  lemma AcceptedKeeps(s: Loop)
    requires Inv(s) && AnswersInv(s) && Enabled(s, SubmitAccepted)
    ensures AnswersInv(Apply(s, SubmitAccepted))
  {
    hide Streams, NoneStranded, AnswersOk, PostedOk, OpenCopies, OpenCount;
    var fd := s.pc.fd;
    var r, t := Apply(s, SubmitAccepted), NewTask(s, s.pc.fd);
    NewIsFresh(s, t);
    PostedWasIssued(s);
    PostedSame(s, r);
    AnswersAccepted(s, r, fd, t);
    forall i: nat | i < r.accepted ensures Open(r, i) || Gone(r, i) { assert Open(s, i) || Gone(s, i); }
  }

  lemma NewIsFresh(s: Loop, t: Task)
    requires Conserved(s) && t.id == |s.issued|
    ensures t !in s.issued && t !in s.processed
  {
    hide OpenCopies, OpenCount;
    assert OpenCopies(s, t) + multiset(s.processed)[t] == multiset(s.issued)[t];
  }

  lemma PostKeeps(s: Loop, i: nat, response: string)
    requires Inv(s) && AnswersInv(s) && Enabled(s, PostCompletion(i, response))
    ensures AnswersInv(Apply(s, PostCompletion(i, response)))
  {
    hide Conserved, Streams, NoneStranded, AnswersOk, PostedOk, Placed;
    var r, d := Apply(s, PostCompletion(i, response)), Completion(s.running[i], response);
    PostedCounts(s, d.task);
    PostedPosts(s, r, d);
    PlacedSame(s, r);
    AnswersPosted(s, r, d);
  }

  lemma ApplyKeeps(s: Loop)
    requires Inv(s) && AnswersInv(s) && Enabled(s, ApplyCompletion)
    ensures AnswersInv(Apply(s, ApplyCompletion))
  {
    hide Conserved, Streams, NoneStranded, AnswersOk, PostedOk, Placed, Answer;
    var r, done := Apply(s, ApplyCompletion), s.pc.rest[0];
    ApplyFacts(s);
    PostedApplies(s, r);
    if Addressed(s, done) {
      var o := Answer(s.conns[done.task.fd], done);
      PutKeeps(s, done.task.fd, o);
      PlacedChanged(s, r, done.task.fd, o);
      AnswersDelivered(s, r, done);
    } else {
      PlacedSame(s, r);
      AnswersMissed(s, r, done);
    }
  }

  /** The completion about to be applied: issued, not processed, as it was posted, and meant for
      the instance of its generation. */
  lemma ApplyFacts(s: Loop)
    requires Inv(s) && PostedOk(s) && s.pc.Applying? && s.pc.rest != []
    ensures var done := s.pc.rest[0];
            && done.task in s.issued && done.task !in s.processed
            && (forall d :: d in s.posted && d.task == done.task ==> d == done)
            && (Addressed(s, done) ==> s.conns[done.task.fd].instance == done.task.origin)
  {
    hide Conserved, NoneStranded, OpenCopies, Concat, AnsweredOnce;
    var done := s.pc.rest[0];
    HeadIsOpen(s);
    OpenWasIssued(s, done.task);
    OpenNotProcessed(s, done.task);
    assert done in s.posted;
    forall d | d in s.posted && d.task == done.task ensures d == done { PostedOnce(s, d, done); }
  }

  lemma OpenNotProcessed(s: Loop, t: Task)
    requires Conserved(s) && OpenCopies(s, t) > 0
    ensures t !in s.processed
  {
    hide OpenCopies, OpenCount;
    OpenWasIssued(s, t);
    IssuedOnce(s, t);
    assert multiset(s.processed)[t] == 0;
  }

  /** The other steps touch neither connections nor histories. */
  predicate Aside(e: Event) { LeavesStreams(e) && !e.PostCompletion? }

  lemma AsideKeeps(s: Loop, e: Event)
    requires AnswersInv(s) && Enabled(s, e) && Aside(e)
    ensures AnswersInv(Apply(s, e))
  {
    hide AnswersOk, PostedOk, Placed;
    var r := Apply(s, e);
    AsideSame(s, e);
    PlacedSame(s, r);
    AnswersSame(s, r);
    if e.SwapCompletions? { PostedSwaps(s, r); } else { PostedAside(s, e); }
  }

  lemma AsideSame(s: Loop, e: Event)
    requires Enabled(s, e) && Aside(e)
    ensures Same(s, Apply(s, e))
    ensures var r := Apply(s, e); r.pc.Marked? || r.pc.Counted? ==> Dispatching(s, r.pc.fd)
  {
    hide Touch, Overloaded, Deliver, Put;
  }

  lemma PostedAside(s: Loop, e: Event)
    requires PostedOk(s) && Enabled(s, e) && Aside(e) && !e.SwapCompletions?
    ensures PostedOk(Apply(s, e))
  {
    hide Touch, Overloaded, Deliver, Put, PostedOk;
    PostedSame(s, Apply(s, e));
  }

  lemma AnswersStep(s: Loop, e: Event)
    requires Inv(s) && AnswersInv(s) && Enabled(s, e)
    ensures AnswersInv(Apply(s, e))
  {
    hide Inv, AnswersInv, Enabled, Apply;
    match e
    case Accept(fd) => AcceptKeeps(s, fd);
    case OnConn(fd, what) => TouchKeeps(s, fd, what);
    case Dispatch(fd) => DispatchKeeps(s, fd);
    case SubmitRefused(text) => RefusedKeeps(s, text);
    case SubmitAccepted => AcceptedKeeps(s);
    case PostCompletion(i, response) => PostKeeps(s, i, response);
    case ApplyCompletion => ApplyKeeps(s);
    case _ => AsideKeeps(s, e);
  }

  lemma {:induction false} AnswersRun(s: Loop, events: seq<Event>, r: Loop)
    requires Inv(s) && AnswersInv(s) && Run(s, events, r)
    ensures AnswersInv(r)
    decreases |events|
  {
    hide Inv, AnswersInv, Enabled, Apply;
    if events != [] {
      StepInv(s, events[0]);
      AnswersStep(s, events[0]);
      AnswersRun(Apply(s, events[0]), events[1..], r);
    }
  }

  lemma AnswersReachable(capacity: nat, s: Loop)
    requires Reachable(capacity, s)
    ensures Inv(s) && AnswersInv(s)
  {
    hide Inv, Run;
    var events :| Run(Start(capacity), events, s);
    StartInv(capacity);
    assert AnswersInv(Start(capacity));
    AnswersRun(Start(capacity), events, s);
    ReachableInv(capacity, s);
  }

  /** Every request is answered: in every reachable state, for every completion that was posted and
      processed, the connection instance that sent the request is known, open or closed, and its
      output has the response as it was posted - unless a dispatch overlapped another there, the
      instance was closed while it waited, or the response was over the limit and closed it. */
  lemma EveryRequestAnswered(capacity: nat, s: Loop, done: Completion)
    requires Reachable(capacity, s) && done in s.posted && done.task in s.processed
    ensures (exists fd :: fd in s.conns && s.conns[fd].instance == done.task.origin
                          && (Answered(s.conns[fd], done) || s.conns[fd].overlaps > 0))
            || (exists x :: x in s.closed && x.conn.instance == done.task.origin
                            && (Answered(x.conn, done) || x.conn.overlaps > 0 || x.conn.inFlight || OverLimit(x, done)))
  {
    hide Inv;
    AnswersReachable(capacity, s);
    PostedIssuedHere(capacity, s, done);
    var i := done.task.origin;
    assert Open(s, i) || Gone(s, i);
    if Open(s, i) {
      var fd :| fd in s.conns && s.conns[fd].instance == i;
      assert OpenOk(s, fd);
    } else {
      var x :| x in s.closed && x.conn.instance == i;
      assert ClosedOk(s, x);
    }
  }

  lemma PostedIssuedHere(capacity: nat, s: Loop, done: Completion)
    requires Inv(s) && PostedOk(s) && done in s.posted
    ensures done.task in s.issued
  {
    PostedWasIssued(s);
  }

  // ---- The price of an overlap ------------------------------------------------------------------------

  /** How many of the tasks came from this instance. */
  function IssuedTo(issued: seq<Task>, instance: nat): nat {
    if issued == [] then 0
    else
      var n := |issued| - 1;
      IssuedTo(issued[..n], instance) + if issued[n].origin == instance then 1 else 0
  }

  function ResponsesIn(chunks: seq<Chunk>): nat {
    if chunks == [] then 0
    else
      var n := |chunks| - 1;
      ResponsesIn(chunks[..n]) + if chunks[n].Response? then 1 else 0
  }

  /** The connection waits for the completion of a task that was accepted. */
  predicate Waiting(s: Loop, fd: int)
    requires fd in s.conns
  {
    s.conns[fd].inFlight && !Dispatching(s, fd)
  }

  /** Requests accepted, less the one waited for and one for every overlap, were answered. */
  ghost predicate BalancedAt(s: Loop, fd: int)
    requires fd in s.conns
  {
    IssuedTo(s.issued, s.conns[fd].instance)
    == ResponsesIn(s.conns[fd].chunks) + (if Waiting(s, fd) then 1 else 0) + s.conns[fd].overlaps
  }

  ghost predicate Balanced(s: Loop) { forall fd :: fd in s.conns ==> BalancedAt(s, fd) }

  lemma IssuedSnoc(issued: seq<Task>, t: Task, instance: nat)
    ensures IssuedTo(issued + [t], instance) == IssuedTo(issued, instance) + if t.origin == instance then 1 else 0
  {
    assert (issued + [t])[..|issued|] == issued;
  }

  lemma ResponsesSnoc(chunks: seq<Chunk>, k: Chunk)
    ensures ResponsesIn(chunks + [k]) == ResponsesIn(chunks) + if k.Response? then 1 else 0
  {
    assert (chunks + [k])[..|chunks|] == chunks;
  }

  lemma {:induction false} NoneIssued(issued: seq<Task>, instance: nat)
    requires forall t :: t in issued ==> t.origin < instance
    ensures IssuedTo(issued, instance) == 0
    decreases |issued|
  {
    if issued != [] { NoneIssued(issued[..|issued| - 1], instance); }
  }

  lemma BalancedSame(s: Loop, r: Loop)
    requires Balanced(s) && Same(s, r)
    ensures Balanced(r)
  {
    forall fd | fd in r.conns ensures BalancedAt(r, fd) { assert BalancedAt(s, fd); }
  }

  /** One connection changed: it alone has to be looked at. */
  lemma BalancedChanged(s: Loop, r: Loop, fd: int, o: Outcome)
    requires Balanced(s) && fd in s.conns && r.issued == s.issued
    requires r.conns == Put(s, fd, o).conns
    requires forall x :: x != fd ==> Dispatching(r, x) == Dispatching(s, x)
    requires o.Keep? ==> fd in r.conns && BalancedAt(r, fd)
    ensures Balanced(r)
  {
    PutKeeps(s, fd, o);
    forall x | x in r.conns ensures BalancedAt(r, x) {
      if x != fd { assert BalancedAt(s, x); }
    }
  }

  lemma BalancedAccept(s: Loop, fd: int)
    requires Balanced(s) && Placed(s) && Enabled(s, Accept(fd))
    ensures Balanced(Apply(s, Accept(fd)))
  {
    var r := Apply(s, Accept(fd));
    NoneIssued(s.issued, s.accepted);
    forall x | x in r.conns ensures BalancedAt(r, x) {
      if x != fd { assert BalancedAt(s, x); }
    }
  }

  lemma BalancedTouch(s: Loop, fd: int, what: ConnEvent)
    requires Balanced(s) && Enabled(s, OnConn(fd, what))
    ensures Balanced(Apply(s, OnConn(fd, what)))
  {
    hide Touch, ResponsesIn, IssuedTo;
    var r, o := Apply(s, OnConn(fd, what)), Touch(s.conns[fd], what);
    PutKeeps(s, fd, o);
    TouchCounts(s.conns[fd], what);
    assert BalancedAt(s, fd);
    BalancedChanged(s, r, fd, o);
  }

  lemma TouchCounts(c: Conn, e: ConnEvent)
    requires c.offset <= |c.outbound| && (e.Send? ==> e.n <= Pending(c))
    ensures Touch(c, e).Keep? ==>
              var d := Touch(c, e).conn;
              ResponsesIn(d.chunks) == ResponsesIn(c.chunks) && d.overlaps == c.overlaps && d.inFlight == c.inFlight
  {
    if e.ParseFails? { ResponsesSnoc(c.chunks, Refusal(e.text)); }
  }

  lemma BalancedDispatch(s: Loop, fd: int)
    requires Balanced(s) && Enabled(s, Dispatch(fd))
    ensures Balanced(Apply(s, Dispatch(fd)))
  {
    hide ResponsesIn, IssuedTo;
    var r := Apply(s, Dispatch(fd));
    PutKeeps(s, fd, Keep(Mark(s.conns[fd])));
    assert BalancedAt(s, fd);
    BalancedChanged(s, r, fd, Keep(Mark(s.conns[fd])));
  }

  lemma BalancedRefused(s: Loop, text: string)
    requires Balanced(s) && Enabled(s, SubmitRefused(text))
    ensures Balanced(Apply(s, SubmitRefused(text)))
  {
    hide ResponsesIn, IssuedTo;
    var fd := s.pc.fd;
    var r, c := Apply(s, SubmitRefused(text)), Overloaded(s.conns[s.pc.fd], text);
    PutKeeps(s, fd, Keep(c));
    ResponsesSnoc(s.conns[fd].chunks, Refusal(text));
    assert BalancedAt(s, fd);
    BalancedChanged(s, r, fd, Keep(c));
  }

  lemma BalancedAccepted(s: Loop)
    requires Balanced(s) && AnswersOk(s) && Placed(s) && Enabled(s, SubmitAccepted)
    ensures Balanced(Apply(s, SubmitAccepted))
  {
    hide ResponsesIn, IssuedTo, OpenOk, ClosedOk;
    var r, t := Apply(s, SubmitAccepted), NewTask(s, s.pc.fd);
    forall x | x in r.conns ensures BalancedAt(r, x) {
      assert BalancedAt(s, x);
      IssuedSnoc(s.issued, t, s.conns[x].instance);
    }
  }

  lemma BalancedApply(s: Loop)
    requires Balanced(s) && Enabled(s, ApplyCompletion)
    ensures Balanced(Apply(s, ApplyCompletion))
  {
    hide ResponsesIn, IssuedTo;
    var r, done := Apply(s, ApplyCompletion), s.pc.rest[0];
    if Addressed(s, done) {
      var fd := done.task.fd;
      var c, o := s.conns[fd], Answer(s.conns[fd], done);
      PutKeeps(s, fd, o);
      ResponsesSnoc(c.chunks, Response(done.task, done.response));
      assert BalancedAt(s, fd);
      BalancedChanged(s, r, fd, o);
    } else {
      forall x | x in r.conns ensures BalancedAt(r, x) { assert BalancedAt(s, x); }
    }
  }

  lemma BalancedPost(s: Loop, i: nat, response: string)
    requires Balanced(s) && Enabled(s, PostCompletion(i, response))
    ensures Balanced(Apply(s, PostCompletion(i, response)))
  {
    forall x | x in s.conns ensures BalancedAt(Apply(s, PostCompletion(i, response)), x) { assert BalancedAt(s, x); }
  }

  lemma BalancedAside(s: Loop, e: Event)
    requires Balanced(s) && Enabled(s, e) && Aside(e)
    ensures Balanced(Apply(s, e))
  {
    hide Balanced, Enabled, Apply;
    AsideSame(s, e);
    BalancedSame(s, Apply(s, e));
  }

  lemma BalancedStep(s: Loop, e: Event)
    requires Balanced(s) && Placed(s) && AnswersOk(s) && Enabled(s, e)
    ensures Balanced(Apply(s, e))
  {
    hide Balanced, Placed, AnswersOk, Enabled, Apply;
    match e
    case Accept(fd) => BalancedAccept(s, fd);
    case OnConn(fd, what) => BalancedTouch(s, fd, what);
    case Dispatch(fd) => BalancedDispatch(s, fd);
    case SubmitRefused(text) => BalancedRefused(s, text);
    case SubmitAccepted => BalancedAccepted(s);
    case PostCompletion(i, response) => BalancedPost(s, i, response);
    case ApplyCompletion => BalancedApply(s);
    case _ => BalancedAside(s, e);
  }

  lemma {:induction false} BalancedRun(s: Loop, events: seq<Event>, r: Loop)
    requires Inv(s) && AnswersInv(s) && Balanced(s) && Run(s, events, r)
    ensures Balanced(r)
    decreases |events|
  {
    hide Inv, Balanced, Placed, PostedOk, AnswersOk, Enabled, Apply;
    if events != [] {
      StepInv(s, events[0]);
      AnswersStep(s, events[0]);
      BalancedStep(s, events[0]);
      BalancedRun(Apply(s, events[0]), events[1..], r);
    }
  }

  /** The exact count, in every reachable state: of the requests of an open connection that the pool
      accepted, all are answered but the one it waits for and one for every overlap. So a
      connection that waits for nothing has answered all of them if and only if none overlapped. */
  lemma AnsweredButForOverlaps(capacity: nat, s: Loop, fd: int)
    requires Reachable(capacity, s) && fd in s.conns
    ensures IssuedTo(s.issued, s.conns[fd].instance)
            == ResponsesIn(s.conns[fd].chunks) + (if Waiting(s, fd) then 1 else 0) + s.conns[fd].overlaps
    ensures !Waiting(s, fd) ==>
              (ResponsesIn(s.conns[fd].chunks) == IssuedTo(s.issued, s.conns[fd].instance)
               <==> s.conns[fd].overlaps == 0)
  {
    hide Inv, Run, AnswersInv, IssuedTo, ResponsesIn;
    var events :| Run(Start(capacity), events, s);
    StartInv(capacity);
    StartAnswers(capacity);
    BalancedRun(Start(capacity), events, s);
    assert BalancedAt(s, fd);
  }

  lemma StartAnswers(capacity: nat)
    ensures AnswersInv(Start(capacity)) && Balanced(Start(capacity))
  {}

  /** An overlap is reached: a second request on a connection whose first is still queued. */
  lemma OverlapReachably() returns (s: Loop)
    ensures Reachable(1, s) && 3 in s.conns && s.conns[3].overlaps == 1 && s.conns[3].inFlight
  {
    hide Apply, Enabled, Run, Reachable;
    Accepts(Start(1), 3);
    var a := Apply(Start(1), Accept(3));
    Dispatches(a, 3);
    var b := Apply(a, Dispatch(3));
    var d := Queues(b, 3);
    s := Overlaps(d, 3);
    RunNothing(s);
    RunFirst(d, Dispatch(3), [], s);
    var events := [Dispatch(3)] + [];
    RunFirst(Apply(b, CountTask), SubmitAccepted, events, s);
    events := [SubmitAccepted] + events;
    RunFirst(b, CountTask, events, s);
    events := [CountTask] + events;
    RunFirst(a, Dispatch(3), events, s);
    events := [Dispatch(3)] + events;
    RunFirst(Start(1), Accept(3), events, s);
    FromStart(1, [Accept(3)] + events, s);
  }

  lemma Queues(s: Loop, fd: int) returns (r: Loop)
    requires s.pc == Marked(fd) && fd in s.conns && |s.queue| < s.capacity && !s.stopping
    requires s.conns[fd].offset <= |s.conns[fd].outbound| && s.conns[fd].inFlight
    ensures Enabled(s, CountTask) && Enabled(Apply(s, CountTask), SubmitAccepted)
    ensures r == Apply(Apply(s, CountTask), SubmitAccepted)
    ensures r.pc.Idle? && r.conns == s.conns
  {
    r := Apply(Apply(s, CountTask), SubmitAccepted);
  }

  lemma Overlaps(s: Loop, fd: int) returns (r: Loop)
    requires s.pc.Idle? && Has(s, fd) && s.conns[fd].inFlight
    ensures Enabled(s, Dispatch(fd)) && r == Apply(s, Dispatch(fd))
    ensures fd in r.conns && r.conns[fd].overlaps == s.conns[fd].overlaps + 1 && r.conns[fd].inFlight
  {
    r := Apply(s, Dispatch(fd));
  }
}
