/** One event loop, its connections, the shared request pool and the completion
    queue, as a step machine. A step is what happens between two points where
    another thread can interfere; pool steps may come between any two loop steps.
    The other loops appear as foreign tasks in the pool and as foreign shutdowns.
    Descriptors are reused freely after a close. */
module EventLoop {
  import opened Sets

  const MAX_OUTBOUND_BYTES := 1048576

  /** A request handed to the pool. `id` and `origin` are history: the how-manieth
      accepted task it is, and the connection instance whose parser produced it. */
  datatype Task = Task(id: nat, fd: int, generation: nat, origin: nat)

  datatype Completion = Completion(task: Task, response: string)

  datatype Job = Own(task: Task) | Foreign

  /** What was queued for sending, and why. */
  datatype Chunk = Response(task: Task, text: string) | Refusal(text: string)

  datatype Conn = Conn(
    instance: nat,          // history: the how-manieth accepted connection
    generation: nat,
    inFlight: bool,
    peerClosed: bool,
    outbound: string,
    offset: nat,
    chunks: seq<Chunk>,     // history: everything ever appended to outbound
    wire: string,           // history: everything the kernel took
    overlaps: nat)          // history: dispatches begun while another was in flight

  datatype Cause =
    | PeerError | ReadError | SendError | EpollError    // socket or epoll failure
    | LimitBreach                                       // outbound limit
    | Finished                                          // peer closed, all sent
    | Drained                                           // shutdown, nothing pending

  datatype Closed = Closed(conn: Conn, cause: Cause)

  /** Where the loop thread is. */
  datatype Pc =
    | Idle
    | Marked(fd: int)                       // dispatching: request_in_flight is set
    | Counted(fd: int)                      // ... and outstanding_tasks incremented
    | Applying(rest: seq<Completion>)       // process_completions after the swap

  datatype Loop = Loop(
    shutdown: bool,
    draining: bool,
    stopping: bool,                         // the pool's flag
    capacity: nat,
    conns: map<int, Conn>,
    nextGeneration: nat,
    queue: seq<Job>,
    running: seq<Task>,
    completions: seq<Completion>,
    pc: Pc,
    outstanding: int,
    accepted: nat,                          // history: connections so far
    issued: seq<Task>,                      // history: tasks the pool accepted
    posted: seq<Completion>,                // history: completions the tasks posted
    processed: seq<Task>,                   // history: tasks whose completion was applied
    closed: seq<Closed>)                    // history

  function Start(capacity: nat): Loop {
    Loop(false, false, false, capacity, map[], 1, [], [], [], Idle, 0, 0, [], [], [], [])
  }

  // ---- Connections ---------------------------------------------------------------

  function Pending(c: Conn): nat
    requires c.offset <= |c.outbound|
  {
    |c.outbound| - c.offset
  }

  function TextOf(chunk: Chunk): string { chunk.text }

  function Concat(chunks: seq<Chunk>): string {
    if chunks == [] then "" else Concat(chunks[..|chunks| - 1]) + TextOf(chunks[|chunks| - 1])
  }

  function Enqueue(c: Conn, chunk: Chunk): (r: Conn)
    ensures r.instance == c.instance && r.generation == c.generation && r.inFlight == c.inFlight && r.wire == c.wire
  {
    c.(outbound := c.outbound + TextOf(chunk), chunks := c.chunks + [chunk])
  }

  function Sent(c: Conn, n: nat): (r: Conn)
    requires c.offset + n <= |c.outbound|
    ensures r.instance == c.instance && r.generation == c.generation && r.inFlight == c.inFlight && r.chunks == c.chunks
  {
    c.(offset := c.offset + n, wire := c.wire + c.outbound[c.offset..c.offset + n])
  }

  /** Everything handed to the kernel plus what is pending is everything queued. */
  predicate StreamOk(c: Conn) {
    c.offset <= |c.outbound| && c.wire + c.outbound[c.offset..] == Concat(c.chunks)
  }

  // ---- Steps on one connection -------------------------------------------------------

  datatype ConnEvent =
    | PeerCloses                    // EPOLLRDHUP or read() == 0
    | ParseFails(text: string)      // the 400 response
    | DispatchFails                 // modify_fd failed while dispatching
    | Send(n: nat)                  // one successful send()
    | FlushDone                     // all sent: reset, close if the peer did
    | Fail(cause: Cause)            // EPOLLERR/HUP, read, send or epoll error
    | CloseIdle                     // peer closed, nothing pending or in flight
    | DrainClose                    // shutdown, nothing pending or in flight

  /** What becomes of the connection. */
  datatype Outcome = Keep(conn: Conn) | Drop(conn: Conn, cause: Cause)

  predicate Allowed(pc: Pc, draining: bool, c: Conn, e: ConnEvent)
    requires c.offset <= |c.outbound|
  {
    match e
    case PeerCloses => pc.Idle?
    case ParseFails(_) => pc.Idle?
    case DispatchFails => pc.Idle?
    case Send(n) => Quiet(pc) && 0 < n <= Pending(c)
    case FlushDone => Quiet(pc) && Pending(c) == 0
    case Fail(cause) => Quiet(pc) && (cause.PeerError? || cause.ReadError? || cause.SendError? || cause.EpollError?)
    case CloseIdle => pc.Idle? && !c.inFlight && c.peerClosed && Pending(c) == 0
    case DrainClose => pc.Idle? && draining && !c.inFlight && Pending(c) == 0
  }

  /** Points of the loop thread where it may flush or close connections. */
  predicate Quiet(pc: Pc) { pc.Idle? || pc.Applying? }

  function Touch(c: Conn, e: ConnEvent): (o: Outcome)
    requires c.offset <= |c.outbound|
    requires e.Send? ==> e.n <= Pending(c)
    ensures o.conn.generation == c.generation && o.conn.instance == c.instance
    ensures o.Keep? ==> o.conn.inFlight == c.inFlight
  {
    match e
    case PeerCloses => Keep(c.(peerClosed := true))
    case ParseFails(text) => Refuse(c, text)
    case DispatchFails => Drop(c.(inFlight := true), EpollError)
    case Send(n) => Keep(Sent(c, n))
    case FlushDone =>
      var d := c.(outbound := "", offset := 0);
      if d.peerClosed then Drop(d, Finished) else Keep(d)
    case Fail(cause) => Drop(c, cause)
    case CloseIdle => Drop(c, Finished)
    case DrainClose => Drop(c, Drained)
  }

  function Refuse(c: Conn, text: string): (o: Outcome)
    requires c.offset <= |c.outbound|
    ensures o.conn.generation == c.generation && o.conn.instance == c.instance && o.conn.inFlight == c.inFlight
  {
    if Pending(c) + |text| > MAX_OUTBOUND_BYTES then Drop(c, LimitBreach)
    else Keep(Enqueue(c, Refusal(text)).(peerClosed := true))
  }

  /** A completion for a connection that waits for it. */
  function Answer(c: Conn, done: Completion): (o: Outcome)
    requires c.offset <= |c.outbound|
    ensures o.conn.generation == c.generation && o.conn.instance == c.instance && !o.conn.inFlight
  {
    var d := c.(inFlight := false);
    if Pending(d) + |done.response| <= MAX_OUTBOUND_BYTES then
      Keep(Enqueue(d, Response(done.task, done.response)).(peerClosed := true))
    else Drop(d, LimitBreach)
  }

  // ---- Steps ------------------------------------------------------------------------

  datatype Event =
    // the loop thread
    | Accept(fd: int)
    | OnConn(fd: int, what: ConnEvent)
    | Dispatch(fd: int)
    | CountTask
    | SubmitAccepted
    | SubmitRefused(text: string)           // the 503 response
    | BeginDrain
    | SwapCompletions
    | ApplyCompletion
    | AppliedAll
    // everybody else
    | RequestShutdown
    | StartTask
    | PostCompletion(i: nat, response: string)
    | ForeignSubmit
    | ForeignShutdown

  predicate Has(s: Loop, fd: int) { fd in s.conns && s.conns[fd].offset <= |s.conns[fd].outbound| }

  predicate Enabled(s: Loop, e: Event) {
    match e
    case Accept(fd) => s.pc.Idle? && !s.draining && fd !in s.conns   // shutdown may be requested after its test
    case OnConn(fd, what) => Has(s, fd) && Allowed(s.pc, s.draining, s.conns[fd], what)
    case Dispatch(fd) => s.pc.Idle? && Has(s, fd)
    case CountTask => s.pc.Marked?
    case SubmitAccepted => s.pc.Counted? && s.pc.fd in s.conns && !s.stopping && |s.queue| < s.capacity
    case SubmitRefused(text) => s.pc.Counted? && s.pc.fd in s.conns && (s.stopping || |s.queue| >= s.capacity)
    case BeginDrain => s.pc.Idle? && s.shutdown
    case SwapCompletions => s.pc.Idle?
    case ApplyCompletion => s.pc.Applying? && s.pc.rest != []
    case AppliedAll => s.pc == Applying([])
    case RequestShutdown => true
    case StartTask => s.queue != []
    case PostCompletion(i, response) => i < |s.running|
    case ForeignSubmit => !s.stopping && |s.queue| < s.capacity
    case ForeignShutdown => true
  }

  function Put(s: Loop, fd: int, o: Outcome): Loop {
    match o
    case Keep(c) => s.(conns := s.conns[fd := c])
    case Drop(c, cause) => s.(conns := s.conns - {fd}, closed := s.closed + [Closed(c, cause)])
  }

  /** The completion counts only for the connection that is still the one it was
      made for and still waits for it. */
  predicate Addressed(s: Loop, done: Completion) {
    var fd := done.task.fd;
    Has(s, fd) && s.conns[fd].generation == done.task.generation && s.conns[fd].inFlight
  }

  function Deliver(s: Loop, done: Completion): Loop {
    if Addressed(s, done) then Put(s, done.task.fd, Answer(s.conns[done.task.fd], done)) else s
  }

  function NewConn(s: Loop): Conn { Conn(s.accepted, s.nextGeneration, false, false, "", 0, [], "", 0) }

  /** A dispatch begins. Nothing keeps it from beginning while another is in flight. */
  function Mark(c: Conn): (r: Conn)
    ensures r.instance == c.instance && r.generation == c.generation && r.inFlight && r.chunks == c.chunks
  {
    c.(inFlight := true, overlaps := c.overlaps + if c.inFlight then 1 else 0)
  }

  function NewTask(s: Loop, fd: int): Task
    requires fd in s.conns
  {
    Task(|s.issued|, fd, s.conns[fd].generation, s.conns[fd].instance)
  }

  /** The 503 path clears the in-flight flag and appends without a limit check. */
  function Overloaded(c: Conn, text: string): (r: Conn)
    ensures r.generation == c.generation && r.instance == c.instance && !r.inFlight
  {
    Enqueue(c.(inFlight := false), Refusal(text)).(peerClosed := true)
  }

  function Apply(s: Loop, e: Event): Loop
    requires Enabled(s, e)
  {
    match e
    case Accept(fd) => Put(s, fd, Keep(NewConn(s))).(nextGeneration := s.nextGeneration + 1, accepted := s.accepted + 1)
    case OnConn(fd, what) => Put(s, fd, Touch(s.conns[fd], what))
    case Dispatch(fd) => Put(s, fd, Keep(Mark(s.conns[fd]))).(pc := Marked(fd))
    case CountTask => s.(outstanding := s.outstanding + 1, pc := Counted(s.pc.fd))
    case SubmitAccepted =>
      var t := NewTask(s, s.pc.fd);
      s.(queue := s.queue + [Own(t)], issued := s.issued + [t], pc := Idle)
    case SubmitRefused(text) =>
      Put(s, s.pc.fd, Keep(Overloaded(s.conns[s.pc.fd], text))).(outstanding := s.outstanding - 1, pc := Idle)
    case BeginDrain => s.(draining := true, stopping := true)
    case SwapCompletions => s.(pc := Applying(s.completions), completions := [])
    case ApplyCompletion =>
      var done := s.pc.rest[0];
      Deliver(s, done).(outstanding := s.outstanding - 1, processed := s.processed + [done.task],
                        pc := Applying(s.pc.rest[1..]))
    case AppliedAll => s.(pc := Idle)
    case RequestShutdown => s.(shutdown := true)
    case StartTask =>
      if s.queue[0].Own? then s.(queue := s.queue[1..], running := s.running + [s.queue[0].task])
      else s.(queue := s.queue[1..])
    case PostCompletion(i, response) =>
      s.(running := s.running[..i] + s.running[i + 1..],
         completions := s.completions + [Completion(s.running[i], response)],
         posted := s.posted + [Completion(s.running[i], response)])
    case ForeignSubmit => s.(queue := s.queue + [Foreign])
    case ForeignShutdown => s.(stopping := true)
  }

  // ---- Conservation of tasks --------------------------------------------------------

  function Owned(queue: seq<Job>): seq<Task> {
    if queue == [] then []
    else
      var front := Owned(queue[..|queue| - 1]);
      match queue[|queue| - 1]
      case Own(t) => front + [t]
      case Foreign => front
  }

  function TasksOf(cs: seq<Completion>): (ts: seq<Task>)
    ensures |ts| == |cs|
  {
    seq(|cs|, i requires 0 <= i < |cs| => cs[i].task)
  }

  function Rest(pc: Pc): seq<Completion> { if pc.Applying? then pc.rest else [] }

  /** How often a task is open: accepted and its completion not yet applied. */
  ghost function OpenCopies(s: Loop, t: Task): nat {
    multiset(Owned(s.queue))[t] + multiset(s.running)[t] + multiset(TasksOf(s.completions))[t]
      + multiset(TasksOf(Rest(s.pc)))[t]
  }

  function OpenCount(s: Loop): nat {
    |Owned(s.queue)| + |s.running| + |s.completions| + |Rest(s.pc)|
  }

  lemma {:induction false} OwnedConcat(a: seq<Job>, b: seq<Job>)
    ensures Owned(a + b) == Owned(a) + Owned(b)
    decreases |b|
  {
    if b == [] {
      assert a + b == a;
    } else {
      var n := |b| - 1;
      OwnedConcat(a, b[..n]);
      assert (a + b)[..|a + b| - 1] == a + b[..n];
    }
  }

  lemma OwnedOne(j: Job)
    ensures Owned([j]) == if j.Own? then [j.task] else []
  {
    assert [j][..0] == [];
  }

  /** Tickets: what is open and what was processed is, each exactly once, what the
      pool accepted; and the counter counts what is open. */
  ghost predicate Conserved(s: Loop) {
    && (forall t: Task :: OpenCopies(s, t) + multiset(s.processed)[t] == multiset(s.issued)[t])
    && s.outstanding == OpenCount(s) + (if s.pc.Counted? then 1 else 0)
    && forall i :: 0 <= i < |s.issued| ==> s.issued[i].id == i
  }

  /** The fields that tickets depend on. */
  predicate SameTickets(s: Loop, r: Loop) {
    && r.queue == s.queue && r.running == s.running && r.completions == s.completions && Rest(r.pc) == Rest(s.pc)
    && r.processed == s.processed && r.issued == s.issued
    && r.outstanding - (if r.pc.Counted? then 1 else 0) == s.outstanding - (if s.pc.Counted? then 1 else 0)
  }

  lemma SameConserved(s: Loop, r: Loop)
    requires Conserved(s) && SameTickets(s, r)
    ensures Conserved(r)
  {
    hide Owned, TasksOf;
    forall t: Task ensures OpenCopies(r, t) + multiset(r.processed)[t] == multiset(r.issued)[t] {
      assert OpenCopies(r, t) == OpenCopies(s, t);
    }
  }

  lemma Snoc<T>(a: seq<T>, x: T, t: T)
    ensures multiset(a + [x])[t] == multiset(a)[t] + (if t == x then 1 else 0)
  {}

  lemma Cons<T>(a: seq<T>, x: T, t: T)
    ensures multiset([x] + a)[t] == multiset(a)[t] + (if t == x then 1 else 0)
  {}

  lemma Remove<T>(a: seq<T>, i: nat, t: T)
    requires i < |a|
    ensures multiset(a)[t] == multiset(a[..i] + a[i + 1..])[t] + (if t == a[i] then 1 else 0)
  {
    assert a == a[..i] + ([a[i]] + a[i + 1..]);
  }

  lemma OwnedFirst(queue: seq<Job>)
    requires queue != []
    ensures Owned(queue) == (if queue[0].Own? then [queue[0].task] else []) + Owned(queue[1..])
  {
    hide Owned;
    assert queue == [queue[0]] + queue[1..];
    OwnedConcat([queue[0]], queue[1..]);
    OwnedOne(queue[0]);
  }

  lemma StartTaskConserved(s: Loop, r: Loop)
    requires Conserved(s) && s.queue != []
    requires r == s.(queue := s.queue[1..],
                     running := if s.queue[0].Own? then s.running + [s.queue[0].task] else s.running)
    ensures Conserved(r)
  {
    hide Owned, TasksOf;
    OwnedFirst(s.queue);
    forall t: Task ensures OpenCopies(r, t) + multiset(r.processed)[t] == multiset(r.issued)[t] {
      assert OpenCopies(s, t) + multiset(s.processed)[t] == multiset(s.issued)[t];
      if s.queue[0].Own? {
        Cons(Owned(r.queue), s.queue[0].task, t);
        Snoc(s.running, s.queue[0].task, t);
      } else {
        assert [] + Owned(r.queue) == Owned(r.queue);
      }
    }
  }

  lemma TasksSnoc(cs: seq<Completion>, c: Completion)
    ensures TasksOf(cs + [c]) == TasksOf(cs) + [c.task]
  {}

  lemma PostConserved(s: Loop, r: Loop, i: nat, response: string)
    requires Conserved(s) && i < |s.running|
    requires r == s.(running := s.running[..i] + s.running[i + 1..],
                     completions := s.completions + [Completion(s.running[i], response)],
                     posted := s.posted + [Completion(s.running[i], response)])
    ensures Conserved(r)
  {
    hide Owned, TasksOf;
    TasksSnoc(s.completions, Completion(s.running[i], response));
    forall t: Task ensures OpenCopies(r, t) + multiset(r.processed)[t] == multiset(r.issued)[t] {
      assert OpenCopies(s, t) + multiset(s.processed)[t] == multiset(s.issued)[t];
      Remove(s.running, i, t);
      Snoc(TasksOf(s.completions), s.running[i], t);
    }
  }

  lemma SubmitConserved(s: Loop, r: Loop, task: Task)
    requires Conserved(s) && s.pc.Counted? && task.id == |s.issued|
    requires r == s.(queue := s.queue + [Own(task)], issued := s.issued + [task], pc := Idle)
    ensures Conserved(r)
  {
    hide Owned, TasksOf;
    OwnedConcat(s.queue, [Own(task)]);
    OwnedOne(Own(task));
    forall t: Task ensures OpenCopies(r, t) + multiset(r.processed)[t] == multiset(r.issued)[t] {
      assert OpenCopies(s, t) + multiset(s.processed)[t] == multiset(s.issued)[t];
      Snoc(Owned(s.queue), task, t);
      Snoc(s.issued, task, t);
    }
  }

  lemma ForeignConserved(s: Loop, r: Loop)
    requires Conserved(s) && r == s.(queue := s.queue + [Foreign])
    ensures Conserved(r)
  {
    hide Owned, TasksOf;
    OwnedConcat(s.queue, [Foreign]);
    OwnedOne(Foreign);
    assert Owned(s.queue) + [] == Owned(s.queue);
    forall t: Task ensures OpenCopies(r, t) + multiset(r.processed)[t] == multiset(r.issued)[t] {
      assert OpenCopies(s, t) + multiset(s.processed)[t] == multiset(s.issued)[t];
    }
  }

  lemma SwapConserved(s: Loop, r: Loop)
    requires Conserved(s) && s.pc.Idle? && r == s.(pc := Applying(s.completions), completions := [])
    ensures Conserved(r)
  {
    hide Owned;
    forall t: Task ensures OpenCopies(r, t) + multiset(r.processed)[t] == multiset(r.issued)[t] {
      assert OpenCopies(s, t) + multiset(s.processed)[t] == multiset(s.issued)[t];
      assert TasksOf([]) == [];
    }
  }

  lemma TasksFirst(cs: seq<Completion>)
    requires cs != []
    ensures TasksOf(cs) == [cs[0].task] + TasksOf(cs[1..])
  {}

  lemma ApplyConserved(s: Loop, r: Loop)
    requires Conserved(s) && s.pc.Applying? && s.pc.rest != []
    requires r.queue == s.queue && r.running == s.running && r.completions == s.completions && r.issued == s.issued
    requires r.outstanding == s.outstanding - 1 && r.processed == s.processed + [s.pc.rest[0].task]
            && r.pc == Applying(s.pc.rest[1..])
    ensures Conserved(r)
  {
    hide Owned, TasksOf;
    var task := s.pc.rest[0].task;
    TasksFirst(s.pc.rest);
    forall t: Task ensures OpenCopies(r, t) + multiset(r.processed)[t] == multiset(r.issued)[t] {
      assert OpenCopies(s, t) + multiset(s.processed)[t] == multiset(s.issued)[t];
      Cons(TasksOf(s.pc.rest[1..]), task, t);
      Snoc(s.processed, task, t);
    }
  }

  lemma ConservedStep(s: Loop, e: Event)
    requires Conserved(s) && Enabled(s, e)
    ensures Conserved(Apply(s, e))
  {
    hide Conserved, OpenCopies, OpenCount, SameTickets, Touch, Answer, Overloaded;
    var r := Apply(s, e);
    match e
    case StartTask => StartTaskConserved(s, r);
    case PostCompletion(i, response) => PostConserved(s, r, i, response);
    case SubmitAccepted => SubmitConserved(s, r, r.issued[|s.issued|]);
    case ForeignSubmit => ForeignConserved(s, r);
    case SwapCompletions => SwapConserved(s, r);
    case ApplyCompletion => ApplyConserved(s, r);
    case _ =>
      KeepsTickets(s, e);
      SameConserved(s, r);
  }

  lemma KeepsTickets(s: Loop, e: Event)
    requires Enabled(s, e) && !e.StartTask? && !e.PostCompletion? && !e.SubmitAccepted? && !e.ForeignSubmit?
    requires !e.SwapCompletions? && !e.ApplyCompletion?
    ensures SameTickets(s, Apply(s, e))
  {
    hide Touch, Overloaded;
  }

  // ---- Output streams and identities -----------------------------------------------

  /** A connection of the loop or of its history: its output stream is intact, and
      every response in it belongs to a request of this very instance and is there once. */
  predicate ConnOk(accepted: nat, processed: seq<Task>, c: Conn) {
    && StreamOk(c)
    && c.generation == c.instance + 1 && c.instance < accepted
    && (forall k :: k in c.chunks && k.Response? ==> k.task.origin == c.instance && k.task in processed)
    && AnsweredOnce(c.chunks)
  }

  predicate AnsweredOnce(chunks: seq<Chunk>) {
    forall i, j :: 0 <= i < j < |chunks| && chunks[i].Response? && chunks[j].Response? ==>
      chunks[i].task != chunks[j].task
  }

  predicate NotAnswered(chunks: seq<Chunk>, t: Task) { forall k :: k in chunks && k.Response? ==> k.task != t }

  predicate Graceful(cause: Cause) { cause.Finished? || cause.Drained? }

  ghost predicate Streams(s: Loop) {
    && s.nextGeneration == s.accepted + 1
    && (forall fd :: fd in s.conns ==> ConnOk(s.accepted, s.processed, s.conns[fd]))
    && (forall c :: c in s.closed ==>
          ConnOk(s.accepted, s.processed, c.conn) && (Graceful(c.cause) ==> c.conn.wire == Concat(c.conn.chunks)))
    && (forall t :: t in s.issued ==> t.generation == t.origin + 1)
  }

  /** Histories only grow. */
  predicate Grows(s: Loop, r: Loop) {
    && s.accepted <= r.accepted && r.nextGeneration == r.accepted + 1 && s.processed <= r.processed
    && forall t :: t in r.issued ==> t.generation == t.origin + 1
  }

  lemma ConnOkGrows(s: Loop, r: Loop, c: Conn)
    requires Grows(s, r) && ConnOk(s.accepted, s.processed, c)
    ensures ConnOk(r.accepted, r.processed, c)
  {
    hide StreamOk;
  }

  lemma StreamsSame(s: Loop, r: Loop)
    requires Streams(s) && Grows(s, r) && r.conns == s.conns && r.closed == s.closed
    ensures Streams(r)
  {
    hide ConnOk;
    forall fd | fd in r.conns ensures ConnOk(r.accepted, r.processed, r.conns[fd]) { ConnOkGrows(s, r, s.conns[fd]); }
    forall c | c in r.closed ensures ConnOk(r.accepted, r.processed, c.conn) { ConnOkGrows(s, r, c.conn); }
  }

  /** Putting back a good connection, or closing it for a good reason. */
  predicate OutcomeOk(accepted: nat, processed: seq<Task>, o: Outcome) {
    ConnOk(accepted, processed, o.conn) &&
    (o.Drop? && Graceful(o.cause) ==> o.conn.wire == Concat(o.conn.chunks))
  }

  lemma StreamsPut(s: Loop, r: Loop, fd: int, o: Outcome)
    requires Streams(s) && Grows(s, r) && r.conns == Put(s, fd, o).conns && r.closed == Put(s, fd, o).closed
    requires OutcomeOk(r.accepted, r.processed, o)
    ensures Streams(r)
  {
    hide ConnOk, Concat;
    forall x | x in r.conns ensures ConnOk(r.accepted, r.processed, r.conns[x]) {
      if x != fd { ConnOkGrows(s, r, s.conns[x]); }
    }
    forall x | x in r.closed
      ensures ConnOk(r.accepted, r.processed, x.conn) && (Graceful(x.cause) ==> x.conn.wire == Concat(x.conn.chunks))
    {
      if x in s.closed { ConnOkGrows(s, r, x.conn); } else { assert x == Closed(o.conn, o.cause); }
    }
  }

  lemma EnqueueOk(c: Conn, chunk: Chunk)
    requires StreamOk(c)
    ensures StreamOk(Enqueue(c, chunk))
  {
    var d := Enqueue(c, chunk);
    assert d.chunks[..|d.chunks| - 1] == c.chunks;
    assert d.outbound[d.offset..] == c.outbound[c.offset..] + TextOf(chunk);
    assert c.wire + (c.outbound[c.offset..] + TextOf(chunk)) == (c.wire + c.outbound[c.offset..]) + TextOf(chunk);
  }

  lemma SentOk(c: Conn, n: nat)
    requires StreamOk(c) && c.offset + n <= |c.outbound|
    ensures StreamOk(Sent(c, n))
  {
    hide Concat;
    assert c.outbound[c.offset..] == c.outbound[c.offset..c.offset + n] + c.outbound[c.offset + n..];
    assert (c.wire + c.outbound[c.offset..c.offset + n]) + c.outbound[c.offset + n..]
      == c.wire + c.outbound[c.offset..];
  }

  lemma AllSent(c: Conn)
    requires StreamOk(c) && Pending(c) == 0
    ensures c.wire == Concat(c.chunks) && StreamOk(c.(outbound := "", offset := 0))
  {
    hide Concat;
    assert c.outbound[c.offset..] == "" && c.wire + "" == c.wire;
  }

  lemma EnqueueConnOk(accepted: nat, processed: seq<Task>, c: Conn, chunk: Chunk)
    requires ConnOk(accepted, processed, c)
    requires chunk.Response? ==>
              chunk.task.origin == c.instance && chunk.task in processed && NotAnswered(c.chunks, chunk.task)
    ensures ConnOk(accepted, processed, Enqueue(c, chunk))
  {
    hide StreamOk;
    EnqueueOk(c, chunk);
  }

  lemma StreamsParts(s: Loop)
    requires Streams(s)
    ensures Grows(s, s) && forall fd :: fd in s.conns ==> ConnOk(s.accepted, s.processed, s.conns[fd])
  {
    hide ConnOk;
  }

  lemma FlagsConnOk(accepted: nat, processed: seq<Task>, c: Conn, inFlight: bool)
    requires ConnOk(accepted, processed, c)
    ensures ConnOk(accepted, processed, c.(inFlight := inFlight)) && ConnOk(accepted, processed, c.(peerClosed := true))
  {
    hide Concat;
  }

  lemma MarkConnOk(accepted: nat, processed: seq<Task>, c: Conn)
    requires ConnOk(accepted, processed, c)
    ensures ConnOk(accepted, processed, Mark(c))
  {
    hide Concat;
  }

  lemma RefuseOk(accepted: nat, processed: seq<Task>, c: Conn, text: string)
    requires ConnOk(accepted, processed, c)
    ensures ConnOk(accepted, processed, Enqueue(c, Refusal(text)).(peerClosed := true))
  {
    hide ConnOk, Enqueue;
    EnqueueConnOk(accepted, processed, c, Refusal(text));
    FlagsConnOk(accepted, processed, Enqueue(c, Refusal(text)), true);
  }

  /** Every step on a connection keeps its stream; a graceful close leaves nothing
      unsent. */
  lemma TouchOk(accepted: nat, processed: seq<Task>, pc: Pc, draining: bool, c: Conn, e: ConnEvent)
    requires c.offset <= |c.outbound| && ConnOk(accepted, processed, c) && Allowed(pc, draining, c, e)
    ensures OutcomeOk(accepted, processed, Touch(c, e))
  {
    hide Concat, StreamOk, Enqueue;
    if Pending(c) == 0 { AllSent(c); }
    match e
    case PeerCloses => FlagsConnOk(accepted, processed, c, true);
    case ParseFails(text) => RefuseOk(accepted, processed, c, text);
    case DispatchFails => FlagsConnOk(accepted, processed, c, true);
    case Send(n) => SentOk(c, n);
    case _ =>
  }

  lemma AnswerOk(accepted: nat, processed: seq<Task>, c: Conn, done: Completion)
    requires ConnOk(accepted, processed, c) && done.task.origin == c.instance && done.task in processed
    requires c.offset <= |c.outbound| && NotAnswered(c.chunks, done.task)
    ensures OutcomeOk(accepted, processed, Answer(c, done))
  {
    hide ConnOk, Enqueue, Concat, NotAnswered;
    var d := c.(inFlight := false);
    FlagsConnOk(accepted, processed, c, false);
    assert d.instance == c.instance;
    EnqueueConnOk(accepted, processed, d, Response(done.task, done.response));
    FlagsConnOk(accepted, processed, Enqueue(d, Response(done.task, done.response)), true);
  }

  /** Whoever is open was issued. */
  lemma OpenWasIssued(s: Loop, t: Task)
    requires Conserved(s) && OpenCopies(s, t) > 0
    ensures t in s.issued
  {
    hide OpenCopies, OpenCount;
    assert multiset(s.issued)[t] > 0;
  }

  /** Whoever is open has not been answered. */
  lemma OpenNotAnswered(s: Loop, t: Task, c: Conn)
    requires Conserved(s) && OpenCopies(s, t) > 0 && ConnOk(s.accepted, s.processed, c)
    ensures NotAnswered(c.chunks, t)
  {
    hide OpenCopies, OpenCount, StreamOk, AnsweredOnce;
    OpenWasIssued(s, t);
    IssuedOnce(s, t);
    assert multiset(s.processed)[t] == 0;
  }

  lemma HeadIsOpen(s: Loop)
    requires s.pc.Applying? && s.pc.rest != []
    ensures OpenCopies(s, s.pc.rest[0].task) > 0
  {
    hide Owned;
    assert TasksOf(s.pc.rest)[0] == s.pc.rest[0].task;
    assert s.pc.rest[0].task in TasksOf(s.pc.rest);
  }

  lemma StreamsApplyStep(s: Loop)
    requires Streams(s) && Conserved(s) && s.pc.Applying? && s.pc.rest != []
    ensures Streams(Apply(s, ApplyCompletion))
  {
    hide Streams, ConnOk, Conserved, OpenCopies, Answer, NotAnswered;
    var r := Apply(s, ApplyCompletion);
    var done := s.pc.rest[0];
    HeadIsOpen(s);
    OpenWasIssued(s, done.task);
    StreamsParts(s);
    if Addressed(s, done) {
      var c := s.conns[done.task.fd];
      ConnOkGrows(s, r, c);
      OpenNotAnswered(s, done.task, c);
      assert done.task in r.processed by { assert r.processed[|s.processed|] == done.task; }
      SameOrigin(r.accepted, r.processed, c);
      AnswerOk(r.accepted, r.processed, c, done);
      StreamsPut(s, r, done.task.fd, Answer(c, done));
    } else {
      StreamsSame(s, r);
    }
  }

  lemma SameOrigin(accepted: nat, processed: seq<Task>, c: Conn)
    requires ConnOk(accepted, processed, c)
    ensures c.generation == c.instance + 1
  {}

  lemma StreamsAccept(s: Loop, fd: int)
    requires Streams(s) && Enabled(s, Accept(fd))
    ensures Streams(Apply(s, Accept(fd)))
  {
    hide Streams, ConnOk;
    StreamsParts(s);
    FreshConnOk(s);
    StreamsPut(s, Apply(s, Accept(fd)), fd, Keep(NewConn(s)));
  }

  lemma StreamsConn(s: Loop, fd: int, what: ConnEvent)
    requires Streams(s) && Enabled(s, OnConn(fd, what))
    ensures Streams(Apply(s, OnConn(fd, what)))
  {
    hide Streams, ConnOk, Touch;
    StreamsParts(s);
    TouchOk(s.accepted, s.processed, s.pc, s.draining, s.conns[fd], what);
    StreamsPut(s, Apply(s, OnConn(fd, what)), fd, Touch(s.conns[fd], what));
  }

  lemma StreamsDispatch(s: Loop, fd: int)
    requires Streams(s) && Enabled(s, Dispatch(fd))
    ensures Streams(Apply(s, Dispatch(fd)))
  {
    hide Streams, ConnOk;
    StreamsParts(s);
    MarkConnOk(s.accepted, s.processed, s.conns[fd]);
    StreamsPut(s, Apply(s, Dispatch(fd)), fd, Keep(Mark(s.conns[fd])));
  }

  lemma StreamsAccepted(s: Loop)
    requires Streams(s) && Enabled(s, SubmitAccepted)
    ensures Streams(Apply(s, SubmitAccepted))
  {
    hide Streams, ConnOk;
    StreamsParts(s);
    SameOrigin(s.accepted, s.processed, s.conns[s.pc.fd]);
    StreamsSame(s, Apply(s, SubmitAccepted));
  }

  lemma StreamsRefused(s: Loop, text: string)
    requires Streams(s) && Enabled(s, SubmitRefused(text))
    ensures Streams(Apply(s, SubmitRefused(text)))
  {
    hide Streams, ConnOk, Overloaded;
    StreamsParts(s);
    OverloadedOk(s.accepted, s.processed, s.conns[s.pc.fd], text);
    StreamsPut(s, Apply(s, SubmitRefused(text)), s.pc.fd, Keep(Overloaded(s.conns[s.pc.fd], text)));
  }

  /** Steps that touch no connection. */
  predicate LeavesStreams(e: Event) {
    !e.Accept? && !e.OnConn? && !e.Dispatch? && !e.SubmitAccepted? && !e.SubmitRefused? && !e.ApplyCompletion?
  }

  lemma StreamsOther(s: Loop, e: Event)
    requires Streams(s) && Enabled(s, e) && LeavesStreams(e)
    ensures Streams(Apply(s, e))
  {
    hide Streams, ConnOk, Touch, Overloaded, Deliver;
    StreamsParts(s);
    StreamsSame(s, Apply(s, e));
  }

  lemma StreamsStep(s: Loop, e: Event)
    requires Streams(s) && Conserved(s) && Enabled(s, e)
    ensures Streams(Apply(s, e))
  {
    hide Conserved, Streams, Enabled, Apply;
    match e
    case Accept(fd) => StreamsAccept(s, fd);
    case OnConn(fd, what) => StreamsConn(s, fd, what);
    case Dispatch(fd) => StreamsDispatch(s, fd);
    case SubmitAccepted => StreamsAccepted(s);
    case SubmitRefused(text) => StreamsRefused(s, text);
    case ApplyCompletion => StreamsApplyNow(s);
    case _ => StreamsOther(s, e);
  }

  lemma StreamsApplyNow(s: Loop)
    requires Streams(s) && Conserved(s) && Enabled(s, ApplyCompletion)
    ensures Streams(Apply(s, ApplyCompletion))
  {
    hide Conserved, Streams, Apply;
    StreamsApplyStep(s);
  }

  lemma OverloadedOk(accepted: nat, processed: seq<Task>, c: Conn, text: string)
    requires ConnOk(accepted, processed, c)
    ensures ConnOk(accepted, processed, Overloaded(c, text))
  {
    hide ConnOk, Enqueue;
    FlagsConnOk(accepted, processed, c, false);
    RefuseOk(accepted, processed, c.(inFlight := false), text);
  }

  lemma FreshConnOk(s: Loop)
    requires s.nextGeneration == s.accepted + 1
    ensures ConnOk(s.accepted + 1, s.processed, NewConn(s))
  {}

  // ---- Nobody waits for a completion that cannot come ------------------------------

  /** An open task was made for this very descriptor and generation. */
  ghost predicate Awaited(s: Loop, fd: int, generation: nat) {
    exists t: Task :: t.fd == fd && t.generation == generation && OpenCopies(s, t) > 0
  }

  predicate Dispatching(s: Loop, fd: int) { (s.pc.Marked? || s.pc.Counted?) && s.pc.fd == fd }

  ghost predicate NoneStranded(s: Loop) {
    && (forall fd :: fd in s.conns && s.conns[fd].inFlight ==>
          Awaited(s, fd, s.conns[fd].generation) || Dispatching(s, fd))
    && (s.pc.Marked? || s.pc.Counted? ==> s.pc.fd in s.conns)
    && (s.draining ==> s.stopping && s.shutdown)
  }

  lemma OpenIsIssuedLessProcessed(s: Loop, t: Task)
    requires Conserved(s)
    ensures OpenCopies(s, t) == multiset(s.issued)[t] - multiset(s.processed)[t]
  {
    hide OpenCopies, OpenCount;
  }

  /** While no completion is applied, open tasks stay open. */
  lemma AwaitedStays(s: Loop, r: Loop, fd: int, generation: nat)
    requires Conserved(s) && Conserved(r) && r.processed == s.processed && s.issued <= r.issued
    requires Awaited(s, fd, generation)
    ensures Awaited(r, fd, generation)
  {
    hide Conserved, OpenCopies;
    var t: Task :| t.fd == fd && t.generation == generation && OpenCopies(s, t) > 0;
    OpenIsIssuedLessProcessed(s, t);
    OpenIsIssuedLessProcessed(r, t);
    assert r.issued == s.issued + r.issued[|s.issued|..];
    assert multiset(r.issued) == multiset(s.issued) + multiset(r.issued[|s.issued|..]);
  }

  /** Putting a connection back or closing it changes nothing else. */
  lemma PutKeeps(s: Loop, fd: int, o: Outcome)
    ensures Put(s, fd, o) == s.(conns := Put(s, fd, o).conns, closed := Put(s, fd, o).closed)
    ensures forall x :: x != fd && x in Put(s, fd, o).conns ==> x in s.conns && Put(s, fd, o).conns[x] == s.conns[x]
    ensures fd in Put(s, fd, o).conns <==> o.Keep?
    ensures o.Keep? ==> Put(s, fd, o).conns[fd] == o.conn
  {}

  /** Steps that leave every connection as it is. */
  predicate LeavesConns(e: Event) { LeavesStreams(e) || e.SubmitAccepted? }

  lemma ConnsSame(s: Loop, e: Event)
    requires Enabled(s, e) && LeavesConns(e)
    ensures Apply(s, e).conns == s.conns
  {
    hide Enabled, Apply;
    if FromOutside(e) { ConnsSameOutside(s, e); } else { ConnsSameInside(s, e); }
  }

  /** Steps of the other threads. */
  predicate FromOutside(e: Event) {
    e.RequestShutdown? || e.StartTask? || e.PostCompletion? || e.ForeignSubmit? || e.ForeignShutdown?
  }

  lemma ConnsSameOutside(s: Loop, e: Event)
    requires Enabled(s, e) && FromOutside(e)
    ensures Apply(s, e).conns == s.conns
  {
    hide Touch, Overloaded, Deliver, Put;
  }

  lemma ConnsSameInside(s: Loop, e: Event)
    requires Enabled(s, e) && LeavesConns(e) && !FromOutside(e)
    ensures Apply(s, e).conns == s.conns
  {
    hide Touch, Overloaded, Deliver, Put;
  }

  lemma StillDispatching(s: Loop, e: Event, fd: int)
    requires Enabled(s, e) && LeavesConns(e) && !e.SubmitAccepted? && Dispatching(s, fd)
    ensures Dispatching(Apply(s, e), fd)
  {
    hide Touch, Overloaded, Deliver, Put;
  }

  /** Steps other than dispatching and applying completions put no connection in
      flight and end no dispatch. */
  lemma NobodyNewWaits(s: Loop, e: Event, fd: int)
    requires Enabled(s, e) && !e.Dispatch? && !e.SubmitAccepted? && !e.ApplyCompletion?
    requires fd in Apply(s, e).conns && Apply(s, e).conns[fd].inFlight
    ensures fd in s.conns && s.conns[fd].inFlight && Apply(s, e).conns[fd].generation == s.conns[fd].generation
    ensures Dispatching(s, fd) ==> Dispatching(Apply(s, e), fd)
  {
    hide Touch, Overloaded, Answer, Put, Deliver;
    match e
    case Accept(x) => PutKeeps(s, x, Keep(NewConn(s)));
    case OnConn(x, what) => PutKeeps(s, x, Touch(s.conns[x], what));
    case SubmitRefused(text) => PutKeeps(s, s.pc.fd, Keep(Overloaded(s.conns[s.pc.fd], text)));
    case _ =>
      ConnsSame(s, e);
      if Dispatching(s, fd) { StillDispatching(s, e, fd); }
  }

  lemma NobodyNewIssued(s: Loop, e: Event)
    requires Enabled(s, e) && !e.SubmitAccepted? && !e.ApplyCompletion?
    ensures Apply(s, e).processed == s.processed && Apply(s, e).issued == s.issued
  {
    hide Touch, Overloaded, Answer, Put, Deliver;
    match e
    case Accept(x) => PutKeeps(s, x, Keep(NewConn(s)));
    case OnConn(x, what) => PutKeeps(s, x, Touch(s.conns[x], what));
    case Dispatch(x) => PutKeeps(s, x, Keep(Mark(s.conns[x])));
    case SubmitRefused(text) => PutKeeps(s, s.pc.fd, Keep(Overloaded(s.conns[s.pc.fd], text)));
    case _ =>
  }

  lemma DispatchTarget(s: Loop, e: Event)
    requires Enabled(s, e) && (s.pc.Marked? || s.pc.Counted? ==> s.pc.fd in s.conns)
    ensures var r := Apply(s, e); r.pc.Marked? || r.pc.Counted? ==> r.pc.fd in r.conns
  {
    hide Touch, Overloaded, Answer, Put, Deliver;
    match e
    case Accept(x) => PutKeeps(s, x, Keep(NewConn(s)));
    case OnConn(x, what) => PutKeeps(s, x, Touch(s.conns[x], what));
    case Dispatch(x) => PutKeeps(s, x, Keep(Mark(s.conns[x])));
    case _ =>
  }

  lemma DrainFlags(s: Loop, e: Event)
    requires Enabled(s, e) && (s.draining ==> s.stopping && s.shutdown)
    ensures var r := Apply(s, e); r.draining ==> r.stopping && r.shutdown
  {
    hide Touch, Overloaded, Answer;
  }

  lemma NoneStrandedStep(s: Loop, e: Event)
    requires Conserved(s) && Streams(s) && NoneStranded(s) && Enabled(s, e)
    ensures NoneStranded(Apply(s, e))
  {
    hide Conserved, OpenCopies, Enabled, Apply, Streams, Awaited;
    var r := Apply(s, e);
    ConservedStep(s, e);
    DispatchTarget(s, e);
    DrainFlags(s, e);
    forall fd | fd in r.conns && r.conns[fd].inFlight
      ensures Awaited(r, fd, r.conns[fd].generation) || Dispatching(r, fd)
    {
      if e.ApplyCompletion? {
        WaitsAfterApply(s, fd);
      } else if e.SubmitAccepted? {
        WaitsAfterSubmit(s, fd);
      } else if e.Dispatch? {
        WaitsAfterDispatch(s, e, fd);
      } else {
        NobodyNewWaits(s, e, fd);
        NobodyNewIssued(s, e);
        if !Dispatching(s, fd) {
          AwaitedStays(s, r, fd, s.conns[fd].generation);
        }
      }
    }
  }

  lemma WaitsAfterDispatch(s: Loop, e: Event, fd: int)
    requires Enabled(s, e) && e.Dispatch? && Conserved(s) && Conserved(Apply(s, e)) && NoneStranded(s)
    requires fd in Apply(s, e).conns && Apply(s, e).conns[fd].inFlight
    ensures Awaited(Apply(s, e), fd, Apply(s, e).conns[fd].generation) || Dispatching(Apply(s, e), fd)
  {
    hide Conserved, OpenCopies, Awaited;
    if fd != e.fd {
      AwaitedStays(s, Apply(s, e), fd, s.conns[fd].generation);
    }
  }

  lemma WaitsAfterSubmit(s: Loop, fd: int)
    requires Conserved(s) && Enabled(s, SubmitAccepted) && Conserved(Apply(s, SubmitAccepted)) && NoneStranded(s)
    requires fd in Apply(s, SubmitAccepted).conns && Apply(s, SubmitAccepted).conns[fd].inFlight
    ensures Awaited(Apply(s, SubmitAccepted), fd, Apply(s, SubmitAccepted).conns[fd].generation)
  {
    hide Conserved, OpenCopies, Owned;
    var r := Apply(s, SubmitAccepted);
    if fd == s.pc.fd {
      var t := r.issued[|s.issued|];
      OpenIsIssuedLessProcessed(s, t);
      OpenIsIssuedLessProcessed(r, t);
      Snoc(s.issued, t, t);
      assert OpenCopies(r, t) > 0;
    } else {
      AwaitedStays(s, r, fd, s.conns[fd].generation);
    }
  }

  /** Applying a completion: a connection still waiting afterwards was not the
      addressee, so its own task is another one. */
  lemma WaitsAfterApply(s: Loop, fd: int)
    requires Conserved(s) && Streams(s) && NoneStranded(s) && Enabled(s, ApplyCompletion)
            && Conserved(Apply(s, ApplyCompletion))
    requires fd in Apply(s, ApplyCompletion).conns && Apply(s, ApplyCompletion).conns[fd].inFlight
    ensures Awaited(Apply(s, ApplyCompletion), fd, Apply(s, ApplyCompletion).conns[fd].generation)
  {
    hide Conserved, OpenCopies, Streams, NoneStranded, Deliver;
    var r := Apply(s, ApplyCompletion);
    var done := s.pc.rest[0].task;
    StillWaiting(s, fd);
    var t: Task :| t.fd == fd && t.generation == s.conns[fd].generation && OpenCopies(s, t) > 0;
    OpenIsIssuedLessProcessed(s, t);
    OpenIsIssuedLessProcessed(r, t);
    Snoc(s.processed, done, t);
    assert OpenCopies(r, t) > 0;
  }

  lemma StillWaiting(s: Loop, fd: int)
    requires Streams(s) && NoneStranded(s) && Enabled(s, ApplyCompletion)
    requires fd in Apply(s, ApplyCompletion).conns && Apply(s, ApplyCompletion).conns[fd].inFlight
    ensures fd in s.conns && s.conns[fd].inFlight
            && s.conns[fd].generation == Apply(s, ApplyCompletion).conns[fd].generation
    ensures Awaited(s, fd, s.conns[fd].generation)
    ensures !(s.pc.rest[0].task.fd == fd && s.pc.rest[0].task.generation == s.conns[fd].generation)
    ensures Apply(s, ApplyCompletion).issued == s.issued
  {
    hide Awaited, Answer, Concat, Streams;
    StreamsParts(s);
  }

  // ---- Runs --------------------------------------------------------------------------

  ghost predicate Inv(s: Loop) { Conserved(s) && Streams(s) && NoneStranded(s) }

  ghost predicate Run(s: Loop, events: seq<Event>, r: Loop)
    decreases |events|
  {
    if events == [] then r == s
    else Enabled(s, events[0]) && Run(Apply(s, events[0]), events[1..], r)
  }

  ghost predicate Reachable(capacity: nat, r: Loop) {
    exists events :: Run(Start(capacity), events, r)
  }

  lemma StartInv(capacity: nat)
    ensures Inv(Start(capacity))
  {
    var s := Start(capacity);
    assert forall t: Task :: OpenCopies(s, t) == 0;
  }

  lemma StepInv(s: Loop, e: Event)
    requires Inv(s) && Enabled(s, e)
    ensures Inv(Apply(s, e))
  {
    hide Conserved, Streams, NoneStranded, Enabled, Apply;
    ConservedStep(s, e);
    StreamsStep(s, e);
    NoneStrandedStep(s, e);
  }

  lemma {:induction false} RunInv(s: Loop, events: seq<Event>, r: Loop)
    requires Inv(s) && Run(s, events, r)
    ensures Inv(r)
    decreases |events|
  {
    hide Inv, Enabled, Apply;
    if events != [] {
      StepInv(s, events[0]);
      RunInv(Apply(s, events[0]), events[1..], r);
    }
  }

  lemma ReachableInv(capacity: nat, s: Loop)
    requires Reachable(capacity, s)
    ensures Inv(s)
  {
    hide Inv, Run;
    var events :| Run(Start(capacity), events, s);
    StartInv(capacity);
    RunInv(Start(capacity), events, s);
  }

  /** Task conservation: in every reachable state the counter is exactly the number
      of this loop's queued, running and posted-but-unapplied tasks (plus the one
      being submitted), so it never underflows; and every accepted task is open or
      processed, exactly once. */
  lemma TasksConserved(capacity: nat, s: Loop)
    requires Reachable(capacity, s)
    ensures s.outstanding
            == |Owned(s.queue)| + |s.running| + |s.completions| + |Rest(s.pc)| + (if s.pc.Counted? then 1 else 0)
    ensures forall t: Task :: t in s.issued ==> OpenCopies(s, t) + multiset(s.processed)[t] == 1
    ensures forall t: Task :: t !in s.issued ==> OpenCopies(s, t) == 0 && t !in s.processed
  {
    hide Owned, TasksOf, OpenCopies;
    ReachableInv(capacity, s);
    forall t: Task | t in s.issued ensures OpenCopies(s, t) + multiset(s.processed)[t] == 1 { IssuedOnce(s, t); }
  }

  /** Accepted tasks are pairwise different. */
  lemma IssuedOnce(s: Loop, t: Task)
    requires Conserved(s) && t in s.issued
    ensures multiset(s.issued)[t] == 1
  {
    hide OpenCopies, OpenCount;
    var i :| 0 <= i < |s.issued| && s.issued[i] == t;
    Remove(s.issued, i, t);
    assert t !in s.issued[..i] + s.issued[i + 1..];
  }

  /** No stranded request: between loop steps, whoever is in flight has an open task
      with its own descriptor and generation. */
  lemma NoStrandedRequest(capacity: nat, s: Loop, fd: int)
    requires Reachable(capacity, s) && Quiet(s.pc) && fd in s.conns && s.conns[fd].inFlight
    ensures Awaited(s, fd, s.conns[fd].generation)
  {
    hide Conserved, Streams, Awaited;
    ReachableInv(capacity, s);
  }

  /** Generation safety and stream fidelity: for every connection instance, open or
      closed, what the kernel took plus what is pending is exactly what was queued,
      every response queued answers a request of that same instance, once, and an
      instance closed with unsent bytes was closed by an error or the limit. */
  lemma OutputBelongs(capacity: nat, s: Loop, c: Conn)
    requires Reachable(capacity, s)
    requires (exists fd :: fd in s.conns && s.conns[fd] == c) || (exists x :: x in s.closed && x.conn == c)
    ensures c.offset <= |c.outbound| && c.wire + c.outbound[c.offset..] == Concat(c.chunks)
    ensures forall k :: k in c.chunks && k.Response? ==> k.task.origin == c.instance
    ensures forall i, j :: 0 <= i < j < |c.chunks| && c.chunks[i].Response? && c.chunks[j].Response? ==>
              c.chunks[i].task != c.chunks[j].task
    ensures forall x :: x in s.closed && x.conn == c && c.wire != Concat(c.chunks) ==>
              !x.cause.Finished? && !x.cause.Drained?
  {
    hide Conserved, NoneStranded, Concat;
    ReachableInv(capacity, s);
  }

  predicate CanExit(s: Loop) { s.pc.Idle? && s.draining && s.outstanding == 0 && s.conns == map[] }

  /** Safe exit: when the loop may exit, every accepted task was processed exactly
      once and nothing is queued, running or posted. */
  lemma SafeExit(capacity: nat, s: Loop)
    requires Reachable(capacity, s) && CanExit(s)
    ensures multiset(s.processed) == multiset(s.issued)
    ensures Owned(s.queue) == [] && s.running == [] && s.completions == []
    ensures forall t: Task :: t in s.issued ==> multiset(s.processed)[t] == 1
  {
    hide Owned;
    TasksConserved(capacity, s);
    ReachableInv(capacity, s);
    forall t: Task ensures multiset(s.processed)[t] == multiset(s.issued)[t] {
      assert OpenCopies(s, t) == 0;
    }
    forall t: Task | t in s.issued ensures multiset(s.processed)[t] == 1 { IssuedOnce(s, t); }
  }

  /** Tasks counted outside the middle of a dispatch. */
  function Settled(s: Loop): int { s.outstanding - (if s.pc.Counted? then 1 else 0) }

  /** Once draining the counter still rises, in the middle of a dispatch and nowhere else. */
  lemma CounterRises(s: Loop, e: Event)
    requires s.draining && Enabled(s, e)
    ensures Apply(s, e).outstanding > s.outstanding <==> e.CountTask?
  {
    hide Touch, Answer, Overloaded;
  }

  /** Said of the state: some step raises the counter exactly while a dispatch has marked its
      connection and not yet counted its task. */
  lemma CounterCanRise(s: Loop)
    requires s.draining
    ensures (exists e :: Enabled(s, e) && Apply(s, e).outstanding > s.outstanding) <==> s.pc.Marked?
  {
    hide Apply;
    if s.pc.Marked? {
      CounterRises(s, CountTask);
      assert Enabled(s, CountTask);
    }
    forall e | Enabled(s, e) ensures Apply(s, e).outstanding > s.outstanding ==> s.pc.Marked? {
      CounterRises(s, e);
    }
  }

  lemma RunFirst(s: Loop, e: Event, rest: seq<Event>, r: Loop)
    requires Enabled(s, e) && Run(Apply(s, e), rest, r)
    ensures Run(s, [e] + rest, r)
  {
    hide Enabled, Apply;
    assert ([e] + rest)[1..] == rest;
  }

  lemma Accepts(s: Loop, fd: int)
    requires s.pc.Idle? && !s.draining && fd !in s.conns
    ensures Enabled(s, Accept(fd))
    ensures var r := Apply(s, Accept(fd));
            && r.pc.Idle? && Has(r, fd) && r.queue == s.queue && r.stopping == s.stopping && r.capacity == s.capacity
            && r.conns[fd].overlaps == 0 && !r.conns[fd].inFlight
  {}

  lemma Requests(s: Loop)
    ensures Enabled(s, RequestShutdown)
    ensures Apply(s, RequestShutdown) == s.(shutdown := true)
  {}

  lemma Drains(s: Loop)
    requires s.pc.Idle? && s.shutdown
    ensures Enabled(s, BeginDrain) && Apply(s, BeginDrain) == s.(draining := true, stopping := true)
  {}

  lemma Dispatches(s: Loop, fd: int)
    requires s.pc.Idle? && Has(s, fd)
    ensures Enabled(s, Dispatch(fd))
    ensures var r := Apply(s, Dispatch(fd));
            && r.pc == Marked(fd) && fd in r.conns && r.conns[fd] == Mark(s.conns[fd]) && r.draining == s.draining
            && r.queue == s.queue && r.stopping == s.stopping && r.capacity == s.capacity
  {}

  lemma FromStart(capacity: nat, events: seq<Event>, s: Loop)
    requires Run(Start(capacity), events, s)
    ensures Reachable(capacity, s)
  {}

  lemma RunNothing(s: Loop)
    ensures Run(s, [], s)
  {}

  /** Such a state is reached: a request on a connection that the drain has not closed yet. */
  lemma CounterRisesReachably() returns (s: Loop)
    ensures Reachable(1, s) && s.draining && s.pc.Marked?
  {
    hide Apply, Enabled, Run, Reachable;
    Accepts(Start(1), 3);
    var a := Apply(Start(1), Accept(3));
    Requests(a);
    var b := Apply(a, RequestShutdown);
    Drains(b);
    var c := Apply(b, BeginDrain);
    Dispatches(c, 3);
    s := Apply(c, Dispatch(3));
    RunNothing(s);
    RunFirst(c, Dispatch(3), [], s);
    RunFirst(b, BeginDrain, [Dispatch(3)] + [], s);
    RunFirst(a, RequestShutdown, [BeginDrain] + ([Dispatch(3)] + []), s);
    RunFirst(Start(1), Accept(3), [RequestShutdown] + ([BeginDrain] + ([Dispatch(3)] + [])), s);
    FromStart(1, [Accept(3)] + ([RequestShutdown] + ([BeginDrain] + ([Dispatch(3)] + []))), s);
  }

  lemma DrainStep(s: Loop, e: Event)
    requires Inv(s) && s.draining && Enabled(s, e)
    ensures var r := Apply(s, e);
            r.draining && r.conns.Keys <= s.conns.Keys && r.issued == s.issued && Settled(r) <= Settled(s)
  {
    hide Conserved, Streams, Touch, Answer, Overloaded;
  }

  /** Over every run of a draining loop: it stays draining, no connection and no task is added,
      the settled count never rises, and between two points where no dispatch is under way
      neither does the counter. */
  lemma {:induction false} DrainOnlyShrinks(s: Loop, events: seq<Event>, r: Loop)
    requires Inv(s) && s.draining && Run(s, events, r)
    ensures r.draining && r.conns.Keys <= s.conns.Keys && r.issued == s.issued && Settled(r) <= Settled(s)
    ensures Quiet(s.pc) && Quiet(r.pc) ==> r.outstanding <= s.outstanding
    decreases |events|
  {
    hide Inv, Enabled, Apply;
    if events != [] {
      DrainStep(s, events[0]);
      StepInv(s, events[0]);
      DrainOnlyShrinks(Apply(s, events[0]), events[1..], r);
    }
  }

  lemma StaysDraining(s: Loop, e: Event)
    requires s.draining && Enabled(s, e)
    ensures Apply(s, e).draining
  {
    hide Touch, Answer, Overloaded;
  }
}
