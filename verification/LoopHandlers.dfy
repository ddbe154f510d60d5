/** The event handlers of the loop thread as they update its fields. What the
    kernel answers is a parameter. Every handler is a run of machine steps, so the
    invariants and theorems of EventLoop hold for the code's own order of updates. */
module LoopHandlers {
  import opened EventLoop

  /** One answer of `send`. */
  datatype SendResult = Took(n: nat) | Interrupted | WouldBlock(rearmed: bool) | Failed

  /** What the kernel answers during one `flush_client`: each `send`, and the final re-arming. */
  datatype Kernel = Kernel(sends: seq<SendResult>, rearmed: bool)

  /** What the parser says to the bytes of one `read`. */
  datatype Fed = NeedsMore | Malformed(text: string) | Request

  /** One answer of `read`. The text of a malformed request is the 400 it is answered with. */
  datatype ReadResult = Data(fed: Fed) | EndOfStream | ReadInterrupted | ReadBlocked | ReadFailed

  /** The answer that ends the read loop; a socket that has said nothing blocks. */
  function Decisive(answers: seq<ReadResult>): ReadResult {
    if answers == [] then ReadBlocked
    else if answers[0] == Data(NeedsMore) || answers[0].ReadInterrupted? then Decisive(answers[1..])
    else answers[0]
  }

  /** Neither the read nor the re-arming of a dispatch fails. */
  predicate ReadsWell(decisive: ReadResult, armed: bool) {
    !decisive.ReadFailed? && (decisive == Data(Request) ==> armed)
  }

  /** What the read loop leaves of a connection that it neither closes nor dispatches for. */
  function ReadInto(c: Conn, decisive: ReadResult): Conn {
    match decisive
    case EndOfStream => c.(peerClosed := true)
    case Data(Malformed(text)) => Enqueue(c, Refusal(text)).(peerClosed := true)
    case _ => c
  }

  /** The answer to something malformed would be over the limit. */
  predicate ReadBreaches(c: Conn, decisive: ReadResult)
    requires c.offset <= |c.outbound|
  {
    decisive.Data? && decisive.fed.Malformed? && Pending(c) + |decisive.fed.text| > MAX_OUTBOUND_BYTES
  }

  /** What the read loop does to the connection, up to a dispatch. */
  function FirstEvents(fd: int, decisive: ReadResult, armed: bool): seq<Event> {
    match decisive
    case EndOfStream => [OnConn(fd, PeerCloses)]
    case ReadFailed => [OnConn(fd, Fail(ReadError))]
    case Data(Malformed(text)) => [OnConn(fd, ParseFails(text))]
    case Data(Request) => if armed then [Dispatch(fd), CountTask] else [OnConn(fd, DispatchFails)]
    case _ => []
  }

  /** The kernel fails nothing: every `send` takes something, is interrupted or would block, and
      re-arming succeeds. */
  predicate Willing(k: Kernel) {
    k.rearmed && forall i :: 0 <= i < |k.sends| ==> WillingSend(k.sends[i])
  }

  predicate WillingSend(a: SendResult) {
    match a
    case Took(n) => n > 0
    case Interrupted => true
    case WouldBlock(rearmed) => rearmed
    case Failed => false
  }

  /** A kernel that takes whatever it is offered. */
  ghost predicate Greedy(k: Kernel) { Willing(k) && forall p: nat :: Taken(k.sends, p) == p }

  ghost predicate AllGreedy(kernel: seq<Kernel>, n: nat) {
    n <= |kernel| && forall i :: 0 <= i < n ==> Greedy(kernel[i])
  }

  /** Every connection left is as it was. */
  predicate Untouched(before: map<int, Conn>, after: map<int, Conn>) {
    forall fd :: fd in after ==> fd in before && after[fd] == before[fd]
  }

  predicate AllWilling(kernel: seq<Kernel>) { forall i :: 0 <= i < |kernel| ==> Willing(kernel[i]) }

  /** What one `send` takes of what it is offered. */
  function TakenOf(n: nat, pending: nat): (m: nat)
    ensures m <= pending && m <= n
  {
    if n <= pending then n else pending
  }

  /** How many of the pending bytes the kernel takes before it would block. */
  function Taken(sends: seq<SendResult>, pending: nat): (n: nat)
    ensures n <= pending
    decreases |sends|
  {
    if pending == 0 || sends == [] then 0
    else
      match sends[0]
      case Took(n) => TakenOf(n, pending) + Taken(sends[1..], pending - TakenOf(n, pending))
      case Interrupted => Taken(sends[1..], pending)
      case _ => 0
  }

  /** The closes that no failure causes. */
  predicate OnlyGraceful(before: seq<Closed>, after: seq<Closed>) {
    && before <= after
    && forall i :: |before| <= i < |after| ==>
         after[i].cause.Finished? || after[i].cause.Drained? || after[i].cause.LimitBreach?
  }

  lemma NothingClosed(closed: seq<Closed>)
    ensures OnlyGraceful(closed, closed)
  {}

  lemma WillingAt(kernel: seq<Kernel>, i: nat)
    requires AllWilling(kernel)
    ensures Willing(AnswersAt(kernel, i))
  {}

  lemma GracefulTwice(a: seq<Closed>, b: seq<Closed>, c: seq<Closed>)
    requires OnlyGraceful(a, b) && OnlyGraceful(b, c)
    ensures OnlyGraceful(a, c)
  {}

  /** The fate of a flushed connection when the kernel fails nothing: it has been sent what the kernel
      took, and it is closed exactly if that was everything and its peer is closed. */
  ghost predicate FlushedBy(c: Conn, kernel: Kernel, fd: int, after: map<int, Conn>)
    requires c.offset <= |c.outbound|
  {
    var n := Taken(kernel.sends, Pending(c));
    && (fd in after <==> n < Pending(c) || !c.peerClosed)
    && (fd in after ==>
          && after[fd].wire == c.wire + c.outbound[c.offset..c.offset + n]
          && after[fd].peerClosed == c.peerClosed && after[fd].inFlight == c.inFlight
          && (if n < Pending(c) then after[fd].outbound == c.outbound && after[fd].offset == c.offset + n
              else after[fd].outbound == "" && after[fd].offset == 0))
  }

  /** The answers to the i-th flush; a socket not spoken for would block. */
  function AnswersAt(kernel: seq<Kernel>, i: nat): Kernel {
    if i < |kernel| then kernel[i] else Kernel([], true)
  }

  lemma {:induction false} RunConcat(s: Loop, a: seq<Event>, m: Loop, b: seq<Event>, r: Loop)
    requires Run(s, a, m) && Run(m, b, r)
    ensures Run(s, a + b, r)
    decreases |a|
  {
    hide Enabled, Apply;
    if a == [] {
      assert a + b == b;
    } else {
      RunConcat(Apply(s, a[0]), a[1..], m, b, r);
      assert (a + b)[1..] == a[1..] + b;
    }
  }

  lemma RunSnoc(s: Loop, a: seq<Event>, m: Loop, e: Event, r: Loop)
    requires Run(s, a, m) && Enabled(m, e) && r == Apply(m, e)
    ensures Run(s, a + [e], r)
  {
    hide Enabled, Apply;
    assert [e][1..] == [];
    assert Run(m, [e], r);
    RunConcat(s, a, m, [e], r);
  }

  /** `e` leads from `s` to `r`. */
  ghost predicate Step(s: Loop, e: Event, r: Loop) { Enabled(s, e) && r == Apply(s, e) }

  lemma RunStep(s: Loop, a: seq<Event>, m: Loop, e: Event, r: Loop)
    requires Run(s, a, m) && Step(m, e, r)
    ensures Run(s, a + [e], r)
  {
    hide Run, Enabled, Apply;
    RunSnoc(s, a, m, e, r);
  }

  /** Only connection `fd` may differ, and if it is still there its flag is as it was. */
  predicate OnlyTouches(before: map<int, Conn>, after: map<int, Conn>, fd: int) {
    && before - {fd} == after - {fd} && fd in before
    && (fd in after ==>
          && after[fd].inFlight == before[fd].inFlight && after[fd].offset <= |after[fd].outbound|
          && after[fd].chunks == before[fd].chunks && after[fd].instance == before[fd].instance
          && after[fd].peerClosed == before[fd].peerClosed)
  }

  lemma TouchesTwice(a: map<int, Conn>, b: map<int, Conn>, c: map<int, Conn>, fd: int)
    requires OnlyTouches(a, b, fd) && OnlyTouches(b, c, fd)
    ensures OnlyTouches(a, c, fd)
  {}

  lemma TouchesNothing(conns: map<int, Conn>, fd: int)
    requires fd in conns && conns[fd].offset <= |conns[fd].outbound|
    ensures OnlyTouches(conns, conns, fd)
  {}

  lemma TakenFirst(sends: seq<SendResult>, pending: nat)
    ensures pending == 0 || sends == [] ==> Taken(sends, pending) == 0
    ensures pending > 0 && sends != [] && sends[0].Took? ==>
              Taken(sends, pending)
              == TakenOf(sends[0].n, pending) + Taken(sends[1..], pending - TakenOf(sends[0].n, pending))
    ensures pending > 0 && sends != [] && sends[0].Interrupted? ==> Taken(sends, pending) == Taken(sends[1..], pending)
    ensures sends != [] && sends[0].WouldBlock? ==> Taken(sends, pending) == 0
  {}

  lemma Unwilling(a: SendResult)
    ensures a.Failed? || (a.Took? && a.n == 0) || (a.WouldBlock? && !a.rearmed) ==> !WillingSend(a)
  {}

  lemma NobodyTouched(conns: map<int, Conn>)
    ensures Untouched(conns, conns)
  {}

  lemma UntouchedTwice(a: map<int, Conn>, b: map<int, Conn>, c: map<int, Conn>)
    requires Untouched(a, b) && Untouched(b, c)
    ensures Untouched(a, c)
  {}

  lemma GreedyAt(kernel: seq<Kernel>, n: nat, i: nat)
    requires AllGreedy(kernel, n) && i < n
    ensures Greedy(AnswersAt(kernel, i))
  {}

  lemma GreedyIsWilling(kernel: Kernel)
    requires Greedy(kernel)
    ensures Willing(kernel)
  {}

  /** A greedy kernel ends a connection whose peer is closed. */
  lemma GreedyCloses(c: Conn, kernel: Kernel, fd: int, after: map<int, Conn>)
    requires c.offset <= |c.outbound| && Greedy(kernel) && c.peerClosed && FlushedBy(c, kernel, fd, after)
    ensures fd !in after
  {}

  /** Who is left after a flush has something to send or an open peer. */
  lemma FlushedStays(c: Conn, kernel: Kernel, fd: int, after: map<int, Conn>)
    requires c.offset <= |c.outbound| && FlushedBy(c, kernel, fd, after) && fd in after
    ensures !after[fd].peerClosed || after[fd].offset < |after[fd].outbound|
  {}

  lemma FlushKeepsPeer(before: map<int, Conn>, after: map<int, Conn>, fd: int)
    requires OnlyTouches(before, after, fd)
    ensures fd in before && (fd in after ==> after[fd].peerClosed == before[fd].peerClosed)
  {}

  lemma SentNothing(c: Conn)
    requires c.offset <= |c.outbound|
    ensures Sent(c, 0) == c
  {
    assert c.wire + c.outbound[c.offset..c.offset] == c.wire;
  }

  lemma SentPending(c: Conn, n: nat)
    requires c.offset + n <= |c.outbound|
    ensures Sent(c, n).offset <= |Sent(c, n).outbound| && Pending(Sent(c, n)) == Pending(c) - n
  {}

  lemma SentTwice(c: Conn, m: nat, n: nat)
    requires c.offset + m + n <= |c.outbound|
    ensures Sent(Sent(c, m), n) == Sent(c, m + n)
  {
    assert c.outbound[c.offset..c.offset + m] + c.outbound[c.offset + m..c.offset + m + n]
        == c.outbound[c.offset..c.offset + m + n];
  }

  lemma OthersKept(before: map<int, Conn>, after: map<int, Conn>, fd: int)
    requires OnlyTouches(before, after, fd)
    ensures after.Keys <= before.Keys
    ensures forall x :: x in after && x != fd ==> x in before && after[x] == before[x]
    ensures forall x :: x in before && x != fd ==> x in after && after[x] == before[x]
  {
    forall x | x in after && x != fd ensures x in before && after[x] == before[x] {
      assert x in after - {fd} && (after - {fd})[x] == after[x];
      assert x in before - {fd};
    }
    forall x | x in before && x != fd ensures x in after && after[x] == before[x] {
      assert x in before - {fd} && (before - {fd})[x] == before[x];
      assert x in after - {fd};
    }
  }

  /** A handler's run keeps the machine's invariant, so the theorems hold after it. */
  lemma RunKeepsInv(s: Loop, events: seq<Event>, r: Loop)
    requires Run(s, events, r)
    ensures Inv(s) ==> Inv(r)
  {
    hide *;
    if Inv(s) { RunInv(s, events, r); }
  }

  /** What the handlers need of the invariant. */
  lemma InvSound(s: Loop)
    requires Inv(s)
    ensures forall fd :: fd in s.conns ==> s.conns[fd].offset <= |s.conns[fd].outbound|
    ensures s.draining ==> s.stopping
  {
    hide Conserved, Concat, AnsweredOnce;
  }

  /** Whoever waits for a completion is left alone. */
  predicate WaitersKept(before: map<int, Conn>, after: map<int, Conn>) {
    forall fd :: fd in before && before[fd].inFlight ==> fd in after && after[fd] == before[fd]
  }

  /** One descriptor was swept: who waits, and everybody else, is as before; who had nothing to send
      is gone. */
  ghost predicate SweptAt(before: map<int, Conn>, after: map<int, Conn>, fd: int) {
    && after.Keys <= before.Keys
    && (forall x :: x in before && (x != fd || before[x].inFlight) ==> x in after && after[x] == before[x])
    && (fd in after && !before[fd].inFlight ==>
          && before[fd].offset < |before[fd].outbound|
          && after[fd].inFlight == before[fd].inFlight && after[fd].chunks == before[fd].chunks)
  }

  /** Whoever changed had something to send. */
  ghost predicate OnlyFlushed(before: map<int, Conn>, after: map<int, Conn>) {
    forall x :: x in after ==>
      && x in before && after[x].chunks == before[x].chunks && after[x].inFlight == before[x].inFlight
      && (after[x] == before[x] || before[x].offset < |before[x].outbound|)
  }

  /** Of the descriptors listed, those are left that wait for a completion or had something to send. */
  ghost predicate Swept(before: map<int, Conn>, after: map<int, Conn>, order: seq<int>) {
    forall i :: 0 <= i < |order| && order[i] in after ==>
      && order[i] in before && after[order[i]].chunks == before[order[i]].chunks
      && (before[order[i]].inFlight || before[order[i]].offset < |before[order[i]].outbound|)
  }

  lemma SweptNext(a: map<int, Conn>, b: map<int, Conn>, c: map<int, Conn>, order: seq<int>, i: nat)
    requires i < |order| && OnlyFlushed(a, b) && Swept(a, b, order[..i]) && SweptAt(b, c, order[i])
    requires b.Keys <= a.Keys && WaitersKept(a, b)
    ensures OnlyFlushed(a, c) && Swept(a, c, order[..i + 1]) && WaitersKept(a, c) && c.Keys <= a.Keys
  {
    forall x | x in c ensures
      && x in a && c[x].chunks == a[x].chunks && c[x].inFlight == a[x].inFlight
      && (c[x] == a[x] || a[x].offset < |a[x].outbound|)
    {
      assert x in b;
    }
    forall j | 0 <= j < i + 1 && order[..i + 1][j] in c ensures
      && order[j] in a && c[order[j]].chunks == a[order[j]].chunks
      && (a[order[j]].inFlight || a[order[j]].offset < |a[order[j]].outbound|)
    {
      assert order[j] in b;
      if j < i { assert order[..i][j] == order[j]; }
    }
  }

  /** Whoever a sweep leaves waits for a completion or was sent something. */
  lemma SweptLeaves(s: Loop, after: map<int, Conn>, order: seq<int>)
    requires Inv(s) && Swept(s.conns, after, order) && WaitersKept(s.conns, after)
    ensures forall i :: 0 <= i < |order| && order[i] in after ==>
              after[order[i]].inFlight || after[order[i]].chunks != []
  {
    hide Conserved, NoneStranded, Streams, ConnOk;
    StreamsParts(s);
    forall i | 0 <= i < |order| && order[i] in after
      ensures after[order[i]].inFlight || after[order[i]].chunks != []
    {
      var fd := order[i];
      assert fd in s.conns && after[fd].chunks == s.conns[fd].chunks;
      SentSomething(s.accepted, s.processed, s.conns[fd]);
      if s.conns[fd].inFlight { assert after[fd] == s.conns[fd]; }
    }
  }

  lemma SentSomething(accepted: nat, processed: seq<Task>, c: Conn)
    requires ConnOk(accepted, processed, c)
    ensures c.offset < |c.outbound| ==> c.chunks != []
  {
    if c.chunks == [] { assert |c.wire + c.outbound[c.offset..]| == 0; }
  }

  lemma NoTasks()
    ensures TasksOf([]) == []
  {}

  lemma PutThenDrop(conns: map<int, Conn>, fd: int, c: Conn)
    ensures conns[fd := c] - {fd} == conns - {fd}
  {}

  lemma TasksNext(cs: seq<Completion>, i: nat)
    requires i < |cs|
    ensures TasksOf(cs[..i + 1]) == TasksOf(cs[..i]) + [cs[i].task]
  {
    assert cs[..i + 1] == cs[..i] + [cs[i]];
  }

  /** The fields of the connection manager, the loop state and the pool that the
      loop thread works on, with the machine's history beside them. */
  class LoopThread {
    var shutdownRequested: bool
    var draining: bool
    var poolStopping: bool
    const poolCapacity: nat
    var connections: map<int, Conn>
    var nextGeneration: nat
    var poolQueue: seq<Job>
    var poolRunning: seq<Task>
    var completions: seq<Completion>
    var outstandingTasks: int
    var pc: Pc
    var accepted: nat                 // from here on: history
    var issued: seq<Task>
    var posted: seq<Completion>
    var processed: seq<Task>
    var closed: seq<Closed>

    ghost function View(): Loop
      reads this
    {
      Loop(shutdownRequested, draining, poolStopping, poolCapacity, connections, nextGeneration, poolQueue, poolRunning,
           completions, pc, outstandingTasks, accepted, issued, posted, processed, closed)
    }

    ghost predicate Sound()
      reads this
    {
      forall fd :: fd in connections ==> connections[fd].offset <= |connections[fd].outbound|
    }

    constructor (capacity: nat)
      ensures View() == Start(capacity) && Inv(View())
    {
      shutdownRequested, draining, poolStopping, poolCapacity := false, false, false, capacity;
      connections, nextGeneration, poolQueue, poolRunning, completions := map[], 1, [], [], [];
      outstandingTasks, pc := 0, Idle;
      accepted, issued, posted, processed, closed := 0, [], [], [], [];
      StartInv(capacity);
    }

    // ---- Single updates, each one machine step ---------------------------------------

    /** `close_client`. */
    method CloseClient(fd: int, cause: Cause)
      requires fd in connections
      modifies this`connections, this`closed
      ensures View() == Put(old(View()), fd, Drop(old(connections[fd]), cause))
    {
      closed := closed + [Closed(connections[fd], cause)];
      connections := connections - {fd};
    }

    method FailClient(fd: int, cause: Cause)
      requires Has(View(), fd) && Quiet(pc) && (cause.SendError? || cause.EpollError?)
      modifies this`connections, this`closed
      ensures Step(old(View()), OnConn(fd, Fail(cause)), View())
      ensures OnlyTouches(old(connections), connections, fd) && fd !in connections
      ensures closed == old(closed) + [Closed(old(connections[fd]), cause)]
    {
      CloseClient(fd, cause);
    }

    /** A successful `send` of `n` bytes. */
    method Advance(fd: int, n: nat)
      requires Has(View(), fd) && Quiet(pc) && 0 < n <= Pending(connections[fd])
      modifies this`connections
      ensures Step(old(View()), OnConn(fd, Send(n)), View())
      ensures OnlyTouches(old(connections), connections, fd)
      ensures fd in connections && connections[fd] == Sent(old(connections[fd]), n)
    {
      var c := connections[fd];
      PutThenDrop(connections, fd, Sent(c, n));
      connections := connections[fd := c.(offset := c.offset + n, wire := c.wire + c.outbound[c.offset..c.offset + n])];
    }

    /** The end of `flush_client`: release the buffer, close if the peer did. */
    method Release(fd: int)
      requires Has(View(), fd) && Quiet(pc) && Pending(connections[fd]) == 0
      modifies this`connections, this`closed
      ensures Step(old(View()), OnConn(fd, FlushDone), View())
      ensures OnlyTouches(old(connections), connections, fd)
      ensures fd in connections <==> !old(connections[fd]).peerClosed
      ensures fd in connections ==>
                connections[fd] == old(connections[fd]).(outbound := "", offset := 0) && closed == old(closed)
      ensures fd !in connections ==>
                closed == old(closed) + [Closed(old(connections[fd]).(outbound := "", offset := 0), Finished)]
    {
      var d := connections[fd].(outbound := "", offset := 0);
      PutThenDrop(connections, fd, d);
      connections := connections[fd := d];
      if d.peerClosed {
        CloseClient(fd, Finished);
      }
    }

    /** Hand a response to the connection that waits for it, if it is still there. */
    method DeliverResponse(done: Completion) returns (delivered: bool)
      requires Sound()
      modifies this`connections, this`closed
      ensures View() == Deliver(old(View()), done) && Sound() && connections.Keys <= old(connections.Keys)
      ensures var fd := done.task.fd;
              var waits := fd in old(connections) && old(connections)[fd].generation == done.task.generation
                           && old(connections)[fd].inFlight;
              var fits := waits && Pending(old(connections)[fd]) + |done.response| <= MAX_OUTBOUND_BYTES;
              && delivered == fits
              && (fits ==>
                    && fd in connections && connections[fd].outbound == old(connections)[fd].outbound + done.response
                    && connections[fd].peerClosed && !connections[fd].inFlight && closed == old(closed))
              && (waits && !fits ==> fd !in connections && OnlyGraceful(old(closed), closed))
              && (forall x :: x in connections && x != fd ==> connections[x] == old(connections)[x])
              && (!waits ==> connections == old(connections) && closed == old(closed))
    {
      hide Concat;
      var fd := done.task.fd;
      delivered := fd in connections && connections[fd].generation == done.task.generation && connections[fd].inFlight;
      if delivered {
        var c := connections[fd].(inFlight := false);
        PutThenDrop(connections, fd, c);
        if Pending(c) + |done.response| <= MAX_OUTBOUND_BYTES {
          connections := connections[fd := Enqueue(c, Response(done.task, done.response)).(peerClosed := true)];
        } else {
          delivered := false;
          connections := connections[fd := c];
          CloseClient(fd, LimitBreach);
        }
      }
    }

    /** Applying one completion, up to the counter. */
    method ApplyOne() returns (delivered: bool)
      requires pc.Applying? && pc.rest != [] && Sound()
      modifies this`connections, this`closed, this`pc, this`outstandingTasks, this`processed
      ensures Step(old(View()), ApplyCompletion, View()) && Sound()
      ensures pc == Applying(old(pc.rest)[1..]) && processed == old(processed) + [old(pc.rest)[0].task]
      ensures outstandingTasks == old(outstandingTasks) - 1 && completions == old(completions)
      ensures connections.Keys <= old(connections.Keys)
      ensures delivered ==> old(pc.rest)[0].task.fd in connections
      ensures OnlyGraceful(old(closed), closed)
      ensures if delivered then
                && connections[old(pc.rest)[0].task.fd].peerClosed
                && forall x :: x in connections && x != old(pc.rest)[0].task.fd ==>
                  connections[x] == old(connections)[x]
              else Untouched(old(connections), connections)
    {
      hide Deliver, Put;
      var done := pc.rest[0];
      delivered := DeliverResponse(done);
      outstandingTasks, pc, processed := outstandingTasks - 1, Applying(pc.rest[1..]), processed + [done.task];
    }

    // ---- The handlers -----------------------------------------------------------------

    /** `flush_client`: send until nothing is pending, the socket would block or it
        fails. When the kernel's answers run out the socket would block and the
        re-arming succeeds. */
    method FlushClient(fd: int, kernel: Kernel) returns (alive: bool, ghost events: seq<Event>)
      requires Has(View(), fd) && Quiet(pc)
      modifies this`connections, this`closed
      ensures Run(old(View()), events, View())
      ensures alive <==> fd in connections
      ensures OnlyTouches(old(connections), connections, fd)
      ensures forall e :: e in events ==> e.OnConn? && e.fd == fd
      ensures old(Inv(View())) ==> Inv(View())
      ensures Willing(kernel) ==>
                FlushedBy(old(connections)[fd], kernel, fd, connections) && OnlyGraceful(old(closed), closed)
    {
      hide Run, Enabled, Apply, Inv, FlushedBy, OnlyGraceful;
      alive, events := Flush(fd, kernel);
      RunKeepsInv(old(View()), events, View());
    }

    /** The two parts of `flush_client`: the send loop, and what follows when all was sent. */
    method Flush(fd: int, kernel: Kernel) returns (alive: bool, ghost events: seq<Event>)
      requires Has(View(), fd) && Quiet(pc)
      modifies this`connections, this`closed
      ensures Run(old(View()), events, View())
      ensures alive <==> fd in connections
      ensures OnlyTouches(old(connections), connections, fd)
      ensures forall e :: e in events ==> e.OnConn? && e.fd == fd
      ensures Willing(kernel) ==>
                FlushedBy(old(connections)[fd], kernel, fd, connections) && OnlyGraceful(old(closed), closed)
    {
      hide Run, Enabled, Apply;
      var more;
      more, events := SendLoop(fd, kernel.sends);
      if !more {
        return fd in connections, events;
      }
      ghost var here := View();
      Release(fd);
      RunSnoc(old(View()), events, here, OnConn(fd, FlushDone), View());
      events := events + [OnConn(fd, FlushDone)];
      TouchesTwice(old(connections), here.conns, connections, fd);
      if fd in connections && !kernel.rearmed {
        here := View();
        FailClient(fd, EpollError);
        RunSnoc(old(View()), events, here, OnConn(fd, Fail(EpollError)), View());
        events := events + [OnConn(fd, Fail(EpollError))];
        TouchesTwice(old(connections), here.conns, connections, fd);
      }
      alive := fd in connections;
    }

    /** The send loop. `more` says that everything was sent and the connection is still there. */
    method SendLoop(fd: int, sends: seq<SendResult>) returns (more: bool, ghost events: seq<Event>)
      requires Has(View(), fd) && Quiet(pc)
      modifies this`connections, this`closed
      ensures Run(old(View()), events, View())
      ensures OnlyTouches(old(connections), connections, fd)
      ensures forall e :: e in events ==> e.OnConn? && e.fd == fd
      ensures more ==> fd in connections && Pending(connections[fd]) == 0
      ensures fd in connections ==>
                var c := old(connections)[fd];
                var n := Taken(sends, Pending(c));
                && closed == old(closed) && connections[fd] == Sent(c, n) && (more <==> n == Pending(c))
      ensures fd !in connections ==> exists i :: 0 <= i < |sends| && !WillingSend(sends[i])
    {
      hide Run, Enabled, Apply, OnlyTouches, Taken, WillingSend, Sent, Step;
      ghost var c := connections[fd];
      ghost var done: nat := 0;
      events := [];
      RunNothing(View());
      TouchesNothing(connections, fd);
      SentNothing(c);
      assert sends[0..] == sends;
      var i := 0;
      while connections[fd].offset < |connections[fd].outbound|
        invariant fd in connections && OnlyTouches(old(connections), connections, fd)
        invariant Run(old(View()), events, View()) && closed == old(closed)
        invariant forall e :: e in events ==> e.OnConn? && e.fd == fd
        invariant i <= |sends| && done <= Pending(c) && connections[fd] == Sent(c, done)
        invariant connections[fd].offset <= |connections[fd].outbound| && Pending(connections[fd]) == Pending(c) - done
        invariant Taken(sends, Pending(c)) == done + Taken(sends[i..], Pending(c) - done)
        decreases |sends| - i
      {
        TakenFirst(sends[i..], Pending(c) - done);
        if i >= |sends| {
          return false, events;
        }
        ghost var here := View();
        var result := sends[i];
        assert sends[i..][0] == result && sends[i..][1..] == sends[i + 1..];
        i := i + 1;
        if result.Took? && result.n > 0 {
          var n := TakenOf(result.n, Pending(connections[fd]));
          Advance(fd, n);
          RunStep(old(View()), events, here, OnConn(fd, Send(n)), View());
          events := events + [OnConn(fd, Send(n))];
          TouchesTwice(old(connections), here.conns, connections, fd);
          SentTwice(c, done, n);
          SentPending(c, done + n);
          done := done + n;
        } else if result.Interrupted? {
          continue;
        } else if result.WouldBlock? && result.rearmed {
          return false, events;
        } else {
          var cause := if result.WouldBlock? then EpollError else SendError;
          Unwilling(result);
          FailClient(fd, cause);
          RunStep(old(View()), events, here, OnConn(fd, Fail(cause)), View());
          events := events + [OnConn(fd, Fail(cause))];
          TouchesTwice(old(connections), here.conns, connections, fd);
          return false, events;
        }
      }
      TakenFirst(sends[i..], 0);
      return true, events;
    }

    /** `process_completions`: take the posted completions, apply each to the
        connection that waits for it, count it off, and flush that connection. */
    method ProcessCompletions(kernel: seq<Kernel>) returns (ghost events: seq<Event>)
      requires pc.Idle? && Inv(View())
      modifies this`connections, this`closed, this`completions, this`pc, this`outstandingTasks, this`processed
      ensures Run(old(View()), events, View()) && pc.Idle? && Inv(View())
      ensures processed == old(processed) + TasksOf(old(completions))
      ensures outstandingTasks == old(outstandingTasks) - |old(completions)| && completions == []
      ensures connections.Keys <= old(connections.Keys)
      ensures AllWilling(kernel) ==> OnlyGraceful(old(closed), closed)
      // whoever is answered while the kernel takes everything is sent everything and closed
      ensures AllGreedy(kernel, |old(completions)|) ==> Untouched(old(connections), connections)
    {
      hide Run, Enabled, Apply, TasksOf, Inv, OnlyGraceful, AllGreedy;
      InvSound(View());
      events := ApplyPosted(kernel);
      RunKeepsInv(old(View()), events, View());
    }

    /** The loop of `process_completions`. */
    method ApplyPosted(kernel: seq<Kernel>) returns (ghost events: seq<Event>)
      requires pc.Idle? && Sound()
      modifies this`connections, this`closed, this`completions, this`pc, this`outstandingTasks, this`processed
      ensures Run(old(View()), events, View()) && pc.Idle?
      ensures processed == old(processed) + TasksOf(old(completions))
      ensures outstandingTasks == old(outstandingTasks) - |old(completions)| && completions == []
      ensures connections.Keys <= old(connections.Keys)
      ensures AllWilling(kernel) ==> OnlyGraceful(old(closed), closed)
      ensures AllGreedy(kernel, |old(completions)|) ==> Untouched(old(connections), connections)
    {
      hide Run, Enabled, Apply, TasksOf, OnlyGraceful, Greedy, AllGreedy, AllWilling, Untouched, AnswersAt;
      NobodyTouched(connections);
      NothingClosed(closed);
      RunNothing(View());
      var completed := TakeCompletions();
      RunSnoc(old(View()), [], old(View()), SwapCompletions, View());
      events := [] + [SwapCompletions];
      assert completed[0..] == completed && completed[..0] == [];
      NoTasks();
      assert old(processed) + [] == old(processed);
      for i := 0 to |completed|
        invariant pc == Applying(completed[i..]) && Sound() && completions == []
        invariant Run(old(View()), events, View())
        invariant processed == old(processed) + TasksOf(completed[..i])
        invariant outstandingTasks == old(outstandingTasks) - i
        invariant AllWilling(kernel) ==> OnlyGraceful(old(closed), closed)
        invariant AllGreedy(kernel, |completed|) ==> Untouched(old(connections), connections)
        invariant connections.Keys <= old(connections.Keys)
      {
        ghost var here := View();
        assert completed[i..][0] == completed[i] && completed[i..][1..] == completed[i + 1..];
        ghost var more;
        more := ApplyNext(AnswersAt(kernel, i));
        if AllWilling(kernel) {
          WillingAt(kernel, i);
          GracefulTwice(old(closed), here.closed, closed);
        }
        if AllGreedy(kernel, |completed|) {
          GreedyAt(kernel, |completed|, i);
          UntouchedTwice(old(connections), here.conns, connections);
        }
        RunConcat(old(View()), events, here, more, View());
        events := events + more;
        TasksNext(completed, i);
        assert (old(processed) + TasksOf(completed[..i])) + [completed[i].task]
          == old(processed) + TasksOf(completed[..i + 1]);
      }
      assert completed[..|completed|] == completed && completed[|completed|..] == [];
      ghost var here := View();
      FinishApplying();
      RunSnoc(old(View()), events, here, AppliedAll, View());
      events := events + [AppliedAll];
    }

    /** The next completion, and the flush of the connection it answered. */
    method ApplyNext(kernel: Kernel) returns (ghost events: seq<Event>)
      requires pc.Applying? && pc.rest != [] && Sound()
      modifies this`connections, this`closed, this`pc, this`outstandingTasks, this`processed
      ensures Run(old(View()), events, View()) && Sound()
      ensures pc == Applying(old(pc.rest)[1..]) && processed == old(processed) + [old(pc.rest)[0].task]
      ensures outstandingTasks == old(outstandingTasks) - 1 && connections.Keys <= old(connections.Keys)
      ensures Willing(kernel) ==> OnlyGraceful(old(closed), closed)
      ensures Greedy(kernel) ==> Untouched(old(connections), connections)
    {
      hide Run, Enabled, Apply, OnlyGraceful, FlushedBy, Greedy;
      var fd := pc.rest[0].task.fd;
      RunNothing(View());
      var delivered := ApplyOne();
      RunSnoc(old(View()), [], old(View()), ApplyCompletion, View());
      events := [] + [ApplyCompletion];
      if delivered {
        ghost var mid := View();
        var alive;
        ghost var sent;
        alive, sent := Flush(fd, kernel);
        RunConcat(old(View()), events, mid, sent, View());
        events := events + sent;
        OthersKept(mid.conns, connections, fd);
        if Willing(kernel) { GracefulTwice(old(closed), mid.closed, closed); }
        if Greedy(kernel) {
          GreedyIsWilling(kernel);
          GreedyCloses(mid.conns[fd], kernel, fd, connections);
        }
      }
    }

    method TakeCompletions() returns (completed: seq<Completion>)
      requires pc.Idle?
      modifies this`completions, this`pc
      ensures completed == old(completions) && Step(old(View()), SwapCompletions, View())
      ensures pc == Applying(completed) && completions == []
    {
      completed := completions;
      completions, pc := [], Applying(completed);
    }

    method FinishApplying()
      requires pc == Applying([])
      modifies this`pc
      ensures pc.Idle? && Step(old(View()), AppliedAll, View())
    {
      pc := Idle;
    }

    /** Flush or close every connection that is not waiting for a completion.
        `order` is the descriptor list. */
    method DrainSweep(order: seq<int>, kernel: seq<Kernel>) returns (ghost events: seq<Event>)
      requires pc.Idle? && draining && Inv(View())
      modifies this`connections, this`closed
      ensures Run(old(View()), events, View()) && Inv(View()) && connections.Keys <= old(connections.Keys)
      ensures WaitersKept(old(connections), connections)
      ensures Swept(old(connections), connections, order)
      ensures AllWilling(kernel) ==> OnlyGraceful(old(closed), closed)
    {
      hide Run, Enabled, Apply, Inv, OnlyGraceful, Willing;
      InvSound(View());
      RunNothing(View());
      NothingClosed(closed);
      events := [];
      for i := 0 to |order|
        invariant Sound() && Run(old(View()), events, View())
        invariant connections.Keys <= old(connections.Keys)
        invariant WaitersKept(old(connections), connections)
        invariant OnlyFlushed(old(connections), connections) && Swept(old(connections), connections, order[..i])
        invariant AllWilling(kernel) ==> OnlyGraceful(old(closed), closed)
      {
        ghost var mid := View();
        ghost var more;
        more := SweepOne(order[i], AnswersAt(kernel, i));
        RunConcat(old(View()), events, mid, more, View());
        events := events + more;
        SweptNext(old(connections), mid.conns, connections, order, i);
        if AllWilling(kernel) {
          WillingAt(kernel, i);
          GracefulTwice(old(closed), mid.closed, closed);
        }
      }
      assert order[..|order|] == order;
      RunKeepsInv(old(View()), events, View());
    }

    /** One descriptor of the sweep. */
    method SweepOne(fd: int, kernel: Kernel) returns (ghost events: seq<Event>)
      requires pc.Idle? && draining && Sound()
      modifies this`connections, this`closed
      ensures Run(old(View()), events, View()) && Sound()
      ensures SweptAt(old(connections), connections, fd)
      ensures Willing(kernel) ==> OnlyGraceful(old(closed), closed)
    {
      hide Run, Enabled, Apply, FlushedBy;
      events := [];
      RunNothing(View());
      if fd !in connections || connections[fd].inFlight {
        return;
      }
      ghost var mid := View();
      if Pending(connections[fd]) != 0 {
        var alive;
        alive, events := Flush(fd, kernel);
      } else {
        DrainOne(fd);
        RunSnoc(old(View()), [], mid, OnConn(fd, DrainClose), View());
        events := [] + [OnConn(fd, DrainClose)];
      }
      OthersKept(mid.conns, connections, fd);
    }

    /** `begin_drain`: stop the pool, then sweep. */
    method BeginDraining(order: seq<int>, kernel: seq<Kernel>) returns (ghost events: seq<Event>)
      requires pc.Idle? && shutdownRequested && Inv(View())
      modifies this`draining, this`poolStopping, this`connections, this`closed
      ensures Run(old(View()), events, View()) && Inv(View())
      ensures draining && poolStopping && connections.Keys <= old(connections.Keys)
      ensures WaitersKept(old(connections), connections)
      ensures !old(draining) ==> Swept(old(connections), connections, order)
      ensures AllWilling(kernel) ==> OnlyGraceful(old(closed), closed)
    {
      hide Run, Enabled, Apply, Inv;
      InvSound(View());
      RunNothing(View());
      NothingClosed(closed);
      if draining {
        return [];
      }
      StopPool();
      RunSnoc(old(View()), [], old(View()), BeginDrain, View());
      RunKeepsInv(old(View()), [] + [BeginDrain], View());
      ghost var mid := View();
      ghost var swept;
      swept := DrainSweep(order, kernel);
      events := [] + [BeginDrain] + swept;
      RunConcat(old(View()), [] + [BeginDrain], mid, swept, View());
    }

    /** The loop's idle callback and its exit test: completions are processed, a requested shutdown
        drains, and a draining loop is swept. */
    method IdleStep(kernel: seq<Kernel>, drainOrder: seq<int>, drainKernel: seq<Kernel>,
                    sweepOrder: seq<int>, sweepKernel: seq<Kernel>)
      returns (exit: bool, ghost events: seq<Event>)
      requires pc.Idle? && Inv(View())
      modifies this
      ensures Run(old(View()), events, View()) && pc.Idle? && Inv(View())
      ensures exit <==> CanExit(View())
      ensures processed == old(processed) + TasksOf(old(completions)) && completions == []
      ensures draining == (old(draining) || old(shutdownRequested))
      ensures draining ==> forall i :: 0 <= i < |sweepOrder| && sweepOrder[i] in connections ==>
                connections[sweepOrder[i]].inFlight || connections[sweepOrder[i]].chunks != []
      ensures AllWilling(kernel) && AllWilling(drainKernel) && AllWilling(sweepKernel) ==>
                OnlyGraceful(old(closed), closed)
    {
      hide Run, Enabled, Apply, Inv, OnlyGraceful, AllWilling, TasksOf, Swept, WaitersKept;
      events := ProcessCompletions(kernel);
      ghost var willing := AllWilling(kernel) && AllWilling(drainKernel) && AllWilling(sweepKernel);
      if shutdownRequested {
        ghost var mid := View();
        ghost var more;
        more := BeginDraining(drainOrder, drainKernel);
        RunConcat(old(View()), events, mid, more, View());
        events := events + more;
        if willing { GracefulTwice(old(closed), mid.closed, closed); }
      }
      if draining {
        ghost var mid := View();
        ghost var more;
        more := DrainSweep(sweepOrder, sweepKernel);
        RunConcat(old(View()), events, mid, more, View());
        events := events + more;
        SweptLeaves(mid, connections, sweepOrder);
        if willing { GracefulTwice(old(closed), mid.closed, closed); }
      }
      exit := draining && outstandingTasks == 0 && connections == map[];
    }

    /** `handle_client`: read until something decides, act on it, and flush what may be pending.
        `armed` is the answer to the re-arming of a dispatch. */
    method HandleClient(fd: int, answers: seq<ReadResult>, armed: bool, overloaded: string, refusing: Kernel,
                        kernel: Kernel)
      returns (ghost events: seq<Event>)
      requires fd in connections && pc.Idle? && Inv(View())
      modifies this
      ensures Run(old(View()), events, View()) && pc.Idle? && Inv(View())
      ensures FirstEvents(fd, Decisive(answers), armed) <= events
      ensures !ReadsWell(Decisive(answers), armed) ==> fd !in connections
      ensures old(connections)[fd].offset <= |old(connections)[fd].outbound|
      ensures ReadBreaches(old(connections)[fd], Decisive(answers)) ==> fd !in connections
      ensures var c, read := old(connections)[fd], Decisive(answers);
              !c.inFlight && Willing(kernel) && !read.ReadFailed? && read != Data(Request) && !ReadBreaches(c, read) ==>
                FlushedBy(ReadInto(c, read), kernel, fd, connections)
      ensures ReadsWell(Decisive(answers), armed) && Willing(refusing) && Willing(kernel) ==>
                OnlyGraceful(old(closed), closed)
    {
      hide Run, Enabled, Apply, Inv, OnlyGraceful, FlushedBy, FirstEvents;
      var read := ReadUntil(answers);
      events := ActOn(fd, read, armed, overloaded, refusing);
      RunKeepsInv(old(View()), events, View());
      if fd in connections && !connections[fd].inFlight {
        ghost var mid := View();
        InvSound(mid);
        var alive;
        ghost var sent;
        alive, sent := FlushClient(fd, kernel);
        RunConcat(old(View()), events, mid, sent, View());
        events := events + sent;
        if OnlyGraceful(old(closed), mid.closed) && Willing(kernel) { GracefulTwice(old(closed), mid.closed, closed); }
      }
    }

    /** The read loop. */
    method ReadUntil(answers: seq<ReadResult>) returns (read: ReadResult)
      ensures read == Decisive(answers)
    {
      var i := 0;
      assert answers[0..] == answers;
      while i < |answers|
        invariant i <= |answers| && Decisive(answers) == Decisive(answers[i..])
      {
        assert answers[i..][1..] == answers[i + 1..];
        if answers[i] != Data(NeedsMore) && !answers[i].ReadInterrupted? {
          return answers[i];
        }
        i := i + 1;
      }
      return ReadBlocked;
    }

    /** The branches of the read loop. */
    method ActOn(fd: int, read: ReadResult, armed: bool, overloaded: string, refusing: Kernel)
      returns (ghost events: seq<Event>)
      requires fd in connections && pc.Idle? && Inv(View())
      modifies this
      ensures Run(old(View()), events, View()) && pc.Idle?
      ensures FirstEvents(fd, read, armed) <= events
      ensures !ReadsWell(read, armed) ==> fd !in connections
      ensures ReadsWell(read, armed) && Willing(refusing) ==> OnlyGraceful(old(closed), closed)
      ensures old(connections)[fd].offset <= |old(connections)[fd].outbound|
      ensures ReadBreaches(old(connections)[fd], read) ==> fd !in connections
      ensures !read.ReadFailed? && read != Data(Request) && !ReadBreaches(old(connections)[fd], read) ==>
                fd in connections && connections[fd] == ReadInto(old(connections)[fd], read)
    {
      hide Run, Enabled, Apply, Inv, OnlyGraceful, FlushedBy;
      InvSound(View());
      RunNothing(View());
      NothingClosed(closed);
      events := [];
      if read.EndOfStream? {
        TouchClient(fd, PeerCloses);
        RunStep(old(View()), [], old(View()), OnConn(fd, PeerCloses), View());
        events := [] + [OnConn(fd, PeerCloses)];
      } else if read.ReadFailed? {
        TouchClient(fd, Fail(ReadError));
        RunStep(old(View()), [], old(View()), OnConn(fd, Fail(ReadError)), View());
        events := [] + [OnConn(fd, Fail(ReadError))];
      } else if read.Data? && read.fed.Malformed? {
        TouchClient(fd, ParseFails(read.fed.text));
        RunStep(old(View()), [], old(View()), OnConn(fd, ParseFails(read.fed.text)), View());
        events := [] + [OnConn(fd, ParseFails(read.fed.text))];
      } else if read == Data(Request) {
        if armed {
          var accept;
          accept, events := DispatchRequest(fd, overloaded, refusing);
        } else {
          TouchClient(fd, DispatchFails);
          RunStep(old(View()), [], old(View()), OnConn(fd, DispatchFails), View());
          events := [] + [OnConn(fd, DispatchFails)];
        }
      }
    }

    /** One event on a connection: the peer's close, a failure, the 400, a failed dispatch. */
    method TouchClient(fd: int, what: ConnEvent)
      requires Has(View(), fd) && Allowed(pc, draining, connections[fd], what)
      requires what.PeerCloses? || what.Fail? || what.ParseFails? || what.DispatchFails? || what.CloseIdle?
      modifies this`connections, this`closed
      ensures Step(old(View()), OnConn(fd, what), View())
      ensures what.Fail? || what.DispatchFails? || what.CloseIdle? ==> fd !in connections
      ensures what.PeerCloses? ==> fd in connections && connections[fd] == old(connections[fd]).(peerClosed := true)
      ensures what.ParseFails? ==>
                if Pending(old(connections)[fd]) + |what.text| > MAX_OUTBOUND_BYTES then fd !in connections
                else fd in connections && connections[fd] == ReadInto(old(connections)[fd], Data(Malformed(what.text)))
      ensures what.PeerCloses? || what.ParseFails? || what.CloseIdle? ==> OnlyGraceful(old(closed), closed)
    {
      var c := connections[fd];
      match what
      case PeerCloses => connections := connections[fd := c.(peerClosed := true)];
      case Fail(cause) => CloseClient(fd, cause);
      case DispatchFails =>
        MarkFailed(fd);
        CloseClient(fd, EpollError);
      case CloseIdle => CloseClient(fd, Finished);
      case ParseFails(text) =>
        if Pending(c) + |text| > MAX_OUTBOUND_BYTES {
          CloseClient(fd, LimitBreach);
        } else {
          connections := connections[fd := Enqueue(c, Refusal(text)).(peerClosed := true)];
        }
    }

    method MarkFailed(fd: int)
      requires fd in connections
      modifies this`connections
      ensures connections == old(connections)[fd := old(connections[fd]).(inFlight := true)]
    {
      connections := connections[fd := connections[fd].(inFlight := true)];
    }

    /** `handle_event` on a connection: a hard error closes it; otherwise read, note the peer's close,
        flush, and close it if it waits for nothing, has nothing to send and its peer is closed. */
    method HandleEvent(fd: int, failed: bool, readable: bool, hungUp: bool, writable: bool, answers: seq<ReadResult>,
                       armed: bool, overloaded: string, refusing: Kernel, reading: Kernel, writing: Kernel)
      returns (ghost events: seq<Event>)
      requires pc.Idle? && Inv(View())
      modifies this
      ensures Run(old(View()), events, View()) && pc.Idle? && Inv(View())
      ensures fd !in old(connections) ==> events == []
      ensures failed ==> fd !in connections
      ensures fd in old(connections) && !failed && readable ==> FirstEvents(fd, Decisive(answers), armed) <= events
      ensures fd in old(connections) ==> old(connections)[fd].offset <= |old(connections)[fd].outbound|
      ensures fd in old(connections) && !failed && !readable && writable && Willing(writing) ==>
                var c := old(connections)[fd];
                FlushedBy(c.(peerClosed := c.peerClosed || hungUp), writing, fd, connections)
      ensures fd in connections ==>
                connections[fd].inFlight || !connections[fd].peerClosed || Pending(connections[fd]) != 0
      ensures fd in connections && hungUp ==> connections[fd].peerClosed
      ensures var well := readable ==> ReadsWell(Decisive(answers), armed);
              !failed && well && Willing(refusing) && Willing(reading) && Willing(writing) ==>
                OnlyGraceful(old(closed), closed)
    {
      hide Run, Enabled, Apply, Inv, OnlyGraceful, FlushedBy, FirstEvents, Step;
      events := [];
      RunNothing(View());
      NothingClosed(closed);
      InvSound(View());
      if fd !in connections {
        return;
      }
      if failed {
        TouchClient(fd, Fail(PeerError));
        RunStep(old(View()), [], old(View()), OnConn(fd, Fail(PeerError)), View());
        events := [] + [OnConn(fd, Fail(PeerError))];
        RunKeepsInv(old(View()), events, View());
        return;
      }
      if readable {
        events := HandleClient(fd, answers, armed, overloaded, refusing, reading);
        if fd !in connections {
          return;
        }
      }
      ghost var more;
      ghost var mid := View();
      more := AfterRead(fd, hungUp, writable, writing);
      RunConcat(old(View()), events, mid, more, View());
      events := events + more;
      if OnlyGraceful(old(closed), mid.closed) && Willing(writing) { GracefulTwice(old(closed), mid.closed, closed); }
    }

    /** The rest of `handle_event`. */
    method AfterRead(fd: int, hungUp: bool, writable: bool, writing: Kernel) returns (ghost events: seq<Event>)
      requires fd in connections && pc.Idle? && Inv(View())
      modifies this`connections, this`closed
      ensures Run(old(View()), events, View()) && Inv(View())
      ensures fd in connections ==> connections[fd].offset <= |connections[fd].outbound|
      ensures fd in connections ==>
                connections[fd].inFlight || !connections[fd].peerClosed || Pending(connections[fd]) != 0
      ensures fd in connections && hungUp ==> connections[fd].peerClosed
      ensures Willing(writing) ==> OnlyGraceful(old(closed), closed)
      ensures old(connections)[fd].offset <= |old(connections)[fd].outbound|
      ensures writable && Willing(writing) ==>
                var c := old(connections)[fd];
                FlushedBy(c.(peerClosed := c.peerClosed || hungUp), writing, fd, connections)
    {
      hide Run, Enabled, Apply, Inv, OnlyGraceful, OnlyTouches, Willing, FlushedBy;
      InvSound(View());
      events := NoteHangUp(fd, hungUp);
      ghost var mid, more := View(), [];
      if writable {
        var alive;
        InvSound(View());
        alive, more := FlushClient(fd, writing);
        FlushKeepsPeer(mid.conns, connections, fd);
        RunConcat(old(View()), events, mid, more, View());
        events := events + more;
        if Willing(writing) { GracefulTwice(old(closed), mid.closed, closed); }
        if !alive {
          return;
        }
        mid := View();
      }
      if writable && Willing(writing) {
        FlushedStays(old(connections)[fd].(peerClosed := old(connections)[fd].peerClosed || hungUp), writing, fd,
                     connections);
      }
      more := CloseIfIdle(fd);
      RunConcat(old(View()), events, mid, more, View());
      events := events + more;
      if Willing(writing) { GracefulTwice(old(closed), mid.closed, closed); }
    }

    method NoteHangUp(fd: int, hungUp: bool) returns (ghost events: seq<Event>)
      requires fd in connections && pc.Idle? && Inv(View())
      modifies this`connections, this`closed
      ensures Run(old(View()), events, View()) && Inv(View()) && fd in connections
      ensures var c := old(connections)[fd]; connections[fd] == c.(peerClosed := c.peerClosed || hungUp)
      ensures OnlyGraceful(old(closed), closed)
    {
      hide Run, Enabled, Apply, Inv, OnlyGraceful, Step;
      events := [];
      RunNothing(View());
      NothingClosed(closed);
      InvSound(View());
      if hungUp {
        TouchClient(fd, PeerCloses);
        RunStep(old(View()), [], old(View()), OnConn(fd, PeerCloses), View());
        events := [] + [OnConn(fd, PeerCloses)];
      }
      RunKeepsInv(old(View()), events, View());
    }

    method CloseIfIdle(fd: int) returns (ghost events: seq<Event>)
      requires fd in connections && pc.Idle? && Inv(View())
      modifies this`connections, this`closed
      ensures Run(old(View()), events, View()) && Inv(View())
      ensures fd in connections ==> connections == old(connections)
      ensures old(connections[fd]).offset <= |old(connections[fd]).outbound|
      ensures fd !in connections ==> old(connections[fd]).peerClosed && Pending(old(connections[fd])) == 0
      ensures fd in connections ==> connections[fd].offset <= |connections[fd].outbound|
      ensures fd in connections ==>
                connections[fd].inFlight || !connections[fd].peerClosed || Pending(connections[fd]) != 0
      ensures OnlyGraceful(old(closed), closed)
    {
      hide Run, Enabled, Apply, Inv, OnlyGraceful, Step;
      events := [];
      RunNothing(View());
      NothingClosed(closed);
      InvSound(View());
      if !connections[fd].inFlight && connections[fd].peerClosed && Pending(connections[fd]) == 0 {
        TouchClient(fd, CloseIdle);
        RunStep(old(View()), [], old(View()), OnConn(fd, CloseIdle), View());
        events := [] + [OnConn(fd, CloseIdle)];
      }
      RunKeepsInv(old(View()), events, View());
    }

    method StopPool()
      requires pc.Idle? && shutdownRequested
      modifies this`draining, this`poolStopping
      ensures draining && poolStopping && Step(old(View()), BeginDrain, View())
    {
      draining, poolStopping := true, true;
    }

    method DrainOne(fd: int)
      requires Has(View(), fd) && pc.Idle? && draining && !connections[fd].inFlight && Pending(connections[fd]) == 0
      modifies this`connections, this`closed
      ensures Step(old(View()), OnConn(fd, DrainClose), View())
      ensures OnlyTouches(old(connections), connections, fd) && fd !in connections
      ensures closed == old(closed) + [Closed(old(connections[fd]), Drained)]
    {
      CloseClient(fd, Drained);
    }

    /** The dispatch of a parsed request in `handle_client`: mark, count, submit; a
        refused request is uncounted, answered with 503 and flushed. */
    method DispatchRequest(fd: int, overloaded: string, kernel: Kernel) returns (accept: bool, ghost events: seq<Event>)
      requires fd in connections && pc.Idle? && Inv(View())
      modifies this
      ensures Run(old(View()), events, View()) && pc.Idle? && Inv(View())
      ensures accept <==> !old(poolStopping) && |old(poolQueue)| < poolCapacity
      ensures accept ==> fd in connections && connections[fd].inFlight
      ensures !accept && fd in connections ==> !connections[fd].inFlight
      ensures outstandingTasks == old(outstandingTasks) + (if accept then 1 else 0)
      ensures accept ==> events == [Dispatch(fd), CountTask, SubmitAccepted]
      ensures !accept ==> [Dispatch(fd), CountTask, SubmitRefused(overloaded)] <= events
      ensures var c := Overloaded(Mark(old(connections)[fd]), overloaded);
              !accept && Willing(kernel) ==> c.offset <= |c.outbound| && FlushedBy(c, kernel, fd, connections)
      ensures Willing(kernel) ==> OnlyGraceful(old(closed), closed)
    {
      hide Run, Enabled, Apply, Inv, OnlyGraceful, FlushedBy;
      InvSound(View());
      NothingClosed(closed);
      accept, events := SubmitRequest(fd, overloaded);
      RunKeepsInv(old(View()), events, View());
      if !accept {
        ghost var mid := View();
        InvSound(mid);
        var alive;
        ghost var sent;
        alive, sent := FlushClient(fd, kernel);
        RunConcat(old(View()), events, mid, sent, View());
        events := events + sent;
      }
    }

    method SubmitRequest(fd: int, overloaded: string) returns (accept: bool, ghost events: seq<Event>)
      requires Has(View(), fd) && pc.Idle?
      modifies this
      ensures Run(old(View()), events, View()) && pc.Idle? && fd in connections
      ensures accept <==> !old(poolStopping) && |old(poolQueue)| < poolCapacity
      ensures connections[fd].inFlight == accept && closed == old(closed)
      ensures !accept ==> connections[fd] == Overloaded(Mark(old(connections)[fd]), overloaded)
      ensures outstandingTasks == old(outstandingTasks) + (if accept then 1 else 0)
      ensures events == [Dispatch(fd), CountTask, if accept then SubmitAccepted else SubmitRefused(overloaded)]
    {
      hide Run, Enabled, Apply;
      RunNothing(View());
      MarkInFlight(fd);
      RunSnoc(old(View()), [], old(View()), Dispatch(fd), View());
      events := [] + [Dispatch(fd)];
      ghost var here := View();
      CountOne();
      RunSnoc(old(View()), events, here, CountTask, View());
      events := events + [CountTask];
      here := View();
      accept := Submit(overloaded);
      ghost var last := if accept then SubmitAccepted else SubmitRefused(overloaded);
      RunSnoc(old(View()), events, here, last, View());
      events := events + [last];
    }

    method MarkInFlight(fd: int)
      requires Has(View(), fd) && pc.Idle?
      modifies this`connections, this`pc
      ensures Step(old(View()), Dispatch(fd), View()) && pc == Marked(fd)
      ensures fd in connections && connections[fd] == Mark(old(connections[fd]))
    {
      connections, pc := connections[fd := Mark(connections[fd])], Marked(fd);
    }

    method CountOne()
      requires pc.Marked?
      modifies this`outstandingTasks, this`pc
      ensures Step(old(View()), CountTask, View())
      ensures outstandingTasks == old(outstandingTasks) + 1 && pc == Counted(old(pc.fd))
    {
      outstandingTasks, pc := outstandingTasks + 1, Counted(pc.fd);
    }

    method Submit(overloaded: string) returns (accept: bool)
      requires pc.Counted? && pc.fd in connections && connections[pc.fd].inFlight
      modifies this`connections, this`poolQueue, this`issued, this`outstandingTasks, this`pc
      ensures accept <==> !old(poolStopping) && |old(poolQueue)| < poolCapacity
      ensures Step(old(View()), if accept then SubmitAccepted else SubmitRefused(overloaded), View())
      ensures pc.Idle? && old(pc.fd) in connections && connections[old(pc.fd)].inFlight == accept
      ensures outstandingTasks == old(outstandingTasks) - (if accept then 0 else 1)
      ensures !accept ==> connections[old(pc.fd)] == Overloaded(old(connections)[old(pc.fd)], overloaded)
    {
      hide Step, Overloaded;
      accept := !poolStopping && |poolQueue| < poolCapacity;
      if accept {
        PushTask();
      } else {
        RefuseTask(overloaded);
      }
    }

    method PushTask()
      requires pc.Counted? && pc.fd in connections && !poolStopping && |poolQueue| < poolCapacity
      modifies this`poolQueue, this`issued, this`pc
      ensures Step(old(View()), SubmitAccepted, View()) && pc.Idle?
    {
      var c := connections[pc.fd];
      var t := Task(|issued|, pc.fd, c.generation, c.instance);
      poolQueue, issued, pc := poolQueue + [Own(t)], issued + [t], Idle;
    }

    method RefuseTask(overloaded: string)
      requires pc.Counted? && pc.fd in connections && (poolStopping || |poolQueue| >= poolCapacity)
      modifies this`connections, this`outstandingTasks, this`pc
      ensures Step(old(View()), SubmitRefused(overloaded), View()) && pc.Idle?
      ensures old(pc.fd) in connections
      ensures connections[old(pc.fd)] == Overloaded(old(connections)[old(pc.fd)], overloaded)
      ensures outstandingTasks == old(outstandingTasks) - 1
    {
      var fd := pc.fd;
      var c := connections[fd];
      outstandingTasks, pc := outstandingTasks - 1, Idle;
      connections := connections[fd := Enqueue(c.(inFlight := false), Refusal(overloaded)).(peerClosed := true)];
    }
  }
}
