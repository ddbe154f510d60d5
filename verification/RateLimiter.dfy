/** `RateLimiter::check` under any interleaving of threads: a shared lookup, an exclusive
    double-checked insertion, and a consume under the entry's own lock, each atomic. */
module RateLimiting {
  import opened TokenBuckets

  /** The map from IP to entry, and every entry ever made. */
  datatype Table = Table(buckets: map<string, nat>, entries: seq<Bucket>)

  /** Where a thread is inside `check`. */
  datatype Progress = Outside | Missed(ip: string) | Holds(ip: string, entry: nat)

  datatype Call = Call(ip: string, time: real, allowed: bool)

  datatype State = State(table: Table, threads: map<nat, Progress>, calls: seq<Call>, clock: real)

  /** Each step reads the steady clock at `now`. */
  datatype Event =
    | Lookup(thread: nat, ip: string, now: real)
    | Insert(thread: nat, now: real)
    | Take(thread: nat, now: real)

  // ---- The three critical sections ---------------------------------------------------

  function Emplace(l: Limit, t: Table, ip: string, now: real): Table {
    if ip in t.buckets then t
    else Table(t.buckets[ip := |t.entries|], t.entries + [Start(l, now)])
  }

  function TakeFrom(l: Limit, t: Table, entry: nat, now: real): Table
    requires entry < |t.entries|
  {
    t.(entries := t.entries[entry := Consume(l, t.entries[entry], now).bucket])
  }

  function At(s: State, thread: nat): Progress {
    if thread in s.threads then s.threads[thread] else Outside
  }

  predicate Enabled(s: State, e: Event) {
    && s.clock <= e.now
    && match e
       case Lookup(thread, _, _) => At(s, thread).Outside?
       case Insert(thread, _) => At(s, thread).Missed?
       case Take(thread, _) => At(s, thread).Holds? && At(s, thread).entry < |s.table.entries|
  }

  function Apply(l: Limit, s: State, e: Event): State
    requires Enabled(s, e)
  {
    match e
    case Lookup(thread, ip, now) =>
      var p := if ip in s.table.buckets then Holds(ip, s.table.buckets[ip]) else Missed(ip);
      s.(threads := s.threads[thread := p], clock := now)
    case Insert(thread, now) =>
      var ip := At(s, thread).ip;
      var t := Emplace(l, s.table, ip, now);
      s.(table := t, threads := s.threads[thread := Holds(ip, t.buckets[ip])], clock := now)
    case Take(thread, now) =>
      var p := At(s, thread);
      State(TakeFrom(l, s.table, p.entry, now), s.threads[thread := Outside],
            s.calls + [Call(p.ip, now, Consume(l, s.table.entries[p.entry], now).allowed)], now)
  }

  function Init(clock: real): State { State(Table(map[], []), map[], [], clock) }

  predicate ValidRun(l: Limit, s: State, es: seq<Event>)
    decreases |es|
  {
    es == [] || (Enabled(s, es[0]) && ValidRun(l, Apply(l, s, es[0]), es[1..]))
  }

  function Exec(l: Limit, s: State, es: seq<Event>): State
    requires ValidRun(l, s, es)
    decreases |es|
  {
    if es == [] then s else Exec(l, Apply(l, s, es[0]), es[1..])
  }

  // ---- One IP's share of the history ----------------------------------------------------

  /** The times of the calls for one IP, in order. */
  function TimesOf(calls: seq<Call>, ip: string): seq<real> {
    if calls == [] then []
    else
      var n := |calls| - 1;
      TimesOf(calls[..n], ip) + if calls[n].ip == ip then [calls[n].time] else []
  }

  /** What those calls were told. */
  function VerdictsOf(calls: seq<Call>, ip: string): seq<bool> {
    if calls == [] then []
    else
      var n := |calls| - 1;
      VerdictsOf(calls[..n], ip) + if calls[n].ip == ip then [calls[n].allowed] else []
  }

  /** The IP's entry is what a bucket of its own, made at `created`, would be now,
      and it was told what that bucket would have said. */
  ghost predicate Alone(l: Limit, s: State, ip: string, created: real)
    requires ip in s.table.buckets && s.table.buckets[ip] < |s.table.entries|
  {
    var times := TimesOf(s.calls, ip);
    && created <= s.clock && Monotone(created, times)
    && (forall i :: 0 <= i < |times| ==> times[i] <= s.clock)
    && s.table.entries[s.table.buckets[ip]] == After(l, created, times)
    && VerdictsOf(s.calls, ip) == Decisions(l, created, times)
  }

  predicate OneEntryEach(t: Table) {
    && (forall ip :: ip in t.buckets ==> t.buckets[ip] < |t.entries|)
    && (forall ip, other :: ip in t.buckets && other in t.buckets && ip != other ==> t.buckets[ip] != t.buckets[other])
  }

  predicate ThreadsHoldIt(s: State) {
    forall thread :: thread in s.threads && s.threads[thread].Holds? ==>
      && s.threads[thread].ip in s.table.buckets
      && s.table.buckets[s.threads[thread].ip] == s.threads[thread].entry
  }

  ghost predicate Inv(l: Limit, s: State) {
    && OneEntryEach(s.table) && ThreadsHoldIt(s)
    && (forall ip :: ip in s.table.buckets ==> exists created :: Alone(l, s, ip, created))
    && (forall ip :: ip !in s.table.buckets ==> TimesOf(s.calls, ip) == [] && VerdictsOf(s.calls, ip) == [])
  }

  // ---- Every step keeps it ---------------------------------------------------------------

  lemma CallsGrow(calls: seq<Call>, c: Call, ip: string)
    ensures TimesOf(calls + [c], ip) == if c.ip == ip then TimesOf(calls, ip) + [c.time] else TimesOf(calls, ip)
    ensures VerdictsOf(calls + [c], ip)
            == if c.ip == ip then VerdictsOf(calls, ip) + [c.allowed] else VerdictsOf(calls, ip)
  {
    assert (calls + [c])[..|calls|] == calls;
  }

  /** Nothing of the IP's own changed. */
  lemma AloneKept(l: Limit, s: State, s': State, ip: string)
    requires ip in s.table.buckets && s.table.buckets[ip] < |s.table.entries| && s.clock <= s'.clock
    requires ip in s'.table.buckets && s'.table.buckets[ip] == s.table.buckets[ip] < |s'.table.entries|
    requires s'.table.entries[s.table.buckets[ip]] == s.table.entries[s.table.buckets[ip]]
    requires TimesOf(s'.calls, ip) == TimesOf(s.calls, ip) && VerdictsOf(s'.calls, ip) == VerdictsOf(s.calls, ip)
    requires exists created :: Alone(l, s, ip, created)
    ensures exists created :: Alone(l, s', ip, created)
  {
    hide After, Decisions, TimesOf, VerdictsOf;
    var created :| Alone(l, s, ip, created);
    assert Alone(l, s', ip, created);
  }

  lemma InsertKeeps(l: Limit, s: State, e: Event)
    requires Inv(l, s) && Enabled(s, e) && e.Insert?
    ensures Inv(l, Apply(l, s, e))
  {
    hide After, Decisions, TimesOf, VerdictsOf, Consume, Alone;
    var s' := Apply(l, s, e);
    var ip := At(s, e.thread).ip;
    assert OneEntryEach(s'.table) && ThreadsHoldIt(s');
    forall other | other in s'.table.buckets ensures exists created :: Alone(l, s', other, created) {
      if other in s.table.buckets { AloneKept(l, s, s', other); } else { Fresh(l, s', other, e.now); }
    }
  }

  lemma Fresh(l: Limit, s: State, ip: string, now: real)
    requires ip in s.table.buckets && s.table.buckets[ip] < |s.table.entries|
    requires s.table.entries[s.table.buckets[ip]] == Start(l, now) && s.clock == now
    requires TimesOf(s.calls, ip) == [] && VerdictsOf(s.calls, ip) == []
    ensures exists created :: Alone(l, s, ip, created)
  {
    assert Alone(l, s, ip, now);
  }

  lemma TakeKeeps(l: Limit, s: State, e: Event)
    requires Inv(l, s) && Enabled(s, e) && e.Take?
    ensures Inv(l, Apply(l, s, e))
  {
    hide After, Decisions, TimesOf, VerdictsOf, Consume, Alone;
    var s' := Apply(l, s, e);
    var p := At(s, e.thread);
    var c := s'.calls[|s.calls|];
    assert OneEntryEach(s'.table) && ThreadsHoldIt(s');
    forall ip ensures ip in s'.table.buckets ==> exists created :: Alone(l, s', ip, created)
              ensures ip !in s'.table.buckets ==> TimesOf(s'.calls, ip) == [] && VerdictsOf(s'.calls, ip) == []
    {
      CallsGrow(s.calls, c, ip);
      if ip == p.ip {
        var created :| Alone(l, s, ip, created);
        OwnTake(l, s, s', ip, created, e.now);
      } else if ip in s'.table.buckets {
        AloneKept(l, s, s', ip);
      }
    }
  }

  lemma OwnTake(l: Limit, s: State, s': State, ip: string, created: real, now: real)
    requires OneEntryEach(s.table) && ip in s.table.buckets && Alone(l, s, ip, created) && s.clock <= now == s'.clock
    requires s'.table == TakeFrom(l, s.table, s.table.buckets[ip], now)
    requires TimesOf(s'.calls, ip) == TimesOf(s.calls, ip) + [now]
    requires VerdictsOf(s'.calls, ip)
          == VerdictsOf(s.calls, ip) + [Consume(l, s.table.entries[s.table.buckets[ip]], now).allowed]
    ensures Alone(l, s', ip, created)
  {
    hide After, Decisions, TimesOf, VerdictsOf, Consume;
    OneMore(l, created, TimesOf(s.calls, ip), now);
  }

  lemma StepKeeps(l: Limit, s: State, e: Event)
    requires Inv(l, s) && Enabled(s, e)
    ensures Inv(l, Apply(l, s, e))
  {
    hide After, Decisions, TimesOf, VerdictsOf, Consume, Alone;
    var s' := Apply(l, s, e);
    match e
    case Lookup(_, _, _) =>
      forall ip | ip in s'.table.buckets ensures exists created :: Alone(l, s', ip, created) {
        AloneKept(l, s, s', ip);
      }
    case Insert(_, _) => InsertKeeps(l, s, e);
    case Take(_, _) => TakeKeeps(l, s, e);
  }

  lemma {:induction false} RunKeeps(l: Limit, s: State, es: seq<Event>)
    requires Inv(l, s) && ValidRun(l, s, es)
    ensures Inv(l, Exec(l, s, es))
    decreases |es|
  {
    hide Inv, Apply, Enabled;
    if es != [] {
      StepKeeps(l, s, es[0]);
      RunKeeps(l, Apply(l, s, es[0]), es[1..]);
    }
  }

  // ---- Theorems ----------------------------------------------------------------------------

  /** Whatever the other threads and IPs did, an IP was told exactly what a bucket of its own,
      fed only its own calls, would have said - whenever that bucket had been made. */
  lemma DecisionsAreIsolated(l: Limit, clock: real, es: seq<Event>, ip: string, created: real)
    requires 0.0 <= l.rate && ValidRun(l, Init(clock), es)
    requires Monotone(created, TimesOf(Exec(l, Init(clock), es).calls, ip))
    ensures var calls := Exec(l, Init(clock), es).calls;
            VerdictsOf(calls, ip) == Decisions(l, created, TimesOf(calls, ip))
  {
    hide Exec, ValidRun, After, Consume;
    RunKeeps(l, Init(clock), es);
    var s := Exec(l, Init(clock), es);
    BucketIsWindowLimiter(l, created, TimesOf(s.calls, ip));
    if ip in s.table.buckets {
      var made :| Alone(l, s, ip, made);
      BucketIsWindowLimiter(l, made, TimesOf(s.calls, ip));
    }
  }

  /** The window bound holds for every IP of the shared limiter. */
  lemma PerIpBound(l: Limit, clock: real, es: seq<Event>, ip: string, s: real, t: real)
    requires 0.0 <= l.capacity && 0.0 <= l.rate && s <= t && ValidRun(l, Init(clock), es)
    ensures var calls := Exec(l, Init(clock), es).calls;
            && |VerdictsOf(calls, ip)| == |TimesOf(calls, ip)|
            && |PassedIn(TimesOf(calls, ip), VerdictsOf(calls, ip), s, t)| as real <= l.capacity + (t - s) * l.rate
  {
    hide Exec, ValidRun, After, Consume;
    RunKeeps(l, Init(clock), es);
    var end := Exec(l, Init(clock), es);
    var made := 0.0;
    if ip in end.table.buckets { made :| Alone(l, end, ip, made); }
    WindowBound(l, made, TimesOf(end.calls, ip), s, t);
  }

  lemma StepKeepsEntry(l: Limit, s: State, e: Event, ip: string)
    requires Enabled(s, e) && ip in s.table.buckets
    ensures ip in Apply(l, s, e).table.buckets && Apply(l, s, e).table.buckets[ip] == s.table.buckets[ip]
  {
    hide Consume;
  }

  lemma {:induction false} RunKeepsEntry(l: Limit, s: State, es: seq<Event>, ip: string)
    requires ValidRun(l, s, es) && ip in s.table.buckets
    ensures ip in Exec(l, s, es).table.buckets && Exec(l, s, es).table.buckets[ip] == s.table.buckets[ip]
    decreases |es|
  {
    hide Apply, Enabled;
    if es != [] {
      StepKeepsEntry(l, s, es[0], ip);
      RunKeepsEntry(l, Apply(l, s, es[0]), es[1..], ip);
    }
  }

  /** One entry per IP for life: once in the map an IP keeps its entry, no two IPs share one,
      and every thread past the lookup holds the one in the map, however late its own insertion. */
  lemma OneEntryForLife(l: Limit, clock: real, es: seq<Event>, more: seq<Event>, ip: string)
    requires ValidRun(l, Init(clock), es) && ValidRun(l, Exec(l, Init(clock), es), more)
    ensures var s := Exec(l, Init(clock), es);
            var later := Exec(l, s, more);
            && OneEntryEach(later.table) && ThreadsHoldIt(later)
            && (ip in s.table.buckets ==> ip in later.table.buckets && later.table.buckets[ip] == s.table.buckets[ip])
  {
    RunKeeps(l, Init(clock), es);
    var s := Exec(l, Init(clock), es);
    RunKeeps(l, s, more);
    if ip in s.table.buckets { RunKeepsEntry(l, s, more, ip); }
  }

  // ---- The class ------------------------------------------------------------------------------

  class RateLimiter {
    const limit: Limit
    var buckets: map<string, TokenBucket>
    ghost var made: seq<TokenBucket>
    ghost var slots: map<string, nat>

    ghost predicate Valid()
      reads this
    {
      && slots.Keys == buckets.Keys
      && (forall ip :: ip in slots ==> slots[ip] < |made| && made[slots[ip]] == buckets[ip])
      && (forall i :: 0 <= i < |made| ==> made[i].limit == limit)
      && (forall i, j :: 0 <= i < j < |made| ==> made[i] != made[j])
    }

    ghost function View(): Table
      reads this, made
    {
      Table(slots, seq(|made|, i requires 0 <= i < |made| reads this, made => made[i].View()))
    }

    constructor (limit: Limit)
      ensures Valid() && this.limit == limit && View() == Table(map[], [])
    {
      this.limit := limit;
      buckets, made, slots := map[], [], map[];
    }

    /** The lookup under the shared lock. */
    method FindEntry(ip: string) returns (entry: TokenBucket?)
      requires Valid()
      ensures entry == null <==> ip !in View().buckets
      ensures entry != null ==> entry == made[View().buckets[ip]]
    {
      if ip in buckets { entry := buckets[ip]; } else { entry := null; }
    }

    /** The insertion under the exclusive lock, which looks again first. */
    method FindOrEmplace(ip: string, now: real) returns (entry: TokenBucket)
      requires Valid()
      modifies this
      ensures Valid() && View() == Emplace(limit, old(View()), ip, now)
      ensures ip in slots && entry == made[slots[ip]]
      ensures forall b :: b in made ==> b in old(made) || fresh(b)
    {
      if ip !in buckets {
        var b := new TokenBucket(limit, now);
        buckets := buckets[ip := b];
        slots := slots[ip := |made|];
        made := made + [b];
      }
      entry := buckets[ip];
    }

    /** The whole call when no other thread comes between. */
    method Check(ip: string, created: real, now: real) returns (allowed: bool)
      requires Valid()
      modifies this, made
      ensures Valid()
      ensures var t := Emplace(limit, old(View()), ip, created);
              && t.buckets[ip] < |t.entries|
              && View() == TakeFrom(limit, t, t.buckets[ip], now)
              && allowed == Consume(limit, t.entries[t.buckets[ip]], now).allowed
    {
      var entry := FindEntry(ip);
      if entry == null {
        entry := FindOrEmplace(ip, created);
      }
      assert entry == made[slots[ip]] && entry in made;
      allowed := entry.TryConsume(now);
    }
  }
}
