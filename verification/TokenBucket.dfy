/** The token bucket of src/security/rate_limiter.cpp over real time and real tokens.
    Its reference is a sliding-window limiter that keeps no tokens at all: a call passes
    exactly when no window ending at it would hold more than capacity + rate * length
    passed calls. */
module TokenBuckets {
  import opened Sets

  datatype Limit = Limit(capacity: real, rate: real)

  datatype Bucket = Bucket(tokens: real, last: real)

  datatype Outcome = Outcome(bucket: Bucket, allowed: bool)

  /** Tokens earned in a span of time. */
  function Gain(l: Limit, span: real): real { span * l.rate }

  function Refilled(l: Limit, b: Bucket, now: real): (level: real)
    ensures level <= l.capacity
  {
    var level := b.tokens + Gain(l, now - b.last);
    if level < l.capacity then level else l.capacity
  }

  function Consume(l: Limit, b: Bucket, now: real): Outcome {
    var level := Refilled(l, b, now);
    if level < 1.0 then Outcome(Bucket(level, now), false) else Outcome(Bucket(level - 1.0, now), true)
  }

  function Start(l: Limit, created: real): Bucket { Bucket(l.capacity, created) }

  // ---- Histories of one bucket ------------------------------------------------------

  function After(l: Limit, created: real, times: seq<real>): Bucket {
    if times == [] then Start(l, created)
    else Consume(l, After(l, created, times[..|times| - 1]), times[|times| - 1]).bucket
  }

  function Decisions(l: Limit, created: real, times: seq<real>): (ds: seq<bool>)
    ensures |ds| == |times|
  {
    if times == [] then []
    else
      var before := times[..|times| - 1];
      Decisions(l, created, before) + [Consume(l, After(l, created, before), times[|times| - 1]).allowed]
  }

  /** The readings of a steady clock. */
  predicate Monotone(created: real, times: seq<real>) {
    && (forall i :: 0 <= i < |times| ==> created <= times[i])
    && (forall i, j :: 0 <= i <= j < |times| ==> times[i] <= times[j])
  }

  /** How many of the calls from..to passed. */
  function Passed(ds: seq<bool>, from: nat, upto: nat): nat
    requires from <= upto <= |ds|
  {
    if from == upto then 0 else Passed(ds, from, upto - 1) + if ds[upto - 1] then 1 else 0
  }

  /** One more call at times[i] keeps the window that opens at times[j] within its quota. */
  predicate Fits(l: Limit, times: seq<real>, ds: seq<bool>, j: nat, i: nat)
    requires j <= i < |times| && i <= |ds|
  {
    Passed(ds, j, i) as real + 1.0 <= l.capacity + Gain(l, times[i] - times[j])
  }

  /** The sliding-window limiter: no tokens, no creation time. */
  function WindowDecisions(l: Limit, times: seq<real>): (ds: seq<bool>)
    ensures |ds| == |times|
  {
    if times == [] then []
    else
      var i := |times| - 1;
      var ds := WindowDecisions(l, times[..i]);
      ds + [forall j :: 0 <= j <= i ==> Fits(l, times, ds, j, i)]
  }

  // ---- The bucket decides as the window limiter does -------------------------------------

  lemma TokensInRange(l: Limit, created: real, times: seq<real>)
    requires Monotone(created, times)
    ensures After(l, created, times).last == if times == [] then created else times[|times| - 1]
    ensures After(l, created, times).tokens <= l.capacity
    ensures 0.0 <= l.capacity && 0.0 <= l.rate ==> 0.0 <= After(l, created, times).tokens
  {
    hide Gain;
    if times != [] {
      var before, now := times[..|times| - 1], times[|times| - 1];
      TokensInRange(l, created, before);
      if 0.0 <= l.rate { GainGrows(l, now - After(l, created, before).last); }
    }
  }

  lemma GainGrows(l: Limit, span: real)
    requires 0.0 <= l.rate && 0.0 <= span
    ensures 0.0 <= Gain(l, span)
  {}

  lemma GainAdds(l: Limit, a: real, b: real)
    ensures Gain(l, a) + Gain(l, b) == Gain(l, a + b)
  {}

  lemma GainIs(l: Limit, span: real)
    ensures Gain(l, span) == span * l.rate
  {}

  lemma NoGain(l: Limit)
    ensures Gain(l, 0.0) == 0.0
  {}

  lemma PassedPrefix(ds: seq<bool>, more: seq<bool>, from: nat, upto: nat)
    requires from <= upto <= |ds|
    ensures Passed(ds + more, from, upto) == Passed(ds, from, upto)
    decreases upto
  {
    if from < upto { PassedPrefix(ds, more, from, upto - 1); }
  }

  /** The level a call finds, before it takes its token. */
  function Level(l: Limit, created: real, times: seq<real>): real
    requires times != []
  {
    Refilled(l, After(l, created, times[..|times| - 1]), times[|times| - 1])
  }

  /** What the window opened by call j still has room for at the last call. */
  function Room(l: Limit, times: seq<real>, ds: seq<bool>, j: nat): real
    requires j < |times| && |times| <= |ds| + 1
  {
    l.capacity + Gain(l, times[|times| - 1] - times[j]) - Passed(ds, j, |times| - 1) as real
  }

  lemma LevelStep(l: Limit, created: real, times: seq<real>)
    requires Monotone(created, times) && |times| >= 2
    ensures var i := |times| - 1;
            var before := times[..i];
            var d := Decisions(l, created, before)[i - 1];
            var level := Level(l, created, before) - (if d then 1.0 else 0.0) + Gain(l, times[i] - times[i - 1]);
            Level(l, created, times) == if level < l.capacity then level else l.capacity
  {
    hide Gain;
    var before := times[..|times| - 1];
    TokensInRange(l, created, before);
  }

  lemma RoomStep(l: Limit, times: seq<real>, ds: seq<bool>, d: bool, j: nat)
    requires |times| >= 2 && |ds| == |times| - 2 && j < |times| - 1
    ensures var i := |times| - 1;
            Room(l, times, ds + [d], j)
            == Room(l, times[..i], ds, j) - (if d then 1.0 else 0.0) + Gain(l, times[i] - times[i - 1])
  {
    hide Gain;
    var i := |times| - 1;
    PassedPrefix(ds, [d], j, i - 1);
    GainAdds(l, times[i - 1] - times[j], times[i] - times[i - 1]);
  }

  /** The level is the least room over all windows: no window has less ... */
  lemma {:induction false} LevelBelow(l: Limit, created: real, times: seq<real>, j: nat)
    requires Monotone(created, times) && j < |times|
    ensures Level(l, created, times) <= Room(l, times, Decisions(l, created, times[..|times| - 1]), j)
    decreases |times|
  {
    hide Gain, Refilled, After;
    NoGain(l);
    var i := |times| - 1;
    if j == i {
    } else {
      LevelStep(l, created, times);
      LevelBelow(l, created, times[..i], j);
      RoomStep(l, times, Decisions(l, created, times[..i][..i - 1]), Decisions(l, created, times[..i])[i - 1], j);
    }
  }

  /** ... and some window has no more. */
  lemma {:induction false} LevelReached(l: Limit, created: real, times: seq<real>) returns (j: nat)
    requires Monotone(created, times) && times != [] && 0.0 <= l.rate
    ensures j < |times|
    ensures Level(l, created, times) == Room(l, times, Decisions(l, created, times[..|times| - 1]), j)
    decreases |times|
  {
    hide Gain;
    NoGain(l);
    var i := |times| - 1;
    if i == 0 {
      GainGrows(l, times[0] - created);
      j := 0;
    } else {
      LevelStep(l, created, times);
      j := LevelReached(l, created, times[..i]);
      RoomStep(l, times, Decisions(l, created, times[..i][..i - 1]), Decisions(l, created, times[..i])[i - 1], j);
      if Level(l, created, times) != Room(l, times, Decisions(l, created, times[..i]), j) { j := i; }
    }
  }

  /** The token bucket decides exactly as the sliding-window limiter, whenever it was made. */
  lemma {:induction false} BucketIsWindowLimiter(l: Limit, created: real, times: seq<real>)
    requires Monotone(created, times) && 0.0 <= l.rate
    ensures Decisions(l, created, times) == WindowDecisions(l, times)
    decreases |times|
  {
    hide Gain, Refilled, Passed;
    if times != [] {
      var i := |times| - 1;
      BucketIsWindowLimiter(l, created, times[..i]);
      var ds := Decisions(l, created, times[..i]);
      forall j | 0 <= j <= i ensures Level(l, created, times) >= 1.0 ==> Fits(l, times, ds, j, i) {
        LevelBelow(l, created, times, j);
      }
      var j := LevelReached(l, created, times);
      assert Fits(l, times, ds, j, i) ==> Level(l, created, times) >= 1.0;
    }
  }

  // ---- The promised bound over any window of time --------------------------------------------

  /** The passed calls whose time lies in s..t. */
  function PassedIn(times: seq<real>, ds: seq<bool>, s: real, t: real): set<nat>
    requires |times| == |ds|
  {
    set i: nat | i < |times| && ds[i] && s <= times[i] <= t
  }

  lemma {:induction false} DecisionsPrefix(l: Limit, created: real, times: seq<real>, i: nat)
    requires i <= |times|
    ensures Decisions(l, created, times[..i]) == Decisions(l, created, times)[..i]
    decreases |times|
  {
    if i < |times| {
      var before := times[..|times| - 1];
      DecisionsPrefix(l, created, before, i);
      assert before[..i] == times[..i];
    } else {
      assert times[..i] == times;
    }
  }

  /** Passed counts the passed indices. */
  lemma {:induction false} PassedCounts(ds: seq<bool>, from: nat, upto: nat)
    requires from <= upto <= |ds|
    ensures |set k: nat | from <= k < upto && ds[k]| == Passed(ds, from, upto)
    decreases upto
  {
    var all := set k: nat | from <= k < upto && ds[k];
    if from == upto {
      assert all == {};
    } else {
      PassedCounts(ds, from, upto - 1);
      var fewer := set k: nat | from <= k < upto - 1 && ds[k];
      if ds[upto - 1] {
        assert all == fewer + {upto - 1};
      } else {
        assert all == fewer;
      }
    }
  }

  lemma LastDecision(l: Limit, created: real, times: seq<real>)
    requires times != []
    ensures Decisions(l, created, times)[|times| - 1] == (Level(l, created, times) >= 1.0)
  {
    hide Refilled, After;
  }

  lemma MonotonePrefix(created: real, times: seq<real>, n: nat)
    requires Monotone(created, times) && n <= |times|
    ensures Monotone(created, times[..n])
  {}

  lemma OnePassed(ds: seq<bool>, j: nat, i: nat)
    requires j <= i < |ds| && ds[i]
    ensures Passed(ds, j, i + 1) == Passed(ds, j, i) + 1
  {}

  /** A passed call and the ones before it, back to call j. */
  lemma QuotaAt(l: Limit, created: real, times: seq<real>, j: nat, i: nat)
    requires Monotone(created, times) && 0.0 <= l.rate && j <= i < |times|
    requires Decisions(l, created, times)[i]
    ensures Passed(Decisions(l, created, times), j, i + 1) as real <= l.capacity + Gain(l, times[i] - times[j])
  {
    hide Gain, Level, After, Decisions, Monotone, Passed;
    var upTo, ds := times[..i + 1], Decisions(l, created, times);
    DecisionsPrefix(l, created, times, i + 1);
    DecisionsPrefix(l, created, times, i);
    assert upTo[..i] == times[..i];
    MonotonePrefix(created, times, i + 1);
    LevelBelow(l, created, upTo, j);
    LastDecision(l, created, upTo);
    PassedPrefix(ds[..i], ds[i..], j, i);
    assert ds[..i] + ds[i..] == ds;
    OnePassed(ds, j, i);
  }

  /** No window of time s..t, wherever it lies, passes more than capacity + rate * (t - s) calls. */
  lemma WindowBound(l: Limit, created: real, times: seq<real>, s: real, t: real)
    requires Monotone(created, times) && 0.0 <= l.capacity && 0.0 <= l.rate && s <= t
    ensures |PassedIn(times, Decisions(l, created, times), s, t)| as real <= l.capacity + (t - s) * l.rate
  {
    hide *;
    WindowGain(l, created, times, s, t);
    GainIs(l, t - s);
  }

  lemma WindowGain(l: Limit, created: real, times: seq<real>, s: real, t: real)
    requires Monotone(created, times) && 0.0 <= l.capacity && 0.0 <= l.rate && s <= t
    ensures |PassedIn(times, Decisions(l, created, times), s, t)| as real <= l.capacity + Gain(l, t - s)
  {
    hide Gain, Decisions, Passed, After;
    var ds := Decisions(l, created, times);
    var inside := PassedIn(times, ds, s, t);
    if inside == {} {
      assert |inside| == 0;
      GainGrows(l, t - s);
    } else {
      var j, i := Ends(inside);
      QuotaAt(l, created, times, j, i);
      GainGrows(l, (t - s) - (times[i] - times[j]));
      GainAdds(l, (t - s) - (times[i] - times[j]), times[i] - times[j]);
      var between := set k: nat | j <= k < i + 1 && ds[k];
      PassedCounts(ds, j, i + 1);
      assert inside <= between;
      Subset(inside, between);
    }
  }

  /** Least and greatest element. */
  lemma {:induction false} Ends(a: set<nat>) returns (low: nat, high: nat)
    requires a != {}
    ensures low in a && high in a && forall k :: k in a ==> low <= k <= high
    decreases |a|
  {
    var x :| x in a;
    if a == {x} {
      low, high := x, x;
    } else {
      assert a - {x} != {};
      low, high := Ends(a - {x});
      assert forall k :: k in a ==> k == x || k in a - {x};
      if x < low { low := x; }
      if x > high { high := x; }
    }
  }

  // ---- Rejected calls leave no trace ------------------------------------------------------------

  /** The elements the mask keeps. */
  function Thin<T>(s: seq<T>, keep: seq<bool>): (r: seq<T>)
    requires |s| == |keep|
    ensures |r| <= |s|
    ensures forall x :: x in r ==> x in s
  {
    if s == [] then []
    else
      var n := |s| - 1;
      Thin(s[..n], keep[..n]) + if keep[n] then [s[n]] else []
  }

  /** A bucket left alone until `now`. */
  function Idle(l: Limit, b: Bucket, now: real): Bucket { Bucket(Refilled(l, b, now), now) }

  /** Refilling in two steps is refilling in one. */
  lemma IdleTwice(l: Limit, b: Bucket, s: real, now: real)
    requires b.last <= s <= now && 0.0 <= l.rate
    ensures Refilled(l, Idle(l, b, s), now) == Refilled(l, b, now)
  {
    hide Gain;
    GainAdds(l, s - b.last, now - s);
    GainGrows(l, now - s);
  }

  lemma {:induction false} ThinMonotone(created: real, times: seq<real>, keep: seq<bool>)
    requires |keep| == |times| && Monotone(created, times)
    ensures Monotone(created, Thin(times, keep))
    decreases |times|
  {
    hide Thin;
    ThinLast(times, keep);
    if times != [] {
      var n := |times| - 1;
      ThinMonotone(created, times[..n], keep[..n]);
      var kept := Thin(times[..n], keep[..n]);
      forall i | 0 <= i < |kept| ensures kept[i] <= times[n] {
        assert kept[i] in times[..n];
      }
    }
  }

  /** The thinned history leaves a bucket that, left idle, becomes the full history's. */
  lemma {:induction false} ThinState(l: Limit, created: real, times: seq<real>, keep: seq<bool>)
    requires |keep| == |times| && Monotone(created, times) && 0.0 <= l.rate
    requires forall i :: 0 <= i < |times| ==> keep[i] || !Decisions(l, created, times)[i]
    ensures var full, thin := After(l, created, times), After(l, created, Thin(times, keep));
            thin.last <= full.last && full == Idle(l, thin, full.last)
    ensures Decisions(l, created, Thin(times, keep)) == Thin(Decisions(l, created, times), keep)
    decreases |times|
  {
    hide Gain, Refilled, After, Decisions, Thin;
    Full(l, After(l, created, times), created, times);
    ThinLast(times, keep);
    if times == [] {
      Empty(l, created);
    } else {
      var n := |times| - 1;
      var before, kept, now := times[..n], Thin(times[..n], keep[..n]), times[n];
      var ds := Decisions(l, created, times);
      assert before + [now] == times;
      OneMore(l, created, before, now);
      ThinLast(ds, keep);
      assert ds[..n] == Decisions(l, created, before);
      forall i | 0 <= i < n ensures keep[..n][i] || !Decisions(l, created, before)[i] {
        assert keep[i] || !ds[i];
      }
      ThinState(l, created, before, keep[..n]);
      TokensInRange(l, created, before);
      IdleTwice(l, After(l, created, kept), After(l, created, before).last, now);
      if keep[n] { OneMore(l, created, kept, now); } else { assert !ds[n]; }
    }
  }

  lemma Empty(l: Limit, created: real)
    ensures After(l, created, []) == Start(l, created) && Decisions(l, created, []) == []
  {}

  lemma OneMore(l: Limit, created: real, times: seq<real>, now: real)
    ensures After(l, created, times + [now]) == Consume(l, After(l, created, times), now).bucket
    ensures Decisions(l, created, times + [now])
            == Decisions(l, created, times) + [Consume(l, After(l, created, times), now).allowed]
  {
    hide Consume;
    assert (times + [now])[..|times|] == times;
  }

  lemma ThinLast<T>(s: seq<T>, keep: seq<bool>)
    requires |s| == |keep|
    ensures s == [] ==> Thin(s, keep) == []
    ensures s != [] ==>
              var n := |s| - 1;
              Thin(s, keep) == if keep[n] then Thin(s[..n], keep[..n]) + [s[n]] else Thin(s[..n], keep[..n])
  {}

  lemma Full(l: Limit, b: Bucket, created: real, times: seq<real>)
    requires Monotone(created, times) && b == After(l, created, times)
    ensures b == Idle(l, b, b.last)
  {
    hide Gain;
    NoGain(l);
    TokensInRange(l, created, times);
  }

  /** Deleting any of the rejected calls changes no decision about the calls that remain. */
  lemma RejectedCallsLeaveNoTrace(l: Limit, created: real, times: seq<real>, keep: seq<bool>)
    requires |keep| == |times| && Monotone(created, times) && 0.0 <= l.rate
    requires forall i :: 0 <= i < |times| ==> keep[i] || !Decisions(l, created, times)[i]
    ensures Decisions(l, created, Thin(times, keep)) == Thin(Decisions(l, created, times), keep)
  {
    ThinState(l, created, times, keep);
  }

  // ---- The class -----------------------------------------------------------------------------------

  class TokenBucket {
    const limit: Limit
    var tokens: real
    var lastRefillTime: real

    ghost function View(): Bucket
      reads this
    {
      Bucket(tokens, lastRefillTime)
    }

    constructor (limit: Limit, now: real)
      ensures this.limit == limit && View() == Start(limit, now)
    {
      this.limit := limit;
      tokens := limit.capacity;
      lastRefillTime := now;
    }

    /** `now` is the clock's reading inside the call. */
    method TryConsume(now: real) returns (allowed: bool)
      modifies this
      ensures Outcome(View(), allowed) == Consume(limit, old(View()), now)
    {
      hide Gain;
      var elapsed := now - lastRefillTime;
      GainIs(limit, elapsed);
      var level := tokens + elapsed * limit.rate;
      tokens := if level < limit.capacity then level else limit.capacity;
      lastRefillTime := now;
      if tokens < 1.0 { return false; }
      tokens := tokens - 1.0;
      return true;
    }
  }
}
