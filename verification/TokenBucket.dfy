/** The token-bucket rate limit (crates/cache/src/moka_backend.rs, redis_backend.rs). Tokens and times are
    exact: rounding of the original's doubles is not modelled. Times are milliseconds. */
module TokenBucket {
  import opened Basics

  datatype Bucket = Bucket(updatedAt: real, tokens: real)

  datatype LimitError = NotPositive

  /** The capacity, and the tokens that come back in an elapsed time. */
  datatype Rate = Rate(capacity: real, refill: real -> real) {
    predicate Adds(x: real, y: real) { refill(x + y) == refill(x) + refill(y) }

    /** Refilling takes only time, and never takes tokens away. */
    ghost predicate Steady() {
      && capacity >= 1.0
      && (forall x :: x >= 0.0 ==> refill(x) >= 0.0)
      && forall x, y :: Adds(x, y)
    }
  }

  /** A capacity that refills completely in a period. */
  function RateOf(capacity: nat, period: nat): Rate
    requires capacity > 0 && period > 0
  {
    var rate := capacity as real / period as real;
    Rate(capacity as real, (elapsed: real) => elapsed * rate)
  }

  lemma RateIsSteady(capacity: nat, period: nat)
    requires capacity > 0 && period > 0
    ensures RateOf(capacity, period).Steady()
    ensures RateOf(capacity, period).refill(period as real) == capacity as real
  {
    var r := RateOf(capacity, period);
    var rate := capacity as real / period as real;
    assert rate > 0.0;
    forall x | x >= 0.0 ensures r.refill(x) >= 0.0 { assert x * rate >= 0.0; }
    forall x, y ensures r.Adds(x, y) { assert (x + y) * rate == x * rate + y * rate; }
  }

  function Min(a: real, b: real): real { if a < b then a else b }
  function Max(a: real, b: real): real { if a < b then b else a }

  /** What the bucket holds at `now`; a missing bucket is full. */
  function Available(b: Option<Bucket>, r: Rate, now: real): real
  {
    if b.None? then r.capacity
    else Min(b.value.tokens + r.refill(Max(now - b.value.updatedAt, 0.0)), r.capacity)
  }

  /** One request: whether it is allowed, and the bucket it leaves. */
  function Request(b: Option<Bucket>, r: Rate, now: real): (Bucket, bool)
  {
    var tokens := Available(b, r, now);
    if tokens >= 1.0 then (Bucket(now, tokens - 1.0), true) else (Bucket(now, tokens), false)
  }

  // --- A bucket that is never forgotten --------------------------------------------------------

  /** The bucket after the requests at these times, and their answers. */
  function Serve(r: Rate, times: seq<real>): (Option<Bucket>, seq<bool>)
  {
    if times == [] then (None, [])
    else
      var (b, answers) := Serve(r, times[..|times| - 1]);
      var (b', allowed) := Request(b, r, times[|times| - 1]);
      (Some(b'), answers + [allowed])
  }

  predicate Nondecreasing(times: seq<real>) {
    forall i, k :: 0 <= i < k < |times| ==> times[i] <= times[k]
  }

  function Allowed(answers: seq<bool>): nat {
    if answers == [] then 0 else Allowed(answers[..|answers| - 1]) + if answers[|answers| - 1] then 1 else 0
  }

  predicate Sound(b: Option<Bucket>, r: Rate) {
    b.Some? ==> 0.0 <= b.value.tokens <= r.capacity
  }

  /** The stored tokens never leave the range from zero to the capacity. */
  lemma {:induction false} TokensStayInRange(r: Rate, times: seq<real>)
    requires r.Steady()
    ensures |Serve(r, times).1| == |times| && (Serve(r, times).0.Some? <==> times != [])
    ensures Sound(Serve(r, times).0, r)
    ensures times != [] ==> Serve(r, times).0.value.updatedAt == times[|times| - 1]
  {
    if times != [] {
      var before, now := times[..|times| - 1], times[|times| - 1];
      TokensStayInRange(r, before);
      var b := Serve(r, before).0;
      assert b.Some? ==> r.refill(Max(now - b.value.updatedAt, 0.0)) >= 0.0;
    }
  }

  lemma AnswersOfPrefix(r: Rate, times: seq<real>, k: nat)
    requires r.Steady() && k <= |times|
    ensures |Serve(r, times).1| == |times|
    ensures Serve(r, times[..k]).1 == Serve(r, times).1[..k]
    decreases |times|
  {
    TokensStayInRange(r, times);
    if k == |times| {
      assert times[..k] == times;
    } else {
      AnswersOfPrefix(r, times[..|times| - 1], k);
      assert times[..|times| - 1][..k] == times[..k];
    }
  }

  /** A request pays with one token if it is allowed; at most the refill since the last request was added. */
  lemma RequestPays(b: Bucket, r: Rate, now: real)
    requires r.Steady() && now >= b.updatedAt
    ensures var (b', allowed) := Request(Some(b), r, now);
            (if allowed then 1.0 else 0.0) + b'.tokens <= b.tokens + r.refill(now - b.updatedAt)
  {
  }

  lemma AllowedSnoc(answers: seq<bool>, allowed: bool, a: nat)
    requires a <= |answers|
    ensures Allowed((answers + [allowed])[a..]) == Allowed(answers[a..]) + if allowed then 1 else 0
  {
    assert (answers + [allowed])[a..] == answers[a..] + [allowed];
    assert (answers[a..] + [allowed])[..|answers| - a] == answers[a..];
  }

  /** What may be allowed between the request at `first` and the one at `now`: a full bucket and the refill since then. */
  function Budget(r: Rate, first: real, now: real): real { r.capacity + r.refill(now - first) }

  /** A request that was within the budget with the tokens left before is within it with the tokens left after. */
  lemma StaysInBudget(r: Rate, b: Bucket, first: real, now: real, spent: real)
    requires r.Steady() && now >= b.updatedAt
    requires spent + b.tokens <= Budget(r, first, b.updatedAt)
    ensures var (b', allowed) := Request(Some(b), r, now);
            spent + (if allowed then 1.0 else 0.0) + b'.tokens <= Budget(r, first, now)
  {
    RequestPays(b, r, now);
    assert r.Adds(b.updatedAt - first, now - b.updatedAt);
  }

  /** The requests allowed since request `a`, and the tokens left, are within the budget. */
  predicate WithinBudget(r: Rate, times: seq<real>, a: nat) {
    && a < |times| && |Serve(r, times).1| == |times| && Serve(r, times).0.Some?
    && Allowed(Serve(r, times).1[a..]) as real + Serve(r, times).0.value.tokens <= Budget(r, times[a], times[|times| - 1])
  }

  lemma {:induction false} PaidFor(r: Rate, times: seq<real>, a: nat)
    requires r.Steady() && Nondecreasing(times) && a < |times|
    ensures WithinBudget(r, times, a)
    decreases |times|
  {
    if a < |times| - 1 {
      PaidFor(r, times[..|times| - 1], a);
      NextStaysInBudget(r, times, a);
    } else {
      FirstIsInBudget(r, times);
    }
  }

  lemma NextStaysInBudget(r: Rate, times: seq<real>, a: nat)
    requires r.Steady() && Nondecreasing(times) && a < |times| - 1
    requires WithinBudget(r, times[..|times| - 1], a)
    ensures WithinBudget(r, times, a)
  {
    var before, now := times[..|times| - 1], times[|times| - 1];
    TokensStayInRange(r, times);
    TokensStayInRange(r, before);
    var (b, answers) := Serve(r, before);
    AllowedSnoc(answers, Request(b, r, now).1, a);
    StaysInBudget(r, b.value, times[a], now, Allowed(answers[a..]) as real);
  }

  lemma FirstIsInBudget(r: Rate, times: seq<real>)
    requires r.Steady() && times != []
    ensures WithinBudget(r, times, |times| - 1)
  {
    var before, now := times[..|times| - 1], times[|times| - 1];
    TokensStayInRange(r, times);
    TokensStayInRange(r, before);
    var (b, answers) := Serve(r, before);
    AllowedSnoc(answers, Request(b, r, now).1, |times| - 1);
    FirstRequestPays(b, r, now);
    assert answers[|times| - 1..] == [] && Allowed([]) == 0;
    assert r.refill(now - now) >= 0.0;
  }

  lemma FirstRequestPays(b: Option<Bucket>, r: Rate, now: real)
    ensures var (b', allowed) := Request(b, r, now); (if allowed then 1.0 else 0.0) + b'.tokens <= r.capacity
  {
  }

  /** In any stretch of requests, from the one at `a` to the one before `e`, at most the capacity and what refills in the
      meantime is allowed. */
  lemma AllowedIsBounded(r: Rate, times: seq<real>, a: nat, e: nat)
    requires r.Steady() && Nondecreasing(times) && a < e <= |times|
    ensures |Serve(r, times).1| == |times|
    ensures Allowed(Serve(r, times).1[a..e]) as real <= r.capacity + r.refill(times[e - 1] - times[a])
  {
    AnswersOfPrefix(r, times, e);
    PaidFor(r, times[..e], a);
    TokensStayInRange(r, times[..e]);
    assert Serve(r, times).1[a..e] == Serve(r, times[..e]).1[a..];
  }

  lemma RefillOf(capacity: nat, period: nat, t: real)
    requires capacity > 0 && period > 0
    ensures RateOf(capacity, period).refill(t) == t * (capacity as real / period as real)
  {
  }

  /** The same for the capacity and period of a request: in any interval of length `t` that contains these
      requests at most capacity + t * capacity / period of them are allowed. */
  lemma AllowedInInterval(r: Rate, capacity: nat, period: nat, times: seq<real>, a: nat, e: nat, t: real)
    requires capacity > 0 && period > 0 && r == RateOf(capacity, period)
    requires Nondecreasing(times) && a < e <= |times| && t >= times[e - 1] - times[a]
    ensures |Serve(r, times).1| == |times|
    ensures Allowed(Serve(r, times).1[a..e]) as real <= capacity as real + t * (capacity as real / period as real)
  {
    RateIsSteady(capacity, period);
    RefillOf(capacity, period, t);
    AllowedIsBounded(r, times, a, e);
    var span := times[e - 1] - times[a];
    assert r.Adds(span, t - span) && r.refill(t - span) >= 0.0;
  }

  // --- Exactly which requests are allowed ---------------------------------------------------------

  /** The time by which the clock moved forward between the requests at `a` and `n`. */
  function Elapsed(times: seq<real>, a: nat, n: nat): real
    requires a <= n < |times|
  {
    if n == a then 0.0 else Elapsed(times, a, n - 1) + Max(times[n] - times[n - 1], 0.0)
  }

  lemma {:induction false} ElapsedForward(times: seq<real>, a: nat, n: nat)
    requires a <= n < |times| && Nondecreasing(times)
    ensures Elapsed(times, a, n) == times[n] - times[a]
  {
    if a < n { ElapsedForward(times, a, n - 1); }
  }

  lemma {:induction false} ElapsedOfPrefix(times: seq<real>, a: nat, n: nat, k: nat)
    requires a <= n < k <= |times|
    ensures Elapsed(times[..k], a, n) == Elapsed(times, a, n)
  {
    if a < n { ElapsedOfPrefix(times, a, n - 1, k); }
  }

  /** A full bucket at request `a`, and what refilled since, less what was allowed since. */
  function SinceFull(r: Rate, times: seq<real>, answers: seq<bool>, a: nat): real
    requires a < |times| == |answers|
  {
    r.capacity + r.refill(Elapsed(times, a, |times| - 1)) - Allowed(answers[a..]) as real
  }

  /** The tokens are the least that a full bucket at any of the requests would have left. */
  ghost predicate IsLeast(r: Rate, times: seq<real>, answers: seq<bool>, tokens: real)
    requires |times| == |answers|
  {
    && (forall a: nat :: a < |times| ==> tokens <= SinceFull(r, times, answers, a))
    && (exists a: nat :: a < |times| && tokens == SinceFull(r, times, answers, a))
  }

  lemma {:induction false} TokensAreLeast(r: Rate, times: seq<real>)
    requires r.Steady() && times != []
    ensures |Serve(r, times).1| == |times| && Serve(r, times).0.Some?
    ensures IsLeast(r, times, Serve(r, times).1, Serve(r, times).0.value.tokens)
  {
    var before, now := times[..|times| - 1], times[|times| - 1];
    TokensStayInRange(r, times);
    TokensStayInRange(r, before);
    var (b, answers) := Serve(r, times);
    NewestSinceFull(r, times, answers);
    if before != [] {
      TokensAreLeast(r, before);
      var least, was := Available(Serve(r, before).0, r, now), Serve(r, before).1;
      assert answers == was + [least >= 1.0];
      forall a: nat | a < |before|
        ensures SinceFull(r, times, answers, a) ==
                SinceFull(r, before, was, a) + r.refill(Max(now - before[|before| - 1], 0.0)) - (if least >= 1.0 then 1.0 else 0.0)
      {
        SinceFullSnoc(r, times, was, least >= 1.0, a);
      }
    }
  }

  lemma NewestSinceFull(r: Rate, times: seq<real>, answers: seq<bool>)
    requires r.Steady() && times != [] && |answers| == |times|
    ensures SinceFull(r, times, answers, |times| - 1) == r.capacity - if answers[|times| - 1] then 1.0 else 0.0
  {
    assert answers[|times| - 1..] == [answers[|times| - 1]];
    AllowedOne(answers[|times| - 1]);
    assert r.Adds(0.0, 0.0) && r.refill(0.0) == 0.0;
    assert Elapsed(times, |times| - 1, |times| - 1) == 0.0;
  }

  lemma AllowedOne(answer: bool)
    ensures Allowed([answer]) == if answer then 1 else 0
  {
    assert [answer][..0] == [] && Allowed([]) == 0;
  }

  lemma SinceFullSnoc(r: Rate, times: seq<real>, was: seq<bool>, allowed: bool, a: nat)
    requires r.Steady() && a < |was| == |times| - 1
    ensures SinceFull(r, times, was + [allowed], a) ==
            SinceFull(r, times[..|was|], was, a) + r.refill(Max(times[|was|] - times[|was| - 1], 0.0)) - if allowed then 1.0 else 0.0
  {
    AllowedSnoc(was, allowed, a);
    ElapsedOfPrefix(times, a, |was| - 1, |was|);
    assert r.Adds(Elapsed(times, a, |was| - 1), Max(times[|was|] - times[|was| - 1], 0.0));
  }

  /** What was allowed from request `a` on, and request `n`, fit into a full bucket and what refilled since. */
  predicate FitsSince(r: Rate, times: seq<real>, answers: seq<bool>, a: nat, n: nat)
    requires a <= n < |times| && n <= |answers|
  {
    Allowed(answers[a..n]) as real + 1.0 <= r.capacity + r.refill(Elapsed(times, a, n))
  }

  /** The next request takes the least that is left, refilled. */
  lemma FitsMeansLeft(r: Rate, times: seq<real>, answers: seq<bool>, a: nat)
    requires r.Steady() && |times| == |answers| + 1 && a < |answers|
    ensures FitsSince(r, times, answers, a, |answers|) <==>
            SinceFull(r, times[..|answers|], answers, a) + r.refill(Max(times[|answers|] - times[|answers| - 1], 0.0)) >= 1.0
  {
    var n := |answers|;
    ElapsedOfPrefix(times, a, n - 1, n);
    assert r.Adds(Elapsed(times, a, n - 1), Max(times[n] - times[n - 1], 0.0));
    assert answers[a..n] == answers[a..];
  }

  /** The last request of a run is allowed if and only if it fits since each earlier one. */
  lemma LastAllowedExactly(r: Rate, times: seq<real>)
    requires r.Steady() && times != []
    ensures |Serve(r, times[..|times| - 1]).1| == |times| - 1 && |Serve(r, times).1| == |times|
    ensures var n := |times| - 1;
            Serve(r, times).1[n] <==> forall a: nat :: a < n ==> FitsSince(r, times, Serve(r, times[..n]).1, a, n)
  {
    var n := |times| - 1;
    TokensStayInRange(r, times);
    TokensStayInRange(r, times[..n]);
    if n > 0 {
      TokensAreLeast(r, times[..n]);
      LeastDecides(r, times, Serve(r, times[..n]).1, Serve(r, times[..n]).0.value);
    }
  }

  lemma LeastDecides(r: Rate, times: seq<real>, was: seq<bool>, b: Bucket)
    requires r.Steady() && |times| == |was| + 1 && was != [] && b.updatedAt == times[|was| - 1]
    requires IsLeast(r, times[..|was|], was, b.tokens)
    ensures Available(Some(b), r, times[|was|]) >= 1.0 <==> forall a: nat :: a < |was| ==> FitsSince(r, times, was, a, |was|)
  {
    forall a: nat | a < |was|
      ensures FitsSince(r, times, was, a, |was|) <==>
              SinceFull(r, times[..|was|], was, a) + r.refill(Max(times[|was|] - times[|was| - 1], 0.0)) >= 1.0
    {
      FitsMeansLeft(r, times, was, a);
    }
    var least: nat :| least < |was| && b.tokens == SinceFull(r, times[..|was|], was, least);
  }

  /** After `allowed` requests one more fits into a full bucket and what refills in `elapsed`, at capacity / period. */
  predicate OneMoreFits(capacity: nat, period: nat, allowed: nat, elapsed: real)
    requires period > 0
  {
    allowed as real + 1.0 <= capacity as real + elapsed * (capacity as real / period as real)
  }

  lemma RefillsPlainly(r: Rate, capacity: nat, period: nat, allowed: nat, elapsed: real)
    requires capacity > 0 && period > 0 && r == RateOf(capacity, period)
    ensures allowed as real + 1.0 <= r.capacity + r.refill(elapsed) <==> OneMoreFits(capacity, period, allowed, elapsed)
  {
    RefillOf(capacity, period, elapsed);
  }

  lemma FitsPlainly(r: Rate, capacity: nat, period: nat, times: seq<real>, answers: seq<bool>, a: nat, n: nat)
    requires capacity > 0 && period > 0 && r == RateOf(capacity, period) && a < n < |times| == |answers|
    ensures FitsSince(r, times[..n + 1], answers[..n], a, n) <==> OneMoreFits(capacity, period, Allowed(answers[a..n]), Elapsed(times, a, n))
  {
    ElapsedOfPrefix(times, a, n, n + 1);
    assert answers[..n][a..n] == answers[a..n];
    RefillsPlainly(r, capacity, period, Allowed(answers[a..n]), Elapsed(times, a, n));
  }

  ghost predicate FitsSinceAll(r: Rate, times: seq<real>, answers: seq<bool>, n: nat)
    requires n < |times| && n <= |answers|
  {
    forall a: nat :: a < n ==> FitsSince(r, times, answers, a, n)
  }

  lemma FitsAllPlainly(r: Rate, capacity: nat, period: nat, times: seq<real>, answers: seq<bool>, n: nat)
    requires capacity > 0 && period > 0 && r == RateOf(capacity, period) && n < |times| == |answers|
    ensures FitsSinceAll(r, times[..n + 1], answers[..n], n) <==>
            forall a: nat :: a < n ==> OneMoreFits(capacity, period, Allowed(answers[a..n]), Elapsed(times, a, n))
  {
    if FitsSinceAll(r, times[..n + 1], answers[..n], n) {
      forall a: nat | a < n ensures OneMoreFits(capacity, period, Allowed(answers[a..n]), Elapsed(times, a, n)) {
        assert FitsSince(r, times[..n + 1], answers[..n], a, n);
        FitsPlainly(r, capacity, period, times, answers, a, n);
      }
    } else {
      var a: nat :| a < n && !FitsSince(r, times[..n + 1], answers[..n], a, n);
      FitsPlainly(r, capacity, period, times, answers, a, n);
    }
  }

  lemma AllowedWithin(r: Rate, times: seq<real>, n: nat)
    requires r.Steady() && n < |times|
    ensures |Serve(r, times).1| == |times|
    ensures Serve(r, times).1[n] <==> FitsSinceAll(r, times[..n + 1], Serve(r, times).1[..n], n)
  {
    AnswersOfPrefix(r, times, n + 1);
    AnswersOfPrefix(r, times, n);
    LastAllowedExactly(r, times[..n + 1]);
    assert times[..n + 1][..n] == times[..n];
    assert Serve(r, times).1[..n + 1][n] == Serve(r, times).1[n];
  }

  /** Which requests are allowed, whatever the clock does and without the bucket: request `n` is allowed if and only if
      since every earlier request one more fits beside those allowed from that one on. */
  lemma AllowedExactly(r: Rate, capacity: nat, period: nat, times: seq<real>, n: nat)
    requires capacity > 0 && period > 0 && r == RateOf(capacity, period) && n < |times|
    ensures |Serve(r, times).1| == |times|
    ensures Serve(r, times).1[n] <==>
            forall a: nat :: a < n ==> OneMoreFits(capacity, period, Allowed(Serve(r, times).1[a..n]), Elapsed(times, a, n))
  {
    RateIsSteady(capacity, period);
    AllowedWithin(r, times, n);
    FitsAllPlainly(r, capacity, period, times, Serve(r, times).1, n);
  }

  /** On a clock that does not go back a denied request proves that the capacity was used up: since some earlier request
      the allowed ones left no room for one more. */
  lemma DeniedExactly(r: Rate, capacity: nat, period: nat, times: seq<real>, n: nat)
    requires capacity > 0 && period > 0 && r == RateOf(capacity, period) && n < |times| && Nondecreasing(times)
    ensures |Serve(r, times).1| == |times|
    ensures !Serve(r, times).1[n] <==>
            exists a: nat :: a < n && !OneMoreFits(capacity, period, Allowed(Serve(r, times).1[a..n]), times[n] - times[a])
  {
    AllowedExactly(r, capacity, period, times, n);
    forall a: nat | a < n ensures Elapsed(times, a, n) == times[n] - times[a] { ElapsedForward(times, a, n); }
  }

  // --- Buckets that expire ----------------------------------------------------------------------------

  /** The times a request reads off the clock: when it computes the tokens, when it computes the expiry it writes, and when
      the store turns that expiry into a time to live. The Redis script reads the clock once. */
  datatype Clock = Clock(now: real, written: real, inserted: real)

  /** Requests take turns and the clock does not go back. */
  predicate InTurn(clocks: seq<Clock>) {
    && (forall i :: 0 <= i < |clocks| ==> clocks[i].now <= clocks[i].written <= clocks[i].inserted)
    && (forall i, k :: 0 <= i < k < |clocks| ==> clocks[i].inserted <= clocks[k].now)
  }

  function Seconds(t: real): int { (t / 1000.0).Floor }

  /** When the in-process store forgets the bucket: it keeps it for twice the period in whole seconds, less the
      seconds that begin between its two last readings of the clock. */
  function MokaForgets(period: nat): Clock -> real {
    (c: Clock) =>
      var left := 2 * period / 1000 - (Seconds(c.inserted) - Seconds(c.written));
      c.inserted + (if left > 0 then left as real * 1000.0 else 0.0)
  }

  /** The Redis store keeps it for twice the period. */
  function RedisForgets(period: nat): Clock -> real {
    (c: Clock) => c.now + 2.0 * period as real
  }

  datatype Kept = Kept(bucket: Bucket, until: real)

  /** The bucket that is still stored at `now`. */
  function Remembered(k: Option<Kept>, now: real): Option<Bucket> {
    if k.Some? && now < k.value.until then Some(k.value.bucket) else None
  }

  function ServeForgetful(r: Rate, forgets: Clock -> real, clocks: seq<Clock>): (Option<Kept>, seq<bool>)
  {
    if clocks == [] then (None, [])
    else
      var (k, answers) := ServeForgetful(r, forgets, clocks[..|clocks| - 1]);
      var c := clocks[|clocks| - 1];
      var (b, allowed) := Request(Remembered(k, c.now), r, c.now);
      (Some(Kept(b, forgets(c))), answers + [allowed])
  }

  function Times(clocks: seq<Clock>): (times: seq<real>)
    ensures |times| == |clocks| && forall i :: 0 <= i < |clocks| ==> times[i] == clocks[i].now
  {
    if clocks == [] then [] else Times(clocks[..|clocks| - 1]) + [clocks[|clocks| - 1].now]
  }

  lemma FullAfterPeriod(b: Bucket, r: Rate, period: nat, now: real)
    requires r.Steady() && Sound(Some(b), r) && r.refill(period as real) == r.capacity
    requires now - b.updatedAt >= period as real
    ensures Available(Some(b), r, now) == r.capacity
  {
    assert r.Adds(now - b.updatedAt - period as real, period as real);
  }

  /** A bucket kept at least as long as it takes to fill answers every request as one that is never forgotten. */
  lemma {:induction false} ForgettingIsUnobservable(r: Rate, period: nat, forgets: Clock -> real, clocks: seq<Clock>)
    requires r.Steady() && r.refill(period as real) == r.capacity
    requires forall c :: c in clocks ==> forgets(c) >= c.now + period as real
    ensures var (k, answers) := ServeForgetful(r, forgets, clocks);
            var (b, remembered) := Serve(r, Times(clocks));
            && answers == remembered && (k.Some? <==> b.Some?)
            && (k.Some? ==> clocks != [] && k.value.bucket == b.value && k.value.until == forgets(clocks[|clocks| - 1]))
  {
    if clocks != [] {
      var before, c := clocks[..|clocks| - 1], clocks[|clocks| - 1];
      ForgettingIsUnobservable(r, period, forgets, before);
      TokensStayInRange(r, Times(before));
      assert Times(clocks)[..|clocks| - 1] == Times(before);
      var k := ServeForgetful(r, forgets, before).0;
      if k.Some? && c.now >= k.value.until {
        assert before[|before| - 1] in clocks;
        FullAfterPeriod(k.value.bucket, r, period, c.now);
      }
    }
  }

  /** How long the in-process store keeps a bucket at least: a second may begin between its readings of the clock. */
  lemma MokaKeepsAtLeast(period: nat, c: Clock)
    requires c.now <= c.written <= c.inserted
    ensures MokaForgets(period)(c) > c.now + (2 * period / 1000 - 1) as real * 1000.0
  {
    var begun := Seconds(c.inserted) - Seconds(c.written);
    assert c.written / 1000.0 < (Seconds(c.written) + 1) as real && c.inserted / 1000.0 >= Seconds(c.inserted) as real;
    assert c.inserted - c.written > (begun - 1) as real * 1000.0;
  }

  /** The whole seconds kept, less one, reach the period exactly for one second and from one and a half on. */
  lemma WholeSecondsKept(period: nat)
    ensures (2 * period / 1000 - 1) * 1000 >= period && period > 0 <==> period == 1000 || period >= 1500
  {
  }

  /** Forgetting in the in-process store is unobservable, whenever its clock is read, if and only if the period is
      one second or at least one and a half; so it is for every period of whole seconds. */
  lemma MokaForgettingIsUnobservable(capacity: nat, period: nat)
    requires capacity > 0 && period > 0
    ensures var r := RateOf(capacity, period);
            (forall clocks: seq<Clock> :: InTurn(clocks) ==>
               ServeForgetful(r, MokaForgets(period), clocks).1 == Serve(r, Times(clocks)).1)
            <==> period == 1000 || period >= 1500
  {
    var r := RateOf(capacity, period);
    WholeSecondsKept(period);
    RateIsSteady(capacity, period);
    if period == 1000 || period >= 1500 {
      forall clocks: seq<Clock> | InTurn(clocks) ensures ServeForgetful(r, MokaForgets(period), clocks).1 == Serve(r, Times(clocks)).1 {
        forall c | c in clocks ensures MokaForgets(period)(c) >= c.now + period as real { MokaKeepsAtLeast(period, c); }
        ForgettingIsUnobservable(r, period, MokaForgets(period), clocks);
      }
    } else {
      ForgottenBurst(capacity, period);
    }
  }

  /** The Redis store keeps every bucket long enough. */
  lemma RedisForgettingIsUnobservable(capacity: nat, period: nat, clocks: seq<Clock>)
    requires capacity > 0 && period > 0
    ensures ServeForgetful(RateOf(capacity, period), RedisForgets(period), clocks).1 == Serve(RateOf(capacity, period), Times(clocks)).1
  {
    RateIsSteady(capacity, period);
    ForgettingIsUnobservable(RateOf(capacity, period), period, RedisForgets(period), clocks);
  }

  // --- A bucket that is forgotten too early -------------------------------------------------------------

  function Copies(c: Clock, n: nat): (clocks: seq<Clock>)
    ensures |clocks| == n && forall i :: 0 <= i < n ==> clocks[i] == c
  {
    if n == 0 then [] else Copies(c, n - 1) + [c]
  }

  /** Half a millisecond before a second begins. */
  const LATE := Clock(999.5, 999.5, 999.5)
  /** The same, but the second begins before the store reads the clock again. */
  const CROSSING := Clock(999.5, 999.5, 1000.0)

  /** As soon as the bucket of the crossing request is forgotten. */
  function Forgotten(period: nat): Clock {
    var at := MokaForgets(period)(CROSSING);
    Clock(at, at, at)
  }

  /** A full burst that ends with a crossing request, and another one as soon as the bucket is forgotten. */
  function TwoBursts(capacity: nat, period: nat): seq<Clock>
    requires capacity > 0
  {
    Copies(LATE, capacity - 1) + [CROSSING] + Copies(Forgotten(period), capacity)
  }

  lemma ForgottenAt(period: nat)
    requires period > 0 && period != 1000 && period < 1500
    ensures 1000.0 <= Forgotten(period).now < 999.5 + period as real
  {
    assert Seconds(1000.0) == 1 && Seconds(999.5) == 0;
    WholeSecondsKept(period);
    var kept := 2 * period / 1000;
    assert kept >= 1 ==> (kept - 1) * 1000 + 1 <= period;
    assert kept >= 1 ==> Forgotten(period).now == 1000.0 + (kept - 1) as real * 1000.0;
  }

  /** Requests at one time, from a missing bucket on, are all allowed up to the capacity: what the bucket holds, kept
      or forgotten, is at least the capacity less the requests so far. */
  lemma {:induction false} BurstPasses(r: Rate, capacity: nat, forgets: Clock -> real, before: seq<Clock>, burst: seq<Clock>)
    requires r.Steady() && r.capacity == capacity as real && 0 < |burst| <= capacity
    requires forall c :: c in burst ==> c.now == burst[0].now
    requires Remembered(ServeForgetful(r, forgets, before).0, burst[0].now).None?
    ensures var (k, answers) := ServeForgetful(r, forgets, before + burst);
            && answers == ServeForgetful(r, forgets, before).1 + Yes(|burst|)
            && k.Some? && k.value.bucket.updatedAt == burst[0].now && k.value.until == forgets(burst[|burst| - 1])
            && k.value.bucket.tokens >= (capacity - |burst|) as real
    decreases |burst|
  {
    var last := burst[|burst| - 1];
    assert (before + burst)[..|before + burst| - 1] == before + burst[..|burst| - 1];
    assert r.Adds(0.0, 0.0);
    if |burst| > 1 {
      BurstPasses(r, capacity, forgets, before, burst[..|burst| - 1]);
    } else {
      assert before + burst[..0] == before;
      assert Yes(1) == [true];
    }
  }

  function Yes(n: nat): (answers: seq<bool>)
    ensures |answers| == n && forall i :: 0 <= i < n ==> answers[i]
  {
    if n == 0 then [] else Yes(n - 1) + [true]
  }

  /** Both bursts pass, although what refills between them is less than one: forgetting is observable. */
  lemma ForgottenBurst(capacity: nat, period: nat)
    requires capacity > 0 && period > 0 && period != 1000 && period < 1500
    ensures var r, clocks := RateOf(capacity, period), TwoBursts(capacity, period);
            InTurn(clocks) && ServeForgetful(r, MokaForgets(period), clocks).1 != Serve(r, Times(clocks)).1
  {
    var r, clocks := RateOf(capacity, period), TwoBursts(capacity, period);
    ForgottenAt(period);
    RateIsSteady(capacity, period);
    BurstsAreInTurn(capacity, period);
    BothBurstsPass(capacity, period, r);
    RefillFallsShort(capacity, period, Forgotten(period).now - 999.5);
    NotAllAllowed(r, capacity, Times(clocks));
  }

  lemma BurstsAreInTurn(capacity: nat, period: nat)
    requires capacity > 0 && Forgotten(period).now >= 1000.0
    ensures var clocks := TwoBursts(capacity, period);
            && InTurn(clocks) && |clocks| == 2 * capacity
            && clocks[0].now == 999.5 && clocks[|clocks| - 1].now == Forgotten(period).now
  {
  }

  /** No more than the capacity and what refills is allowed, so not every request of two bursts is. */
  lemma NotAllAllowed(r: Rate, capacity: nat, times: seq<real>)
    requires r.Steady() && r.capacity == capacity as real && |times| == 2 * capacity && Nondecreasing(times)
    requires r.refill(times[|times| - 1] - times[0]) < capacity as real
    ensures |Serve(r, times).1| == |times| && exists i :: 0 <= i < |times| && !Serve(r, times).1[i]
  {
    AllowedIsBounded(r, times, 0, |times|);
    assert Serve(r, times).1[0..|times|] == Serve(r, times).1;
    if forall i :: 0 <= i < |times| ==> Serve(r, times).1[i] { AllAllowed(Serve(r, times).1); }
  }

  lemma BothBurstsPass(capacity: nat, period: nat, r: Rate)
    requires capacity > 0 && r.Steady() && r.capacity == capacity as real && Forgotten(period).now >= 1000.0
    ensures var answers := ServeForgetful(r, MokaForgets(period), TwoBursts(capacity, period)).1;
            |answers| == 2 * capacity && forall i :: 0 <= i < |answers| ==> answers[i]
  {
    var first, second := Copies(LATE, capacity - 1) + [CROSSING], Copies(Forgotten(period), capacity);
    FirstBurstPasses(capacity, period, r, first);
    var k := ServeForgetful(r, MokaForgets(period), first).0;
    assert Remembered(k, Forgotten(period).now).None?;
    BurstPasses(r, capacity, MokaForgets(period), first, second);
  }

  lemma FirstBurstPasses(capacity: nat, period: nat, r: Rate, first: seq<Clock>)
    requires capacity > 0 && r.Steady() && r.capacity == capacity as real && first == Copies(LATE, capacity - 1) + [CROSSING]
    ensures var (k, answers) := ServeForgetful(r, MokaForgets(period), first);
            answers == Yes(capacity) && k.Some? && k.value.until == MokaForgets(period)(CROSSING)
  {
    var none: seq<Clock> := [];
    assert none + first == first;
    BurstPasses(r, capacity, MokaForgets(period), none, first);
  }

  lemma RefillFallsShort(capacity: nat, period: nat, elapsed: real)
    requires capacity > 0 && period > 0 && elapsed < period as real
    ensures RateOf(capacity, period).refill(elapsed) < capacity as real
  {
    var rate := capacity as real / period as real;
    assert rate > 0.0 && (period as real - elapsed) * rate > 0.0;
    assert period as real * rate == capacity as real;
  }

  lemma {:induction false} AllAllowed(answers: seq<bool>)
    requires forall k :: 0 <= k < |answers| ==> answers[k]
    ensures Allowed(answers) == |answers|
  {
    if answers != [] { AllAllowed(answers[..|answers| - 1]); }
  }

  // --- The stores, updated in place -----------------------------------------------------------------------

  class RateLimiter {
    var buckets: map<string, Kept>
    /** Whether buckets are kept for whole seconds, as the in-process store does. */
    const wholeSeconds: bool

    constructor (wholeSeconds: bool)
      ensures buckets == map[] && this.wholeSeconds == wholeSeconds
    {
      buckets := map[];
      this.wholeSeconds := wholeSeconds;
    }

    function Stored(key: string): Option<Kept>
      reads this
    {
      if key in buckets then Some(buckets[key]) else None
    }

    /** A request at the readings `c`. */
    method Consume(key: string, capacity: nat, period: nat, c: Clock) returns (r: Result<bool, LimitError>)
      modifies this
      ensures capacity == 0 || period == 0 ==> r == Err(NotPositive) && buckets == old(buckets)
      ensures capacity > 0 && period > 0 ==>
                var until := (if wholeSeconds then MokaForgets(period) else RedisForgets(period))(c);
                var (b, allowed) := Request(Remembered(old(Stored(key)), c.now), RateOf(capacity, period), c.now);
                r == Ok(allowed) && buckets == old(buckets)[key := Kept(b, until)]
    {
      if capacity == 0 || period == 0 { return Err(NotPositive); }
      var last, stored := c.now, capacity as real;
      if key in buckets && c.now < buckets[key].until {
        last, stored := buckets[key].bucket.updatedAt, buckets[key].bucket.tokens;
      }
      var refillRate := capacity as real / period as real;
      var elapsed := Max(c.now - last, 0.0);
      var tokens := Min(stored + elapsed * refillRate, capacity as real);
      assert elapsed * refillRate == RateOf(capacity, period).refill(elapsed);
      assert last == c.now ==> elapsed * refillRate == 0.0;
      assert tokens == Available(Remembered(Stored(key), c.now), RateOf(capacity, period), c.now);
      var allowed := tokens >= 1.0;
      if allowed { tokens := tokens - 1.0; }
      var until := c.now + 2.0 * period as real;
      if wholeSeconds {
        var expiry := Seconds(c.written) + 2 * period / 1000;
        var remaining := expiry - Seconds(c.inserted);
        until := c.inserted + (if remaining > 0 then remaining as real * 1000.0 else 0.0);
      }
      buckets := buckets[key := Kept(Bucket(c.now, tokens), until)];
      r := Ok(allowed);
    }
  }
}
