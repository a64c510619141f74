/** The requests-per-second limiter, over real arithmetic.

    The clock is an environment: each acquire reads it once, and a second time after sleeping.
    It never runs backwards, and sleeping `w` seconds advances it by at least `w`. */
module TokenBucket {
  import opened Wrappers

  /** The bucket's numbers: `last` is the clock at the most recent refill. */
  datatype Level = Level(rate: real, capacity: real, tokens: real, last: real)

  function Min(a: real, b: real): real {
    if a <= b then a else b
  }

  function Max(a: real, b: real): real {
    if a >= b then a else b
  }

  /** Tokens a refill adds for `time` seconds. */
  function Earned(rate: real, time: real): real {
    time * rate
  }

  function Refilled(b: Level, now: real): Level {
    b.(tokens := Min(b.capacity, b.tokens + Earned(b.rate, now - b.last)), last := now)
  }

  function WaitAt(b: Level): real
    requires b.rate > 0.0
  {
    if b.tokens < 1.0 then (1.0 - b.tokens) / b.rate else 0.0
  }

  /** The two clock readings one acquire sees; `second` matters only when it sleeps. */
  datatype Readings = Readings(first: real, second: real)

  /** The environment's promise about the readings of the next acquire. */
  predicate Obeys(b: Level, at: Readings)
    requires b.rate > 0.0
  {
    && at.first >= b.last
    && (Refilled(b, at.first).tokens < 1.0 ==> at.second >= at.first + WaitAt(Refilled(b, at.first)))
  }

  /** The level when the token is about to be taken. */
  function Ready(b: Level, at: Readings): Level {
    var once := Refilled(b, at.first);
    if once.tokens < 1.0 then Refilled(once, at.second) else once
  }

  function Acquired(b: Level, at: Readings): Level {
    var ready := Ready(b, at);
    ready.(tokens := Max(0.0, ready.tokens - 1.0))
  }

  /** The one thing the constructor demands. Capacity and tokens may be anything. */
  predicate WellSet(b: Level) {
    b.rate > 0.0
  }

  function Fresh(rate: real, capacity: real, now: real): Level {
    Level(rate, capacity, capacity, now)
  }

  /** The capacity a bucket gets when none is given is at least one. */
  function DefaultCapacity(rate: real): (c: real)
    ensures c >= 1.0 && c >= rate && (c == 1.0 || c == rate)
  {
    Max(1.0, rate)
  }

  class Bucket {
    const rate: real
    const capacity: real
    var tokens: real
    var last: real

    ghost function View(): Level
      reads this
    {
      Level(rate, capacity, tokens, last)
    }

    constructor (rate: real, capacity: real, now: real)
      ensures View() == Fresh(rate, capacity, now)
    {
      this.rate, this.capacity := rate, capacity;
      tokens, last := capacity, now;
    }

    /** The public constructor: a rate that is not positive is refused. */
    static method Make(rate: real, capacity: Option<real>, now: real) returns (b: Bucket?)
      ensures b == null <==> rate <= 0.0
      ensures b != null ==>
                && fresh(b)
                && b.View() == Fresh(rate, if capacity.Some? then capacity.value else DefaultCapacity(rate), now)
    {
      if rate <= 0.0 {
        return null;
      }
      b := new Bucket(rate, if capacity.Some? then capacity.value else DefaultCapacity(rate), now);
    }

    method Refill(now: real)
      modifies this
      ensures View() == Refilled(old(View()), now)
    {
      tokens := Min(capacity, tokens + Earned(rate, now - last));
      last := now;
    }

    /** Take one token, sleeping first when there is none. */
    method Acquire(at: Readings) returns (waited: real)
      requires rate > 0.0 && Obeys(View(), at)
      modifies this
      ensures View() == Acquired(old(View()), at)
      ensures waited == WaitAt(Refilled(old(View()), at.first))
    {
      waited := 0.0;
      Refill(at.first);
      if tokens < 1.0 {
        waited := (1.0 - tokens) / rate;
        Refill(at.second);
      }
      tokens := Max(0.0, tokens - 1.0);
    }
  }

  // ---------------------------------------------------------------- runs

  /** The level after the first `n` acquires of a run. */
  function After(b: Level, run: seq<Readings>, n: nat): Level
    requires n <= |run|
  {
    if n == 0 then b else Acquired(After(b, run, n - 1), run[n - 1])
  }

  ghost predicate ObeyedAt(b: Level, run: seq<Readings>, n: nat)
    requires n < |run|
  {
    After(b, run, n).rate == b.rate > 0.0 && Obeys(After(b, run, n), run[n])
  }

  ghost predicate ObeyedRun(b: Level, run: seq<Readings>) {
    b.rate > 0.0 && forall n: nat | n < |run| :: ObeyedAt(b, run, n)
  }

  /** The instant of the n-th grant (from 0). */
  function GrantTime(b: Level, run: seq<Readings>, n: nat): real
    requires n < |run|
  {
    After(b, run, n + 1).last
  }

  lemma EarnedAdds(rate: real, s: real, t: real)
    ensures Earned(rate, s) + Earned(rate, t) == Earned(rate, s + t)
  {
  }

  lemma EarnedGrows(rate: real, s: real, t: real)
    requires rate > 0.0 && s <= t
    ensures Earned(rate, s) <= Earned(rate, t)
  {
  }

  lemma EarnedWhileWaiting(rate: real, missing: real)
    requires rate > 0.0
    ensures Earned(rate, missing / rate) == missing
  {
  }

  /** Waiting out the computed time leaves a whole token when the bucket can hold one, time moves
      forward, and the level gains at most what the elapsed time earns. */
  lemma ReadyHasToken(b: Level, at: Readings)
    requires WellSet(b) && Obeys(b, at)
    ensures var ready := Ready(b, at);
            && (b.capacity >= 1.0 ==> ready.tokens >= 1.0)
            && (b.capacity < 1.0 ==> ready.tokens == b.capacity)
            && ready.tokens <= b.capacity
            && ready.last >= b.last
            && ready.tokens <= b.tokens + Earned(b.rate, ready.last - b.last)
            && ready.rate == b.rate && ready.capacity == b.capacity
  {
    var once := Refilled(b, at.first);
    EarnedGrows(b.rate, 0.0, at.first - b.last);
    if once.tokens < 1.0 {
      var wait := (1.0 - once.tokens) / b.rate;
      EarnedWhileWaiting(b.rate, 1.0 - once.tokens);
      WaitIsPositive(b.rate, 1.0 - once.tokens);
      EarnedGrows(b.rate, wait, at.second - at.first);
      EarnedAdds(b.rate, at.first - b.last, at.second - at.first);
    }
  }

  /** The token of a grant is always earned: the level before and what the time until the grant earns
      make a whole one, also where the bucket cannot hold one and the clamp acts. */
  lemma TokenIsEarned(b: Level, at: Readings)
    requires WellSet(b) && Obeys(b, at)
    ensures Acquired(b, at).tokens + 1.0 <= b.tokens + Earned(b.rate, Acquired(b, at).last - b.last)
  {
    var once, ready := Refilled(b, at.first), Ready(b, at);
    ReadyHasToken(b, at);
    if ready.tokens < 1.0 {
      var wait := (1.0 - once.tokens) / b.rate;
      EarnedWhileWaiting(b.rate, 1.0 - once.tokens);
      EarnedGrows(b.rate, wait, at.second - at.first);
      EarnedAdds(b.rate, at.first - b.last, at.second - at.first);
    }
  }

  lemma WaitIsPositive(rate: real, missing: real)
    requires rate > 0.0 && missing > 0.0
    ensures missing / rate > 0.0
  {
  }

  /** Over any run, after a grant the tokens are in [0, max(0, capacity - 1)]. */
  lemma {:induction false} TokensStayInRange(b: Level, run: seq<Readings>, n: nat)
    requires WellSet(b) && ObeyedRun(b, run) && n <= |run|
    ensures var a := After(b, run, n);
            && WellSet(a) && a.rate == b.rate && a.capacity == b.capacity
            && (n > 0 ==> 0.0 <= a.tokens <= Max(0.0, b.capacity - 1.0))
  {
    if n > 0 {
      assert ObeyedAt(b, run, n - 1);
      TokensStayInRange(b, run, n - 1);
      ReadyHasToken(After(b, run, n - 1), run[n - 1]);
    }
  }

  /** The clamp at zero acts on grant `n`. */
  ghost predicate ClampActs(b: Level, run: seq<Readings>, n: nat)
    requires n < |run|
  {
    Ready(After(b, run, n), run[n]).tokens < 1.0
  }

  ghost predicate ClampIdle(b: Level) {
    forall run, n: nat | ObeyedRun(b, run) && n < |run| :: !ClampActs(b, run, n)
  }

  /** Exactly the buckets that can hold a whole token never use the clamp: each grant takes a token that
      is there. In the others every grant does. */
  lemma ClampIdleIff(rate: real, capacity: real, now: real)
    requires rate > 0.0
    ensures ClampIdle(Fresh(rate, capacity, now)) <==> capacity >= 1.0
  {
    var b := Fresh(rate, capacity, now);
    forall run, n: nat | ObeyedRun(b, run) && n < |run| ensures ClampActs(b, run, n) <==> capacity < 1.0 {
      assert ObeyedAt(b, run, n);
      TokensStayInRange(b, run, n);
      ReadyHasToken(After(b, run, n), run[n]);
    }
    if capacity < 1.0 {
      var run := OneGrant(b);
      assert ClampActs(b, run, 0);
    }
  }

  /** A run of one acquire at the instant of the last refill. */
  lemma OneGrant(b: Level) returns (run: seq<Readings>)
    requires WellSet(b)
    ensures |run| == 1 && ObeyedRun(b, run)
  {
    run := [Readings(b.last, b.last + WaitAt(Refilled(b, b.last)))];
    assert After(b, run, 0) == b;
    assert ObeyedAt(b, run, 0);
  }

  /** The level less what the time so far could have earned. */
  function Surplus(rate: real, tokens: real, time: real): real {
    tokens - Earned(rate, time)
  }

  function SurplusAt(b: Level, run: seq<Readings>, n: nat): real
    requires n <= |run|
  {
    Surplus(b.rate, After(b, run, n).tokens, After(b, run, n).last)
  }

  /** Each acquire costs at least one unit of surplus. */
  lemma GrantCostsOne(b: Level, run: seq<Readings>, n: nat)
    requires WellSet(b) && ObeyedRun(b, run) && n < |run|
    ensures SurplusAt(b, run, n + 1) <= SurplusAt(b, run, n) - 1.0
  {
    TokensStayInRange(b, run, n);
    assert ObeyedAt(b, run, n);
    var x := After(b, run, n);
    TokenIsEarned(x, run[n]);
    EarnedAdds(b.rate, x.last, Acquired(x, run[n]).last - x.last);
  }

  /** Grants `i` to `j` cost at least `j - i` units of surplus. */
  lemma {:induction false} GrantsCost(b: Level, run: seq<Readings>, i: nat, j: nat)
    requires WellSet(b) && ObeyedRun(b, run) && i <= j <= |run|
    ensures SurplusAt(b, run, j) <= SurplusAt(b, run, i) - (j - i) as real
    decreases j
  {
    if i < j {
      var m := j - 1;
      GrantsCost(b, run, i, m);
      GrantCostsOne(b, run, m);
      assert (j - i) as real == (m - i) as real + 1.0;
    }
  }

  /** k grants fit a burst and what is earned between two instants. */
  ghost predicate Fits(rate: real, burst: real, k: nat, from: real, to: real) {
    k as real <= burst + Earned(rate, to - from)
  }

  /** k grants, the first of them number `first`, fit a burst and what the time they span earns. */
  ghost predicate WithinRate(b: Level, burst: real, run: seq<Readings>, first: nat, k: nat)
    requires k >= 1 && first + k <= |run|
  {
    Fits(b.rate, burst, k, GrantTime(b, run, first), GrantTime(b, run, first + k - 1))
  }

  lemma GrantsWithinRate(b: Level, run: seq<Readings>, first: nat, k: nat)
    requires WellSet(b) && ObeyedRun(b, run) && k >= 1 && first + k <= |run|
    ensures WithinRate(b, Max(1.0, b.capacity), run, first, k)
  {
    TokensStayInRange(b, run, first + 1);
    TokensStayInRange(b, run, first + k);
    GrantsCost(b, run, first + 1, first + k);
    CostFits(b, k, After(b, run, first + 1).tokens, After(b, run, first + 1).last,
             After(b, run, first + k).tokens, After(b, run, first + k).last);
  }

  lemma CostFits(b: Level, k: nat, tokens: real, from: real, tokens': real, to: real)
    requires k >= 1 && tokens <= Max(0.0, b.capacity - 1.0) && tokens' >= 0.0
    requires Surplus(b.rate, tokens', to) <= Surplus(b.rate, tokens, from) - (k - 1) as real
    ensures Fits(b.rate, Max(1.0, b.capacity), k, from, to)
  {
    EarnedAdds(b.rate, from, to - from);
    assert (k - 1) as real == k as real - 1.0;
  }

  /** The rate bound, for every capacity: any k grants inside a window of length d satisfy
      k <= max(1, capacity) + rate * d. */
  lemma WindowBound(b: Level, run: seq<Readings>, first: nat, k: nat, from: real, d: real)
    requires WellSet(b) && ObeyedRun(b, run) && k >= 1 && first + k <= |run|
    requires from <= GrantTime(b, run, first) && GrantTime(b, run, first + k - 1) <= from + d
    ensures k as real <= Max(1.0, b.capacity) + d * b.rate
  {
    GrantsWithinRate(b, run, first, k);
    WindowFits(b.rate, Max(1.0, b.capacity), k, GrantTime(b, run, first), GrantTime(b, run, first + k - 1), d);
  }

  lemma WindowFits(rate: real, burst: real, k: nat, from: real, to: real, d: real)
    requires rate > 0.0 && to - from <= d && Fits(rate, burst, k, from, to)
    ensures k as real <= burst + d * rate
  {
    EarnedGrows(rate, to - from, d);
  }

  // ---------------------------------------------------------------- the bound is tight

  /** Every group of grants of every obedient run fits this burst. */
  ghost predicate RateBounded(b: Level, burst: real) {
    forall run, first: nat, k: nat | ObeyedRun(b, run) && k >= 1 && first + k <= |run| ::
      WithinRate(b, burst, run, first, k)
  }

  /** The least burst: for a fresh bucket of any capacity, the bound holds with a burst if and only if the
      burst is at least max(1, capacity). So capacity + rate * d is a bound exactly when capacity >= 1. */
  lemma LeastBurst(rate: real, capacity: real, now: real, burst: real)
    requires rate > 0.0
    ensures RateBounded(Fresh(rate, capacity, now), burst) <==> burst >= Max(1.0, capacity)
  {
    var b := Fresh(rate, capacity, now);
    if burst >= Max(1.0, capacity) {
      forall run, first: nat, k: nat | ObeyedRun(b, run) && k >= 1 && first + k <= |run|
        ensures WithinRate(b, burst, run, first, k)
      {
        GrantsWithinRate(b, run, first, k);
      }
    }
    if RateBounded(b, burst) {
      BurstHoldsOne(b, burst);
      BurstHoldsCapacity(b, burst);
    }
  }

  /** One grant spans no time. */
  lemma BurstHoldsOne(b: Level, burst: real)
    requires WellSet(b) && RateBounded(b, burst)
    ensures burst >= 1.0
  {
    var run := OneGrant(b);
    assert WithinRate(b, burst, run, 0, 1);
    EarnedGrows(b.rate, 0.0, 0.0);
  }

  /** A full bucket grants its whole tokens at once, and one more as soon as the rest is made up. */
  lemma BurstHoldsCapacity(b: Level, burst: real)
    requires b.rate > 0.0 && b.tokens == b.capacity && RateBounded(b, burst)
    ensures b.capacity >= 1.0 ==> burst >= b.capacity
  {
    if b.capacity >= 1.0 {
      var n := b.capacity.Floor;
      var run := Drain(b, n);
      assert WithinRate(b, burst, run, 0, n + 1);
      LastGrantIsLate(b, run, n);
      NoSlack(b, n, burst, GrantTime(b, run, 0), GrantTime(b, run, n));
    }
  }

  /** A run that takes `n` tokens at one instant and then waits for one more. */
  lemma DrainPrefix(b: Level, n: nat) returns (run: seq<Readings>)
    requires b.rate > 0.0 && b.tokens == b.capacity >= n as real
    ensures |run| == n && ObeyedRun(b, run)
    ensures forall i: nat | i <= n :: After(b, run, i) == b.(tokens := b.capacity - i as real)
  {
    run := seq(n, _ => Readings(b.last, b.last));
    DrainLevels(b, run, n);
  }

  lemma {:induction false} DrainLevels(b: Level, run: seq<Readings>, n: nat)
    requires b.rate > 0.0 && b.tokens == b.capacity >= n as real
    requires n <= |run| && forall i | 0 <= i < |run| :: run[i] == Readings(b.last, b.last)
    ensures forall i: nat | i <= n :: After(b, run, i) == b.(tokens := b.capacity - i as real)
    ensures forall i: nat | i < n :: ObeyedAt(b, run, i)
  {
    if n > 0 {
      DrainLevels(b, run, n - 1);
      assert n as real == (n - 1) as real + 1.0;
      EarnedGrows(b.rate, 0.0, 0.0);
    }
  }

  lemma Drain(b: Level, n: nat) returns (run: seq<Readings>)
    requires b.rate > 0.0 && n as real <= b.tokens == b.capacity < n as real + 1.0
    ensures |run| == n + 1 && ObeyedRun(b, run)
    ensures forall i: nat | i <= n :: After(b, run, i) == b.(tokens := b.capacity - i as real)
    ensures run[n] == Readings(b.last, b.last + WaitAt(b.(tokens := b.capacity - n as real)))
  {
    var left := b.(tokens := b.capacity - n as real);
    var front := DrainPrefix(b, n);
    run := front + [Readings(b.last, b.last + WaitAt(left))];
    SamePrefix(b, front, run, n);
    EarnedGrows(b.rate, 0.0, 0.0);
    assert Refilled(left, b.last) == left;
    forall i: nat | i < |run| ensures ObeyedAt(b, run, i) {
      if i < n {
        assert ObeyedAt(b, front, i);
      }
    }
  }

  /** The last grant of such a run comes as soon as its token is made up. */
  lemma LastGrantIsLate(b: Level, run: seq<Readings>, n: nat)
    requires b.rate > 0.0 && 1 <= n < |run|
    requires After(b, run, 1).last == b.last && After(b, run, n) == b.(tokens := b.capacity - n as real)
    requires run[n] == Readings(b.last, b.last + WaitAt(After(b, run, n)))
    requires 0.0 <= b.capacity - n as real < 1.0
    ensures GrantTime(b, run, 0) == b.last
    ensures GrantTime(b, run, n) == b.last + WaitAt(b.(tokens := b.capacity - n as real))
  {
    var left := After(b, run, n);
    EarnedGrows(b.rate, 0.0, 0.0);
    assert Refilled(left, b.last) == left;
  }

  lemma NoSlack(b: Level, n: nat, burst: real, from: real, to: real)
    requires b.rate > 0.0 && 0.0 <= b.capacity - n as real < 1.0
    requires to - from == WaitAt(b.(tokens := b.capacity - n as real))
    requires Fits(b.rate, burst, n + 1, from, to)
    ensures burst >= b.capacity
  {
    EarnedWhileWaiting(b.rate, 1.0 - (b.capacity - n as real));
    assert (n + 1) as real == n as real + 1.0;
  }

  lemma {:induction false} SamePrefix(b: Level, front: seq<Readings>, run: seq<Readings>, n: nat)
    requires n <= |front| && front <= run
    ensures forall i: nat | i <= n :: After(b, run, i) == After(b, front, i)
  {
    if n > 0 {
      SamePrefix(b, front, run, n - 1);
    }
  }
}
