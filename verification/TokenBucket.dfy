/** The request rate limiter. Times are seconds and token counts are real numbers;
    clock readings may stand still or go backwards. */
module TokenBucket {

  /** Tokens earned by a stretch of time. */
  type Accrual = real -> real

  function PerSecond(rate: real): Accrual { (d: real) => d * rate }

  predicate Additive(accrue: Accrual, x: real, y: real) {
    accrue(x) + accrue(y) == accrue(x + y) && (x >= 0.0 ==> accrue(x) >= 0.0)
  }

  ghost predicate Linear(accrue: Accrual) {
    (forall x, y :: Additive(accrue, x, y)) && accrue(0.0) == 0.0
  }

  lemma PerSecondLinear(rate: real)
    requires rate >= 0.0
    ensures Linear(PerSecond(rate))
  {
    forall x, y ensures Additive(PerSecond(rate), x, y) {
      Distribute(rate, x, y);
    }
  }

  lemma Distribute(rate: real, x: real, y: real)
    requires rate >= 0.0
    ensures x * rate + y * rate == (x + y) * rate
    ensures x >= 0.0 ==> x * rate >= 0.0
  {
  }

  datatype Bucket = Bucket(tokens: real, capacity: real, lastTime: real)

  function Min(x: real, y: real): real { if x <= y then x else y }

  /** Refill for the time elapsed, if any, but never above capacity. */
  function Refill(accrue: Accrual, b: Bucket, now: real): Bucket {
    var delta := now - b.lastTime;
    if delta > 0.0 then b.(tokens := Min(b.capacity, b.tokens + accrue(delta)), lastTime := now) else b
  }

  function Step(accrue: Accrual, b: Bucket, now: real): (Bucket, bool) {
    var r := Refill(accrue, b, now);
    if r.tokens < 1.0 then (r, false) else (r.(tokens := r.tokens - 1.0), true)
  }

  class Limiter {
    var tokens: real
    const rate: real
    const capacity: real
    var lastTime: real

    ghost function View(): Bucket reads this { Bucket(tokens, capacity, lastTime) }

    constructor (rate: real, now: real)
      ensures this.tokens == this.capacity == this.rate == rate && this.lastTime == now
    {
      this.tokens, this.rate, this.capacity, this.lastTime := rate, rate, rate, now;
    }

    method Allow(now: real) returns (ok: bool)
      modifies this
      ensures (View(), ok) == Step(PerSecond(rate), old(View()), now)
    {
      var delta := now - lastTime;
      if delta > 0.0 {
        tokens := Min(capacity, tokens + delta * rate);
        lastTime := now;
      }
      if tokens < 1.0 {
        return false;
      }
      tokens := tokens - 1.0;
      return true;
    }
  }

  /** No limiter at all for a limit that is not positive. */
  method NewTokenBucket(rateLimit: int, now: real) returns (tb: Limiter?)
    ensures tb == null <==> rateLimit <= 0
    ensures tb != null ==> fresh(tb) && tb.rate == tb.capacity == tb.tokens == rateLimit as real && tb.lastTime == now
    ensures tb != null ==> tb.View() == LimitRun(rateLimit, now, []).start
  {
    if rateLimit <= 0 {
      return null;
    }
    tb := new Limiter(rateLimit as real, now);
  }

  method AllowRequest(tb: Limiter?, now: real) returns (ok: bool)
    modifies if tb == null then {} else {tb}
    ensures tb == null ==> ok
    ensures tb != null ==> (tb.View(), ok) == Step(PerSecond(tb.rate), old(tb.View()), now)
  {
    if tb == null {
      return true;
    }
    ok := tb.Allow(now);
  }

  // ---------------------------------------------------------------- runs

  /** A limiter and the clock readings of the calls made on it. */
  datatype Run = Run(accrue: Accrual, start: Bucket, clocks: seq<real>) {

    /** State after the first k calls. */
    function After(k: nat): Bucket
      requires k <= |clocks|
    {
      if k == 0 then start else Step(accrue, After(k - 1), clocks[k - 1]).0
    }

    predicate Verdict(k: nat)
      requires k < |clocks|
    {
      Step(accrue, After(k), clocks[k]).1
    }

    /** How many of the calls k with from <= k < to were admitted. */
    function Admitted(from: nat, to: nat): nat
      requires to <= |clocks|
    {
      if to <= from then 0 else Admitted(from, to - 1) + if Verdict(to - 1) then 1 else 0
    }

    /** The limiter's time after k calls. */
    function Time(k: nat): real
      requires k <= |clocks|
    {
      After(k).lastTime
    }

    /** What window j still allows after n calls: capacity, plus the refill since it opened,
        minus what was admitted in it. */
    function Allowance(j: nat, n: nat): real
      requires j <= n <= |clocks|
    {
      start.capacity + accrue(Time(n) - Time(j)) - Admitted(Opening(j), n) as real
    }

    /** Whether window j has room for one more request at the n-th call. */
    predicate Affords(j: nat, n: nat)
      requires j <= n < |clocks|
    {
      (Admitted(Opening(j), n) + 1) as real <= start.capacity + accrue(Time(n + 1) - Time(j))
    }
  }

  /** Window j opens at creation for j = 0, otherwise at the j-th call, which it includes. */
  function Opening(j: nat): nat { if j == 0 then 0 else j - 1 }

  ghost predicate Fresh(r: Run) {
    Linear(r.accrue) && r.start.tokens == r.start.capacity && r.start.capacity >= 0.0
  }

  /** What a reading adds to the bucket before capping. */
  function Gain(r: Run, k: nat): real
    requires k < |r.clocks|
  {
    if r.clocks[k] - r.Time(k) > 0.0 then r.accrue(r.clocks[k] - r.Time(k)) else 0.0
  }

  function Took(r: Run, k: nat): real
    requires k < |r.clocks|
  {
    if r.Verdict(k) then 1.0 else 0.0
  }

  lemma {:induction false} CapacityFixed(r: Run, k: nat)
    requires k <= |r.clocks|
    ensures r.After(k).capacity == r.start.capacity
  {
    if k > 0 {
      CapacityFixed(r, k - 1);
    }
  }

  /** One call: the bucket gains, is capped, and loses what the call took. */
  lemma StepTokens(r: Run, k: nat)
    requires k < |r.clocks| && r.After(k).tokens <= r.start.capacity
    ensures var filled := Min(r.start.capacity, r.After(k).tokens + Gain(r, k));
            && r.Verdict(k) == (filled >= 1.0)
            && r.After(k + 1).tokens == filled - Took(r, k)
  {
    CapacityFixed(r, k);
  }

  lemma {:induction false} TokensInRange(r: Run, k: nat)
    requires Fresh(r) && k <= |r.clocks|
    ensures 0.0 <= r.After(k).tokens <= r.start.capacity
  {
    if k > 0 {
      TokensInRange(r, k - 1);
      StepTokens(r, k - 1);
      assert Additive(r.accrue, r.clocks[k - 1] - r.Time(k - 1), 0.0);
    }
  }

  /** The time advances by exactly what the gain is paid for. */
  lemma GainIsElapsed(r: Run, k: nat)
    requires Linear(r.accrue) && k < |r.clocks|
    ensures Gain(r, k) == r.accrue(r.Time(k + 1) - r.Time(k))
    ensures r.Time(k) <= r.Time(k + 1)
  {
  }

  lemma ElapsedSplit(r: Run, j: nat, k: nat)
    requires Linear(r.accrue) && j <= k < |r.clocks|
    ensures r.accrue(r.Time(k + 1) - r.Time(j)) == r.accrue(r.Time(k) - r.Time(j)) + Gain(r, k)
  {
    GainIsElapsed(r, k);
    var x, y := r.Time(k) - r.Time(j), r.Time(k + 1) - r.Time(k);
    assert Additive(r.accrue, x, y);
    assert x + y == r.Time(k + 1) - r.Time(j);
  }

  /** Every open window gains the refill and loses what the call took;
      the window opened by the call starts from capacity. */
  lemma AllowanceStep(r: Run, j: nat, k: nat)
    requires Linear(r.accrue) && j <= k + 1 <= |r.clocks|
    ensures r.Allowance(j, k + 1)
         == (if j == k + 1 then r.start.capacity else r.Allowance(j, k) + Gain(r, k)) - Took(r, k)
  {
    if j <= k {
      ElapsedSplit(r, j, k);
    } else {
      assert r.Time(j) - r.Time(j) == 0.0;
      assert r.Admitted(k, k) == 0;
    }
  }

  // ---------------------------------------------------------------- the law

  /** The tokens left are exactly what the tightest window still allows. */
  lemma {:induction false} TokensAreTightestWindow(r: Run, n: nat) returns (tightest: nat)
    requires Fresh(r) && n <= |r.clocks|
    ensures forall j :: 0 <= j <= n ==> r.After(n).tokens <= r.Allowance(j, n)
    ensures tightest <= n && r.After(n).tokens == r.Allowance(tightest, n)
  {
    if n == 0 {
      tightest := 0;
    } else {
      var k := n - 1;
      var t := TokensAreTightestWindow(r, k);
      TokensInRange(r, k);
      StepTokens(r, k);
      forall j | 0 <= j <= n ensures r.After(n).tokens <= r.Allowance(j, n) {
        AllowanceStep(r, j, k);
      }
      AllowanceStep(r, t, k);
      AllowanceStep(r, n, k);
      tightest := if r.After(k).tokens + Gain(r, k) <= r.start.capacity then t else n;
    }
  }

  /** No window ever admits more than capacity plus the refill of its length. */
  lemma WindowBound(r: Run, j: nat, n: nat)
    requires Fresh(r) && j <= n <= |r.clocks|
    ensures r.Admitted(Opening(j), n) as real <= r.start.capacity + r.accrue(r.Time(n) - r.Time(j))
  {
    TokensInRange(r, n);
    var t := TokensAreTightestWindow(r, n);
    assert r.Allowance(j, n) >= 0.0;
  }

  lemma AffordsByAllowance(r: Run, j: nat, n: nat)
    requires Linear(r.accrue) && j <= n < |r.clocks|
    ensures r.Affords(j, n) <==> r.Allowance(j, n) + Gain(r, n) >= 1.0
  {
    ElapsedSplit(r, j, n);
  }

  /** A call is admitted exactly when it overdraws no window open so far. */
  lemma AdmittedIffNoWindowOverdrawn(r: Run, n: nat)
    requires Fresh(r) && r.start.capacity >= 1.0 && n < |r.clocks|
    ensures r.Verdict(n) <==> forall j :: 0 <= j <= n ==> r.Affords(j, n)
  {
    var t := TokensAreTightestWindow(r, n);
    TokensInRange(r, n);
    StepTokens(r, n);
    assert r.Verdict(n) <==> r.After(n).tokens + Gain(r, n) >= 1.0;
    forall j | 0 <= j <= n ensures r.Affords(j, n) <==> r.Allowance(j, n) + Gain(r, n) >= 1.0 {
      AffordsByAllowance(r, j, n);
    }
    assert r.Affords(t, n) ==> r.Allowance(t, n) + Gain(r, n) >= 1.0;
  }

  // ---------------------------------------------------------------- clock intervals

  lemma {:induction false} TimeMonotonic(r: Run, i: nat, j: nat)
    requires i <= j <= |r.clocks|
    ensures r.Time(i) <= r.Time(j)
  {
    if i < j {
      TimeMonotonic(r, i, j - 1);
    }
  }

  /** The limiter's time is the latest of its creation and the readings so far. */
  lemma {:induction false} TimeIsLatest(r: Run, k: nat)
    requires k <= |r.clocks|
    ensures r.start.lastTime <= r.Time(k) && forall i :: 0 <= i < k ==> r.clocks[i] <= r.Time(k)
    ensures r.Time(k) == r.start.lastTime || exists i :: 0 <= i < k && r.clocks[i] == r.Time(k)
  {
    if k > 0 {
      TimeIsLatest(r, k - 1);
      assert r.Time(k) == r.Time(k - 1) || r.Time(k) == r.clocks[k - 1];
    }
  }

  /** Admitted calls among the first n whose time lies in a closed interval. */
  function AdmittedBetween(r: Run, from: real, to: real, n: nat): nat
    requires n <= |r.clocks|
  {
    if n == 0 then 0
    else AdmittedBetween(r, from, to, n - 1) + if r.Verdict(n - 1) && from <= r.Time(n) <= to then 1 else 0
  }

  /** The p-th call is the first whose time is not before `from`. */
  ghost predicate EntersAt(r: Run, from: real, p: nat, n: nat)
    requires n <= |r.clocks|
  {
    p <= n && (p == 0 || r.Time(p) < from) && (p < n ==> from <= r.Time(p + 1))
  }

  lemma {:induction false} BetweenIsWindow(r: Run, from: real, to: real, p: nat, n: nat)
    requires n <= |r.clocks| && r.Time(n) <= to && EntersAt(r, from, p, n)
    ensures AdmittedBetween(r, from, to, n) == r.Admitted(p, n)
  {
    if n > 0 {
      TimeMonotonic(r, n - 1, n);
      if p < n {
        TimeMonotonic(r, p + 1, n);
        BetweenIsWindow(r, from, to, p, n - 1);
      } else {
        BetweenIsWindow(r, from, to, n - 1, n - 1);
      }
    }
  }

  lemma {:induction false} FirstInside(r: Run, from: real, n: nat) returns (p: nat)
    requires n <= |r.clocks|
    ensures EntersAt(r, from, p, n)
  {
    if n == 0 || r.Time(n) < from {
      p := n;
    } else {
      p := FirstInside(r, from, n - 1);
    }
  }

  lemma AccrueMore(accrue: Accrual, x: real, y: real)
    requires Linear(accrue) && x <= y
    ensures accrue(x) <= accrue(y)
  {
    assert Additive(accrue, x, y - x) && Additive(accrue, y - x, x);
    assert x + (y - x) == y;
  }

  /** In any interval of the limiter's clock at most capacity plus the refill of its length passes. */
  lemma {:induction false} IntervalBound(r: Run, from: real, to: real, n: nat)
    requires Fresh(r) && from <= to && n <= |r.clocks|
    ensures AdmittedBetween(r, from, to, n) as real <= r.start.capacity + r.accrue(to - from)
  {
    AccrueMore(r.accrue, 0.0, to - from);
    if n > 0 {
      if r.Time(n) > to {
        IntervalBound(r, from, to, n - 1);
      } else {
        var p := FirstInside(r, from, n);
        BetweenIsWindow(r, from, to, p, n);
        if p < n {
          WindowBound(r, p + 1, n);
          AccrueMore(r.accrue, r.Time(n) - r.Time(p + 1), to - from);
        }
      }
    }
  }

  /** The calls made on a limiter that the server creates for a limit. */
  function LimitRun(rateLimit: int, created: real, clocks: seq<real>): Run {
    Run(PerSecond(rateLimit as real), Bucket(rateLimit as real, rateLimit as real, created), clocks)
  }

  /** Every limiter the server creates starts such a run, whatever the clock does afterwards. */
  lemma NewLimiterRun(rateLimit: int, created: real, clocks: seq<real>)
    requires rateLimit >= 1
    ensures var r := LimitRun(rateLimit, created, clocks);
            && Fresh(r) && r.start.tokens == r.start.capacity == rateLimit as real && r.start.lastTime == created
            && forall d :: r.accrue(d) == d * rateLimit as real
  {
    PerSecondLinear(rateLimit as real);
  }

  ghost predicate Standing(created: real, clocks: seq<real>) {
    forall k :: 0 <= k < |clocks| ==> clocks[k] <= created
  }

  function AtMost(n: nat, limit: nat): nat { if n <= limit then n else limit }

  lemma StandingStep(rateLimit: nat, created: real, clocks: seq<real>, k: nat)
    requires Standing(created, clocks) && k < |clocks|
    requires LimitRun(rateLimit, created, clocks).After(k)
          == Bucket((rateLimit - AtMost(k, rateLimit)) as real, rateLimit as real, created)
    ensures var r := LimitRun(rateLimit, created, clocks);
            && r.After(k + 1) == Bucket((rateLimit - AtMost(k + 1, rateLimit)) as real, rateLimit as real, created)
            && (r.Verdict(k) <==> k < rateLimit)
  {
    assert clocks[k] <= created;
  }

  /** While the clock does not pass the time of creation, exactly the first `rateLimit` calls are admitted. */
  lemma {:induction false} BurstIsLimit(rateLimit: nat, created: real, clocks: seq<real>, n: nat)
    requires rateLimit >= 1 && n <= |clocks| && Standing(created, clocks)
    ensures var r := LimitRun(rateLimit, created, clocks);
            && r.Admitted(0, n) == (if n <= rateLimit then n else rateLimit)
            && forall k :: 0 <= k < n ==> (r.Verdict(k) <==> k < rateLimit)
    ensures LimitRun(rateLimit, created, clocks).After(n)
         == Bucket((rateLimit - AtMost(n, rateLimit)) as real, rateLimit as real, created)
  {
    if n > 0 {
      BurstIsLimit(rateLimit, created, clocks, n - 1);
      StandingStep(rateLimit, created, clocks, n - 1);
    }
  }

  /** The limit at once, and as much again per second. */
  function Allowance(limit: real, seconds: real): real { limit * (1.0 + seconds) }

  lemma AllowanceIs(limit: real, seconds: real)
    ensures Allowance(limit, seconds) == limit + seconds * limit
  {
  }

  /** Whatever the clock does, in any interval of the limiter's time at most the limit is admitted at once,
      and as much again per second. */
  lemma LimitPerInterval(rateLimit: nat, created: real, clocks: seq<real>, from: real, to: real, n: nat)
    requires rateLimit >= 1 && from <= to && n <= |clocks|
    ensures AdmittedBetween(LimitRun(rateLimit, created, clocks), from, to, n) as real
         <= Allowance(rateLimit as real, to - from)
  {
    LimitGains(rateLimit, created, clocks, to - from);
    PerInterval(LimitRun(rateLimit, created, clocks), rateLimit as real, to - from, from, to, n);
  }

  lemma LimitGains(rateLimit: nat, created: real, clocks: seq<real>, d: real)
    requires rateLimit >= 1
    ensures var r := LimitRun(rateLimit, created, clocks);
            Fresh(r) && r.start.capacity == rateLimit as real && GainsIn(r, rateLimit as real, d)
  {
    NewLimiterRun(rateLimit, created, clocks);
  }

  predicate GainsIn(r: Run, limit: real, d: real) { r.accrue(d) == d * limit }

  lemma PerInterval(r: Run, limit: real, d: real, from: real, to: real, n: nat)
    requires Fresh(r) && r.start.capacity == limit && GainsIn(r, limit, d)
    requires d == to - from >= 0.0 && n <= |r.clocks|
    ensures AdmittedBetween(r, from, to, n) as real <= Allowance(limit, d)
  {
    IntervalBound(r, from, to, n);
    AllowanceIs(limit, d);
  }
}
