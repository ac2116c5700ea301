/**
 The polling strategies and the polling loop. Durations are 64-bit numbers of nanoseconds;
 floating-point values are exact reals, truncated when converted.
 */
module Polling {
  import opened Text

  // ---- conversion and powers ----------------------------------------------------

  const TWO_63: real := 9223372036854775808.0

  /** `time.Duration(x)`: truncation toward zero; out of range it is the smallest duration, as on amd64. */
  function ToDuration(x: real): int64 {
    if 0.0 <= x < TWO_63 then FloorBound(x); x.Floor
    else if -TWO_63 < x < 0.0 then FloorBound(-x); -(-x).Floor
    else MIN_INT64
  }

  lemma FloorBound(x: real)
    requires 0.0 <= x < TWO_63
    ensures 0 <= x.Floor <= MAX_INT64
  {
    assert x.Floor as real <= x < TWO_63;
  }

  lemma FloorMonotone(x: real, y: real)
    requires x <= y
    ensures x.Floor <= y.Floor
  {
    assert x.Floor as real <= y;
  }

  function Pow(m: real, n: nat): real {
    if n == 0 then 1.0 else m * Pow(m, n - 1)
  }

  lemma MulAtLeast(a: real, b: real, c: real)
    requires 0.0 <= a && b <= c
    ensures a * b <= a * c
  {
  }

  lemma BernoulliStep(m: real, p: real, n: nat)
    requires m > 1.0 && p >= 1.0 && p >= 1.0 + n as real * (m - 1.0)
    ensures m * p >= 1.0 + (n + 1) as real * (m - 1.0)
    ensures m * p >= 1.0
  {
    var d := m - 1.0;
    MulAtLeast(d, 1.0, p);
    assert m * p == p + d * p;
    assert (n + 1) as real * d == n as real * d + d;
    MulAtLeast(d, 0.0, n as real);
  }

  /** The bound that makes the growth unlimited: `m^n >= 1 + n(m-1)`. */
  lemma {:induction false} Bernoulli(m: real, n: nat)
    requires m > 1.0
    ensures Pow(m, n) >= 1.0 + n as real * (m - 1.0)
    ensures Pow(m, n) >= 1.0
  {
    if n > 0 {
      Bernoulli(m, n - 1);
      BernoulliStep(m, Pow(m, n - 1), n - 1);
    }
  }

  lemma {:induction false} PowMonotone(m: real, a: nat, b: nat)
    requires m > 1.0 && a <= b
    ensures 1.0 <= Pow(m, a) <= Pow(m, b)
  {
    Bernoulli(m, a);
    if a < b {
      PowMonotone(m, a, b - 1);
      MulAtLeast(Pow(m, b - 1), 1.0, m);
    }
  }

  lemma {:induction false} PowAdd(m: real, a: nat, b: nat)
    ensures Pow(m, a + b) == Pow(m, a) * Pow(m, b)
  {
    if a > 0 {
      PowAdd(m, a - 1, b);
      assert a + b - 1 == a - 1 + b;
      assert m * (Pow(m, a - 1) * Pow(m, b)) == m * Pow(m, a - 1) * Pow(m, b);
    }
  }

  // ---- exponential backoff ----------------------------------------------------------

  /** The exact value before conversion, after `k` failures in a row. */
  function Grown(base: int64, m: real, k: nat): real
    requires k > 0
  {
    base as real * Pow(m, k - 1)
  }

  /** How many failures the history ends in. */
  function FailureRun(outcomes: seq<bool>): nat {
    if outcomes == [] || outcomes[|outcomes| - 1] then 0 else FailureRun(outcomes[..|outcomes| - 1]) + 1
  }

  /** How many failures in a row there have been after the outcome at `i`. */
  function RunAt(outcomes: seq<bool>, i: nat): nat
    requires i < |outcomes|
  {
    FailureRun(outcomes[..i + 1])
  }

  /** The interval after `k` failures in a row, as the code computes it: convert first, clamp afterwards. */
  function BackoffInterval(base: int64, max: int64, m: real, k: nat): int64 {
    if k == 0 then base
    else
      var d := ToDuration(Grown(base, m, k));
      if d > max then max else d
  }

  /** The interval that is meant: clamp the exact value. */
  function IdealInterval(base: int64, max: int64, m: real, k: nat): int {
    if k == 0 then base as int
    else
      var d := Grown(base, m, k).Floor;
      if d > max as int then max as int else d
  }

  class ExponentialBackoff {
    const baseInterval: int64
    const maxInterval: int64
    const multiplier: real
    var currentBackoff: nat

    constructor (base: int64, max: int64, multiplier: real)
      ensures baseInterval == base && maxInterval == max && currentBackoff == 0
      ensures this.multiplier == (if multiplier <= 1.0 then 2.0 else multiplier) && Valid()
    {
      baseInterval, maxInterval, currentBackoff := base, max, 0;
      this.multiplier := if multiplier <= 1.0 then 2.0 else multiplier;
    }

    ghost predicate Valid() {
      multiplier > 1.0
    }

    method NextInterval(success: bool) returns (d: int64)
      requires Valid()
      modifies this
      ensures currentBackoff == if success then 0 else old(currentBackoff) + 1
      ensures d == BackoffInterval(baseInterval, maxInterval, multiplier, currentBackoff)
    {
      hide Pow, ToDuration;
      if success {
        if currentBackoff > 0 {
          currentBackoff := 0;
        }
        return baseInterval;
      }
      currentBackoff := currentBackoff + 1;
      var backoffDuration := baseInterval as real * Pow(multiplier, currentBackoff - 1);
      assert backoffDuration == Grown(baseInterval, multiplier, currentBackoff);
      d := ToDuration(backoffDuration);
      if d > maxInterval {
        d := maxInterval;
      }
    }

    method Reset()
      modifies this
      ensures currentBackoff == 0
    {
      currentBackoff := 0;
    }
  }

  /** The interval after each prefix of the history. */
  function Intervals(base: int64, max: int64, m: real, outcomes: seq<bool>): (r: seq<int64>)
    ensures |r| == |outcomes|
  {
    seq(|outcomes|, i requires 0 <= i < |outcomes| => BackoffInterval(base, max, m, RunAt(outcomes, i)))
  }

  /**
   The polling loop, until it is cancelled after the given task outcomes. A ticker cannot be
   created or reset with an interval that is not positive: the program panics there.
   */
  method Start(strategy: ExponentialBackoff, outcomes: seq<bool>) returns (resets: seq<int64>, panicked: bool)
    requires strategy.Valid()
    modifies strategy
    ensures var all := Intervals(strategy.baseInterval, strategy.maxInterval, strategy.multiplier, outcomes);
            |resets| <= |outcomes| && resets == all[..|resets|] &&
            (!panicked <==> strategy.baseInterval > 0 && forall i :: 0 <= i < |all| ==> all[i] > 0) &&
            (!panicked ==> |resets| == |outcomes|)
  {
    var initial := strategy.NextInterval(true);
    resets, panicked := [], false;
    ghost var all := Intervals(strategy.baseInterval, strategy.maxInterval, strategy.multiplier, outcomes);
    if initial <= 0 {
      panicked := true;
      return;
    }
    for i := 0 to |outcomes|
      invariant strategy.currentBackoff == FailureRun(outcomes[..i])
      invariant resets == all[..i] && forall j :: 0 <= j < i ==> all[j] > 0
    {
      assert outcomes[..i + 1][..i] == outcomes[..i];
      var next := strategy.NextInterval(outcomes[i]);
      assert next == all[i];
      if next <= 0 {
        panicked := true;
        return;
      }
      resets := resets + [next];
    }
  }

  /**
   The code's interval is the clamped exact value precisely while the exact value is in range,
   and it never exceeds the maximum after a failure.
   */
  lemma {:induction false} BackoffIsIdeal(base: int64, max: int64, m: real, k: nat)
    requires base > 0 && max > 0 && m > 1.0
    ensures BackoffInterval(base, max, m, k) as int == IdealInterval(base, max, m, k) <==>
            k == 0 || Grown(base, m, k) < TWO_63
    ensures k > 0 ==> BackoffInterval(base, max, m, k) <= max
  {
    if k > 0 {
      GrownPositive(base, m, k);
      if Grown(base, m, k) < TWO_63 { FloorBound(Grown(base, m, k)); }
    }
  }

  lemma GrownPositive(base: int64, m: real, k: nat)
    requires base > 0 && m > 1.0 && k > 0
    ensures Grown(base, m, k) >= 1.0 && Grown(base, m, k).Floor >= 1
  {
    Bernoulli(m, k - 1);
    MulAtLeast(base as real, 1.0, Pow(m, k - 1));
    FloorMonotone(1.0, Grown(base, m, k));
  }

  lemma GrownMonotone(base: int64, m: real, j: nat, k: nat)
    requires base >= 0 && m > 1.0 && 0 < j <= k
    ensures Grown(base, m, j) <= Grown(base, m, k)
  {
    PowMonotone(m, j - 1, k - 1);
    MulAtLeast(base as real, Pow(m, j - 1), Pow(m, k - 1));
  }

  /** More failures never give a shorter ideal interval. */
  lemma {:induction false} IdealMonotone(base: int64, max: int64, m: real, j: nat, k: nat)
    requires base >= 0 && m > 1.0 && 0 < j <= k
    ensures IdealInterval(base, max, m, j) <= IdealInterval(base, max, m, k)
  {
    GrownMonotone(base, m, j, k);
    FloorMonotone(Grown(base, m, j), Grown(base, m, k));
  }

  lemma Multiple(d: real, bound: real) returns (n: nat)
    requires d > 0.0 && bound >= 0.0
    ensures n as real * d >= bound
  {
    n := (bound / d).Floor + 1;
    MulAtLeast(d, bound / d, n as real);
    assert d * (bound / d) == bound;
  }

  /** Any bound is passed after finitely many failures, and for good. */
  lemma GrowsPast(base: int64, m: real, bound: nat) returns (count: nat)
    requires base > 0 && m > 1.0
    ensures count > 0 && forall k :: k >= count ==> Grown(base, m, k) >= bound as real
  {
    var n := Multiple(m - 1.0, bound as real);
    Bernoulli(m, n);
    count := n + 1;
    MulAtLeast(Pow(m, n), 1.0, base as real);
    assert Grown(base, m, count) >= bound as real;
    forall k | k >= count
      ensures Grown(base, m, k) >= bound as real
    {
      GrownMonotone(base, m, count, k);
    }
  }

  /** The ideal interval reaches the maximum and stays there. */
  lemma {:induction false} IdealReachesMax(base: int64, max: int64, m: real) returns (count: nat)
    requires base > 0 && max > 0 && m > 1.0
    ensures count > 0 && forall k :: k >= count ==> IdealInterval(base, max, m, k) == max as int
  {
    count := GrowsPast(base, m, max);
    forall k | k >= count
      ensures IdealInterval(base, max, m, k) == max as int
    {
      FloorMonotone(max as real, Grown(base, m, k));
      assert (max as real).Floor == max as int;
    }
  }

  /** With positive base and maximum, an interval is positive exactly while the exact value is below 2^63. */
  lemma {:induction false} PositiveExactly(base: int64, max: int64, m: real, k: nat)
    requires base > 0 && max > 0 && m > 1.0 && k > 0
    ensures BackoffInterval(base, max, m, k) > 0 <==> Grown(base, m, k) < TWO_63
  {
    GrownPositive(base, m, k);
  }

  /** The count of failures at which the interval stops being positive: it exists, and from it on no interval is. */
  lemma {:induction false} OverflowCount(base: int64, max: int64, m: real) returns (count: nat)
    requires base > 0 && max > 0 && m > 1.0
    ensures count > 0
    ensures forall k :: k > 0 ==> (BackoffInterval(base, max, m, k) > 0 <==> k < count)
  {
    var limit: nat := 9223372036854775808;
    assert limit as real == TWO_63;
    var past := GrowsPast(base, m, limit);
    count := past;
    while count > 1 && Grown(base, m, count - 1) >= TWO_63
      invariant count > 0 && Grown(base, m, count) >= TWO_63
    {
      count := count - 1;
    }
    forall k | k > 0
      ensures BackoffInterval(base, max, m, k) > 0 <==> k < count
    {
      PositiveExactly(base, max, m, k);
      if k < count {
        GrownMonotone(base, m, k, count - 1);
      } else {
        GrownMonotone(base, m, count, k);
      }
    }
  }

  /**
   With the default configuration of 30s, 300s and factor 2, the thirtieth failure in a row is the first to
   break the ticker.
   */
  lemma {:induction false} DefaultsOverflow(k: nat)
    requires k > 0
    ensures BackoffInterval(30_000_000_000, 300_000_000_000, 2.0, k) > 0 <==> k < 30
  {
    var base: int64, max: int64 := 30_000_000_000, 300_000_000_000;
    assert Pow(2.0, 1) == 2.0 * Pow(2.0, 0) == 2.0;
    PowAdd(2.0, 1, 1);
    PowAdd(2.0, 2, 2);
    PowAdd(2.0, 4, 3);
    PowAdd(2.0, 2, 1);
    PowAdd(2.0, 7, 7);
    PowAdd(2.0, 14, 14);
    PowAdd(2.0, 28, 1);
    assert Pow(2.0, 28) == 268435456.0;
    assert Grown(base, 2.0, 29) < TWO_63 <= Grown(base, 2.0, 30);
    PositiveExactly(base, max, 2.0, k);
    if k < 30 { GrownMonotone(base, 2.0, k, 29); } else { GrownMonotone(base, 2.0, 30, k); }
  }

  /** So with the defaults the loop survives a history exactly when it never has thirty failures in a row. */
  lemma {:induction false} DefaultsSurvive(outcomes: seq<bool>)
    ensures var all := Intervals(30_000_000_000, 300_000_000_000, 2.0, outcomes);
            (forall i :: 0 <= i < |all| ==> all[i] > 0) <==>
            (forall i :: 0 <= i < |outcomes| ==> RunAt(outcomes, i) < 30)
  {
    hide Pow, Grown;
    var all := Intervals(30_000_000_000, 300_000_000_000, 2.0, outcomes);
    forall i | 0 <= i < |outcomes|
      ensures all[i] > 0 <==> RunAt(outcomes, i) < 30
    {
      if RunAt(outcomes, i) > 0 { DefaultsOverflow(RunAt(outcomes, i)); }
    }
  }

  // ---- the adaptive strategy -------------------------------------------------------------

  datatype Limits = Limits(min: int64, max: int64, idle: int64)

  datatype Pace = Pace(workDetected: nat, noWork: nat, interval: int64)

  const SLOW := 5
  const FAST := 2

  /** One and a half times the interval, at most the maximum. */
  function Slower(l: Limits, d: int64): int64 {
    var next := ToDuration(d as real * 1.5);
    if next > l.max then l.max else next
  }

  ghost predicate Sane(l: Limits) {
    0 < l.min <= l.max && l.idle > 0
  }

  function NextPace(l: Limits, p: Pace, hasWork: bool): Pace {
    if hasWork then
      Pace(p.workDetected + 1, 0, if p.workDetected + 1 >= FAST then l.min else p.interval)
    else
      var n := p.noWork + 1;
      var slowed := if n >= SLOW && p.interval < l.max then Slower(l, p.interval) else p.interval;
      Pace(0, n, if n >= SLOW * 3 then l.idle else slowed)
  }

  class AdaptiveStrategy {
    const limits: Limits
    var workDetectedCount: nat
    var noWorkCount: nat
    var currentInterval: int64

    ghost function State(): Pace
      reads this
    {
      Pace(workDetectedCount, noWorkCount, currentInterval)
    }

    constructor (limits: Limits)
      ensures this.limits == limits && State() == Pace(0, 0, limits.min)
    {
      this.limits := limits;
      workDetectedCount, noWorkCount, currentInterval := 0, 0, limits.min;
    }

    method NextInterval(hasWork: bool) returns (d: int64)
      modifies this
      ensures State() == NextPace(limits, old(State()), hasWork) && d == currentInterval
    {
      if hasWork {
        workDetectedCount := workDetectedCount + 1;
        noWorkCount := 0;
        if workDetectedCount >= FAST {
          currentInterval := limits.min;
        }
      } else {
        noWorkCount := noWorkCount + 1;
        workDetectedCount := 0;
        if noWorkCount >= SLOW {
          if currentInterval < limits.max {
            currentInterval := ToDuration(currentInterval as real * 1.5);
            if currentInterval > limits.max {
              currentInterval := limits.max;
            }
          }
          if noWorkCount >= SLOW * 3 {
            currentInterval := limits.idle;
          }
        }
      }
      d := currentInterval;
    }

    method Reset()
      modifies this
      ensures State() == Pace(0, 0, limits.min)
    {
      workDetectedCount, noWorkCount, currentInterval := 0, 0, limits.min;
    }
  }

  function Bottom(l: Limits): int64 { if l.min < l.idle then l.min else l.idle }

  function Top(l: Limits): int64 { if l.max > l.idle then l.max else l.idle }

  /** The pace after a history of calls from a reset. */
  function PaceAfter(l: Limits, calls: seq<bool>): Pace {
    if calls == [] then Pace(0, 0, l.min)
    else NextPace(l, PaceAfter(l, calls[..|calls| - 1]), calls[|calls| - 1])
  }

  lemma PaceStep(l: Limits, calls: seq<bool>, hasWork: bool)
    ensures PaceAfter(l, calls + [hasWork]) == NextPace(l, PaceAfter(l, calls), hasWork)
  {
    assert (calls + [hasWork])[..|calls|] == calls;
  }

  /** `k` slowing steps from `d`, stopping at the maximum. */
  function Slowed(l: Limits, d: int64, k: nat): int64 {
    if k == 0 then d
    else
      var before := Slowed(l, d, k - 1);
      if before < l.max then Slower(l, before) else before
  }

  /** The next slowing step leaves the 64-bit range before it is clamped. */
  predicate Overflows(l: Limits, d: int64) {
    d < l.max && d as real * 1.5 >= TWO_63
  }

  /** No number of slowing steps from the minimum or the idle interval leaves the range. */
  ghost predicate StaysInRange(l: Limits) {
    forall k: nat :: !Overflows(l, Slowed(l, l.min, k)) && !Overflows(l, Slowed(l, l.idle, k))
  }

  /** More slowing steps than it takes any interval to reach the maximum, the range or a standstill. */
  const STEPS := 187

  /** What a caller can check: none of that many slowing steps leaves the range. */
  predicate StepsStayInRange(l: Limits) {
    forall k: nat :: k < STEPS ==> !Overflows(l, Slowed(l, l.min, k)) && !Overflows(l, Slowed(l, l.idle, k))
  }

  lemma SlowerBounds(l: Limits, d: int64)
    requires Sane(l) && 0 < d < l.max
    ensures Overflows(l, d) ==> Slower(l, d) < 0
    ensures !Overflows(l, d) ==> d <= Slower(l, d) <= l.max
  {
    FloorMonotone(d as real, d as real * 1.5);
    assert (d as real).Floor == d as int;
  }

  /** The interval is always some number of slowing steps away from the minimum or the idle interval. */
  lemma {:induction false} ReachedBySlowing(l: Limits, calls: seq<bool>) returns (fromIdle: bool, k: nat)
    ensures PaceAfter(l, calls).interval == Slowed(l, if fromIdle then l.idle else l.min, k)
  {
    if calls == [] {
      fromIdle, k := false, 0;
    } else {
      fromIdle, k := ReachedBySlowing(l, calls[..|calls| - 1]);
      var before, now := PaceAfter(l, calls[..|calls| - 1]), PaceAfter(l, calls);
      if calls[|calls| - 1] && now.workDetected >= FAST {
        fromIdle, k := false, 0;
      } else if now.noWork >= SLOW * 3 {
        fromIdle, k := true, 0;
      } else if now.noWork >= SLOW && before.interval < l.max {
        k := k + 1;
      }
    }
  }

  lemma {:induction false} SlowedBounds(l: Limits, d: int64, k: nat)
    requires Sane(l) && d > 0
    requires forall j: nat :: j < k ==> !Overflows(l, Slowed(l, d, j))
    ensures d <= Slowed(l, d, k) <= if d > l.max then d else l.max
  {
    if k > 0 {
      SlowedBounds(l, d, k - 1);
      if Slowed(l, d, k - 1) < l.max { SlowerBounds(l, Slowed(l, d, k - 1)); }
    }
  }

  /** One call with work, then five without. */
  const SLOW_ROUND: seq<bool> := [true, false, false, false, false, false]

  /** From any pace that did not end in work, the round makes exactly one slowing step. */
  lemma OneSlowRound(l: Limits, calls: seq<bool>)
    requires PaceAfter(l, calls).workDetected == 0
    ensures PaceAfter(l, calls + SLOW_ROUND) == Pace(0, 5, Slowed(l, PaceAfter(l, calls).interval, 1))
  {
    hide PaceAfter;
    hide Slower;
    var p := PaceAfter(l, calls);
    PaceStep(l, calls, true);
    var c1 := calls + [true];
    assert PaceAfter(l, c1) == Pace(1, 0, p.interval);
    PaceStep(l, c1, false);
    var c2 := c1 + [false];
    PaceStep(l, c2, false);
    var c3 := c2 + [false];
    PaceStep(l, c3, false);
    var c4 := c3 + [false];
    PaceStep(l, c4, false);
    var c5 := c4 + [false];
    assert PaceAfter(l, c5) == Pace(0, 4, p.interval);
    PaceStep(l, c5, false);
    assert calls + SLOW_ROUND == c5 + [false];
    assert Slowed(l, p.interval, 0) == p.interval;
  }

  lemma {:induction false} SlowedFromNext(l: Limits, d: int64, k: nat)
    ensures Slowed(l, Slowed(l, d, 1), k) == Slowed(l, d, k + 1)
  {
    hide Slower;
    if k > 0 { SlowedFromNext(l, d, k - 1); }
  }

  /** Any number of slowing steps can be reached. */
  lemma {:induction false} SlowingReached(l: Limits, calls: seq<bool>, k: nat) returns (longer: seq<bool>)
    requires PaceAfter(l, calls).workDetected == 0
    ensures PaceAfter(l, longer).interval == Slowed(l, PaceAfter(l, calls).interval, k)
    ensures PaceAfter(l, longer).workDetected == 0
    decreases k
  {
    if k == 0 {
      longer := calls;
    } else {
      OneSlowRound(l, calls);
      longer := SlowingReached(l, calls + SLOW_ROUND, k - 1);
      SlowedFromNext(l, PaceAfter(l, calls).interval, k - 1);
    }
  }

  // ---- how many steps there are to check -----------------------------------------------

  function PowerOfTwo(i: nat): nat {
    if i == 0 then 1 else 2 * PowerOfTwo(i - 1)
  }

  lemma {:induction false} PowerSum(i: nat, j: nat)
    ensures PowerOfTwo(i + j) == PowerOfTwo(i) * PowerOfTwo(j)
  {
    if i > 0 {
      PowerSum(i - 1, j);
      assert i + j - 1 == i - 1 + j;
    }
  }

  lemma {:induction false} PowerOfRange()
    ensures PowerOfTwo(63) == 9223372036854775808
  {
    assert PowerOfTwo(1) == 2 * PowerOfTwo(0) == 2;
    PowerSum(1, 1);
    PowerSum(2, 1);
    PowerSum(3, 4);
    PowerSum(2, 2);
    PowerSum(7, 7);
    PowerSum(14, 7);
    PowerSum(21, 21);
    PowerSum(42, 21);
    assert PowerOfTwo(7) == 128 && PowerOfTwo(14) == 16384 && PowerOfTwo(21) == 2097152;
  }

  /** A step that is neither out of range nor clamped adds half, rounded down. */
  lemma {:induction false} StepAddsHalf(l: Limits, d: int64)
    requires 0 < d && !Overflows(l, d) && d < l.max && Slower(l, d) < l.max
    ensures Slower(l, d) as int == d + d / 2
  {
    var x := d as real * 1.5;
    var half := d / 2;
    assert d == 2 * half || d == 2 * half + 1;
    assert (d + half) as real <= x < (d + half + 1) as real;
    FloorIs(x, d + half);
  }

  lemma {:induction false} FloorIs(x: real, n: int)
    requires n as real <= x < (n + 1) as real
    ensures x.Floor == n
  {
    assert x.Floor as real <= x < (x.Floor + 1) as real;
  }

  /** From two on, three such steps at least double. */
  lemma {:induction false} ThreeStepsDouble(l: Limits, d: int64, k: nat)
    requires Slowed(l, d, k) >= 2
    requires forall j: nat :: k <= j <= k + 3 ==> Slowed(l, d, j) < l.max
    requires forall j: nat :: k <= j < k + 3 ==> !Overflows(l, Slowed(l, d, j))
    ensures Slowed(l, d, k + 3) >= 2 * Slowed(l, d, k)
  {
    hide Slower;
    hide Overflows;
    var a := Slowed(l, d, k);
    NextStep(l, d, k);
    NextStep(l, d, k + 1);
    NextStep(l, d, k + 2);
    var b, c := a + a / 2, Slowed(l, d, k + 2) as int;
    assert Slowed(l, d, k + 1) as int == b && c == b + b / 2;
    assert Slowed(l, d, k + 3) as int == c + c / 2;
  }

  lemma {:induction false} NextStep(l: Limits, d: int64, k: nat)
    requires 0 < Slowed(l, d, k) < l.max && Slowed(l, d, k + 1) < l.max && !Overflows(l, Slowed(l, d, k))
    ensures Slowed(l, d, k + 1) as int == Slowed(l, d, k) + Slowed(l, d, k) / 2
  {
    StepAddsHalf(l, Slowed(l, d, k));
  }

  lemma {:induction false} Doubling(l: Limits, d: int64, i: nat)
    requires d >= 2
    requires forall j: nat :: j <= 3 * i ==> Slowed(l, d, j) < l.max && !Overflows(l, Slowed(l, d, j))
    ensures Slowed(l, d, 3 * i) as int >= PowerOfTwo(i + 1)
  {
    hide Slower;
    hide Overflows;
    if i == 0 {
      assert Slowed(l, d, 0) == d && PowerOfTwo(1) == 2 * PowerOfTwo(0);
    } else {
      Doubling(l, d, i - 1);
      PowerAtLeastTwo(i - 1);
      ThreeStepsDouble(l, d, 3 * (i - 1));
      assert 3 * (i - 1) + 3 == 3 * i;
    }
  }

  lemma {:induction false} PowerAtLeastTwo(i: nat)
    ensures PowerOfTwo(i + 1) >= 2
  {
    if i > 0 { PowerAtLeastTwo(i - 1); }
  }

  /** A standstill: one nanosecond does not grow, and the maximum is not passed. */
  lemma {:induction false} Standstill(l: Limits, d: int64, k: nat, j: nat)
    requires k <= j && (Slowed(l, d, k) == 1 || Slowed(l, d, k) >= l.max) && l.max >= 1
    ensures Slowed(l, d, j) == Slowed(l, d, k)
  {
    if k < j {
      Standstill(l, d, k, j - 1);
      if Slowed(l, d, k) == 1 && 1 < l.max {
        FloorIs(1 as real * 1.5, 1);
      }
    }
  }

  /** If a step overflows at all, one of the first steps does. */
  lemma {:induction false} OverflowIsEarly(l: Limits, d: int64, k: nat)
    requires Sane(l) && d > 0 && Overflows(l, Slowed(l, d, k))
    ensures exists j: nat :: j < STEPS && Overflows(l, Slowed(l, d, j))
  {
    if k >= STEPS && forall j: nat :: j < STEPS ==> !Overflows(l, Slowed(l, d, j)) {
      forall j: nat | j <= 186
        ensures Slowed(l, d, j) < l.max
      {
        if Slowed(l, d, j) >= l.max { Standstill(l, d, j, k); }
      }
      if d == 1 {
        assert Slowed(l, d, 0) == 1;
        Standstill(l, d, 0, k);
      } else {
        Doubling(l, d, 62);
        PowerOfRange();
        assert false;
      }
    }
  }

  /** Checking that many steps is checking all. */
  lemma {:induction false} RangeIsCheckable(l: Limits)
    requires Sane(l)
    ensures StaysInRange(l) <==> StepsStayInRange(l)
  {
    hide Slowed;
    hide Overflows;
    if !StaysInRange(l) {
      var k: nat :| Overflows(l, Slowed(l, l.min, k)) || Overflows(l, Slowed(l, l.idle, k));
      if Overflows(l, Slowed(l, l.min, k)) { OverflowIsEarly(l, l.min, k); } else { OverflowIsEarly(l, l.idle, k); }
    }
  }

  /**
   Every interval of every history lies between the smaller of min and idle and the larger of
   max and idle, exactly when none of the first slowing steps from min and from idle leaves the
   64-bit range.
   */
  lemma {:induction false} BoundsExactly(l: Limits)
    requires Sane(l)
    ensures (forall calls :: Bottom(l) <= PaceAfter(l, calls).interval <= Top(l)) <==> StepsStayInRange(l)
  {
    hide PaceAfter, Slower;
    hide StepsStayInRange;
    RangeIsCheckable(l);
    if StaysInRange(l) {
      forall calls
        ensures Bottom(l) <= PaceAfter(l, calls).interval <= Top(l)
      {
        var fromIdle, k := ReachedBySlowing(l, calls);
        SlowedBounds(l, if fromIdle then l.idle else l.min, k);
      }
    } else {
      var k: nat :| Overflows(l, Slowed(l, l.min, k)) || Overflows(l, Slowed(l, l.idle, k));
      if Overflows(l, Slowed(l, l.min, k)) {
        IdleRun(l, 0);
        assert Idle(0) == [];
        LeavesBounds(l, [], k);
      } else {
        IdleRun(l, 15);
        LeavesBounds(l, Idle(15), k);
      }
    }
  }

  lemma LeavesBounds(l: Limits, calls: seq<bool>, k: nat)
    requires Sane(l) && PaceAfter(l, calls).workDetected == 0
    requires Overflows(l, Slowed(l, PaceAfter(l, calls).interval, k))
    ensures exists longer :: PaceAfter(l, longer).interval < Bottom(l)
  {
    hide PaceAfter, Slower;
    var d := Slowed(l, PaceAfter(l, calls).interval, k);
    assert d > 0;
    var longer := SlowingReached(l, calls, k + 1);
    SlowerBounds(l, d);
    assert PaceAfter(l, longer).interval < Bottom(l);
  }

  /** A maximum below two thirds of the range is always safe. */
  lemma {:induction false} ShortMaximumIsSafe(l: Limits)
    requires l.max as real * 1.5 <= TWO_63
    ensures StaysInRange(l)
  {
  }

  /**
   The condition is needed: a minimum of about 222 years under a longer maximum overflows at the first
   slowing step.
   */
  lemma {:induction false} LongMaximumOverflows(idle: int64)
    ensures !StaysInRange(Limits(7_000_000_000_000_000_000, 9_000_000_000_000_000_000, idle))
  {
    var l := Limits(7_000_000_000_000_000_000, 9_000_000_000_000_000_000, idle);
    assert Overflows(l, Slowed(l, l.min, 0));
  }

  function Idle(k: nat): seq<bool> {
    seq(k, _ => false)
  }

  lemma {:induction false} SlowedStays(l: Limits, d: int64, k: nat)
    requires d >= l.max
    ensures Slowed(l, d, k) == d
  {
    if k > 0 { SlowedStays(l, d, k - 1); }
  }

  /** From a reset, `k` calls without work: the minimum, then slowing steps, then idle for good. */
  lemma {:induction false} IdleRun(l: Limits, k: nat)
    ensures PaceAfter(l, Idle(k)) ==
            Pace(0, k, if k < 5 then l.min else if k < 15 then Slowed(l, l.min, k - 4) else l.idle)
  {
    if k > 0 {
      IdleRun(l, k - 1);
      assert Idle(k)[..k - 1] == Idle(k - 1);
      assert !Idle(k)[k - 1];
      assert Slowed(l, l.min, 0) == l.min;
    }
  }

  /**
   The same after any history that ends in work: `k` calls without work keep the interval, then slow down from it,
   then idle for good.
   */
  lemma {:induction false} QuietAfterWork(l: Limits, calls: seq<bool>, k: nat)
    ensures var d := PaceAfter(l, calls + [true]).interval;
            PaceAfter(l, calls + [true] + Idle(k)).interval ==
              (if k < 5 then d else if k < 15 then Slowed(l, d, k - 4) else l.idle) &&
            PaceAfter(l, calls + [true] + Idle(k)).noWork == k
  {
    var before := calls + [true];
    PaceStep(l, calls, true);
    if k == 0 {
      assert before + Idle(0) == before;
    } else {
      QuietAfterWork(l, calls, k - 1);
      PaceStep(l, before + Idle(k - 1), false);
      assert before + Idle(k) == before + Idle(k - 1) + [false];
      assert Slowed(l, PaceAfter(l, before).interval, 0) == PaceAfter(l, before).interval;
    }
  }

  /** After any quiet history a single call with work leaves the interval alone. */
  lemma {:induction false} OneWorkKeepsInterval(l: Limits, calls: seq<bool>)
    requires calls == [] || !calls[|calls| - 1]
    ensures PaceAfter(l, calls + [true]).interval == PaceAfter(l, calls).interval
  {
    hide Slower;
    PaceStep(l, calls, true);
  }

  /** After any history, two calls with work in a row restore the minimum. */
  lemma {:induction false} TwoWorksRestoreMin(l: Limits, calls: seq<bool>)
    requires |calls| >= 2 && calls[|calls| - 1] && calls[|calls| - 2]
    ensures PaceAfter(l, calls).interval == l.min
  {
    var init := calls[..|calls| - 1];
    assert init[|init| - 1];
    assert PaceAfter(l, init).workDetected >= 1;
  }
}
