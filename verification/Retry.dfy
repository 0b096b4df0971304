/** `RetryPolicy` and `retry_async` of app/core/resilience.py. */
module Retry {
  /** The exception classes that matter to retry, breaker and metrics. `CircuitOpen` is a
      subclass of `ProviderUnavailable`; `Interrupt` is a BaseException that is not an Exception. */
  datatype Failure =
    | TransportFault
    | ProviderUnavailable
    | CircuitOpen
    | ProviderError
    | AssertionFailed
    | OtherException
    | Interrupt

  datatype Outcome<+T> = Returned(value: T) | Threw(error: Failure)

  datatype Policy = Policy(maxAttempts: int, baseDelay: real, maxDelay: real, multiplier: real)

  function Pow(m: real, n: nat): real {
    if n == 0 then 1.0 else m * Pow(m, n - 1)
  }

  function MinReal(a: real, b: real): real {
    if b < a then b else a
  }

  /** The ceiling of the jittered delay after a 1-based attempt. */
  function Ceiling(p: Policy, attempt: nat): real
    requires attempt >= 1
  {
    MinReal(p.maxDelay, p.baseDelay * Pow(p.multiplier, attempt - 1))
  }

  /** `random.uniform(0, ceiling)` for a draw between 0 and 1. */
  function Uniform(ceiling: real, draw: real): (delay: real)
    ensures ceiling >= 0.0 && 0.0 <= draw <= 1.0 ==> 0.0 <= delay <= ceiling
  {
    assert ceiling >= 0.0 && draw <= 1.0 ==> (1.0 - draw) * ceiling >= 0.0;
    draw * ceiling
  }

  function DelayFor(p: Policy, attempt: nat, draw: real): real
    requires attempt >= 1
  {
    Uniform(Ceiling(p, attempt), draw)
  }

  /** Attempt `k` ends the loop on its own: a value, or an error outside `retryOn`. */
  predicate Settles<T>(op: nat -> Outcome<T>, retryOn: set<Failure>, k: nat) {
    op(k).Returned? || op(k).error !in retryOn
  }

  /** `n` invocations of `op` under at most `max` attempts: attempts are retried exactly
      while they throw a retryable error and attempts are left. */
  ghost predicate StopsAt<T>(op: nat -> Outcome<T>, retryOn: set<Failure>, max: nat, n: nat) {
    && 1 <= n <= max
    && (forall k :: 1 <= k < n ==> !Settles(op, retryOn, k))
    && (Settles(op, retryOn, n) || n == max)
  }

  function Stop<T>(op: nat -> Outcome<T>, retryOn: set<Failure>, max: nat, from: nat): (n: nat)
    requires 1 <= from <= max
    requires forall k :: 1 <= k < from ==> !Settles(op, retryOn, k)
    ensures StopsAt(op, retryOn, max, n)
    decreases max - from
  {
    if Settles(op, retryOn, from) || from == max then from else Stop(op, retryOn, max, from + 1)
  }

  /** The number of invocations is determined by the outcomes alone. */
  lemma StopIsUnique<T>(op: nat -> Outcome<T>, retryOn: set<Failure>, max: nat, n: nat)
    requires StopsAt(op, retryOn, max, n)
    ensures n == Stop(op, retryOn, max, 1)
  {
  }

  /**
   `retry_async`: `op(k)` is what the k-th invocation of the function would do, `draw(k)`
   the jitter drawn after it. A policy without attempts fails its assertion.
   */
  method RetryAsync<T>(op: nat -> Outcome<T>, policy: Policy, retryOn: set<Failure>, draw: nat -> real)
    returns (result: Outcome<T>, invocations: nat, sleeps: seq<real>)
    ensures policy.maxAttempts < 1 ==> result == Threw(AssertionFailed) && invocations == 0 && sleeps == []
    ensures policy.maxAttempts >= 1 ==>
              && StopsAt(op, retryOn, policy.maxAttempts, invocations)
              && result == op(invocations)
              && |sleeps| == invocations - 1
    ensures forall k: nat :: 1 <= k < invocations ==> op(k).Threw? && op(k).error in retryOn
    ensures invocations < policy.maxAttempts && result.Threw? ==> result.error !in retryOn
    ensures forall k :: 0 <= k < |sleeps| ==> sleeps[k] == DelayFor(policy, k + 1, draw(k + 1))
  {
    invocations, sleeps := 0, [];
    result := Threw(AssertionFailed);
    var attempt := 1;
    while attempt <= policy.maxAttempts
      invariant invocations == attempt - 1 == |sleeps|
      invariant policy.maxAttempts < 1 ==> result == Threw(AssertionFailed) && attempt == 1
      invariant policy.maxAttempts >= 1 ==> attempt <= policy.maxAttempts
      invariant forall k :: 1 <= k < attempt ==> !Settles(op, retryOn, k)
      invariant forall k: nat :: 1 <= k < attempt ==> op(k).Threw? && op(k).error in retryOn
      invariant forall k :: 0 <= k < |sleeps| ==> sleeps[k] == DelayFor(policy, k + 1, draw(k + 1))
      decreases policy.maxAttempts - attempt
    {
      result := op(attempt);
      invocations := attempt;
      if result.Returned? || result.error !in retryOn {
        return;
      }
      if attempt >= policy.maxAttempts {
        break;
      }
      sleeps := sleeps + [DelayFor(policy, attempt, draw(attempt))];
      attempt := attempt + 1;
    }
  }

  // ---------------------------------------------------------------- delays

  /** The ceiling starts at the base delay and grows by the multiplier until it meets the cap. */
  lemma {:induction false} CeilingGrows(p: Policy, k: nat)
    requires p.multiplier >= 1.0 && p.maxDelay >= 0.0 && k >= 1
    ensures Ceiling(p, 1) == MinReal(p.maxDelay, p.baseDelay)
    ensures Ceiling(p, k + 1) == MinReal(p.maxDelay, p.multiplier * Ceiling(p, k))
  {
    var m, c := p.multiplier, p.baseDelay * Pow(p.multiplier, k - 1);
    assert p.baseDelay * Pow(m, k) == m * c;
    if c > p.maxDelay {
      TimesAtLeast(m, c);
      TimesAtLeast(m, p.maxDelay);
    }
  }

  lemma {:induction false} TimesAtLeast(m: real, x: real)
    requires m >= 1.0 && x >= 0.0
    ensures m * x >= x
  {
    assert (m - 1.0) * x >= 0.0;
  }

  /** Full jitter: the delays that can be drawn are exactly those between zero and the ceiling. */
  lemma {:induction false} DelaysFillTheRange(p: Policy, attempt: nat, delay: real)
    requires p.baseDelay >= 0.0 && p.maxDelay >= 0.0 && p.multiplier >= 0.0 && attempt >= 1
    ensures (exists draw :: 0.0 <= draw <= 1.0 && DelayFor(p, attempt, draw) == delay) <==>
            0.0 <= delay <= Ceiling(p, attempt)
  {
    var c := Ceiling(p, attempt);
    CeilingNonNegative(p, attempt);
    if 0.0 <= delay <= c {
      var draw := if c == 0.0 then 0.0 else delay / c;
      assert draw * c == delay;
      assert DelayFor(p, attempt, draw) == delay;
    }
  }

  // ---------------------------------------------------------------- total sleep

  function Sum(xs: seq<real>): real {
    if xs == [] then 0.0 else Sum(xs[..|xs| - 1]) + xs[|xs| - 1]
  }

  /** The sum of the delay ceilings of attempts 1 to n. */
  function Budget(p: Policy, n: nat): real {
    if n == 0 then 0.0 else Budget(p, n - 1) + Ceiling(p, n)
  }

  ghost predicate Sane(p: Policy) {
    p.baseDelay >= 0.0 && p.maxDelay >= 0.0 && p.multiplier >= 0.0
  }

  lemma {:induction false} PowNonNegative(m: real, n: nat)
    requires m >= 0.0
    ensures Pow(m, n) >= 0.0
  {
    if n == 0 {
    } else {
      PowNonNegative(m, n - 1);
    }
  }

  lemma {:induction false} CeilingNonNegative(p: Policy, k: nat)
    requires Sane(p) && k >= 1
    ensures 0.0 <= Ceiling(p, k) <= p.maxDelay
    ensures Ceiling(p, k) <= p.baseDelay * Pow(p.multiplier, k - 1)
  {
    PowNonNegative(p.multiplier, k - 1);
  }

  lemma {:induction false} BudgetGrows(p: Policy, n: nat, m: nat)
    requires Sane(p) && n <= m
    ensures 0.0 <= Budget(p, n) <= Budget(p, m)
  {
    if m == 0 {
    } else {
      CeilingNonNegative(p, m);
      BudgetGrows(p, if n < m then n else n - 1, m - 1);
    }
  }

  /** `1 + m + ... + m^(n-1)`. */
  function Geometric(m: real, n: nat): real {
    if n == 0 then 0.0 else Geometric(m, n - 1) + Pow(m, n - 1)
  }

  /** The closed form of a geometric sum `g` whose next power is `q`. */
  ghost predicate ClosedForm(m: real, g: real, q: real) {
    g * (m - 1.0) == q - 1.0
  }

  ghost predicate AtMostScaled(x: real, b: real, g: real) {
    x <= b * g
  }

  /** The budget lies below both bounds: linear in the cap, geometric in the multiplier, and
      the geometric sum has its closed form for every multiplier. */
  lemma {:induction false} BudgetClosedBounds(p: Policy, n: nat)
    requires Sane(p)
    ensures AtMostScaled(Budget(p, n), p.maxDelay, n as real)
    ensures AtMostScaled(Budget(p, n), p.baseDelay, Geometric(p.multiplier, n))
    ensures ClosedForm(p.multiplier, Geometric(p.multiplier, n), Pow(p.multiplier, n))
    ensures p.multiplier == 1.0 ==> Geometric(p.multiplier, n) == n as real
  {
    LinearBound(p, n);
    GeometricBound(p, n);
    GeometricClosed(p.multiplier, n);
    if p.multiplier == 1.0 {
      GeometricOfOne(n);
    }
  }

  lemma {:induction false} LinearBound(p: Policy, n: nat)
    requires Sane(p)
    ensures AtMostScaled(Budget(p, n), p.maxDelay, n as real)
  {
    if n == 0 {
    } else {
      LinearBound(p, n - 1);
      CeilingNonNegative(p, n);
      ScaledStep(Budget(p, n - 1), p.maxDelay, (n - 1) as real, Ceiling(p, n), 1.0);
    }
  }

  lemma {:induction false} GeometricBound(p: Policy, n: nat)
    requires Sane(p)
    ensures AtMostScaled(Budget(p, n), p.baseDelay, Geometric(p.multiplier, n))
  {
    if n == 0 {
    } else {
      GeometricBound(p, n - 1);
      CeilingNonNegative(p, n);
      ScaledStep(Budget(p, n - 1), p.baseDelay, Geometric(p.multiplier, n - 1),
                 Ceiling(p, n), Pow(p.multiplier, n - 1));
    }
  }

  lemma {:induction false} ScaledStep(x: real, b: real, g: real, c: real, q: real)
    requires AtMostScaled(x, b, g) && AtMostScaled(c, b, q)
    ensures AtMostScaled(x + c, b, g + q)
  {
    assert b * (g + q) == b * g + b * q;
  }

  lemma {:induction false} GeometricClosed(m: real, n: nat)
    ensures ClosedForm(m, Geometric(m, n), Pow(m, n))
  {
    if n == 0 {
    } else {
      GeometricClosed(m, n - 1);
      TelescopingStep(m, Geometric(m, n - 1), Pow(m, n - 1));
    }
  }

  lemma {:induction false} TelescopingStep(m: real, g: real, q: real)
    requires ClosedForm(m, g, q)
    ensures ClosedForm(m, g + q, m * q)
  {
    assert (g + q) * (m - 1.0) == g * (m - 1.0) + q * (m - 1.0);
    assert q * (m - 1.0) == m * q - q;
  }

  lemma {:induction false} GeometricOfOne(n: nat)
    ensures Geometric(1.0, n) == n as real && Pow(1.0, n) == 1.0
  {
    if n == 0 {
    } else {
      GeometricOfOne(n - 1);
    }
  }

  /** Whatever is drawn, the sleeps of one retried call stay within the budget of all
      attempts but the last. */
  lemma {:induction false} TotalSleepBound(p: Policy, draw: nat -> real, sleeps: seq<real>)
    requires Sane(p)
    requires forall k :: 0.0 <= draw(k) <= 1.0
    requires forall k :: 0 <= k < |sleeps| ==> sleeps[k] == DelayFor(p, k + 1, draw(k + 1))
    requires |sleeps| < p.maxAttempts
    ensures 0.0 <= Sum(sleeps) <= Budget(p, p.maxAttempts - 1)
  {
    forall k | 0 <= k < |sleeps|
      ensures 0.0 <= sleeps[k] <= Ceiling(p, k + 1)
    {
      assert sleeps[k] == DelayFor(p, k + 1, draw(k + 1));
      CeilingNonNegative(p, k + 1);
    }
    SumWithinBudget(p, sleeps);
    BudgetGrows(p, |sleeps|, p.maxAttempts - 1);
  }

  lemma {:induction false} SumWithinBudget(p: Policy, sleeps: seq<real>)
    requires forall k :: 0 <= k < |sleeps| ==> 0.0 <= sleeps[k] <= Ceiling(p, k + 1)
    ensures 0.0 <= Sum(sleeps) <= Budget(p, |sleeps|)
  {
    if sleeps == [] {
    } else {
      SumWithinBudget(p, sleeps[..|sleeps| - 1]);
      assert sleeps[|sleeps| - 1] <= Ceiling(p, |sleeps| - 1 + 1);
    }
  }
}
