/**
 `GatewayManager._breaker_for` and `execute` of app/services/gateway_manager.py: every
 provider operation runs under retry, and the retried call as a whole under the
 provider's circuit breaker.
 */
module Gateway {
  import opened CircuitBreaking
  import opened Retry
  import Enums

  type ProviderName = Enums.ProviderName

  datatype Settings = Settings(maxRetries: int, failureThreshold: int, resetSeconds: real)

  function BreakerConfig(s: Settings): Config {
    Config(s.failureThreshold, s.resetSeconds)
  }

  /** `RetryPolicy(max_attempts=provider_max_retries)` with its default delays. */
  function RetryPolicyOf(s: Settings): Policy {
    Policy(s.maxRetries, 0.2, 5.0, 2.0)
  }

  /** `retry_on=(ProviderUnavailableError,)`, its subclass included. */
  const RETRY_ON: set<Failure> := {ProviderUnavailable, CircuitOpen}

  /** Transport faults are normalised to ProviderUnavailable. */
  function Guarded<T>(op: nat -> Outcome<T>): nat -> Outcome<T> {
    (k: nat) => if op(k).Threw? && op(k).error.TransportFault? then Threw(ProviderUnavailable) else op(k)
  }

  datatype Retried<+T> = Retried(result: Outcome<T>, invocations: nat)

  function WithRetry<T>(s: Settings, op: nat -> Outcome<T>): Retried<T> {
    if s.maxRetries < 1 then Retried(Threw(AssertionFailed), 0)
    else
      var n := Stop(Guarded(op), RETRY_ON, s.maxRetries, 1);
      Retried(Guarded(op)(n), n)
  }

  /** How the breaker classifies the end of a retried call: `ignored_exceptions=(ProviderError,)`. */
  function EndingOf<T>(result: Outcome<T>): Ending {
    if result.Returned? then Succeeded
    else if result.error.ProviderError? then Ignored
    else if result.error.Interrupt? then Cancelled
    else Failed
  }

  /** One execute: the clock before and after the retried call, and what each provider
      invocation would do. */
  datatype Exec<!T> = Exec(begin: real, end: real, op: nat -> Outcome<T>)

  /** What the breaker sees of an execute it admits. */
  datatype Attempt = Attempt(begin: real, end: real, ending: Ending, invocations: nat)

  function AttemptOf<T>(s: Settings, x: Exec<T>): Attempt {
    var r := WithRetry(s, x.op);
    Attempt(x.begin, x.end, EndingOf(r.result), r.invocations)
  }

  predicate Admits(s: Settings, b: Breaker, a: Attempt) {
    !Refuses(BreakerConfig(s), b, a.begin)
  }

  function Advance(s: Settings, b: Breaker, a: Attempt): Breaker {
    if Admits(s, b, a)
    then OnOutcome(BreakerConfig(s), BeforeCall(BreakerConfig(s), b, a.begin), a.ending, a.end)
    else b
  }

  /** The reply of `execute`: the retried call's, or CircuitOpen without any invocation. */
  function Reply<T>(s: Settings, b: Breaker, x: Exec<T>): Retried<T> {
    if Admits(s, b, AttemptOf(s, x)) then WithRetry(s, x.op) else Retried(Threw(CircuitOpen), 0)
  }

  function BreakerOf(views: map<ProviderName, Breaker>, p: ProviderName): Breaker {
    if p in views then views[p] else FRESH
  }

  /** `breaker.call(with_retry)`: the retried operation between the two critical sections. */
  method GuardedCall<T>(s: Settings, breaker: CircuitBreaker, x: Exec<T>, draw: nat -> real)
    returns (result: Outcome<T>, invocations: nat, sleeps: seq<real>)
    requires breaker.cfg == BreakerConfig(s)
    modifies breaker
    ensures breaker.View() == Advance(s, old(breaker.View()), AttemptOf(s, x))
    ensures Retried(result, invocations) == Reply(s, old(breaker.View()), x)
    ensures |sleeps| == if invocations == 0 then 0 else invocations - 1
    ensures forall k :: 0 <= k < |sleeps| ==> sleeps[k] == DelayFor(RetryPolicyOf(s), k + 1, draw(k + 1))
  {
    var admitted := breaker.Enter(x.begin);
    if !admitted {
      return Threw(CircuitOpen), 0, [];
    }
    result, invocations, sleeps := RetryAsync(Guarded(x.op), RetryPolicyOf(s), RETRY_ON, draw);
    if s.maxRetries >= 1 {
      StopIsUnique(Guarded(x.op), RETRY_ON, s.maxRetries, invocations);
    }
    breaker.Leave(EndingOf(result), x.end);
  }

  /** The `outcome` variable, reassigned by the handlers that see the exception. */
  method OutcomeTag<T>(result: Outcome<T>) returns (tag: string)
    ensures tag in {"success", "declined", "error"}
    ensures tag == "declined" <==> result.Threw? && result.error.ProviderError?
    ensures tag == "error" <==> result.Threw? && result.error !in {ProviderError, Interrupt}
  {
    tag := "success";
    if result.Threw? && result.error.ProviderError? {
      tag := "declined";
    } else if result.Threw? && !result.error.Interrupt? {
      tag := "error";
    }
  }

  lemma UpdatedTwice<K, V>(m: map<K, V>, k: K, v: V, w: V)
    ensures m[k := v][k := w] == m[k := w]
  {
  }

  class GatewayManager {
    const settings: Settings
    var breakers: map<ProviderName, CircuitBreaker>

    constructor (settings: Settings)
      ensures Valid() && this.settings == settings && breakers == map[]
    {
      this.settings := settings;
      breakers := map[];
    }

    ghost predicate Valid()
      reads this, breakers.Values
    {
      && (forall p :: p in breakers ==> breakers[p].cfg == BreakerConfig(settings))
      && (forall p, q :: p in breakers && q in breakers && p != q ==> breakers[p] != breakers[q])
    }

    ghost function Views(): map<ProviderName, Breaker>
      reads this, breakers.Values
    {
      map p | p in breakers :: breakers[p].View()
    }

    method BreakerFor(provider: ProviderName) returns (breaker: CircuitBreaker)
      requires Valid()
      modifies this`breakers
      ensures Valid()
      ensures provider in breakers && breaker == breakers[provider]
      ensures breaker !in old(breakers.Values) ==> fresh(breaker)
      ensures breakers == old(breakers)[provider := breaker]
      ensures provider in old(breakers) ==> breaker == old(breakers)[provider]
      ensures breaker.View() == old(BreakerOf(Views(), provider))
      ensures Views() == old(Views())[provider := breaker.View()]
    {
      if provider in breakers {
        breaker := breakers[provider];
      } else {
        breaker := new CircuitBreaker(BreakerConfig(settings));
        breakers := breakers[provider := breaker];
      }
    }

    /** A guarded call moves the entry of its own provider only. */
    method CallThrough<T>(provider: ProviderName, breaker: CircuitBreaker, x: Exec<T>, draw: nat -> real)
      returns (result: Outcome<T>, invocations: nat)
      requires Valid() && provider in breakers && breaker == breakers[provider]
      modifies breaker
      ensures Valid()
      ensures Views() == old(Views())[provider := Advance(settings, old(breaker.View()), AttemptOf(settings, x))]
      ensures Retried(result, invocations) == Reply(settings, old(breaker.View()), x)
    {
      var sleeps;
      result, invocations, sleeps := GuardedCall(settings, breaker, x, draw);
    }

    /** The provider's breaker moves as one step of the breaker value, every other breaker
        is untouched, and the reply is that of the retried operation unless refused. */
    method Run<T>(provider: ProviderName, x: Exec<T>, draw: nat -> real)
      returns (result: Outcome<T>, invocations: nat, tag: string)
      requires Valid()
      modifies this`breakers, breakers.Values
      ensures Valid()
      ensures
        var before := old(BreakerOf(Views(), provider));
        && Views() == old(Views())[provider := Advance(settings, before, AttemptOf(settings, x))]
        && Retried(result, invocations) == Reply(settings, before, x)
      ensures tag in {"success", "declined", "error"}
      ensures tag == "declined" <==> result.Threw? && result.error.ProviderError?
      ensures tag == "error" <==> result.Threw? && result.error !in {ProviderError, Interrupt}
    {
      ghost var views := Views();
      var breaker := BreakerFor(provider);
      UpdatedTwice(views, provider, breaker.View(), Advance(settings, breaker.View(), AttemptOf(settings, x)));
      result, invocations := CallThrough(provider, breaker, x, draw);
      tag := OutcomeTag(result);
    }
  }

  // ---------------------------------------------------------------- providers are isolated

  datatype Call = Call(provider: ProviderName, attempt: Attempt)

  function After(s: Settings, xs: seq<Attempt>): Breaker {
    if xs == [] then FRESH else Advance(s, After(s, xs[..|xs| - 1]), xs[|xs| - 1])
  }

  function AfterAll(s: Settings, cs: seq<Call>): map<ProviderName, Breaker> {
    if cs == [] then map[]
    else
      var views, c := AfterAll(s, cs[..|cs| - 1]), cs[|cs| - 1];
      views[c.provider := Advance(s, BreakerOf(views, c.provider), c.attempt)]
  }

  function Only(cs: seq<Call>, p: ProviderName): seq<Attempt> {
    if cs == [] then []
    else
      var front, c := Only(cs[..|cs| - 1], p), cs[|cs| - 1];
      if c.provider == p then front + [c.attempt] else front
  }

  /** Whatever the other providers go through, a provider's breaker is where its own
      executes alone would have left it. */
  lemma {:induction false} ProvidersAreIsolated(s: Settings, cs: seq<Call>, p: ProviderName)
    ensures BreakerOf(AfterAll(s, cs), p) == After(s, Only(cs, p))
  {
    if cs == [] {
    } else {
      var front := cs[..|cs| - 1];
      ProvidersAreIsolated(s, front, p);
      if cs[|cs| - 1].provider == p {
        assert Only(cs, p)[..|Only(front, p)|] == Only(front, p);
      }
    }
  }

  // ---------------------------------------------------------------- executes are breaker runs

  /** Executes one at a time: each ends before the next begins. */
  ghost predicate Serial(xs: seq<Attempt>) {
    && (forall i :: 0 <= i < |xs| ==> xs[i].begin <= xs[i].end)
    && (forall i, j :: 0 <= i < j < |xs| ==> xs[i].end <= xs[j].begin)
  }

  /** The critical sections the executes run through. */
  function Trace(s: Settings, xs: seq<Attempt>): seq<Event> {
    if xs == [] then []
    else
      var front, x, call := xs[..|xs| - 1], xs[|xs| - 1], |xs| - 1;
      var begun := Trace(s, front) + [Begin(call, x.begin)];
      if Admits(s, After(s, front), x) then begun + [Finish(call, x.ending, x.end)] else begun
  }

  ghost predicate Within(es: seq<Event>, calls: nat, until: real) {
    forall i :: 0 <= i < |es| ==> es[i].call < calls && es[i].at <= until
  }

  lemma {:induction false} TraceWithin(s: Settings, xs: seq<Attempt>)
    requires Serial(xs)
    ensures Within(Trace(s, xs), |xs|, if xs == [] then 0.0 else xs[|xs| - 1].end)
  {
    if xs == [] {
    } else {
      TraceWithin(s, xs[..|xs| - 1]);
    }
  }

  /** Executes run one at a time are one legal interleaving of the breaker, so everything
      proved of its runs holds of them. */
  lemma {:induction false} ExecutesAreARun(s: Settings, xs: seq<Attempt>)
    requires Serial(xs)
    ensures After(s, xs) == CircuitBreaking.Run(BreakerConfig(s), Trace(s, xs))
    ensures Legal(BreakerConfig(s), Trace(s, xs))
  {
    if xs == [] {
    } else {
      var front, x := xs[..|xs| - 1], xs[|xs| - 1];
      ExecutesAreARun(s, front);
      TraceWithin(s, front);
      ExtendByExecute(BreakerConfig(s), Trace(s, front), |front|, x);
    }
  }

  lemma {:induction false} ExtendByExecute(cfg: Config, tr: seq<Event>, call: CallId, x: Attempt)
    requires Legal(cfg, tr) && Within(tr, call, x.begin) && x.begin <= x.end
    ensures
      var b, begun := CircuitBreaking.Run(cfg, tr), tr + [Begin(call, x.begin)];
      var es := begun + [Finish(call, x.ending, x.end)];
      && Legal(cfg, begun)
      && CircuitBreaking.Run(cfg, begun) == BeforeCall(cfg, b, x.begin)
      && CircuitBreaking.Run(cfg, es) == OnOutcome(cfg, BeforeCall(cfg, b, x.begin), x.ending, x.end)
      && (!Refuses(cfg, b, x.begin) ==> Legal(cfg, es))
  {
    var e, f := Begin(call, x.begin), Finish(call, x.ending, x.end);
    var begun := tr + [e];
    assert begun[..|tr|] == tr;
    LegalExtends(cfg, tr, e, tr);
    assert (begun + [f])[..|begun|] == begun;
    if !Refuses(cfg, CircuitBreaking.Run(cfg, tr), x.begin) {
      LegalExtends(cfg, begun, f, begun);
    }
  }

  // ---------------------------------------------------------------- an outage

  /** Every invocation fails with a transport fault or an unavailable provider. */
  ghost predicate Down<T>(op: nat -> Outcome<T>) {
    forall k: nat :: op(k).Threw? && op(k).error in {TransportFault, ProviderUnavailable, CircuitOpen}
  }

  /** An admitted execute that never reached a working provider. */
  predicate Lost(s: Settings, a: Attempt) {
    a.ending.Failed? && a.invocations == s.maxRetries
  }

  /** While the provider is down, every admitted execute spends all its attempts and counts
      as one failure. */
  lemma DownUsesAllAttempts<T>(s: Settings, x: Exec<T>)
    requires s.maxRetries >= 1 && Down(x.op)
    ensures Lost(s, AttemptOf(s, x))
  {
    var n := Stop(Guarded(x.op), RETRY_ON, s.maxRetries, 1);
    assert x.op(n).Threw?;
    assert !Settles(Guarded(x.op), RETRY_ON, n);
  }

  function Admitted(s: Settings, xs: seq<Attempt>): seq<Attempt> {
    if xs == [] then []
    else
      var front, x := xs[..|xs| - 1], xs[|xs| - 1];
      if Admits(s, After(s, front), x) then Admitted(s, front) + [x] else Admitted(s, front)
  }

  function Invocations(s: Settings, xs: seq<Attempt>): nat {
    if xs == [] then 0
    else
      var front, x := xs[..|xs| - 1], xs[|xs| - 1];
      Invocations(s, front) + if Admits(s, After(s, front), x) then x.invocations else 0
  }

  ghost predicate Outage(s: Settings, xs: seq<Attempt>) {
    Serial(xs) && forall i :: 0 <= i < |xs| ==> Lost(s, xs[i])
  }

  lemma OneMore(a: int, n: nat)
    ensures a * (n + 1) == a * n + a
  {
  }

  lemma OnePeriodMore(n: nat, period: real)
    ensures (n + 1) as real * period == n as real * period + period
  {
  }

  lemma {:induction false} OutageState(s: Settings, xs: seq<Attempt>)
    requires Outage(s, xs)
    ensures
      var adm, n, b := Admitted(s, xs), Threshold(BreakerConfig(s)), After(s, xs);
      && b.failures == |adm|
      && (b.state == if |adm| < n then Closed else Open)
      && (|adm| >= n ==> b.openedAt == adm[|adm| - 1].end)
  {
    if xs == [] {
    } else {
      OutageState(s, xs[..|xs| - 1]);
    }
  }

  lemma {:induction false} AdmittedAreExecutes(s: Settings, xs: seq<Attempt>)
    ensures forall k :: 0 <= k < |Admitted(s, xs)| ==> Admitted(s, xs)[k] in xs
  {
    if xs == [] {
    } else {
      AdmittedAreExecutes(s, xs[..|xs| - 1]);
    }
  }

  /** Once the threshold is reached, each further admitted execute starts a full cool-off
      after the previous admitted one ended. */
  lemma {:induction false} NoneDuringCoolOff(s: Settings, xs: seq<Attempt>, k: nat)
    requires Outage(s, xs)
    requires Threshold(BreakerConfig(s)) <= k < |Admitted(s, xs)|
    ensures Admitted(s, xs)[k].begin >= Admitted(s, xs)[k - 1].end + s.resetSeconds
  {
    var front := xs[..|xs| - 1];
    OutageState(s, front);
    if k < |Admitted(s, front)| {
      NoneDuringCoolOff(s, front, k);
    }
  }

  /** When the breaker first opened: the end of the threshold-th admitted execute. */
  function FirstOpen(s: Settings, xs: seq<Attempt>): real
    requires |Admitted(s, xs)| >= Threshold(BreakerConfig(s))
  {
    Admitted(s, xs)[Threshold(BreakerConfig(s)) - 1].end
  }

  /** The start of the n-th period after `first`. */
  function Due(first: real, n: nat, period: real): real {
    if n == 0 then first else Due(first, n - 1, period) + period
  }

  lemma {:induction false} DueIsLinear(first: real, n: nat, period: real)
    ensures Due(first, n, period) == first + n as real * period
  {
    if n == 0 {
    } else {
      DueIsLinear(first, n - 1, period);
      OnePeriodMore(n - 1, period);
    }
  }

  lemma {:induction false} SpacingAddsUp(s: Settings, xs: seq<Attempt>, extra: nat)
    requires Outage(s, xs)
    requires Threshold(BreakerConfig(s)) + extra <= |Admitted(s, xs)|
    ensures
      var last := Admitted(s, xs)[Threshold(BreakerConfig(s)) - 1 + extra];
      && last.end >= Due(FirstOpen(s, xs), extra, s.resetSeconds)
      && (extra > 0 ==> last.begin >= Due(FirstOpen(s, xs), extra, s.resetSeconds))
  {
    if extra == 0 {
    } else {
      var k := Threshold(BreakerConfig(s)) - 1 + extra;
      SpacingAddsUp(s, xs, extra - 1);
      NoneDuringCoolOff(s, xs, k);
      AdmittedAreExecutes(s, xs);
      var last := Admitted(s, xs)[k];
      assert last in xs && last.begin <= last.end;
    }
  }

  /** In an outage observed up to `now`, at most threshold plus one execute per elapsed
      cool-off reaches the provider. */
  lemma {:induction false} OutageBound(s: Settings, xs: seq<Attempt>, now: real)
    requires s.resetSeconds > 0.0
    requires Outage(s, xs)
    requires forall i :: 0 <= i < |xs| ==> xs[i].begin <= now
    requires |Admitted(s, xs)| >= Threshold(BreakerConfig(s)) && FirstOpen(s, xs) <= now
    ensures |Admitted(s, xs)| <= Threshold(BreakerConfig(s)) + ((now - FirstOpen(s, xs)) / s.resetSeconds).Floor
  {
    var adm, n := Admitted(s, xs), Threshold(BreakerConfig(s));
    SpacingAddsUp(s, xs, |adm| - n);
    AdmittedAreExecutes(s, xs);
    assert adm[|adm| - 1] in xs;
    PeriodsElapsed(FirstOpen(s, xs), |adm| - n, s.resetSeconds, now);
  }

  /** Each of them invokes the provider exactly `maxRetries` times. */
  lemma {:induction false} OutageInvocations(s: Settings, xs: seq<Attempt>)
    requires Outage(s, xs)
    ensures Invocations(s, xs) == s.maxRetries * |Admitted(s, xs)|
  {
    if xs == [] {
    } else {
      var front := xs[..|xs| - 1];
      OutageInvocations(s, front);
      assert Lost(s, xs[|xs| - 1]);
      OneMore(s.maxRetries, |Admitted(s, front)|);
    }
  }

  /** The attempts of a sequence of executes. */
  function Attempts<T>(s: Settings, xs: seq<Exec<T>>): (attempts: seq<Attempt>)
    ensures |attempts| == |xs| && forall i :: 0 <= i < |xs| ==> attempts[i] == AttemptOf(s, xs[i])
  {
    if xs == [] then [] else Attempts(s, xs[..|xs| - 1]) + [AttemptOf(s, xs[|xs| - 1])]
  }

  /** Full cool-offs that have passed by `now` since the breaker first opened. */
  function CoolOffs(s: Settings, xs: seq<Attempt>, now: real): int
    requires s.resetSeconds > 0.0
  {
    if |Admitted(s, xs)| >= Threshold(BreakerConfig(s)) && FirstOpen(s, xs) <= now
    then ((now - FirstOpen(s, xs)) / s.resetSeconds).Floor
    else 0
  }

  /** Until the first opening, only the executes that cause it are admitted. */
  lemma {:induction false} NoneBeforeFirstOpening(s: Settings, xs: seq<Attempt>, now: real)
    requires s.resetSeconds > 0.0
    requires Outage(s, xs)
    requires forall i :: 0 <= i < |xs| ==> xs[i].begin <= now
    requires |Admitted(s, xs)| >= Threshold(BreakerConfig(s)) && FirstOpen(s, xs) > now
    ensures |Admitted(s, xs)| == Threshold(BreakerConfig(s))
  {
    var adm, n := Admitted(s, xs), Threshold(BreakerConfig(s));
    if |adm| > n {
      NoneDuringCoolOff(s, xs, n);
      AdmittedAreExecutes(s, xs);
    }
  }

  /** While a provider is down, executes run one at a time invoke it `maxRetries` times each
      when admitted, and by any time at most `maxRetries * (threshold + elapsed cool-offs since
      the first opening)` times; before that opening exactly the threshold is admitted. */
  lemma {:induction false} OutageOfExecutes<T>(s: Settings, xs: seq<Exec<T>>, now: real)
    requires s.maxRetries >= 1 && s.resetSeconds > 0.0
    requires forall i :: 0 <= i < |xs| ==> Down(xs[i].op) && xs[i].begin <= now
    requires Serial(Attempts(s, xs))
    ensures
      var attempts, n := Attempts(s, xs), Threshold(BreakerConfig(s));
      && Invocations(s, attempts) == s.maxRetries * |Admitted(s, attempts)|
      && Invocations(s, attempts) <= s.maxRetries * (n + CoolOffs(s, attempts, now))
      && (|Admitted(s, attempts)| >= n && FirstOpen(s, attempts) > now ==> |Admitted(s, attempts)| == n)
  {
    var attempts, n := Attempts(s, xs), Threshold(BreakerConfig(s));
    forall i | 0 <= i < |attempts|
      ensures Lost(s, attempts[i])
    {
      DownUsesAllAttempts(s, xs[i]);
    }
    OutageInvocations(s, attempts);
    if |Admitted(s, attempts)| >= n {
      if FirstOpen(s, attempts) <= now {
        OutageBound(s, attempts, now);
      } else {
        NoneBeforeFirstOpening(s, attempts, now);
      }
    }
    TimesOrder(s.maxRetries, |Admitted(s, attempts)|, n + CoolOffs(s, attempts, now));
  }

  lemma TimesOrder(a: nat, x: int, y: int)
    requires x <= y
    ensures a * x <= a * y
  {
  }

  lemma {:induction false} PeriodsElapsed(first: real, n: nat, period: real, now: real)
    requires period > 0.0 && first <= now && now >= Due(first, n, period)
    ensures n <= ((now - first) / period).Floor
  {
    DueIsLinear(first, n, period);
    FloorBound(n, now - first, period);
  }

  lemma {:induction false} FloorBound(n: nat, elapsed: real, period: real)
    requires period > 0.0 && elapsed >= n as real * period
    ensures n <= (elapsed / period).Floor
  {
    assert n as real * period / period == n as real;
    assert elapsed / period >= n as real;
  }
}
