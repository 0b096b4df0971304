/**
 The circuit breaker of app/core/resilience.py.

 A breaker guards any number of concurrent calls. Each call runs up to two critical
 sections under the breaker's lock: one before the guarded function starts and one
 after it ended. Between them anything may happen, so a run of the breaker is a
 sequence of such sections, tagged with the call they belong to.
 */
module CircuitBreaking {
  datatype CircuitState = Closed | Open | HalfOpen

  datatype Config = Config(failureThreshold: int, resetTimeout: real)

  /** The fields `_state`, `_failures` and `_opened_at`. */
  datatype Breaker = Breaker(state: CircuitState, failures: int, openedAt: real)

  const FRESH := Breaker(Closed, 0, 0.0)

  // ---------------------------------------------------------------- critical sections

  predicate Refuses(cfg: Config, b: Breaker, now: real) {
    b.state.Open? && !(now - b.openedAt >= cfg.resetTimeout)
  }

  function BeforeCall(cfg: Config, b: Breaker, now: real): Breaker {
    if b.state.Open? && now - b.openedAt >= cfg.resetTimeout then b.(state := HalfOpen) else b
  }

  function OnSuccess(b: Breaker): Breaker {
    b.(failures := 0, state := Closed)
  }

  function OnFailure(cfg: Config, b: Breaker, now: real): Breaker {
    var counted := b.(failures := b.failures + 1);
    if counted.state.HalfOpen? || counted.failures >= cfg.failureThreshold
    then counted.(state := Open, openedAt := now)
    else counted
  }

  /** How the guarded function ended. `Ignored` is a business error listed in
      `ignored_exceptions`; `Cancelled` is a BaseException, which no handler catches. */
  datatype Ending = Succeeded | Failed | Ignored | Cancelled

  function OnOutcome(cfg: Config, b: Breaker, outcome: Ending, now: real): Breaker {
    match outcome
    case Succeeded => OnSuccess(b)
    case Failed => OnFailure(cfg, b, now)
    case Ignored => b
    case Cancelled => b
  }

  class CircuitBreaker {
    const cfg: Config
    var state: CircuitState
    var failures: int
    var openedAt: real

    constructor (cfg: Config)
      ensures this.cfg == cfg && View() == FRESH
    {
      this.cfg := cfg;
      state, failures, openedAt := Closed, 0, 0.0;
    }

    function View(): Breaker
      reads this
    {
      Breaker(state, failures, openedAt)
    }

    /** Returns false where the source raises CircuitOpenError. */
    method Enter(now: real) returns (admitted: bool)
      modifies this
      ensures admitted == !Refuses(cfg, old(View()), now)
      ensures View() == BeforeCall(cfg, old(View()), now)
      ensures !admitted ==> View() == old(View())
    {
      if state.Open? {
        if now - openedAt >= cfg.resetTimeout {
          state := HalfOpen;
        } else {
          return false;
        }
      }
      return true;
    }

    method Leave(outcome: Ending, now: real)
      modifies this
      ensures View() == OnOutcome(cfg, old(View()), outcome, now)
    {
      if outcome.Succeeded? {
        failures := 0;
        state := Closed;
      } else if outcome.Failed? {
        failures := failures + 1;
        if state.HalfOpen? || failures >= cfg.failureThreshold {
          state := Open;
          openedAt := now;
        }
      }
    }
  }

  // ---------------------------------------------------------------- runs

  type CallId = nat

  datatype Event =
    | Begin(call: CallId, at: real)
    | Finish(call: CallId, outcome: Ending, at: real)

  function Step(cfg: Config, b: Breaker, e: Event): Breaker {
    match e
    case Begin(_, at) => BeforeCall(cfg, b, at)
    case Finish(_, outcome, at) => OnOutcome(cfg, b, outcome, at)
  }

  function Run(cfg: Config, es: seq<Event>): Breaker {
    if es == [] then FRESH else Step(cfg, Run(cfg, es[..|es| - 1]), es[|es| - 1])
  }

  ghost predicate MonotoneClock(es: seq<Event>) {
    forall i, j :: 0 <= i < j < |es| ==> es[i].at <= es[j].at
  }

  /** The calls that were admitted and have not ended yet. */
  function InFlight(cfg: Config, es: seq<Event>): set<CallId> {
    if es == [] then {}
    else
      var front, e := es[..|es| - 1], es[|es| - 1];
      Flying(InFlight(cfg, front), e, Refuses(cfg, Run(cfg, front), e.at))
  }

  function Flying(calls: set<CallId>, e: Event, refused: bool): set<CallId> {
    if e.Finish? then calls - {e.call} else if refused then calls else calls + {e.call}
  }

  /** An interleaving of whole calls: every call begins once, and only a call in flight ends. */
  ghost predicate Legal(cfg: Config, es: seq<Event>) {
    && MonotoneClock(es)
    && (forall i, j :: 0 <= i < j < |es| && es[i].Begin? && es[j].Begin? ==> es[i].call != es[j].call)
    && (forall i :: 0 <= i < |es| && es[i].Finish? ==> es[i].call in InFlight(cfg, es[..i]))
  }

  // ---------------------------------------------------------------- the history a client can see

  /** A completed call the breaker counts: a success or a provider failure. */
  datatype Completion = Completion(success: bool, at: real)

  predicate Counted(e: Event) {
    e.Finish? && (e.outcome.Succeeded? || e.outcome.Failed?)
  }

  function Log(es: seq<Event>): seq<Completion> {
    if es == [] then []
    else
      var log := Log(es[..|es| - 1]);
      var e := es[|es| - 1];
      if Counted(e) then log + [Completion(e.outcome.Succeeded?, e.at)] else log
  }

  /** A configured threshold below one behaves like one: the first failure opens. */
  function Threshold(cfg: Config): (n: nat)
    ensures n >= 1
  {
    if cfg.failureThreshold < 1 then 1 else cfg.failureThreshold
  }

  /** The last `Threshold(cfg)` counted calls all failed, the latest less than
      `resetTimeout` ago. No breaker state is mentioned. */
  ghost predicate InOutage(cfg: Config, log: seq<Completion>, now: real) {
    && Threshold(cfg) <= |log|
    && (forall k :: |log| - Threshold(cfg) <= k < |log| ==> !log[k].success)
    && now < log[|log| - 1].at + cfg.resetTimeout
  }

  function TrailingFailures(log: seq<Completion>): nat {
    if log == [] || log[|log| - 1].success then 0 else 1 + TrailingFailures(log[..|log| - 1])
  }

  lemma {:induction false} TrailingFailuresAreASuffix(log: seq<Completion>, n: nat)
    ensures TrailingFailures(log) <= |log|
    ensures n <= TrailingFailures(log) <==> n <= |log| && forall k :: |log| - n <= k < |log| ==> !log[k].success
  {
    if log == [] {
    } else {
      var front := log[..|log| - 1];
      if log[|log| - 1].success {
        if 0 < n <= |log| {
          assert log[|log| - 1].success;
        }
      } else if n > 0 {
        TrailingFailuresAreASuffix(front, n - 1);
        assert forall k :: 0 <= k < |front| ==> front[k] == log[k];
      } else {
        TrailingFailuresAreASuffix(front, 0);
      }
    }
  }

  // ---------------------------------------------------------------- the breaker refines its history

  ghost predicate Tracks(cfg: Config, b: Breaker, log: seq<Completion>, now: real) {
    && b.failures == TrailingFailures(log)
    && (b.state.Closed? <==> b.failures < Threshold(cfg))
    && (!b.state.Closed? ==> |log| > 0 && !log[|log| - 1].success && b.openedAt == log[|log| - 1].at)
    && (b.state.HalfOpen? ==> b.openedAt + cfg.resetTimeout <= now)
  }

  lemma TracksSuccess(cfg: Config, b: Breaker, log: seq<Completion>, at: real, now: real)
    requires Tracks(cfg, b, log, at) && at <= now
    ensures Tracks(cfg, OnSuccess(b), log + [Completion(true, at)], now)
  {
  }

  lemma TracksFailure(cfg: Config, b: Breaker, log: seq<Completion>, at: real, now: real)
    requires Tracks(cfg, b, log, at) && at <= now
    ensures Tracks(cfg, OnFailure(cfg, b, at), log + [Completion(false, at)], now)
  {
    assert (log + [Completion(false, at)])[..|log|] == log;
  }

  lemma TracksOther(cfg: Config, b: Breaker, log: seq<Completion>, e: Event, now: real)
    requires Tracks(cfg, b, log, e.at) && e.at <= now && !Counted(e)
    ensures Tracks(cfg, Step(cfg, b, e), log, now)
  {
  }

  /** After any interleaving, at any later time: CLOSED iff the failures since the last
      success stay below the threshold, otherwise `_opened_at` is the time of the last
      counted failure, and HALF_OPEN only after the cool-off. */
  lemma {:induction false} BreakerTracksHistory(cfg: Config, es: seq<Event>, now: real)
    requires MonotoneClock(es)
    requires es != [] ==> es[|es| - 1].at <= now
    ensures Tracks(cfg, Run(cfg, es), Log(es), now)
  {
    if es == [] {
    } else {
      var front, e := es[..|es| - 1], es[|es| - 1];
      BreakerTracksHistory(cfg, front, e.at);
      if !Counted(e) {
        TracksOther(cfg, Run(cfg, front), Log(front), e, now);
      } else if e.outcome.Succeeded? {
        TracksSuccess(cfg, Run(cfg, front), Log(front), e.at, now);
      } else {
        TracksFailure(cfg, Run(cfg, front), Log(front), e.at, now);
      }
    }
  }

  /** A call is refused exactly when the history it can see is an outage. */
  lemma {:induction false} RefusalIsOutage(cfg: Config, es: seq<Event>, i: nat)
    requires MonotoneClock(es)
    requires i < |es| && es[i].Begin?
    ensures Refuses(cfg, Run(cfg, es[..i]), es[i].at) <==> InOutage(cfg, Log(es[..i]), es[i].at)
  {
    BreakerTracksHistory(cfg, es[..i], es[i].at);
    TrailingFailuresAreASuffix(Log(es[..i]), Threshold(cfg));
  }

  // ---------------------------------------------------------------- erasing calls that do not count

  datatype Decision = Decision(call: CallId, admitted: bool)

  function Decisions(cfg: Config, es: seq<Event>): seq<Decision> {
    if es == [] then []
    else
      var front, e := es[..|es| - 1], es[|es| - 1];
      if e.Begin?
      then Decisions(cfg, front) + [Decision(e.call, !Refuses(cfg, Run(cfg, front), e.at))]
      else Decisions(cfg, front)
  }

  function Erase(es: seq<Event>, dead: set<CallId>): seq<Event> {
    if es == [] then []
    else
      var r := Erase(es[..|es| - 1], dead);
      if es[|es| - 1].call in dead then r else r + [es[|es| - 1]]
  }

  function Without(ds: seq<Decision>, dead: set<CallId>): seq<Decision> {
    if ds == [] then []
    else
      var r := Without(ds[..|ds| - 1], dead);
      if ds[|ds| - 1].call in dead then r else r + [ds[|ds| - 1]]
  }

  /** No call in `dead` ever counted: each was declined, cancelled, refused or is still running. */
  ghost predicate NeverCounted(es: seq<Event>, dead: set<CallId>) {
    forall i :: 0 <= i < |es| && es[i].call in dead ==> !Counted(es[i])
  }

  lemma {:induction false} EraseKeepsEvents(es: seq<Event>, dead: set<CallId>, now: real)
    requires MonotoneClock(es) && forall i :: 0 <= i < |es| ==> es[i].at <= now
    ensures MonotoneClock(Erase(es, dead))
    ensures forall i :: 0 <= i < |Erase(es, dead)| ==> Erase(es, dead)[i].at <= now
    ensures forall e :: e in Erase(es, dead) ==> e in es
  {
    if es == [] {
    } else {
      EraseKeepsEvents(es[..|es| - 1], dead, es[|es| - 1].at);
    }
  }

  lemma {:induction false} EraseKeepsLog(es: seq<Event>, dead: set<CallId>)
    requires NeverCounted(es, dead)
    ensures Log(Erase(es, dead)) == Log(es)
  {
    if es == [] {
    } else {
      var front, e := es[..|es| - 1], es[|es| - 1];
      EraseKeepsLog(front, dead);
      var r := Erase(front, dead);
      if e.call !in dead {
        assert (r + [e])[..|r|] == r;
      }
    }
  }

  lemma EraseKeepsClockAndLog(es: seq<Event>, dead: set<CallId>)
    requires MonotoneClock(es) && NeverCounted(es, dead)
    ensures MonotoneClock(Erase(es, dead))
    ensures Log(Erase(es, dead)) == Log(es)
    ensures forall e :: e in Erase(es, dead) ==> e in es
  {
    EraseKeepsEvents(es, dead, if es == [] then 0.0 else es[|es| - 1].at);
    EraseKeepsLog(es, dead);
  }

  /** The decision of one more event, if it asks for one. */
  function Deciding(cfg: Config, es: seq<Event>, e: Event): seq<Decision> {
    if e.Begin? then [Decision(e.call, !Refuses(cfg, Run(cfg, es), e.at))] else []
  }

  lemma DecisionsExtend(cfg: Config, es: seq<Event>, e: Event)
    ensures Decisions(cfg, es + [e]) == Decisions(cfg, es) + Deciding(cfg, es, e)
  {
    assert (es + [e])[..|es|] == es;
  }

  lemma WithoutExtends(ds: seq<Decision>, d: Decision, dead: set<CallId>)
    ensures Without(ds + [d], dead) == Without(ds, dead) + if d.call in dead then [] else [d]
  {
    assert (ds + [d])[..|ds|] == ds;
  }

  /** Removing (read backwards: inserting) any calls that never count changes no other
      admit-or-refuse decision, wherever they sit in the interleaving. */
  lemma {:induction false} DeclineErasure(cfg: Config, es: seq<Event>, dead: set<CallId>)
    requires MonotoneClock(es) && NeverCounted(es, dead)
    ensures Decisions(cfg, Erase(es, dead)) == Without(Decisions(cfg, es), dead)
  {
    if es == [] {
    } else {
      var front, e := es[..|es| - 1], es[|es| - 1];
      DeclineErasure(cfg, front, dead);
      assert es == front + [e];
      DecisionsExtend(cfg, front, e);
      if e.Begin? {
        WithoutExtends(Decisions(cfg, front), Deciding(cfg, front, e)[0], dead);
      }
      if e.call !in dead {
        DecisionsExtend(cfg, Erase(front, dead), e);
        if e.Begin? {
          SameDecision(cfg, front, e, dead);
        }
      }
    }
  }

  lemma {:induction false} SameDecision(cfg: Config, front: seq<Event>, e: Event, dead: set<CallId>)
    requires MonotoneClock(front + [e]) && NeverCounted(front + [e], dead)
    requires e.Begin? && e.call !in dead
    ensures Refuses(cfg, Run(cfg, Erase(front, dead)), e.at) == Refuses(cfg, Run(cfg, front), e.at)
  {
    var es, r := front + [e], Erase(front, dead);
    assert es[..|front|] == front;
    EraseKeepsClockAndLog(es, dead);
    EraseKeepsClockAndLog(front, dead);
    assert (r + [e])[..|r|] == r;
    RefusalIsOutage(cfg, es, |front|);
    RefusalIsOutage(cfg, r + [e], |r|);
  }

  lemma LegalPrefix(cfg: Config, es: seq<Event>, n: nat)
    requires Legal(cfg, es) && n <= |es|
    ensures Legal(cfg, es[..n])
  {
    forall i | 0 <= i < n && es[i].Finish?
      ensures es[i].call in InFlight(cfg, es[..n][..i])
    {
      assert es[..n][..i] == es[..i];
    }
  }

  lemma InFlightExtends(cfg: Config, es: seq<Event>, e: Event)
    ensures InFlight(cfg, es + [e]) == Flying(InFlight(cfg, es), e, Refuses(cfg, Run(cfg, es), e.at))
  {
    assert (es + [e])[..|es|] == es;
  }

  lemma {:induction false} ErasedInFlight(cfg: Config, es: seq<Event>, dead: set<CallId>)
    requires MonotoneClock(es) && NeverCounted(es, dead)
    ensures InFlight(cfg, Erase(es, dead)) == InFlight(cfg, es) - dead
  {
    if es == [] {
    } else {
      var front, e := es[..|es| - 1], es[|es| - 1];
      ErasedInFlight(cfg, front, dead);
      assert es == front + [e];
      InFlightExtends(cfg, front, e);
      if e.call !in dead {
        InFlightExtends(cfg, Erase(front, dead), e);
        if e.Begin? {
          SameDecision(cfg, front, e, dead);
        }
      }
    }
  }

  /** The erased history is itself an interleaving the breaker can run, with exactly the
      surviving calls in flight. */
  lemma {:induction false} ErasedRunIsLegal(cfg: Config, es: seq<Event>, dead: set<CallId>)
    requires Legal(cfg, es) && NeverCounted(es, dead)
    ensures Legal(cfg, Erase(es, dead))
    ensures InFlight(cfg, Erase(es, dead)) == InFlight(cfg, es) - dead
  {
    ErasedInFlight(cfg, es, dead);
    if es == [] {
    } else {
      var front, e := es[..|es| - 1], es[|es| - 1];
      LegalPrefix(cfg, es, |es| - 1);
      ErasedRunIsLegal(cfg, front, dead);
      if e.call !in dead {
        EraseKeepsClockAndLog(es, dead);
        EraseKeepsClockAndLog(front, dead);
        assert e.Finish? ==> e.call in InFlight(cfg, front);
        LegalExtends(cfg, Erase(front, dead), e, front);
      }
    }
  }

  lemma {:induction false} LegalExtends(cfg: Config, r: seq<Event>, e: Event, front: seq<Event>)
    requires Legal(cfg, r) && MonotoneClock(r + [e])
    requires forall x :: x in r ==> x in front
    requires e.Begin? ==> forall i :: 0 <= i < |front| && front[i].Begin? ==> front[i].call != e.call
    requires e.Finish? ==> e.call in InFlight(cfg, r)
    ensures Legal(cfg, r + [e])
  {
    var es := r + [e];
    forall i | 0 <= i < |es| && es[i].Finish?
      ensures es[i].call in InFlight(cfg, es[..i])
    {
      if i < |r| {
        assert es[..i] == r[..i];
      } else {
        assert es[..i] == r;
      }
    }
    forall i, j | 0 <= i < j < |es| && es[i].Begin? && es[j].Begin?
      ensures es[i].call != es[j].call
    {
      if j == |r| {
        assert r[i] in front;
      }
    }
  }

  // ---------------------------------------------------------------- what the history does not determine

  /** One more event, late enough, of a call that is new or in flight. */
  lemma {:induction false} EventAppended(cfg: Config, es: seq<Event>, e: Event)
    requires Legal(cfg, es) && forall x :: x in es ==> x.at <= e.at
    requires e.Begin? ==> forall x :: x in es ==> x.call != e.call
    requires e.Finish? ==> e.call in InFlight(cfg, es)
    ensures Legal(cfg, es + [e])
    ensures Run(cfg, es + [e]) == Step(cfg, Run(cfg, es), e)
    ensures InFlight(cfg, es + [e]) == Flying(InFlight(cfg, es), e, Refuses(cfg, Run(cfg, es), e.at))
  {
    assert (es + [e])[..|es|] == es;
    LegalExtends(cfg, es, e, es);
  }

  /** One admitted call that begins and ends at time `at`. */
  lemma {:induction false} CallAppended(cfg: Config, es: seq<Event>, call: CallId, outcome: Ending, at: real)
    returns (done: seq<Event>)
    requires Legal(cfg, es) && forall x :: x in es ==> x.at <= at && x.call != call
    requires call !in InFlight(cfg, es) && !Refuses(cfg, Run(cfg, es), at)
    ensures done == es + [Begin(call, at)] + [Finish(call, outcome, at)]
    ensures Legal(cfg, done) && InFlight(cfg, done) == InFlight(cfg, es)
    ensures Run(cfg, done) == OnOutcome(cfg, BeforeCall(cfg, Run(cfg, es), at), outcome, at)
  {
    EventAppended(cfg, es, Begin(call, at));
    EventAppended(cfg, es + [Begin(call, at)], Finish(call, outcome, at));
    done := es + [Begin(call, at)] + [Finish(call, outcome, at)];
  }

  /** `n` calls that begin and fail one after the other at time zero, below or at the threshold. */
  lemma {:induction false} Failures(cfg: Config, n: nat) returns (es: seq<Event>)
    requires n <= Threshold(cfg)
    ensures Legal(cfg, es) && InFlight(cfg, es) == {}
    ensures Run(cfg, es) == Breaker(if n < Threshold(cfg) then Closed else Open, n, 0.0)
    ensures forall x :: x in es ==> x.call < n && x.at == 0.0
  {
    if n == 0 {
      es := [];
    } else {
      var front := Failures(cfg, n - 1);
      es := CallAppended(cfg, front, n - 1, Failed, 0.0);
    }
  }

  /** The earliest time a breaker opened at time zero admits a probe. */
  function CooledOff(cfg: Config): real {
    if cfg.resetTimeout < 0.0 then 0.0 else cfg.resetTimeout
  }

  /** The first probe of a breaker that opened at time zero with nothing in flight. */
  lemma {:induction false} FirstProbe(cfg: Config) returns (es: seq<Event>)
    ensures Legal(cfg, es) && Run(cfg, es).state == HalfOpen && |InFlight(cfg, es)| == 1
    ensures forall x :: x in es ==> x.call <= Threshold(cfg) && x.at <= CooledOff(cfg)
  {
    var failed := Failures(cfg, Threshold(cfg));
    var e := Begin(Threshold(cfg), CooledOff(cfg));
    EventAppended(cfg, failed, e);
    es := failed + [e];
    assert InFlight(cfg, es) == {Threshold(cfg)};
  }

  /** `n + 1` probes begun after the cool-off of an opened breaker, none of them ended. */
  lemma {:induction false} Probes(cfg: Config, n: nat) returns (es: seq<Event>)
    ensures Legal(cfg, es) && Run(cfg, es).state == HalfOpen && |InFlight(cfg, es)| == n + 1
    ensures forall x :: x in es ==> x.call <= Threshold(cfg) + n && x.at <= CooledOff(cfg)
  {
    if n == 0 {
      es := FirstProbe(cfg);
    } else {
      var front := Probes(cfg, n - 1);
      var e := Begin(Threshold(cfg) + n, CooledOff(cfg));
      EventAppended(cfg, front, e);
      HalfOpenStep(cfg, front, e);
      es := front + [e];
      assert |InFlight(cfg, front) + {e.call}| == |InFlight(cfg, front)| + 1;
    }
  }

  /** The documented "single trial call" is not what HALF_OPEN does: every call that begins
      before a probe ends is admitted, so under every configuration any number of probes can
      be in flight. */
  lemma HalfOpenAdmitsAnyNumberOfProbes(cfg: Config, n: nat)
    ensures exists es :: Legal(cfg, es) && Run(cfg, es).state == HalfOpen && |InFlight(cfg, es)| == n + 1
  {
    var es := Probes(cfg, n);
    assert Legal(cfg, es);
  }

  lemma {:induction false} FlyingHasBegun(cfg: Config, es: seq<Event>, call: CallId)
    requires call in InFlight(cfg, es)
    ensures exists i :: 0 <= i < |es| && es[i].Begin? && es[i].call == call
  {
    var front, e := es[..|es| - 1], es[|es| - 1];
    if e.Begin? && e.call == call {
      assert es[|es| - 1].Begin?;
    } else {
      FlyingHasBegun(cfg, front, call);
      var i :| 0 <= i < |front| && front[i].Begin? && front[i].call == call;
      assert es[i] == front[i];
    }
  }

  lemma FlyingIsOld(cfg: Config, es: seq<Event>, more: seq<Event>, e: Event)
    requires Legal(cfg, es + more + [e]) && e.Begin?
    ensures e.call !in InFlight(cfg, es)
  {
    var all := es + more + [e];
    forall i | 0 <= i < |es| && es[i].Begin?
      ensures es[i].call != e.call
    {
      assert all[i] == es[i] && all[|all| - 1] == e;
    }
    if e.call in InFlight(cfg, es) {
      FlyingHasBegun(cfg, es, e.call);
    }
  }

  /** In HALF_OPEN every call that begins is admitted, and only a counted completion ends it. */
  lemma HalfOpenStep(cfg: Config, es: seq<Event>, e: Event)
    requires Run(cfg, es).state.HalfOpen? && Legal(cfg, es + [e]) && !Counted(e)
    ensures Run(cfg, es + [e]) == Run(cfg, es)
    ensures e.Begin? ==> e.call !in InFlight(cfg, es) && InFlight(cfg, es + [e]) == InFlight(cfg, es) + {e.call}
    ensures e.Finish? ==> InFlight(cfg, es + [e]) == InFlight(cfg, es) - {e.call}
  {
    assert (es + [e])[..|es|] == es;
    if e.Begin? {
      assert es + [] + [e] == es + [e];
      FlyingIsOld(cfg, es, [], e);
    }
  }

  function Upto(before: seq<Event>, probe: Event, more: seq<Event>, i: nat): seq<Event>
    requires i <= |more|
  {
    before + [probe] + more[..i]
  }

  /** The calls in flight after `before`, `probe` and part of `more`, apart from those that were in flight
      when the breaker was still open. */
  ghost function ProbesAt(cfg: Config, before: seq<Event>, probe: Event, more: seq<Event>, i: nat): set<CallId>
    requires i <= |more|
  {
    InFlight(cfg, Upto(before, probe, more, i)) - InFlight(cfg, before)
  }

  /** A trial phase: a probe puts the open breaker into HALF_OPEN, and no call of `more`
      succeeds or fails. */
  ghost predicate TrialPhase(cfg: Config, before: seq<Event>, probe: Event, more: seq<Event>) {
    && Legal(cfg, before + [probe] + more)
    && Run(cfg, before).state.Open? && probe.Begin? && !Refuses(cfg, Run(cfg, before), probe.at)
    && forall i :: 0 <= i < |more| ==> !Counted(more[i])
  }

  lemma ProbeIsFirst(cfg: Config, before: seq<Event>, probe: Event, more: seq<Event>)
    requires TrialPhase(cfg, before, probe, more)
    ensures Run(cfg, before + [probe]).state.HalfOpen?
    ensures ProbesAt(cfg, before, probe, more, 0) == {probe.call}
  {
    var es := before + [probe];
    assert es[..|before|] == before;
    assert es + more[..0] == es;
    LegalPrefix(cfg, es + more, |es|);
    assert (es + more)[..|es|] == es;
    assert before + [] + [probe] == es;
    FlyingIsOld(cfg, before, [], probe);
  }

  lemma UptoGrows(before: seq<Event>, probe: Event, more: seq<Event>, i: nat)
    requires i < |more|
    ensures
      var next := Upto(before, probe, more, i + 1);
      && next == Upto(before, probe, more, i) + [more[i]]
      && next == before + ([probe] + more[..i]) + [more[i]]
      && next == (before + [probe] + more)[..|before| + i + 2]
  {
    assert more[..i + 1] == more[..i] + [more[i]];
  }

  lemma {:induction false} UptoNext(cfg: Config, before: seq<Event>, probe: Event, more: seq<Event>, i: nat)
    requires Legal(cfg, before + [probe] + more) && i < |more|
    ensures Upto(before, probe, more, i + 1) == Upto(before, probe, more, i) + [more[i]]
    ensures Legal(cfg, Upto(before, probe, more, i + 1))
    ensures more[i].Begin? ==> more[i].call !in InFlight(cfg, before)
  {
    UptoGrows(before, probe, more, i);
    LegalPrefix(cfg, before + [probe] + more, |before| + i + 2);
    if more[i].Begin? {
      FlyingIsOld(cfg, before, [probe] + more[..i], more[i]);
    }
  }

  lemma {:induction false} TrialStep(cfg: Config, before: seq<Event>, probe: Event, more: seq<Event>, i: nat)
    requires TrialPhase(cfg, before, probe, more) && i < |more|
    requires Run(cfg, Upto(before, probe, more, i)).state.HalfOpen?
    ensures Run(cfg, Upto(before, probe, more, i + 1)).state.HalfOpen?
    ensures more[i].Begin? ==> more[i].call !in ProbesAt(cfg, before, probe, more, i)
    ensures ProbesAt(cfg, before, probe, more, i + 1) ==
            if more[i].Begin? then ProbesAt(cfg, before, probe, more, i) + {more[i].call}
            else ProbesAt(cfg, before, probe, more, i) - {more[i].call}
  {
    var now, e := Upto(before, probe, more, i), more[i];
    UptoNext(cfg, before, probe, more, i);
    HalfOpenStep(cfg, now, e);
  }

  lemma {:induction false} TrialGoesOn(cfg: Config, before: seq<Event>, probe: Event, more: seq<Event>, i: nat)
    requires TrialPhase(cfg, before, probe, more) && i <= |more|
    ensures Run(cfg, Upto(before, probe, more, i)).state.HalfOpen?
  {
    if i == 0 {
      ProbeIsFirst(cfg, before, probe, more);
      assert Upto(before, probe, more, 0) == before + [probe];
    } else {
      TrialGoesOn(cfg, before, probe, more, i - 1);
      TrialStep(cfg, before, probe, more, i - 1);
    }
  }

  /** No call of `more` begins while a probe is in flight. */
  ghost predicate OneAtATime(cfg: Config, before: seq<Event>, probe: Event, more: seq<Event>, n: nat)
    requires n <= |more|
  {
    forall i :: 0 <= i < n && more[i].Begin? ==> ProbesAt(cfg, before, probe, more, i) == {}
  }

  lemma {:induction false} OneAtATimeSuffices(cfg: Config, before: seq<Event>, probe: Event, more: seq<Event>, i: nat)
    requires TrialPhase(cfg, before, probe, more) && i <= |more| && OneAtATime(cfg, before, probe, more, i)
    ensures |ProbesAt(cfg, before, probe, more, i)| <= 1
  {
    if i == 0 {
      ProbeIsFirst(cfg, before, probe, more);
    } else {
      OneAtATimeSuffices(cfg, before, probe, more, i - 1);
      TrialGoesOn(cfg, before, probe, more, i - 1);
      TrialStep(cfg, before, probe, more, i - 1);
      var earlier, now := ProbesAt(cfg, before, probe, more, i - 1), ProbesAt(cfg, before, probe, more, i);
      if more[i - 1].Finish? {
        SmallerSet(now, earlier);
      }
    }
  }

  lemma SmallerSet(a: set<CallId>, b: set<CallId>)
    requires a <= b
    ensures |a| <= |b|
  {
    assert b == a + (b - a);
  }

  lemma {:induction false} SecondProbe(cfg: Config, before: seq<Event>, probe: Event, more: seq<Event>, i: nat)
    requires TrialPhase(cfg, before, probe, more) && i < |more| && more[i].Begin?
    ensures |ProbesAt(cfg, before, probe, more, i + 1)| == |ProbesAt(cfg, before, probe, more, i)| + 1
  {
    TrialGoesOn(cfg, before, probe, more, i);
    TrialStep(cfg, before, probe, more, i);
  }

  /** When HALF_OPEN is the documented single trial: throughout a trial phase at most one probe
      is in flight exactly when no caller begins while one is. The breaker itself prevents no
      second one, since every call that begins is admitted. */
  lemma SingleTrialExactly(cfg: Config, before: seq<Event>, probe: Event, more: seq<Event>)
    requires TrialPhase(cfg, before, probe, more)
    ensures forall i :: 0 <= i < |more| && more[i].Begin? ==>
              !Refuses(cfg, Run(cfg, Upto(before, probe, more, i)), more[i].at)
    ensures (forall i :: 0 <= i <= |more| ==> |ProbesAt(cfg, before, probe, more, i)| <= 1)
            <==> OneAtATime(cfg, before, probe, more, |more|)
  {
    forall i | 0 <= i < |more|
      ensures Run(cfg, Upto(before, probe, more, i)).state.HalfOpen?
    {
      TrialGoesOn(cfg, before, probe, more, i);
    }
    if forall i :: 0 <= i <= |more| ==> |ProbesAt(cfg, before, probe, more, i)| <= 1 {
      forall i | 0 <= i < |more| && more[i].Begin?
        ensures ProbesAt(cfg, before, probe, more, i) == {}
      {
        SecondProbe(cfg, before, probe, more, i);
      }
    }
    if OneAtATime(cfg, before, probe, more, |more|) {
      forall i | 0 <= i <= |more|
        ensures |ProbesAt(cfg, before, probe, more, i)| <= 1
      {
        OneAtATimeSuffices(cfg, before, probe, more, i);
      }
    }
  }

  lemma {:induction false} EraseNothing(es: seq<Event>, dead: set<CallId>)
    requires forall x :: x in es ==> x.call !in dead
    ensures Erase(es, dead) == es
  {
    if es == [] {
    } else {
      EraseNothing(es[..|es| - 1], dead);
    }
  }

  lemma EraseDrops(es: seq<Event>, e: Event, dead: set<CallId>)
    requires e.call in dead
    ensures Erase(es + [e], dead) == Erase(es, dead)
  {
    assert (es + [e])[..|es|] == es;
  }

  /** A declined probe leaves HALF_OPEN behind, its erasure leaves OPEN: under every
      configuration decisions agree although the internal states differ. */
  lemma {:induction false} ErasureChangesInternalState(cfg: Config)
    ensures exists es, dead :: Legal(cfg, es) && NeverCounted(es, dead)
                            && Run(cfg, es).state == HalfOpen && Run(cfg, Erase(es, dead)).state == Open
  {
    var call, at := Threshold(cfg), CooledOff(cfg);
    var failed := Failures(cfg, call);
    var es := CallAppended(cfg, failed, call, Ignored, at);
    ProbeErased(failed, call, at);
    assert NeverCounted(es, {call});
  }

  lemma {:induction false} ProbeErased(failed: seq<Event>, call: CallId, at: real)
    requires forall x :: x in failed ==> x.call != call
    ensures var es := failed + [Begin(call, at)] + [Finish(call, Ignored, at)];
            Erase(es, {call}) == failed && NeverCounted(es, {call})
  {
    EraseNothing(failed, {call});
    EraseDrops(failed, Begin(call, at), {call});
    EraseDrops(failed + [Begin(call, at)], Finish(call, Ignored, at), {call});
  }
}
