/**
 What executes do, said in terms of what the provider's operations return or raise: how often
 they are invoked, what the caller gets, and what the breaker counts. A decline counts for
 nothing; a transient failure counts once it has used up the attempts.
 */
module GatewayOutcomes {
  import opened Common
  import opened CircuitBreaking
  import opened Retry
  import opened Gateway

  /** Worth another attempt: a transport fault or an unavailable provider. */
  predicate Transient<T>(o: Outcome<T>) {
    o.Threw? && o.error in {TransportFault, ProviderUnavailable, CircuitOpen}
  }

  /** The n-th invocation is the last: the first that is not transient, or the last allowed. */
  ghost predicate EndsAt<T>(op: nat -> Outcome<T>, max: int, n: nat) {
    && 1 <= n <= max
    && (forall k: nat :: 1 <= k < n ==> Transient(op(k)))
    && (n == max || !Transient(op(n)))
  }

  lemma TransientIsRetried<T>(op: nat -> Outcome<T>, k: nat)
    ensures Settles(Guarded(op), RETRY_ON, k) <==> !Transient(op(k))
  {
  }

  lemma RetryEndsThere<T>(s: Settings, op: nat -> Outcome<T>, n: nat)
    requires EndsAt(op, s.maxRetries, n)
    ensures
      var transport := op(n).Threw? && op(n).error.TransportFault?;
      WithRetry(s, op) == Retried(if transport then Threw(ProviderUnavailable) else op(n), n)
  {
    forall k: nat
      ensures Settles(Guarded(op), RETRY_ON, k) <==> !Transient(op(k))
    {
      TransientIsRetried(op, k);
    }
    StopIsUnique(Guarded(op), RETRY_ON, s.maxRetries, n);
  }

  // ---------------------------------------------------------------- one execute

  /** What an admitted execute does, whatever the breaker's state: the caller gets the last
      outcome, transport faults normalised; a value closes the breaker, a decline or an
      interrupt only ends the cool-off, and everything else is a failure that opens it when it
      was a probe or the threshold is reached. */
  lemma AdmittedExecute<T>(s: Settings, b: Breaker, x: Exec<T>, n: nat)
    requires EndsAt(x.op, s.maxRetries, n)
    requires !(b.state.Open? && x.begin - b.openedAt < s.resetSeconds)
    ensures
      var o, after := x.op(n), Advance(s, b, AttemptOf(s, x));
      var transport := o.Threw? && o.error.TransportFault?;
      && Reply(s, b, x) == Retried(if transport then Threw(ProviderUnavailable) else o, n)
      && (o.Returned? ==> after == Breaker(Closed, 0, b.openedAt))
      && (o.Threw? && o.error in {ProviderError, Interrupt} ==>
            after == Breaker(if b.state.Closed? then Closed else HalfOpen, b.failures, b.openedAt))
      && (o.Threw? && o.error !in {ProviderError, Interrupt} ==>
            after == if b.state.Closed? && b.failures + 1 < s.failureThreshold
                     then Breaker(Closed, b.failures + 1, b.openedAt)
                     else Breaker(Open, b.failures + 1, x.end))
  {
    RetryEndsThere(s, x.op, n);
  }

  /** During the cool-off nothing is invoked and nothing changes. */
  lemma RefusedExecute<T>(s: Settings, b: Breaker, x: Exec<T>)
    requires b.state.Open? && x.begin - b.openedAt < s.resetSeconds
    ensures Reply(s, b, x) == Retried(Threw(CircuitOpen), 0)
    ensures Advance(s, b, AttemptOf(s, x)) == b
  {
  }

  /** A declined operation is invoked once, the caller is told, and a closed breaker does not
      notice. */
  lemma DeclineIsInvokedOnce<T>(s: Settings, b: Breaker, x: Exec<T>)
    requires s.maxRetries >= 1 && b.state.Closed?
    requires x.op(1).Threw? && x.op(1).error.ProviderError?
    ensures Reply(s, b, x) == Retried(Threw(ProviderError), 1)
    ensures Advance(s, b, AttemptOf(s, x)) == b
  {
    AdmittedExecute(s, b, x, 1);
  }

  // ---------------------------------------------------------------- the history of a run of executes

  /** What the operation comes to when its attempts are made from `from` on: a success, a
      failure, or nothing that counts. */
  function Fate<T>(op: nat -> Outcome<T>, max: int, from: nat): Option<bool>
    requires 1 <= from <= max
    decreases max - from
  {
    if Transient(op(from)) then
      if from == max then Some(false) else Fate(op, max, from + 1)
    else if op(from).Returned? then Some(true)
    else if op(from).error in {ProviderError, Interrupt} then None
    else Some(false)
  }

  /** Without an attempt the retry's assertion fails. */
  function FateOf<T>(s: Settings, x: Exec<T>): Option<bool> {
    if s.maxRetries < 1 then Some(false) else Fate(x.op, s.maxRetries, 1)
  }

  lemma {:induction false} FateEnds<T>(op: nat -> Outcome<T>, max: int, from: nat) returns (n: nat)
    requires 1 <= from <= max && forall k: nat :: 1 <= k < from ==> Transient(op(k))
    ensures EndsAt(op, max, n)
    ensures Fate(op, max, from) ==
            if op(n).Returned? then Some(true)
            else if op(n).error in {ProviderError, Interrupt} then None
            else Some(false)
    decreases max - from
  {
    if Transient(op(from)) && from < max {
      n := FateEnds(op, max, from + 1);
    } else {
      n := from;
    }
  }

  lemma FateIsEnding<T>(s: Settings, x: Exec<T>)
    ensures
      var ending := AttemptOf(s, x).ending;
      && (FateOf(s, x) == Some(true) <==> ending.Succeeded?)
      && (FateOf(s, x) == Some(false) <==> ending.Failed?)
  {
    if s.maxRetries >= 1 {
      var n := FateEnds(x.op, s.maxRetries, 1);
      RetryEndsThere(s, x.op, n);
    }
  }

  /** The completions a client of executes run one at a time can see: an execute that begins in
      an outage is refused and leaves none. Nothing in it mentions a breaker. */
  ghost function History<T>(s: Settings, xs: seq<Exec<T>>): seq<Completion> {
    if xs == [] then []
    else
      var log, x := History(s, xs[..|xs| - 1]), xs[|xs| - 1];
      if InOutage(BreakerConfig(s), log, x.begin) || FateOf(s, x).None? then log
      else log + [Completion(FateOf(s, x).value, x.end)]
  }

  /** Whether the next execute after `xs` reaches the provider. */
  predicate Reaches<T>(s: Settings, xs: seq<Exec<T>>, x: Exec<T>) {
    Admits(s, After(s, Attempts(s, xs)), AttemptOf(s, x))
  }

  lemma SerialFront(xs: seq<Attempt>)
    requires Serial(xs) && xs != []
    ensures Serial(xs[..|xs| - 1])
  {
  }

  /** The log of the breaker's critical sections decides whether the next execute is admitted. */
  lemma {:induction false} AdmissionFollowsLog(s: Settings, xs: seq<Attempt>, x: Attempt)
    requires Serial(xs + [x])
    ensures Admits(s, After(s, xs), x) <==> !InOutage(BreakerConfig(s), Log(Trace(s, xs)), x.begin)
  {
    var cfg, tr := BreakerConfig(s), Trace(s, xs);
    assert (xs + [x])[..|xs|] == xs && (xs + [x])[|xs|] == x;
    SerialFront(xs + [x]);
    ExecutesAreARun(s, xs);
    TraceWithin(s, xs);
    ExtendByExecute(cfg, tr, |xs|, x);
    var begun := tr + [Begin(|xs|, x.begin)];
    assert begun[..|tr|] == tr;
    RefusalIsOutage(cfg, begun, |tr|);
  }

  lemma {:induction false} LogGrows(s: Settings, xs: seq<Attempt>, x: Attempt)
    ensures Log(Trace(s, xs + [x])) ==
            Log(Trace(s, xs)) +
            if Admits(s, After(s, xs), x) && (x.ending.Succeeded? || x.ending.Failed?)
            then [Completion(x.ending.Succeeded?, x.end)] else []
  {
    var tr := Trace(s, xs);
    var begun := tr + [Begin(|xs|, x.begin)];
    assert (xs + [x])[..|xs|] == xs;
    assert begun[..|tr|] == tr && Log(begun) == Log(tr);
    var es := begun + [Finish(|xs|, x.ending, x.end)];
    assert es[..|begun|] == begun;
  }

  lemma {:induction false} AttemptsAppend<T>(s: Settings, xs: seq<Exec<T>>, x: Exec<T>)
    ensures Attempts(s, xs + [x]) == Attempts(s, xs) + [AttemptOf(s, x)]
  {
    assert (xs + [x])[..|xs|] == xs;
  }

  /** Whether an execute reaches the provider is decided by the history alone. */
  lemma {:induction false} ExecutesFollowHistory<T>(s: Settings, xs: seq<Exec<T>>, x: Exec<T>)
    requires Serial(Attempts(s, xs + [x]))
    ensures Log(Trace(s, Attempts(s, xs))) == History(s, xs)
    ensures Reaches(s, xs, x) <==> !InOutage(BreakerConfig(s), History(s, xs), x.begin)
  {
    AttemptsAppend(s, xs, x);
    if xs != [] {
      var front, y := xs[..|xs| - 1], xs[|xs| - 1];
      assert xs == front + [y];
      assert (Attempts(s, xs) + [AttemptOf(s, x)])[..|xs|] == Attempts(s, xs);
      SerialFront(Attempts(s, xs) + [AttemptOf(s, x)]);
      ExecutesFollowHistory(s, front, y);
      AttemptsAppend(s, front, y);
      LogGrows(s, Attempts(s, front), AttemptOf(s, y));
      FateIsEnding(s, y);
    }
    AdmissionFollowsLog(s, Attempts(s, xs), AttemptOf(s, x));
  }

  // ---------------------------------------------------------------- declines can be erased

  /** For each execute of a run, whether it reached the provider. */
  function Reached<T>(s: Settings, xs: seq<Exec<T>>): (rs: seq<bool>)
    ensures |rs| == |xs|
  {
    if xs == [] then []
    else Reached(s, xs[..|xs| - 1]) + [Reaches(s, xs[..|xs| - 1], xs[|xs| - 1])]
  }

  lemma {:induction false} KeptAreOld<T>(xs: seq<Exec<T>>, keep: seq<bool>)
    requires |keep| == |xs|
    ensures forall x :: x in Kept(xs, keep) ==> x in xs
  {
    if xs == [] {
    } else {
      KeptAreOld(xs[..|xs| - 1], keep[..|keep| - 1]);
    }
  }

  lemma {:induction false} KeptAreSerial<T>(s: Settings, xs: seq<Exec<T>>, keep: seq<bool>)
    requires |keep| == |xs| && Serial(Attempts(s, xs))
    ensures Serial(Attempts(s, Kept(xs, keep)))
  {
    if xs == [] {
    } else {
      var front, x, n := xs[..|xs| - 1], xs[|xs| - 1], |xs| - 1;
      var ks := Kept(front, keep[..n]);
      assert xs == front + [x];
      AttemptsAppend(s, front, x);
      SerialFront(Attempts(s, xs));
      KeptAreSerial(s, front, keep[..n]);
      KeptAreOld(front, keep[..n]);
      AttemptsAppend(s, ks, x);
      EndedBefore(s, front, x, ks);
    }
  }

  lemma EndedBefore<T>(s: Settings, front: seq<Exec<T>>, x: Exec<T>, ks: seq<Exec<T>>)
    requires Serial(Attempts(s, front) + [AttemptOf(s, x)])
    requires forall k :: k in ks ==> k in front
    requires Serial(Attempts(s, ks))
    ensures Serial(Attempts(s, ks) + [AttemptOf(s, x)])
  {
    var all := Attempts(s, front) + [AttemptOf(s, x)];
    forall i | 0 <= i < |ks|
      ensures Attempts(s, ks)[i].end <= x.begin
    {
      assert ks[i] in front;
      var j :| 0 <= j < |front| && front[j] == ks[i];
      assert all[j] == AttemptOf(s, front[j]) && all[|front|] == AttemptOf(s, x);
    }
    assert all[|front|].begin <= all[|front|].end;
  }

  lemma {:induction false} ReachedAppends<T>(s: Settings, xs: seq<Exec<T>>, x: Exec<T>)
    ensures Reached(s, xs + [x]) == Reached(s, xs) + [Reaches(s, xs, x)]
    ensures History(s, xs + [x]) ==
            if InOutage(BreakerConfig(s), History(s, xs), x.begin) || FateOf(s, x).None? then History(s, xs)
            else History(s, xs) + [Completion(FateOf(s, x).value, x.end)]
  {
    assert (xs + [x])[..|xs|] == xs;
  }

  /** Leaving out the executes not marked in `keep` changes nothing the others can see. */
  ghost predicate Unnoticed<T>(s: Settings, xs: seq<Exec<T>>, keep: seq<bool>)
    requires |keep| == |xs|
  {
    && History(s, Kept(xs, keep)) == History(s, xs)
    && Reached(s, Kept(xs, keep)) == Kept(Reached(s, xs), keep)
  }

  lemma {:induction false} KeptExecute<T>(s: Settings, xs: seq<Exec<T>>, x: Exec<T>, keep: seq<bool>)
    requires |keep| == |xs| && Unnoticed(s, xs, keep)
    requires Serial(Attempts(s, xs + [x])) && Serial(Attempts(s, Kept(xs, keep) + [x]))
    ensures Unnoticed(s, xs + [x], keep + [true])
  {
    var ks := Kept(xs, keep);
    KeptAppends(xs, x, keep, true);
    KeptAppends(Reached(s, xs), Reaches(s, xs, x), keep, true);
    ReachedAppends(s, xs, x);
    ReachedAppends(s, ks, x);
    ExecutesFollowHistory(s, xs, x);
    ExecutesFollowHistory(s, ks, x);
  }

  lemma {:induction false} DroppedExecute<T>(s: Settings, xs: seq<Exec<T>>, x: Exec<T>, keep: seq<bool>)
    requires |keep| == |xs| && Unnoticed(s, xs, keep) && FateOf(s, x).None?
    ensures Unnoticed(s, xs + [x], keep + [false])
  {
    KeptAppends(xs, x, keep, false);
    KeptAppends(Reached(s, xs), Reaches(s, xs, x), keep, false);
    ReachedAppends(s, xs, x);
  }

  /** Declined (and interrupted) executes can be left out of a run, or put into it, anywhere:
      every other execute is admitted or refused as before. */
  lemma {:induction false} DeclinedExecutesErase<T>(s: Settings, xs: seq<Exec<T>>, keep: seq<bool>)
    requires |keep| == |xs| && Serial(Attempts(s, xs))
    requires forall i :: 0 <= i < |xs| && !keep[i] ==> FateOf(s, xs[i]).None?
    ensures History(s, Kept(xs, keep)) == History(s, xs)
    ensures Reached(s, Kept(xs, keep)) == Kept(Reached(s, xs), keep)
  {
    if xs == [] {
    } else {
      var front, x, n := xs[..|xs| - 1], xs[|xs| - 1], |xs| - 1;
      assert xs == front + [x] && keep == keep[..n] + [keep[n]];
      AttemptsAppend(s, front, x);
      SerialFront(Attempts(s, xs));
      DeclinedExecutesErase(s, front, keep[..n]);
      if keep[n] {
        KeptAppends(front, x, keep[..n], true);
        KeptAreSerial(s, xs, keep);
        KeptExecute(s, front, x, keep[..n]);
      } else {
        DroppedExecute(s, front, x, keep[..n]);
      }
    }
  }

  // ---------------------------------------------------------------- how long an execute sleeps

  /** The delays of an execute are drawn below 0.2 seconds, doubled with each retry, and below
      5 seconds at most. */
  lemma DefaultCeilings(s: Settings, k: nat)
    requires k >= 1
    ensures Ceiling(RetryPolicyOf(s), 1) == 0.2
    ensures
      var doubled := 2.0 * Ceiling(RetryPolicyOf(s), k);
      Ceiling(RetryPolicyOf(s), k + 1) == if doubled <= 5.0 then doubled else 5.0
  {
    CeilingGrows(RetryPolicyOf(s), k);
  }
}
