/** What idempotency keys guarantee along any serial run of requests. */
module ReplayErasure {
  import opened Common
  import opened Model
  import opened Ledger
  import opened Idempotency
  import LedgerInvariants
  import Runs

  const NOTHING := Store(EMPTY, map[])

  /** The handlers as one step function. */
  function Serving(hash: Hash): Runs.Handler<Store, Request, Response> {
    (s: Store, r: Request) => (Handle(hash, s, r).store, Handle(hash, s, r).response)
  }

  function After(hash: Hash, s: Store, rs: seq<Request>): Store {
    Runs.After(Serving(hash), s, rs)
  }

  function Answers(hash: Hash, s: Store, rs: seq<Request>): (answers: seq<Response>)
    ensures |answers| == |rs|
  {
    Runs.Answers(Serving(hash), s, rs)
  }

  lemma AnswerAt(hash: Hash, s: Store, rs: seq<Request>, i: nat)
    requires i < |rs|
    ensures Answers(hash, s, rs)[i] == Handle(hash, After(hash, s, rs[..i]), rs[i]).response
    ensures After(hash, s, rs[..i + 1]) == Handle(hash, After(hash, s, rs[..i]), rs[i]).store
  {
    Runs.AnswerAt(Serving(hash), s, rs, i);
  }

  lemma RunAppends(hash: Hash, s: Store, rs: seq<Request>, r: Request)
    ensures After(hash, s, rs + [r]) == Handle(hash, After(hash, s, rs), r).store
    ensures Answers(hash, s, rs + [r]) == Answers(hash, s, rs) + [Handle(hash, After(hash, s, rs), r).response]
  {
    Runs.Appends(Serving(hash), s, rs, r);
  }

  // ---------------------------------------------------------------- one request

  /** A failed request changes nothing at all; in particular its key stays free. */
  lemma FailureChangesNothing(hash: Hash, s: Store, r: Request)
    ensures Handle(hash, s, r).response.Failure? ==> Handle(hash, s, r).store == s
  {
  }

  /** A key answers with a conflict exactly when it was first used with another body. */
  lemma ConflictExactly(hash: Hash, s: Store, first: Request, more: seq<Request>, again: Request)
    requires forall a, b: Body :: hash(a) == hash(b) ==> a == b
    requires SameKey(first, again)
    requires Handle(hash, s, first).response.Response?
    requires KeyOf(first) !in s.keys
    ensures
      var s' := After(hash, Handle(hash, s, first).store, more);
      && (Handle(hash, s', again).response == Failure(KeyConflict) <==> !SameBody(again.op, first.op))
      && Handle(hash, s', again).store == s'
  {
    KeysCoincideExactly(first, again);
    BodiesCoincideExactly(hash, again.op, first.op);
    KeysPersist(hash, Handle(hash, s, first).store, more, KeyOf(first));
  }

  lemma KeyPersists(hash: Hash, s: Store, r: Request, k: KeyId)
    requires k in s.keys
    ensures k in Handle(hash, s, r).store.keys && Handle(hash, s, r).store.keys[k] == s.keys[k]
  {
  }

  /** Key rows are never changed or removed. */
  lemma {:induction false} KeysPersist(hash: Hash, s: Store, rs: seq<Request>, k: KeyId)
    requires k in s.keys
    ensures k in After(hash, s, rs).keys && After(hash, s, rs).keys[k] == s.keys[k]
  {
    if rs == [] {
    } else {
      var front, r := rs[..|rs| - 1], rs[|rs| - 1];
      KeysPersist(hash, s, front, k);
      KeyPersists(hash, After(hash, s, front), r, k);
      RunAppends(hash, s, front, r);
      assert rs == front + [r];
    }
  }

  // ---------------------------------------------------------------- repeats

  /** Same owner, endpoint, key and body; the fresh id and the provider's reply may differ. */
  predicate SameRequest(a: Request, b: Request) {
    SameKey(a, b) && SameBody(a.op, b.op)
  }

  lemma SuccessIsStored(hash: Hash, s: Store, r: Request)
    requires Keyed(r) && Handle(hash, s, r).response.Response?
    ensures
      var h := Handle(hash, s, r);
      && KeyOf(r) in h.store.keys
      && h.store.keys[KeyOf(r)] == Record(hash(BodyOf(r.op)), h.response.status, h.response.body)
  {
  }

  lemma ReplayReads(hash: Hash, s: Store, r: Request, first: Response)
    requires Keyed(r) && KeyOf(r) in s.keys && first.Response?
    requires s.keys[KeyOf(r)] == Record(hash(BodyOf(r.op)), first.status, first.body)
    ensures Handle(hash, s, r) == Handled(s, first)
  {
  }

  /** A repeat of an answered request returns the first answer and changes nothing, however
      many requests came between. */
  lemma {:induction false} RepeatReturnsFirst(hash: Hash, s: Store, rs: seq<Request>, i: nat, j: nat)
    requires i < j < |rs| && SameRequest(rs[i], rs[j])
    requires Answers(hash, s, rs)[i].Response?
    ensures Handle(hash, After(hash, s, rs[..j]), rs[j]) == Handled(After(hash, s, rs[..j]), Answers(hash, s, rs)[i])
    ensures Answers(hash, s, rs)[j] == Answers(hash, s, rs)[i]
  {
    var k, first := KeyOf(rs[i]), Answers(hash, s, rs)[i];
    AnswerAt(hash, s, rs, i);
    SuccessIsStored(hash, After(hash, s, rs[..i]), rs[i]);
    Runs.Splits(Serving(hash), s, rs[..j], i + 1);
    assert rs[..j][..i + 1] == rs[..i + 1];
    KeysPersist(hash, After(hash, s, rs[..i + 1]), rs[..j][i + 1..], k);
    ReplayReads(hash, After(hash, s, rs[..j]), rs[j], first);
    AnswerAt(hash, s, rs, j);
  }

  /** A keyed request takes effect at most once. */
  lemma AtMostOneExecution(hash: Hash, s: Store, rs: seq<Request>, i: nat, j: nat)
    requires i < j < |rs| && SameKey(rs[i], rs[j])
    requires Answers(hash, s, rs)[i].Response?
    ensures After(hash, s, rs[..j + 1]) == After(hash, s, rs[..j])
  {
    AnswerAt(hash, s, rs, i);
    AnswerAt(hash, s, rs, j);
    SuccessIsStored(hash, After(hash, s, rs[..i]), rs[i]);
    Runs.Splits(Serving(hash), s, rs[..j], i + 1);
    assert rs[..j][..i + 1] == rs[..i + 1];
    KeysPersist(hash, After(hash, s, rs[..i + 1]), rs[..j][i + 1..], KeyOf(rs[i]));
  }

  // ---------------------------------------------------------------- what every request is answered

  /** The i-th request had the key of `r` and was answered with success. */
  ghost predicate Claims(hash: Hash, rs: seq<Request>, i: nat, r: Request)
    requires i < |rs|
  {
    SameKey(rs[i], r) && Answers(hash, NOTHING, rs)[i].Response?
  }

  lemma {:induction false} ClaimsOfPrefix(hash: Hash, front: seq<Request>, x: Request, r: Request)
    ensures forall i: nat :: i < |front| ==> Claims(hash, front + [x], i, r) == Claims(hash, front, i, r)
    ensures Claims(hash, front + [x], |front|, r) <==>
              SameKey(x, r) && Handle(hash, After(hash, NOTHING, front), x).response.Response?
  {
    RunAppends(hash, NOTHING, front, x);
  }

  lemma KeyRowAdded(hash: Hash, s: Store, x: Request, r: Request)
    requires Keyed(r)
    ensures KeyOf(r) in Handle(hash, s, x).store.keys <==>
              KeyOf(r) in s.keys || (SameKey(x, r) && Handle(hash, s, x).response.Response?)
  {
    KeysCoincideExactly(x, r);
  }

  /** A key row exists exactly when an earlier request of the same owner, on the same endpoint
      and with the same header succeeded. */
  lemma {:induction false} KeyRowsExactly(hash: Hash, rs: seq<Request>, r: Request)
    requires Keyed(r)
    ensures KeyOf(r) in After(hash, NOTHING, rs).keys <==> exists i: nat :: i < |rs| && Claims(hash, rs, i, r)
  {
    if rs == [] {
    } else {
      var front, x := rs[..|rs| - 1], rs[|rs| - 1];
      KeyRowsExactly(hash, front, r);
      RunAppends(hash, NOTHING, front, x);
      KeyRowAdded(hash, After(hash, NOTHING, front), x, r);
      ClaimsOfPrefix(hash, front, x, r);
      assert rs == front + [x];
      if Claims(hash, rs, |front|, r) {
        assert exists i: nat :: i < |rs| && Claims(hash, rs, i, r);
      }
      if i: nat :| i < |front| && Claims(hash, front, i, r) {
        assert Claims(hash, rs, i, r);
      }
      if i: nat :| i < |rs| && Claims(hash, rs, i, r) {
        assert i < |front| ==> Claims(hash, front, i, r);
      }
    }
  }

  /** What the store holds for a key that an earlier request claimed: its answer, with the
      hash of its body, whether it was executed or replayed itself. */
  lemma {:induction false} ClaimIsStored(hash: Hash, rs: seq<Request>, i: nat, r: Request)
    requires i < |rs| && Claims(hash, rs, i, r)
    ensures
      var s, first := After(hash, NOTHING, rs), Answers(hash, NOTHING, rs)[i];
      && Keyed(r) && KeyOf(r) in s.keys
      && s.keys[KeyOf(r)] == Record(hash(BodyOf(rs[i].op)), first.status, first.body)
  {
    AnswerAt(hash, NOTHING, rs, i);
    KeysCoincideExactly(rs[i], r);
    SuccessIsStored(hash, After(hash, NOTHING, rs[..i]), rs[i]);
    Runs.Splits(Serving(hash), NOTHING, rs, i + 1);
    KeysPersist(hash, After(hash, NOTHING, rs[..i + 1]), rs[i + 1..], KeyOf(r));
  }

  /** The answer a client gets when its request is performed: 201 where a row is created, 200
      where one is changed, or the service's error. */
  function Performed(op: Op, result: Result<Row, Error>): Response {
    if result.Raised? then Failure(result.error)
    else Response(if op.Create? || op.MakeRefund? then 201 else 200, result.value)
  }

  lemma UnclaimedIsPerformed(hash: Hash, s: Store, r: Request)
    requires !(Keyed(r) && KeyOf(r) in s.keys)
    ensures Handle(hash, s, r).store.tables == Apply(s.tables, r.op).tables
    ensures Handle(hash, s, r).response == Performed(r.op, Apply(s.tables, r.op).result)
  {
  }

  /** After any run, a request whose key was claimed by an earlier success is answered with
      that success if the bodies are the same and with a conflict if not, and changes nothing.
      Every other request is performed: one without a header, on an endpoint that ignores it,
      or one whose key was only used by another owner, on the other endpoint or in vain. */
  lemma {:induction false} RequestsAreAnsweredExactly(hash: Hash, rs: seq<Request>, r: Request)
    requires forall a, b: Body :: hash(a) == hash(b) ==> a == b
    ensures
      var s, h := After(hash, NOTHING, rs), Handle(hash, After(hash, NOTHING, rs), r);
      && (forall i: nat :: i < |rs| && Claims(hash, rs, i, r) ==>
            && h.store == s
            && h.response == if SameBody(rs[i].op, r.op) then Answers(hash, NOTHING, rs)[i] else Failure(KeyConflict))
      && ((forall i: nat :: i < |rs| ==> !Claims(hash, rs, i, r)) ==>
            && h.store.tables == Apply(s.tables, r.op).tables
            && h.response == Performed(r.op, Apply(s.tables, r.op).result))
  {
    var s := After(hash, NOTHING, rs);
    forall i: nat | i < |rs| && Claims(hash, rs, i, r)
      ensures
        var h := Handle(hash, s, r);
        && h.store == s
        && h.response == if SameBody(rs[i].op, r.op) then Answers(hash, NOTHING, rs)[i] else Failure(KeyConflict)
    {
      ClaimIsStored(hash, rs, i, r);
      BodiesCoincideExactly(hash, rs[i].op, r.op);
    }
    if forall i: nat :: i < |rs| ==> !Claims(hash, rs, i, r) {
      if Keyed(r) {
        KeyRowsExactly(hash, rs, r);
      }
      UnclaimedIsPerformed(hash, s, r);
    }
  }

  // ---------------------------------------------------------------- erasing repeats

  ghost predicate IsRepeat(hash: Hash, s: Store, rs: seq<Request>, j: nat)
    requires j < |rs|
  {
    exists i :: 0 <= i < j && SameRequest(rs[i], rs[j]) && Answers(hash, s, rs)[i].Response?
  }

  /** Only repeats and failed requests are left out. */
  ghost predicate DropsIdle(hash: Hash, s: Store, rs: seq<Request>, keep: seq<bool>) {
    && |keep| == |rs|
    && forall j :: 0 <= j < |rs| && !keep[j] ==> IsRepeat(hash, s, rs, j) || Answers(hash, s, rs)[j].Failure?
  }

  lemma RepeatIsIdle(hash: Hash, s: Store, rs: seq<Request>, j: nat)
    requires j < |rs| && IsRepeat(hash, s, rs, j)
    ensures Runs.Idle(Serving(hash), s, rs, j)
  {
    var i :| 0 <= i < j && SameRequest(rs[i], rs[j]) && Answers(hash, s, rs)[i].Response?;
    RepeatReturnsFirst(hash, s, rs, i, j);
  }

  lemma FailureIsIdle(hash: Hash, s: Store, rs: seq<Request>, j: nat)
    requires j < |rs| && Answers(hash, s, rs)[j].Failure?
    ensures Runs.Idle(Serving(hash), s, rs, j)
  {
    AnswerAt(hash, s, rs, j);
    FailureChangesNothing(hash, After(hash, s, rs[..j]), rs[j]);
  }

  /** Deleting any repeats of successful keyed requests and any failed requests from a run
      leaves every payment, refund and key row and every other answer as it was. */
  lemma RepeatsAndFailuresCanBeErased(hash: Hash, s: Store, rs: seq<Request>, keep: seq<bool>)
    requires DropsIdle(hash, s, rs, keep)
    ensures After(hash, s, Kept(rs, keep)) == After(hash, s, rs)
    ensures Answers(hash, s, Kept(rs, keep)) == Kept(Answers(hash, s, rs), keep)
  {
    forall j | 0 <= j < |rs| && !keep[j]
      ensures Runs.Idle(Serving(hash), s, rs, j)
    {
      if IsRepeat(hash, s, rs, j) {
        RepeatIsIdle(hash, s, rs, j);
      } else {
        FailureIsIdle(hash, s, rs, j);
      }
    }
    Runs.IdleRequestsErase(Serving(hash), s, rs, keep, |rs|);
    assert rs[..|rs|] == rs && keep[..|rs|] == keep;
  }

  // ---------------------------------------------------------------- the ledger underneath

  /** The operations a run really performed. */
  function Executed(hash: Hash, s: Store, rs: seq<Request>): seq<Op> {
    if rs == [] then []
    else
      var front, r := rs[..|rs| - 1], rs[|rs| - 1];
      if Keyed(r) && KeyOf(r) in After(hash, s, front).keys
      then Executed(hash, s, front)
      else Executed(hash, s, front) + [r.op]
  }

  /** Requests with keys move the payment and refund rows exactly as the executed operations
      do without them, so every ledger result carries over. */
  lemma {:induction false} RequestsRefineTheLedger(hash: Hash, s: Store, rs: seq<Request>)
    requires LedgerInvariants.LedgerInv(s.tables)
    ensures After(hash, s, rs).tables == LedgerInvariants.Run(s.tables, Executed(hash, s, rs))
    ensures LedgerInvariants.LedgerInv(After(hash, s, rs).tables)
  {
    if rs == [] {
    } else {
      var front, r := rs[..|rs| - 1], rs[|rs| - 1];
      RequestsRefineTheLedger(hash, s, front);
      var ops := Executed(hash, s, front);
      RunAppends(hash, s, front, r);
      assert rs == front + [r];
      if !(Keyed(r) && KeyOf(r) in After(hash, s, front).keys) {
        assert (ops + [r.op])[..|ops|] == ops;
        HandledTables(hash, After(hash, s, front), r);
      }
      LedgerInvariants.EveryRunKeepsTheLedger(s.tables, Executed(hash, s, rs));
    }
  }

  lemma HandledTables(hash: Hash, s: Store, r: Request)
    requires !(Keyed(r) && KeyOf(r) in s.keys)
    ensures Handle(hash, s, r).store.tables == Apply(s.tables, r.op).tables
  {
  }
}
