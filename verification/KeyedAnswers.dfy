/**
 The answers of concurrent create requests. Every interleaving commits the rows of a serial
 run (`KeyedCreates.InterleavingsAreSerialisable`); here every answer is placed in that run as
 well, at a point between the start of its transaction and the answer.
 */
module KeyedAnswers {
  import opened Common
  import opened Model
  import opened Ledger
  import LI = LedgerInvariants
  import opened Idempotency
  import opened KeyedCreates
  import RE = ReplayErasure

  /** The committed rows when the first `k` requests of the history were committed. */
  function StoreAt(hash: Hash, history: seq<Request>, k: nat): Store
    requires k <= |history|
  {
    RE.After(hash, RE.NOTHING, history[..k])
  }

  /** Handled in one piece at that moment, the request gets this response. */
  ghost predicate AnsweredAt(hash: Hash, history: seq<Request>, k: nat, r: Request, response: Response)
    requires k <= |history|
  {
    Handle(hash, StoreAt(hash, history, k), r).response == response
  }

  /** There is such a moment after the first `from` commits. */
  ghost predicate Linearised(hash: Hash, history: seq<Request>, from: nat, r: Request, response: Response) {
    exists k: nat :: from <= k <= |history| && AnsweredAt(hash, history, k, r, response)
  }

  /** At that moment neither the key nor the id of the create was in use. */
  ghost predicate FreeAt(hash: Hash, history: seq<Request>, k: nat, r: Request)
    requires k <= |history|
  {
    var s := StoreAt(hash, history, k);
    r.op.Create? && !(Keyed(r) && KeyOf(r) in s.keys) && r.op.id !in s.tables.payments
  }

  ghost predicate WasFree(hash: Hash, history: seq<Request>, from: nat, r: Request) {
    exists k: nat :: from <= k <= |history| && FreeAt(hash, history, k, r)
  }

  // ---------------------------------------------------------------- the invariant of one transaction

  /** The answer of a finished create that found its key taken when it wrote its rows. */
  ghost predicate LostItsKey(w: World, r: Request, response: Response) {
    response == Failure(Integrity) && Keyed(r) && KeyOf(r) in w.store.keys
  }

  ghost predicate Explained(hash: Hash, w: World, from: nat, tx: TxId) {
    && from <= |w.history|
    && (tx in w.txs ==>
          var r, phase := w.txs[tx].request, w.txs[tx].phase;
          && (phase.Missed? ==> WasFree(hash, w.history, from, r))
          && (phase.Done? ==> Linearised(hash, w.history, from, r, phase.response) || LostItsKey(w, r, phase.response))
          && (phase == Done(Failure(Integrity)) ==> r.op.Create? && CreatePayment(EMPTY, r.op).result.Ok?))
  }

  /** A step appends to the history and keeps the key rows. */
  ghost predicate Extends(w: World, w': World) {
    && w.history <= w'.history
    && forall k :: k in w.store.keys ==> k in w'.store.keys
  }

  lemma StepExtends(hash: Hash, w: World, a: Action)
    ensures Extends(w, Do(hash, w, a))
  {
    if a.Serve? {
      forall k | k in w.store.keys
        ensures k in Handle(hash, w.store, a.request).store.keys
      {
        RE.KeyPersists(hash, w.store, a.request, k);
      }
    }
  }

  lemma StoresStay(hash: Hash, h: seq<Request>, h': seq<Request>, k: nat)
    requires h <= h' && k <= |h|
    ensures StoreAt(hash, h', k) == StoreAt(hash, h, k)
  {
    assert h'[..k] == h[..k];
  }

  lemma LinearisedStays(hash: Hash, h: seq<Request>, h': seq<Request>, from: nat, r: Request, response: Response)
    requires h <= h' && Linearised(hash, h, from, r, response)
    ensures Linearised(hash, h', from, r, response)
  {
    var k: nat :| from <= k <= |h| && AnsweredAt(hash, h, k, r, response);
    StoresStay(hash, h, h', k);
    assert AnsweredAt(hash, h', k, r, response);
  }

  lemma WasFreeStays(hash: Hash, h: seq<Request>, h': seq<Request>, from: nat, r: Request)
    requires h <= h' && WasFree(hash, h, from, r)
    ensures WasFree(hash, h', from, r)
  {
    var k: nat :| from <= k <= |h| && FreeAt(hash, h, k, r);
    StoresStay(hash, h, h', k);
    assert FreeAt(hash, h', k, r);
  }

  /** What other transactions do explains the transaction no less. */
  lemma ExplainedStays(hash: Hash, w: World, w': World, from: nat, tx: TxId)
    requires Explained(hash, w, from, tx) && Extends(w, w') && tx in w.txs
    requires tx in w'.txs && w'.txs[tx] == w.txs[tx]
    ensures Explained(hash, w', from, tx)
  {
    var r, phase := w.txs[tx].request, w.txs[tx].phase;
    if phase.Missed? {
      WasFreeStays(hash, w.history, w'.history, from, r);
    }
    if phase.Done? && Linearised(hash, w.history, from, r, phase.response) {
      LinearisedStays(hash, w.history, w'.history, from, r, phase.response);
    }
  }

  /** The present is one of the moments. */
  lemma Now(hash: Hash, w: World)
    requires WorldInv(hash, w)
    ensures StoreAt(hash, w.history, |w.history|) == w.store
  {
    assert w.history[..|w.history|] == w.history;
  }

  lemma LookupExplained(hash: Hash, w: World, from: nat, tx: TxId)
    requires WorldInv(hash, w) && from <= |w.history| && At(w, tx, Started)
    ensures Explained(hash, LookupStep(hash, w, tx), from, tx)
  {
    var r, w', n := w.txs[tx].request, LookupStep(hash, w, tx), |w.history|;
    Now(hash, w);
    if w'.txs[tx].phase.Missed? {
      assert FreeAt(hash, w'.history, n, r);
    } else {
      assert AnsweredAt(hash, w'.history, n, r, w'.txs[tx].phase.response);
    }
  }

  /** The service fails for the request alone, not for what is stored. */
  lemma SameFailure(hash: Hash, s: Store, t: Tables, r: Request)
    requires r.op.Create? && r.op.id !in s.tables.payments && r.op.id !in t.payments
    requires !(Keyed(r) && KeyOf(r) in s.keys)
    requires CreatePayment(t, r.op).result.Raised?
    ensures Handle(hash, s, r).response == Failure(CreatePayment(t, r.op).result.error)
    ensures CreatePayment(t, r.op).result.error != Integrity
  {
  }

  lemma ExecuteExplained(hash: Hash, w: World, from: nat, tx: TxId)
    requires WorldInv(hash, w) && Explained(hash, w, from, tx) && At(w, tx, Missed)
    ensures Explained(hash, ExecuteStep(w, tx), from, tx)
  {
    var r := w.txs[tx].request;
    assert tx !in w.store.tables.payments;
    if CreatePayment(w.store.tables, r.op).result.Raised? {
      var k: nat :| from <= k <= |w.history| && FreeAt(hash, w.history, k, r);
      SameFailure(hash, StoreAt(hash, w.history, k), w.store.tables, r);
      assert AnsweredAt(hash, w.history, k, r, ExecuteStep(w, tx).txs[tx].phase.response);
    }
  }

  /** With a free key, an acceptable create fails exactly on a reference in use. */
  lemma ReferenceDecides(hash: Hash, s: Store, r: Request)
    requires LI.LedgerInv(s.tables) && r.op.Create? && r.op.id !in s.tables.payments
    requires CreatePayment(EMPTY, r.op).result.Ok? && !(Keyed(r) && KeyOf(r) in s.keys)
    ensures Handle(hash, s, r).response == Failure(Integrity) <==>
            LI.ReferenceTaken(s.tables, r.op.provider, r.op.charge.value.reference)
  {
    LI.CommitsExactlyWhenAccepted(s.tables, r.op);
  }

  lemma FlushExplained(hash: Hash, w: World, from: nat, tx: TxId)
    requires WorldInv(hash, w) && from <= |w.history| && At(w, tx, Accepted)
    requires TakenInStore(w.store, w.txs[tx].request)
    ensures Explained(hash, Goto(w, tx, Done(Failure(Integrity))), from, tx)
  {
    var r := w.txs[tx].request;
    if !(Keyed(r) && KeyOf(r) in w.store.keys) {
      Now(hash, w);
      ReferenceDecides(hash, w.store, r);
      assert AnsweredAt(hash, w.history, |w.history|, r, Failure(Integrity));
    }
  }

  lemma CommitExplained(hash: Hash, w: World, from: nat, tx: TxId)
    requires WorldInv(hash, w) && from <= |w.history| && At(w, tx, Flushed)
    ensures Explained(hash, CommitStep(hash, w, tx), from, tx)
  {
    var r, w', n := w.txs[tx].request, CommitStep(hash, w, tx), |w.history|;
    Now(hash, w);
    CommitIsHandle(hash, w.store, r);
    StoresStay(hash, w.history, w'.history, n);
    assert AnsweredAt(hash, w'.history, n, r, w'.txs[tx].phase.response);
  }

  lemma OthersLeaveTx(hash: Hash, w: World, a: Action, tx: TxId)
    requires tx in w.txs && (a.Serve? || a.tx != tx)
    ensures tx in Do(hash, w, a).txs && Do(hash, w, a).txs[tx] == w.txs[tx]
  {
  }

  lemma OwnStepExplained(hash: Hash, w: World, a: Action, from: nat, tx: TxId)
    requires WorldInv(hash, w) && Explained(hash, w, from, tx) && tx in w.txs && !a.Serve? && a.tx == tx
    ensures Explained(hash, Do(hash, w, a), from, tx)
  {
    match a
    case Start(_, _) =>
    case Lookup(_) =>
      if At(w, tx, Started) {
        LookupExplained(hash, w, from, tx);
      }
    case Execute(_) =>
      if At(w, tx, Missed) {
        ExecuteExplained(hash, w, from, tx);
      }
    case Flush(_) =>
      if At(w, tx, Accepted) && TakenInStore(w.store, w.txs[tx].request) {
        FlushExplained(hash, w, from, tx);
      }
    case Commit(_) =>
      if At(w, tx, Flushed) {
        CommitExplained(hash, w, from, tx);
      }
    case Abort(_) =>
  }

  lemma StepExplained(hash: Hash, w: World, a: Action, from: nat, tx: TxId)
    requires WorldInv(hash, w) && Explained(hash, w, from, tx)
    ensures Explained(hash, Do(hash, w, a), from, tx)
  {
    StepExtends(hash, w, a);
    if tx in w.txs {
      if a.Serve? || a.tx != tx {
        OthersLeaveTx(hash, w, a, tx);
        ExplainedStays(hash, w, Do(hash, w, a), from, tx);
      } else {
        OwnStepExplained(hash, w, a, from, tx);
      }
    }
  }

  lemma {:induction false} RunExplained(hash: Hash, before: seq<Action>, during: seq<Action>, tx: TxId)
    requires tx !in Run(hash, INITIAL, before).txs
    ensures Explained(hash, Run(hash, INITIAL, before + during), |Run(hash, INITIAL, before).history|, tx)
  {
    if during == [] {
      assert before + during == before;
    } else {
      var n := |during| - 1;
      RunExplained(hash, before, during[..n], tx);
      EveryInterleavingKeepsInv(hash, before + during[..n]);
      StepExplained(hash, Run(hash, INITIAL, before + during[..n]), during[n],
                    |Run(hash, INITIAL, before).history|, tx);
      assert (before + during)[..|before + during| - 1] == before + during[..n];
    }
  }

  // ---------------------------------------------------------------- which answers are serial answers

  /** At no moment after the first `from` commits was the create's reference taken while its
      key was still free. */
  ghost predicate KeyWentFirst(hash: Hash, history: seq<Request>, from: nat, r: Request) {
    && Keyed(r) && r.op.Create? && r.op.charge.Replied?
    && forall k: nat :: from <= k <= |history| ==>
         var s := StoreAt(hash, history, k);
         LI.ReferenceTaken(s.tables, r.op.provider, r.op.charge.value.reference) ==> KeyOf(r) in s.keys
  }

  lemma PaymentPersists(hash: Hash, s: Store, r: Request, id: PaymentId)
    requires id in s.tables.payments
    ensures id in Handle(hash, s, r).store.tables.payments
  {
  }

  lemma {:induction false} PaymentsPersist(hash: Hash, history: seq<Request>, k: nat, id: PaymentId)
    requires k <= |history| && id in StoreAt(hash, history, k).tables.payments
    ensures id in RE.After(hash, RE.NOTHING, history).tables.payments
  {
    if k == |history| {
      assert history[..k] == history;
    } else {
      var front, r := history[..|history| - 1], history[|history| - 1];
      assert front[..k] == history[..k];
      PaymentsPersist(hash, front, k, id);
      PaymentPersists(hash, RE.After(hash, RE.NOTHING, front), r, id);
      RE.RunAppends(hash, RE.NOTHING, front, r);
      assert history == front + [r];
    }
  }

  /** When a create that lost at its flush would have failed the same way if handled alone. */
  lemma LoserAt(hash: Hash, w: World, tx: TxId, k: nat)
    requires WorldInv(hash, w) && At(w, tx, Done(Failure(Integrity))) && k <= |w.history|
    requires CreatePayment(EMPTY, w.txs[tx].request.op).result.Ok?
    ensures
      var r, s := w.txs[tx].request, StoreAt(hash, w.history, k);
      AnsweredAt(hash, w.history, k, r, Failure(Integrity)) <==>
      !(Keyed(r) && KeyOf(r) in s.keys) && LI.ReferenceTaken(s.tables, r.op.provider, r.op.charge.value.reference)
  {
    var r, s := w.txs[tx].request, StoreAt(hash, w.history, k);
    RE.RequestsRefineTheLedger(hash, RE.NOTHING, w.history[..k]);
    if tx in s.tables.payments {
      PaymentsPersist(hash, w.history, k, tx);
    }
    if !(Keyed(r) && KeyOf(r) in s.keys) {
      ReferenceDecides(hash, s, r);
    }
  }

  lemma LoserExactly(hash: Hash, w: World, from: nat, tx: TxId)
    requires WorldInv(hash, w) && At(w, tx, Done(Failure(Integrity)))
    requires CreatePayment(EMPTY, w.txs[tx].request.op).result.Ok?
    requires Keyed(w.txs[tx].request)
    ensures
      var r := w.txs[tx].request;
      Linearised(hash, w.history, from, r, Failure(Integrity)) <==> !KeyWentFirst(hash, w.history, from, r)
  {
    var r := w.txs[tx].request;
    forall k: nat | from <= k <= |w.history|
      ensures
        var s := StoreAt(hash, w.history, k);
        AnsweredAt(hash, w.history, k, r, Failure(Integrity)) <==>
        KeyOf(r) !in s.keys && LI.ReferenceTaken(s.tables, r.op.provider, r.op.charge.value.reference)
    {
      LoserAt(hash, w, tx, k);
    }
  }

  /** Handled now, the request is answered from the key's row. */
  ghost predicate AnsweredFromKey(hash: Hash, s: Store, r: Request) {
    && Keyed(r) && KeyOf(r) in s.keys
    && Handle(hash, s, r).response in {Response(s.keys[KeyOf(r)].status, s.keys[KeyOf(r)].body), Failure(KeyConflict)}
  }

  /** Every answer is the answer of handling the request in one piece, at a moment between the
      start of its transaction and the answer, on the rows committed by then. The one exception
      is exact: a create that lost at its flush because its key, and not first its reference,
      was committed meanwhile. It is told of a broken constraint where a serial retry is given
      the stored response or a conflict. */
  lemma AnswersLineariseExactly(hash: Hash, before: seq<Action>, during: seq<Action>, tx: TxId)
    requires tx !in Run(hash, INITIAL, before).txs
    requires tx in Run(hash, INITIAL, before + during).txs
    requires Run(hash, INITIAL, before + during).txs[tx].phase.Done?
    ensures
      var from, w := |Run(hash, INITIAL, before).history|, Run(hash, INITIAL, before + during);
      var r, response := w.txs[tx].request, w.txs[tx].phase.response;
      && (Linearised(hash, w.history, from, r, response) <==>
          !(response == Failure(Integrity) && KeyWentFirst(hash, w.history, from, r)))
      && (!Linearised(hash, w.history, from, r, response) ==> AnsweredFromKey(hash, w.store, r))
  {
    var from, w := |Run(hash, INITIAL, before).history|, Run(hash, INITIAL, before + during);
    var r, response := w.txs[tx].request, w.txs[tx].phase.response;
    RunExplained(hash, before, during, tx);
    EveryInterleavingKeepsInv(hash, before + during);
    if response == Failure(Integrity) && Keyed(r) {
      LoserExactly(hash, w, from, tx);
    }
  }

  /** The exception occurs: of two overlapping creates under one key, the loser's answer is
      that of no serial moment. */
  lemma LoserHasNoSerialAnswer(hash: Hash, a: Request, b: Request) returns (actions: seq<Action>)
    requires a.op.Create? && b.op.Create? && a.op.id != b.op.id
    requires SameKey(a, b)
    requires CreatePayment(EMPTY, a.op).result.Ok? && CreatePayment(EMPTY, b.op).result.Ok?
    ensures At(Run(hash, INITIAL, actions), b.op.id, Done(Failure(Integrity)))
    ensures !Linearised(hash, Run(hash, INITIAL, actions).history, 0, b, Failure(Integrity))
  {
    var charged, rest := OverlappingRetriesBothCharge(hash, a, b);
    actions := charged + rest;
    var w := Run(hash, INITIAL, actions);
    EveryInterleavingKeepsInv(hash, actions);
    Now(hash, w);
    assert w.history[..0] == [];
    assert KeyWentFirst(hash, w.history, 0, b);
    LoserExactly(hash, w, 0, b.op.id);
  }
}
