/**
 Concurrent create requests (app/api/v1/payments.py) as interleaved database transactions.

 Each request is a transaction: it looks its key up among the committed rows, runs the
 service with the provider, flushes payment and key row under the unique constraints, and
 commits. An uncommitted row is invisible to others, but a flush waits while another
 transaction has flushed the same unique value. Captures, cancels and refunds run as whole
 requests in between.
 */
module KeyedCreates {
  import opened Common
  import opened Enums
  import opened Model
  import opened Ledger
  import opened LedgerInvariants
  import opened Idempotency
  import LE = LedgerEffects
  import RE = ReplayErasure

  type TxId = nat

  datatype Phase =
    | Started
    | Missed                      // looked up, no key row found
    | Accepted                    // the provider accepted the charge, the row is in the session
    | Flushed                     // payment and key row written, constraints held
    | Done(response: Response)
    | Aborted                     // client gone or process died: rolled back

  datatype Tx = Tx(request: Request, phase: Phase)

  /** Committed rows, transactions, and the requests in the order they were committed. */
  datatype World = World(store: Store, txs: map<TxId, Tx>, history: seq<Request>)

  const INITIAL := World(Store(EMPTY, map[]), map[], [])

  datatype Action =
    | Start(tx: TxId, request: Request)
    | Lookup(tx: TxId)
    | Execute(tx: TxId)
    | Flush(tx: TxId)
    | Commit(tx: TxId)
    | Abort(tx: TxId)
    | Serve(request: Request)

  predicate At(w: World, tx: TxId, phase: Phase) {
    tx in w.txs && w.txs[tx].phase == phase
  }

  function Goto(w: World, tx: TxId, phase: Phase): World
    requires tx in w.txs
  {
    w.(txs := w.txs[tx := w.txs[tx].(phase := phase)])
  }

  /** The payment row the transaction writes. */
  function RowOf(op: Op): Payment
    requires op.Create? && op.charge.Replied?
  {
    Ledger.Charged(NewPayment(op), op.charge.value)
  }

  /** Both write the same unique value: an idempotency key or a provider reference. */
  predicate Clash(a: Request, b: Request) {
    || (Keyed(a) && Keyed(b) && KeyOf(a) == KeyOf(b))
    || (&& a.op.Create? && b.op.Create? && a.op.charge.Replied? && b.op.charge.Replied?
        && a.op.provider == b.op.provider && a.op.charge.value.reference == b.op.charge.value.reference)
  }

  predicate TakenInStore(s: Store, r: Request) {
    || (Keyed(r) && KeyOf(r) in s.keys)
    || (r.op.Create? && r.op.charge.Replied? && ReferenceTaken(s.tables, r.op.provider, r.op.charge.value.reference))
  }

  predicate Blocked(w: World, tx: TxId)
    requires tx in w.txs
  {
    exists other | other in w.txs ::
      other != tx && w.txs[other].phase.Flushed? && Clash(w.txs[other].request, w.txs[tx].request)
  }

  function LookupStep(hash: Hash, w: World, tx: TxId): World
    requires tx in w.txs
  {
    var r := w.txs[tx].request;
    if !(Keyed(r) && KeyOf(r) in w.store.keys) then Goto(w, tx, Missed)
    else
      var record := w.store.keys[KeyOf(r)];
      Goto(w, tx, Done(if record.requestHash == hash(BodyOf(r.op))
                       then Response(record.status, record.body) else Failure(KeyConflict)))
  }

  function ExecuteStep(w: World, tx: TxId): World
    requires tx in w.txs && w.txs[tx].request.op.Create?
  {
    var worked := CreatePayment(w.store.tables, w.txs[tx].request.op);
    Goto(w, tx, if worked.result.Ok? then Accepted else Done(Failure(worked.result.error)))
  }

  function CommitStep(hash: Hash, w: World, tx: TxId): World
    requires tx in w.txs && w.txs[tx].request.op.Create? && w.txs[tx].request.op.charge.Replied?
  {
    var r := w.txs[tx].request;
    var row := PaymentRow(tx, RowOf(r.op));
    var keys := if Keyed(r) then w.store.keys[KeyOf(r) := Record(hash(BodyOf(r.op)), 201, row)] else w.store.keys;
    Goto(World(Store(Put(w.store.tables, tx, RowOf(r.op)), keys), w.txs, w.history + [r]), tx, Done(Response(201, row)))
  }

  /** One step; an action that is not enabled changes nothing. */
  function Do(hash: Hash, w: World, a: Action): World {
    match a
    case Start(tx, r) =>
      if tx !in w.txs && r.op.Create? && r.op.id == tx then w.(txs := w.txs[tx := Tx(r, Started)]) else w
    case Lookup(tx) =>
      if At(w, tx, Started) then LookupStep(hash, w, tx) else w
    case Execute(tx) =>
      if At(w, tx, Missed) && w.txs[tx].request.op.Create? then ExecuteStep(w, tx) else w
    case Flush(tx) =>
      if !At(w, tx, Accepted) || Blocked(w, tx) then w
      else if TakenInStore(w.store, w.txs[tx].request) then Goto(w, tx, Done(Failure(Integrity)))
      else Goto(w, tx, Flushed)
    case Commit(tx) =>
      if At(w, tx, Flushed) && w.txs[tx].request.op.Create? && w.txs[tx].request.op.charge.Replied?
      then CommitStep(hash, w, tx) else w
    case Abort(tx) =>
      if tx in w.txs && !w.txs[tx].phase.Done? then Goto(w, tx, Aborted) else w
    case Serve(r) =>
      if r.op.Create? then w
      else World(Handle(hash, w.store, r).store, w.txs, w.history + [r])
  }

  function Run(hash: Hash, w: World, actions: seq<Action>): World {
    if actions == [] then w else Do(hash, Run(hash, w, actions[..|actions| - 1]), actions[|actions| - 1])
  }

  // ---------------------------------------------------------------- invariant

  ghost predicate TxsWellFormed(w: World) {
    forall tx :: tx in w.txs ==>
      && w.txs[tx].request.op.Create? && w.txs[tx].request.op.id == tx
      && (w.txs[tx].phase.Accepted? || w.txs[tx].phase.Flushed? ==>
            && CreatePayment(EMPTY, w.txs[tx].request.op).result.Ok?
            && tx !in w.store.tables.payments)
  }

  /** Flushed transactions hold values nobody else holds, committed or flushed. */
  ghost predicate FlushedAreExclusive(w: World) {
    && (forall tx :: At(w, tx, Flushed) ==> !TakenInStore(w.store, w.txs[tx].request))
    && (forall a, b :: At(w, a, Flushed) && At(w, b, Flushed) && a != b ==> !Clash(w.txs[a].request, w.txs[b].request))
  }

  /** A committed payment is the row of a transaction that was told so. */
  ghost predicate RowsAreAnswered(w: World) {
    forall id :: id in w.store.tables.payments ==>
      && id in w.txs && w.txs[id].phase.Done? && w.txs[id].phase.response.Response?
      && w.txs[id].phase.response.body.PaymentRow? && w.txs[id].phase.response.body.id == id
  }

  /** A successful answer is the committed row's: the transaction's own, or the stored one. */
  ghost predicate AnswersAreStored(hash: Hash, w: World) {
    forall tx :: tx in w.txs && w.txs[tx].phase.Done? && w.txs[tx].phase.response.Response? ==>
      var r, answer := w.txs[tx].request, w.txs[tx].phase.response;
      && answer.body.PaymentRow? && answer.body.id in w.store.tables.payments
      && (if Keyed(r)
          then
            && KeyOf(r) in w.store.keys
            && w.store.keys[KeyOf(r)] == Record(hash(BodyOf(r.op)), answer.status, answer.body)
          else answer.body.id == tx)
  }

  /** A create key stands for exactly one committed payment, whose transaction used it. */
  ghost predicate KeysHavePayments(w: World) {
    forall k :: k in w.store.keys && k.endpoint.CreatePaymentEndpoint? ==>
      && w.store.keys[k].body.PaymentRow?
      && w.store.keys[k].body.id in w.store.tables.payments
      && w.store.keys[k].body.id in w.txs
      && Keyed(w.txs[w.store.keys[k].body.id].request)
      && KeyOf(w.txs[w.store.keys[k].body.id].request) == k
  }

  ghost predicate WorldInv(hash: Hash, w: World) {
    && w.store == RE.After(hash, RE.NOTHING, w.history)
    && LedgerInv(w.store.tables)
    && TxsWellFormed(w)
    && FlushedAreExclusive(w)
    && RowsAreAnswered(w)
    && AnswersAreStored(hash, w)
    && KeysHavePayments(w)
  }

  // ---------------------------------------------------------------- commits are serial requests

  /** Committing an exclusive transaction is handling its request in one piece. */
  lemma CommitIsHandle(hash: Hash, s: Store, r: Request)
    requires LedgerInv(s.tables)
    requires r.op.Create? && r.op.id !in s.tables.payments
    requires CreatePayment(EMPTY, r.op).result.Ok?
    requires !TakenInStore(s, r)
    ensures
      var row := PaymentRow(r.op.id, RowOf(r.op));
      var keys := if Keyed(r) then s.keys[KeyOf(r) := Record(hash(BodyOf(r.op)), 201, row)] else s.keys;
      && Handle(hash, s, r) == Handled(Store(Put(s.tables, r.op.id, RowOf(r.op)), keys), Response(201, row))
  {
    CommitsExactlyWhenAccepted(s.tables, r.op);
    assert Apply(s.tables, r.op).result.Ok?;
  }

  // ---------------------------------------------------------------- every step keeps the invariant

  /** What a transaction must have established to enter a phase. */
  ghost predicate MayEnter(hash: Hash, w: World, tx: TxId, phase: Phase)
    requires tx in w.txs
  {
    var r := w.txs[tx].request;
    && (phase.Accepted? || phase.Flushed? ==> r.op.Create? && CreatePayment(EMPTY, r.op).result.Ok?)
    && (phase.Flushed? ==> !TakenInStore(w.store, r) && !Blocked(w, tx))
    && (phase.Done? && phase.response.Response? ==>
          && Keyed(r) && KeyOf(r) in w.store.keys
          && w.store.keys[KeyOf(r)] == Record(hash(BodyOf(r.op)), phase.response.status, phase.response.body))
  }

  lemma ClashIsSymmetric(a: Request, b: Request)
    ensures Clash(a, b) == Clash(b, a)
  {
  }

  lemma GotoKeepsExclusive(hash: Hash, w: World, tx: TxId, phase: Phase)
    requires FlushedAreExclusive(w)
    requires tx in w.txs && MayEnter(hash, w, tx, phase)
    ensures FlushedAreExclusive(Goto(w, tx, phase))
  {
    var w' := Goto(w, tx, phase);
    forall a, b | At(w', a, Flushed) && At(w', b, Flushed) && a != b
      ensures !Clash(w'.txs[a].request, w'.txs[b].request)
    {
      ClashIsSymmetric(w.txs[a].request, w.txs[b].request);
      assert a != tx ==> At(w, a, Flushed);
      assert b != tx ==> At(w, b, Flushed);
    }
    forall a | At(w', a, Flushed)
      ensures !TakenInStore(w'.store, w'.txs[a].request)
    {
      assert a != tx ==> At(w, a, Flushed);
    }
  }

  lemma GotoKeepsRows(hash: Hash, w: World, tx: TxId, phase: Phase)
    requires TxsWellFormed(w) && RowsAreAnswered(w)
    requires tx in w.txs && !w.txs[tx].phase.Done? && MayEnter(hash, w, tx, phase)
    ensures TxsWellFormed(Goto(w, tx, phase)) && RowsAreAnswered(Goto(w, tx, phase))
  {
  }

  lemma GotoKeepsAnswers(hash: Hash, w: World, tx: TxId, phase: Phase)
    requires TxsWellFormed(w) && AnswersAreStored(hash, w) && KeysHavePayments(w)
    requires tx in w.txs && !w.txs[tx].phase.Done? && MayEnter(hash, w, tx, phase)
    ensures AnswersAreStored(hash, Goto(w, tx, phase)) && KeysHavePayments(Goto(w, tx, phase))
  {
  }

  lemma GotoKeepsInv(hash: Hash, w: World, tx: TxId, phase: Phase)
    requires WorldInv(hash, w)
    requires tx in w.txs && !w.txs[tx].phase.Done? && MayEnter(hash, w, tx, phase)
    ensures WorldInv(hash, Goto(w, tx, phase))
  {
    GotoKeepsExclusive(hash, w, tx, phase);
    GotoKeepsRows(hash, w, tx, phase);
    GotoKeepsAnswers(hash, w, tx, phase);
  }

  lemma StartKeepsExclusive(w: World, tx: TxId, r: Request)
    requires FlushedAreExclusive(w) && tx !in w.txs
    ensures FlushedAreExclusive(w.(txs := w.txs[tx := Tx(r, Started)]))
  {
    var w' := w.(txs := w.txs[tx := Tx(r, Started)]);
    assert forall a :: At(w', a, Flushed) ==> At(w, a, Flushed);
  }

  lemma StartKeepsRows(w: World, tx: TxId, r: Request)
    requires TxsWellFormed(w) && RowsAreAnswered(w) && tx !in w.txs && r.op.Create? && r.op.id == tx
    ensures
      var w' := w.(txs := w.txs[tx := Tx(r, Started)]);
      TxsWellFormed(w') && RowsAreAnswered(w')
  {
  }

  lemma StartKeepsAnswers(hash: Hash, w: World, tx: TxId, r: Request)
    requires AnswersAreStored(hash, w) && KeysHavePayments(w) && tx !in w.txs
    ensures
      var w' := w.(txs := w.txs[tx := Tx(r, Started)]);
      AnswersAreStored(hash, w') && KeysHavePayments(w')
  {
  }

  lemma StartKeepsInv(hash: Hash, w: World, tx: TxId, r: Request)
    requires WorldInv(hash, w) && tx !in w.txs && r.op.Create? && r.op.id == tx
    ensures WorldInv(hash, w.(txs := w.txs[tx := Tx(r, Started)]))
  {
    StartKeepsExclusive(w, tx, r);
    StartKeepsRows(w, tx, r);
    StartKeepsAnswers(hash, w, tx, r);
  }

  /** Committing one request takes nothing another, non-clashing one needs. */
  lemma CommitTakesOnlyItsOwn(hash: Hash, w: World, tx: TxId, other: Request)
    requires At(w, tx, Flushed) && w.txs[tx].request.op.Create? && w.txs[tx].request.op.charge.Replied?
    requires other.op.Create? && !Clash(other, w.txs[tx].request) && !TakenInStore(w.store, other)
    ensures !TakenInStore(CommitStep(hash, w, tx).store, other)
  {
    var t, t' := w.store.tables, CommitStep(hash, w, tx).store.tables;
    assert forall q :: q in t'.payments ==> q == tx || (q in t.payments && t'.payments[q] == t.payments[q]);
  }

  lemma CommitKeepsExclusive(hash: Hash, w: World, tx: TxId)
    requires TxsWellFormed(w) && FlushedAreExclusive(w) && At(w, tx, Flushed)
    ensures FlushedAreExclusive(CommitStep(hash, w, tx))
  {
    var w' := CommitStep(hash, w, tx);
    assert forall a :: At(w', a, Flushed) ==> At(w, a, Flushed) && a != tx;
    forall a | At(w', a, Flushed)
      ensures !TakenInStore(w'.store, w'.txs[a].request)
    {
      assert At(w, a, Flushed);
      CommitTakesOnlyItsOwn(hash, w, tx, w.txs[a].request);
    }
  }

  lemma CommitIsSerial(hash: Hash, w: World, tx: TxId)
    requires WorldInv(hash, w) && At(w, tx, Flushed)
    ensures
      var w' := CommitStep(hash, w, tx);
      w'.store == RE.After(hash, RE.NOTHING, w'.history) && LedgerInv(w'.store.tables)
  {
    var r := w.txs[tx].request;
    CommitIsHandle(hash, w.store, r);
    ServedLedger(hash, w.store, r);
    RE.RunAppends(hash, RE.NOTHING, w.history, r);
  }

  lemma CommitKeepsRows(hash: Hash, w: World, tx: TxId)
    requires TxsWellFormed(w) && RowsAreAnswered(w) && At(w, tx, Flushed)
    ensures TxsWellFormed(CommitStep(hash, w, tx)) && RowsAreAnswered(CommitStep(hash, w, tx))
  {
  }

  lemma CommitKeepsAnswers(hash: Hash, w: World, tx: TxId)
    requires TxsWellFormed(w) && AnswersAreStored(hash, w) && KeysHavePayments(w) && At(w, tx, Flushed)
    requires !TakenInStore(w.store, w.txs[tx].request)
    ensures AnswersAreStored(hash, CommitStep(hash, w, tx)) && KeysHavePayments(CommitStep(hash, w, tx))
  {
  }

  lemma CommitKeepsInv(hash: Hash, w: World, tx: TxId)
    requires WorldInv(hash, w) && At(w, tx, Flushed)
    ensures WorldInv(hash, CommitStep(hash, w, tx))
  {
    CommitIsSerial(hash, w, tx);
    CommitKeepsExclusive(hash, w, tx);
    CommitKeepsRows(hash, w, tx);
    CommitKeepsAnswers(hash, w, tx);
  }

  /** A capture, cancel or refund keeps every payment's provider and reference. */
  lemma ApplyKeepsReferences(t: Tables, op: Op)
    requires !op.Create?
    ensures
      var t' := Apply(t, op).tables;
      && t'.payments.Keys == t.payments.Keys
      && forall id :: id in t.payments ==>
           t'.payments[id].provider == t.payments[id].provider && t'.payments[id].reference == t.payments[id].reference
  {
  }

  /** A capture, cancel or refund writes no create key. */
  lemma ServeKeepsCreateKeys(hash: Hash, s: Store, r: Request, k: KeyId)
    requires !r.op.Create? && k.endpoint.CreatePaymentEndpoint?
    ensures k in Handle(hash, s, r).store.keys <==> k in s.keys
    ensures k in s.keys ==> Handle(hash, s, r).store.keys[k] == s.keys[k]
  {
  }

  lemma ServeTouches(hash: Hash, s: Store, r: Request)
    requires !r.op.Create?
    ensures
      var s' := Handle(hash, s, r).store;
      && s'.tables.payments.Keys == s.tables.payments.Keys
      && (forall id :: id in s.tables.payments ==>
            && s'.tables.payments[id].provider == s.tables.payments[id].provider
            && s'.tables.payments[id].reference == s.tables.payments[id].reference)
      && (forall k: KeyId :: k.endpoint.CreatePaymentEndpoint? ==>
            && (k in s'.keys <==> k in s.keys)
            && (k in s.keys ==> s'.keys[k] == s.keys[k]))
  {
    ApplyKeepsReferences(s.tables, r.op);
    forall k: KeyId | k.endpoint.CreatePaymentEndpoint?
      ensures k in Handle(hash, s, r).store.keys <==> k in s.keys
      ensures k in s.keys ==> Handle(hash, s, r).store.keys[k] == s.keys[k]
    {
      ServeKeepsCreateKeys(hash, s, r, k);
    }
  }

  lemma ServeKeepsTaken(hash: Hash, s: Store, r: Request, other: Request)
    requires !r.op.Create? && other.op.Create?
    ensures TakenInStore(Handle(hash, s, r).store, other) == TakenInStore(s, other)
  {
    ServeTouches(hash, s, r);
    var s' := Handle(hash, s, r).store;
    if other.op.charge.Replied? {
      var p, f := other.op.provider, other.op.charge.value.reference;
      if ReferenceTaken(s.tables, p, f) {
        var q :| q in s.tables.payments
              && s.tables.payments[q].provider == p && s.tables.payments[q].reference == Some(f);
        assert q in s'.tables.payments;
      }
      if ReferenceTaken(s'.tables, p, f) {
        var q :| q in s'.tables.payments
              && s'.tables.payments[q].provider == p && s'.tables.payments[q].reference == Some(f);
        assert q in s.tables.payments;
      }
    }
  }

  lemma ServeKeepsInv(hash: Hash, w: World, r: Request)
    requires WorldInv(hash, w) && !r.op.Create?
    ensures WorldInv(hash, World(Handle(hash, w.store, r).store, w.txs, w.history + [r]))
  {
    var s' := Handle(hash, w.store, r).store;
    var w' := World(s', w.txs, w.history + [r]);
    RE.RunAppends(hash, RE.NOTHING, w.history, r);
    ServeTouches(hash, w.store, r);
    ServedLedger(hash, w.store, r);
    forall a | At(w', a, Flushed)
      ensures !TakenInStore(w'.store, w'.txs[a].request)
    {
      assert At(w, a, Flushed);
      ServeKeepsTaken(hash, w.store, r, w.txs[a].request);
    }
    assert forall a :: At(w', a, Flushed) ==> At(w, a, Flushed);
  }

  lemma ServedLedger(hash: Hash, s: Store, r: Request)
    requires LedgerInv(s.tables)
    ensures LedgerInv(Handle(hash, s, r).store.tables)
  {
    StepKeepsInv(s.tables, r.op);
  }

  lemma ExecutedAlone(t: Tables, op: Op)
    requires op.Create? && CreatePayment(t, op).result.Ok?
    ensures CreatePayment(EMPTY, op).result.Ok?
  {
  }

  lemma LookupKeepsInv(hash: Hash, w: World, tx: TxId)
    requires WorldInv(hash, w) && At(w, tx, Started)
    ensures WorldInv(hash, LookupStep(hash, w, tx))
  {
    GotoKeepsInv(hash, w, tx, LookupStep(hash, w, tx).txs[tx].phase);
  }

  lemma ExecuteKeepsInv(hash: Hash, w: World, tx: TxId)
    requires WorldInv(hash, w) && At(w, tx, Missed)
    ensures WorldInv(hash, ExecuteStep(w, tx))
  {
    var op := w.txs[tx].request.op;
    if CreatePayment(w.store.tables, op).result.Ok? {
      ExecutedAlone(w.store.tables, op);
    }
    GotoKeepsInv(hash, w, tx, ExecuteStep(w, tx).txs[tx].phase);
  }

  lemma FlushHolds(hash: Hash, w: World, tx: TxId)
    requires WorldInv(hash, w) && At(w, tx, Accepted) && !Blocked(w, tx)
    requires !TakenInStore(w.store, w.txs[tx].request)
    ensures WorldInv(hash, Goto(w, tx, Flushed))
  {
    assert MayEnter(hash, w, tx, Flushed);
    GotoKeepsInv(hash, w, tx, Flushed);
  }

  lemma FlushFails(hash: Hash, w: World, tx: TxId)
    requires WorldInv(hash, w) && At(w, tx, Accepted)
    ensures WorldInv(hash, Goto(w, tx, Done(Failure(Integrity))))
  {
    assert MayEnter(hash, w, tx, Done(Failure(Integrity)));
    GotoKeepsInv(hash, w, tx, Done(Failure(Integrity)));
  }

  lemma StepKeepsWorldInv(hash: Hash, w: World, a: Action)
    requires WorldInv(hash, w)
    ensures WorldInv(hash, Do(hash, w, a))
  {
    match a
    case Start(tx, r) =>
      if tx !in w.txs && r.op.Create? && r.op.id == tx {
        StartKeepsInv(hash, w, tx, r);
      }
    case Lookup(tx) =>
      if At(w, tx, Started) {
        LookupKeepsInv(hash, w, tx);
      }
    case Execute(tx) =>
      if At(w, tx, Missed) {
        ExecuteKeepsInv(hash, w, tx);
      }
    case Flush(tx) =>
      if At(w, tx, Accepted) && !Blocked(w, tx) {
        if TakenInStore(w.store, w.txs[tx].request) {
          FlushFails(hash, w, tx);
        } else {
          FlushHolds(hash, w, tx);
        }
      }
    case Commit(tx) =>
      if At(w, tx, Flushed) {
        CommitKeepsInv(hash, w, tx);
      }
    case Abort(tx) =>
      if tx in w.txs && !w.txs[tx].phase.Done? {
        GotoKeepsInv(hash, w, tx, Aborted);
      }
    case Serve(r) =>
      if !r.op.Create? {
        ServeKeepsInv(hash, w, r);
      }
  }

  lemma {:induction false} EveryInterleavingKeepsInv(hash: Hash, actions: seq<Action>)
    ensures WorldInv(hash, Run(hash, INITIAL, actions))
  {
    if actions == [] {
    } else {
      EveryInterleavingKeepsInv(hash, actions[..|actions| - 1]);
      StepKeepsWorldInv(hash, Run(hash, INITIAL, actions[..|actions| - 1]), actions[|actions| - 1]);
    }
  }

  // ---------------------------------------------------------------- what every interleaving guarantees

  /** Serialisability: whatever the interleaving, the committed rows are those of handling
      the committed requests one at a time, in commit order. */
  lemma InterleavingsAreSerialisable(hash: Hash, actions: seq<Action>)
    ensures
      var w := Run(hash, INITIAL, actions);
      && w.store == RE.After(hash, RE.NOTHING, w.history)
      && LedgerInv(w.store.tables)
  {
    EveryInterleavingKeepsInv(hash, actions);
  }

  /** At most one payment is ever committed per owner, endpoint and key. */
  lemma AtMostOnePaymentPerKey(hash: Hash, actions: seq<Action>, a: TxId, b: TxId)
    requires
      var w := Run(hash, INITIAL, actions);
      && a in w.store.tables.payments && b in w.store.tables.payments
      && a in w.txs && b in w.txs
      && SameKey(w.txs[a].request, w.txs[b].request)
    ensures a == b
  {
    EveryInterleavingKeepsInv(hash, actions);
  }

  /** A payment row exists exactly for the transactions that were told they created it;
      losers, aborted and unfinished transactions leave none. */
  lemma LosersLeaveNoRow(hash: Hash, actions: seq<Action>, tx: TxId)
    ensures
      var w := Run(hash, INITIAL, actions);
      tx in w.store.tables.payments <==>
        && tx in w.txs && w.txs[tx].phase.Done? && w.txs[tx].phase.response.Response?
        && w.txs[tx].phase.response.body.PaymentRow? && w.txs[tx].phase.response.body.id == tx
  {
    EveryInterleavingKeepsInv(hash, actions);
  }

  /** All successful answers under one key are the same answer. */
  lemma SuccessfulAnswersAgree(hash: Hash, actions: seq<Action>, a: TxId, b: TxId)
    requires
      var w := Run(hash, INITIAL, actions);
      && a in w.txs && b in w.txs
      && SameKey(w.txs[a].request, w.txs[b].request)
      && w.txs[a].phase.Done? && w.txs[a].phase.response.Response?
      && w.txs[b].phase.Done? && w.txs[b].phase.response.Response?
    ensures
      var w := Run(hash, INITIAL, actions);
      && w.txs[a].phase.response == w.txs[b].phase.response
      && hash(BodyOf(w.txs[a].request.op)) == hash(BodyOf(w.txs[b].request.op))
  {
    EveryInterleavingKeepsInv(hash, actions);
  }

  /** A flushed transaction can always commit: nothing that happens meanwhile takes its key
      or its reference. */
  lemma FlushedCannotLose(hash: Hash, actions: seq<Action>, tx: TxId)
    requires At(Run(hash, INITIAL, actions), tx, Flushed)
    ensures
      var w := Run(hash, INITIAL, actions);
      tx in Do(hash, w, Commit(tx)).store.tables.payments && !TakenInStore(w.store, w.txs[tx].request)
  {
    EveryInterleavingKeepsInv(hash, actions);
  }

  // ---------------------------------------------------------------- waiting

  /** Both requests claim one idempotency key, or were given one reference by one provider. */
  predicate Rivals(a: Request, b: Request) {
    || SameKey(a, b)
    || (&& a.op.Create? && b.op.Create? && a.op.charge.Replied? && b.op.charge.Replied?
        && a.op.provider == b.op.provider && a.op.charge.value.reference == b.op.charge.value.reference)
  }

  lemma RivalsClashExactly(a: Request, b: Request)
    ensures Clash(a, b) <==> Rivals(a, b)
  {
    if Keyed(a) && Keyed(b) {
      KeysCoincideExactly(a, b);
    }
  }

  /** Committed rows keep the provider and the reference of their transaction. */
  ghost predicate RowsNameTheirCharge(w: World) {
    forall id :: id in w.store.tables.payments && id in w.txs ==>
      var op, row := w.txs[id].request.op, w.store.tables.payments[id];
      && op.Create? && op.charge.Replied?
      && row.provider == op.provider && row.reference == Some(op.charge.value.reference)
  }

  lemma CommitKeepsCharges(hash: Hash, w: World, tx: TxId)
    requires RowsNameTheirCharge(w) && At(w, tx, Flushed)
    requires w.txs[tx].request.op.Create? && w.txs[tx].request.op.charge.Replied?
    ensures RowsNameTheirCharge(CommitStep(hash, w, tx))
  {
  }

  lemma ServeKeepsCharges(hash: Hash, w: World, r: Request)
    requires RowsNameTheirCharge(w) && !r.op.Create?
    ensures RowsNameTheirCharge(Do(hash, w, Serve(r)))
  {
    ServeTouches(hash, w.store, r);
  }

  /** Any other action leaves the committed rows and the requests behind them alone. */
  lemma OthersKeepCharges(hash: Hash, w: World, a: Action)
    requires RowsNameTheirCharge(w) && RowsAreAnswered(w) && !a.Commit? && !a.Serve?
    ensures RowsNameTheirCharge(Do(hash, w, a))
  {
    var w' := Do(hash, w, a);
    assert w'.store == w.store;
    assert forall id :: id in w.txs ==> id in w'.txs && w'.txs[id].request == w.txs[id].request;
  }

  lemma StepKeepsCharges(hash: Hash, w: World, a: Action)
    requires RowsAreAnswered(w) && TxsWellFormed(w) && RowsNameTheirCharge(w)
    ensures RowsNameTheirCharge(Do(hash, w, a))
  {
    if a.Commit? && At(w, a.tx, Flushed) {
      CommitKeepsCharges(hash, w, a.tx);
    } else if a.Serve? && !a.request.op.Create? {
      ServeKeepsCharges(hash, w, a.request);
    } else if a.Commit? || a.Serve? {
      assert Do(hash, w, a) == w;
    } else {
      OthersKeepCharges(hash, w, a);
    }
  }

  lemma {:induction false} EveryRowNamesItsCharge(hash: Hash, actions: seq<Action>)
    ensures RowsNameTheirCharge(Run(hash, INITIAL, actions))
  {
    if actions == [] {
    } else {
      EveryInterleavingKeepsInv(hash, actions[..|actions| - 1]);
      EveryRowNamesItsCharge(hash, actions[..|actions| - 1]);
      StepKeepsCharges(hash, Run(hash, INITIAL, actions[..|actions| - 1]), actions[|actions| - 1]);
    }
  }

  /** Some other transaction has flushed what `tx` claims and holds it. */
  predicate RivalFlushed(w: World, tx: TxId)
    requires tx in w.txs
  {
    exists other | other in w.txs ::
      other != tx && w.txs[other].phase.Flushed? && Rivals(w.txs[other].request, w.txs[tx].request)
  }

  /** Some committed transaction claims what `tx` claims. */
  predicate RivalCommitted(w: World, tx: TxId)
    requires tx in w.txs
  {
    exists other | other in w.txs ::
      other in w.store.tables.payments && Rivals(w.txs[other].request, w.txs[tx].request)
  }

  lemma TakenByRivalExactly(hash: Hash, actions: seq<Action>, tx: TxId)
    requires At(Run(hash, INITIAL, actions), tx, Accepted)
    ensures
      var w := Run(hash, INITIAL, actions);
      TakenInStore(w.store, w.txs[tx].request) <==> RivalCommitted(w, tx)
  {
    var w := Run(hash, INITIAL, actions);
    var r := w.txs[tx].request;
    EveryInterleavingKeepsInv(hash, actions);
    EveryRowNamesItsCharge(hash, actions);
    if Keyed(r) && KeyOf(r) in w.store.keys {
      var id := w.store.keys[KeyOf(r)].body.id;
      RivalsClashExactly(w.txs[id].request, r);
    }
    forall other | other in w.txs && other in w.store.tables.payments && Rivals(w.txs[other].request, r)
      ensures TakenInStore(w.store, r)
    {
      RivalsClashExactly(w.txs[other].request, r);
    }
  }

  /** What a flush comes to, on any schedule: it waits exactly while a rival has flushed and
      not committed, and otherwise is told of a broken constraint exactly if a rival committed.
      Requests under different keys and references never hinder each other. */
  lemma FlushDependsOnRivalsExactly(hash: Hash, actions: seq<Action>, tx: TxId)
    requires At(Run(hash, INITIAL, actions), tx, Accepted)
    ensures
      var w := Run(hash, INITIAL, actions);
      Do(hash, w, Flush(tx)) ==
        if RivalFlushed(w, tx) then w
        else Goto(w, tx, if RivalCommitted(w, tx) then Done(Failure(Integrity)) else Flushed)
  {
    var w := Run(hash, INITIAL, actions);
    forall other | other in w.txs
      ensures Clash(w.txs[other].request, w.txs[tx].request) <==> Rivals(w.txs[other].request, w.txs[tx].request)
    {
      RivalsClashExactly(w.txs[other].request, w.txs[tx].request);
    }
    TakenByRivalExactly(hash, actions, tx);
  }

  /** A schedule that goes on from `before` without giving any transaction up. */
  ghost predicate GoesOn(before: seq<Action>, after: seq<Action>) {
    before <= after && forall k :: |before| <= k < |after| ==> !after[k].Abort?
  }

  function FlushedTxs(w: World): set<TxId> {
    set tx | tx in w.txs && w.txs[tx].phase.Flushed?
  }

  lemma CommitFinishes(hash: Hash, before: seq<Action>, tx: TxId)
    requires At(Run(hash, INITIAL, before), tx, Flushed)
    ensures
      var w, w' := Run(hash, INITIAL, before), Run(hash, INITIAL, before + [Commit(tx)]);
      && tx in w'.txs && w'.txs[tx].phase.Done? && FlushedTxs(w') == FlushedTxs(w) - {tx}
      && forall other :: At(w, other, Accepted) ==> At(w', other, Accepted)
  {
    EveryInterleavingKeepsInv(hash, before);
    RunExtends(hash, INITIAL, before, Commit(tx));
  }

  /** Everybody who holds something another waits for can commit first. */
  lemma {:induction false} RivalsCanCommit(hash: Hash, before: seq<Action>, tx: TxId) returns (after: seq<Action>)
    requires At(Run(hash, INITIAL, before), tx, Accepted)
    ensures GoesOn(before, after)
    ensures At(Run(hash, INITIAL, after), tx, Accepted) && !RivalFlushed(Run(hash, INITIAL, after), tx)
    decreases FlushedTxs(Run(hash, INITIAL, before))
  {
    after := before;
    var w := Run(hash, INITIAL, before);
    if RivalFlushed(w, tx) {
      var other :| other in w.txs && w.txs[other].phase.Flushed?;
      assert other in FlushedTxs(w);
      CommitFinishes(hash, before, other);
      after := RivalsCanCommit(hash, before + [Commit(other)], tx);
    }
  }

  lemma FinishAccepted(hash: Hash, before: seq<Action>, tx: TxId) returns (after: seq<Action>)
    requires At(Run(hash, INITIAL, before), tx, Accepted)
    ensures GoesOn(before, after) && Answered(Run(hash, INITIAL, after), tx)
  {
    after := RivalsCanCommit(hash, before, tx);
    FlushDependsOnRivalsExactly(hash, after, tx);
    RunExtends(hash, INITIAL, after, Flush(tx));
    after := after + [Flush(tx)];
    if At(Run(hash, INITIAL, after), tx, Flushed) {
      CommitFinishes(hash, after, tx);
      after := after + [Commit(tx)];
    }
  }

  lemma FinishMissed(hash: Hash, before: seq<Action>, tx: TxId) returns (after: seq<Action>)
    requires At(Run(hash, INITIAL, before), tx, Missed)
    ensures GoesOn(before, after) && Answered(Run(hash, INITIAL, after), tx)
  {
    EveryInterleavingKeepsInv(hash, before);
    RunExtends(hash, INITIAL, before, Execute(tx));
    after := before + [Execute(tx)];
    if At(Run(hash, INITIAL, after), tx, Accepted) {
      after := FinishAccepted(hash, after, tx);
    }
  }

  lemma FinishStarted(hash: Hash, before: seq<Action>, tx: TxId) returns (after: seq<Action>)
    requires At(Run(hash, INITIAL, before), tx, Started)
    ensures GoesOn(before, after) && Answered(Run(hash, INITIAL, after), tx)
  {
    RunExtends(hash, INITIAL, before, Lookup(tx));
    after := before + [Lookup(tx)];
    if At(Run(hash, INITIAL, after), tx, Missed) {
      after := FinishMissed(hash, after, tx);
    }
  }

  predicate Answered(w: World, tx: TxId) {
    tx in w.txs && w.txs[tx].phase.Done?
  }

  /** Nobody waits for ever: from any point of any schedule a transaction that has not been
      given up can still be answered, with no transaction being given up for it. */
  lemma EveryRequestCanBeAnswered(hash: Hash, before: seq<Action>, tx: TxId) returns (after: seq<Action>)
    requires tx in Run(hash, INITIAL, before).txs && !Run(hash, INITIAL, before).txs[tx].phase.Aborted?
    ensures GoesOn(before, after) && Answered(Run(hash, INITIAL, after), tx)
  {
    after := before;
    match Run(hash, INITIAL, before).txs[tx].phase
    case Started => after := FinishStarted(hash, before, tx);
    case Missed => after := FinishMissed(hash, before, tx);
    case Accepted => after := FinishAccepted(hash, before, tx);
    case Flushed =>
      CommitFinishes(hash, before, tx);
      after := before + [Commit(tx)];
    case Done(_) =>
  }

  lemma {:induction false} AbortedStays(hash: Hash, w: World, actions: seq<Action>, tx: TxId)
    requires At(w, tx, Aborted)
    ensures At(Run(hash, w, actions), tx, Aborted)
  {
    if actions == [] {
    } else {
      AbortedStays(hash, w, actions[..|actions| - 1], tx);
    }
  }

  lemma {:induction false} RunSplits(hash: Hash, w: World, before: seq<Action>, more: seq<Action>)
    ensures Run(hash, w, before + more) == Run(hash, Run(hash, w, before), more)
  {
    if more == [] {
      assert before + more == before;
    } else {
      var n := |more| - 1;
      RunSplits(hash, w, before, more[..n]);
      assert (before + more)[..|before + more| - 1] == before + more[..n];
    }
  }

  /** Some third transaction has flushed what `other` claims and holds it. */
  predicate ThirdFlushed(w: World, tx: TxId, other: TxId)
    requires other in w.txs
  {
    exists third | third in w.txs ::
      third !in {tx, other} && w.txs[third].phase.Flushed? && Rivals(w.txs[third].request, w.txs[other].request)
  }

  lemma AbortedHoldsNothing(w: World, tx: TxId, other: TxId)
    requires tx in w.txs && other in w.txs && tx != other
    ensures RivalFlushed(Goto(w, tx, Aborted), other) <==> ThirdFlushed(w, tx, other)
  {
    var w' := Goto(w, tx, Aborted);
    assert w'.txs.Keys == w.txs.Keys;
    if third :| third in w.txs && third !in {tx, other} && w.txs[third].phase.Flushed?
                && Rivals(w.txs[third].request, w.txs[other].request) {
      assert w'.txs[third] == w.txs[third] && w'.txs[other] == w.txs[other];
    }
  }

  /** A transaction that is given up before it was answered changes no committed row, then or
      later. */
  lemma GivingUpLeavesNoTrace(hash: Hash, before: seq<Action>, tx: TxId, more: seq<Action>)
    requires tx in Run(hash, INITIAL, before).txs && !Run(hash, INITIAL, before).txs[tx].phase.Done?
    ensures Run(hash, INITIAL, before + [Abort(tx)]) == Goto(Run(hash, INITIAL, before), tx, Aborted)
    ensures tx !in Run(hash, INITIAL, before + [Abort(tx)] + more).store.tables.payments
  {
    RunExtends(hash, INITIAL, before, Abort(tx));
    RunSplits(hash, INITIAL, before + [Abort(tx)], more);
    AbortedStays(hash, Run(hash, INITIAL, before + [Abort(tx)]), more, tx);
    LosersLeaveNoRow(hash, before + [Abort(tx)] + more, tx);
  }

  /** And from then on it hinders nobody: what another waits for is what the rest holds. */
  lemma GivingUpFreesItsClaims(hash: Hash, before: seq<Action>, tx: TxId, other: TxId)
    requires tx in Run(hash, INITIAL, before).txs && !Run(hash, INITIAL, before).txs[tx].phase.Done?
    requires other != tx && At(Run(hash, INITIAL, before), other, Accepted)
    ensures
      var w, after := Run(hash, INITIAL, before), before + [Abort(tx)];
      Run(hash, INITIAL, after + [Flush(other)]) == Run(hash, INITIAL, after) <==> ThirdFlushed(w, tx, other)
  {
    var w, after := Run(hash, INITIAL, before), before + [Abort(tx)];
    GivingUpLeavesNoTrace(hash, before, tx, []);
    AbortedHoldsNothing(w, tx, other);
    assert At(Goto(w, tx, Aborted), other, Accepted);
    FlushDependsOnRivalsExactly(hash, after, other);
    RunExtends(hash, INITIAL, after, Flush(other));
  }

  lemma CaptureIsServed(hash: Hash, s: Store, r: Request)
    requires LedgerInv(s.tables) && r.op.Capture? && r.op.capture.None? && r.op.charge.Replied?
    requires r.op.id in s.tables.payments && s.tables.payments[r.op.id].owner == r.op.owner
    requires s.tables.payments[r.op.id].status.Authorized?
    ensures
      var c := r.op.charge.value.amountCaptured;
      var p := s.tables.payments[r.op.id];
      var row := p.(status := PaymentStatus.Captured, captured := if c == 0 then p.amount else c);
      Handle(hash, s, r) == Handled(Store(Put(s.tables, r.op.id, row), s.keys), Response(200, PaymentRow(r.op.id, row)))
  {
    CommitsExactlyWhenAccepted(s.tables, r.op);
    var w := Apply(s.tables, r.op);
    assert w.result.Ok?;
    LE.CaptureStoresTheAmount(s.tables, r.op);
    assert !Keyed(r) && SuccessStatus(r.op) == 200;
    assert Handle(hash, s, r) == Handled(Store(w.tables, s.keys), Response(200, w.result.value));
  }

  lemma ServeRuns(hash: Hash, before: seq<Action>, r: Request)
    requires !r.op.Create?
    ensures
      var w := Run(hash, INITIAL, before);
      Run(hash, INITIAL, before + [Serve(r)]) == World(Handle(hash, w.store, r).store, w.txs, w.history + [r])
  {
    RunExtends(hash, INITIAL, before, Serve(r));
  }

  /** A committed payment can be captured whatever creates are open: neither waits for the
      other, and every transaction and every other row stays as it is. */
  lemma CapturesDoNotWait(hash: Hash, before: seq<Action>, r: Request)
    requires r.op.Capture? && r.op.capture.None? && r.op.charge.Replied?
    requires
      var payments := Run(hash, INITIAL, before).store.tables.payments;
      r.op.id in payments && payments[r.op.id].owner == r.op.owner && payments[r.op.id].status.Authorized?
    ensures
      var w, c := Run(hash, INITIAL, before), r.op.charge.value.amountCaptured;
      var p := w.store.tables.payments[r.op.id];
      var row := p.(status := PaymentStatus.Captured, captured := if c == 0 then p.amount else c);
      Run(hash, INITIAL, before + [Serve(r)]) ==
        World(Store(Put(w.store.tables, r.op.id, row), w.store.keys), w.txs, w.history + [r])
  {
    EveryInterleavingKeepsInv(hash, before);
    ServeRuns(hash, before, r);
    CaptureIsServed(hash, Run(hash, INITIAL, before).store, r);
  }

  // ---------------------------------------------------------------- charges

  /** The provider has not been asked for this transaction, and never will be. */
  ghost predicate NeverCharges(w: World, tx: TxId) {
    && tx in w.txs && Keyed(w.txs[tx].request) && KeyOf(w.txs[tx].request) in w.store.keys
    && !w.txs[tx].phase.Missed? && !w.txs[tx].phase.Accepted? && !w.txs[tx].phase.Flushed?
  }

  lemma NeverChargesStep(hash: Hash, w: World, a: Action, tx: TxId)
    requires NeverCharges(w, tx)
    ensures NeverCharges(Do(hash, w, a), tx)
  {
  }

  /** A retry that looks its key up after the first request committed never reaches the
      provider, whatever happens next. */
  lemma {:induction false} LateRetryNeverCharges(hash: Hash, w: World, actions: seq<Action>, tx: TxId)
    requires At(w, tx, Started)
    requires Keyed(w.txs[tx].request) && KeyOf(w.txs[tx].request) in w.store.keys
    ensures NeverCharges(Run(hash, w, actions), tx)
  {
    if actions == [] {
    } else {
      LateRetryNeverCharges(hash, w, actions[..|actions| - 1], tx);
      NeverChargesStep(hash, Run(hash, w, actions[..|actions| - 1]), actions[|actions| - 1], tx);
    }
  }

  /** A keyed create that the service would accept can still be charged exactly while no key
      row is committed: this is when the documented at-most-once promise can fail. */
  lemma ChargeableExactlyWhileKeyIsFree(hash: Hash, w: World, tx: TxId)
    requires At(w, tx, Started) && Keyed(w.txs[tx].request) && w.txs[tx].request.op.Create?
    requires CreatePayment(w.store.tables, w.txs[tx].request.op).result.Ok?
    ensures (exists actions :: At(Run(hash, w, actions), tx, Accepted)) <==> KeyOf(w.txs[tx].request) !in w.store.keys
  {
    if KeyOf(w.txs[tx].request) in w.store.keys {
      forall actions
        ensures !At(Run(hash, w, actions), tx, Accepted)
      {
        LateRetryNeverCharges(hash, w, actions, tx);
      }
    } else {
      FreeKeyCanBeCharged(hash, w, tx);
    }
  }

  lemma {:induction false} FreeKeyCanBeCharged(hash: Hash, w: World, tx: TxId)
    requires At(w, tx, Started) && Keyed(w.txs[tx].request) && w.txs[tx].request.op.Create?
    requires CreatePayment(w.store.tables, w.txs[tx].request.op).result.Ok?
    requires KeyOf(w.txs[tx].request) !in w.store.keys
    ensures exists actions :: At(Run(hash, w, actions), tx, Accepted)
  {
    assert Run(hash, w, []) == w;
    RunExtends(hash, w, [], Lookup(tx));
    RunExtends(hash, w, [] + [Lookup(tx)], Execute(tx));
    assert At(Run(hash, w, [] + [Lookup(tx)]), tx, Missed);
    assert At(Run(hash, w, [] + [Lookup(tx)] + [Execute(tx)]), tx, Accepted);
  }

  lemma {:induction false} RunExtends(hash: Hash, w: World, actions: seq<Action>, a: Action)
    ensures Run(hash, w, actions + [a]) == Do(hash, Run(hash, w, actions), a)
  {
    assert (actions + [a])[..|actions|] == actions;
  }

  /** Two transactions of an empty world, both in the same phase. */
  function Pair(a: Request, b: Request, phase: Phase): World
    requires a.op.Create? && b.op.Create?
  {
    World(Store(EMPTY, map[]), map[a.op.id := Tx(a, phase), b.op.id := Tx(b, phase)], [])
  }

  lemma {:induction false} BothStart(hash: Hash, a: Request, b: Request) returns (actions: seq<Action>)
    requires a.op.Create? && b.op.Create? && a.op.id != b.op.id
    ensures Run(hash, INITIAL, actions) == Pair(a, b, Started)
  {
    var i, j := a.op.id, b.op.id;
    actions := [Start(i, a)] + [Start(j, b)];
    assert [] + [Start(i, a)] == [Start(i, a)];
    RunExtends(hash, INITIAL, [], Start(i, a));
    RunExtends(hash, INITIAL, [Start(i, a)], Start(j, b));
  }

  lemma LookupMisses(hash: Hash, w: World, tx: TxId)
    requires At(w, tx, Started) && w.store.keys == map[]
    ensures Do(hash, w, Lookup(tx)) == Goto(w, tx, Missed)
  {
  }

  lemma ExecuteAccepts(hash: Hash, w: World, tx: TxId)
    requires At(w, tx, Missed) && w.store.tables == EMPTY && w.txs[tx].request.op.Create?
    requires CreatePayment(EMPTY, w.txs[tx].request.op).result.Ok?
    ensures Do(hash, w, Execute(tx)) == Goto(w, tx, Accepted)
  {
  }

  lemma {:induction false} BothLookUp(hash: Hash, a: Request, b: Request, before: seq<Action>)
    returns (actions: seq<Action>)
    requires a.op.Create? && b.op.Create? && a.op.id != b.op.id
    requires Run(hash, INITIAL, before) == Pair(a, b, Started)
    ensures Run(hash, INITIAL, actions) == Pair(a, b, Missed)
  {
    var i, j := a.op.id, b.op.id;
    var w := Pair(a, b, Started);
    actions := before + [Lookup(i)] + [Lookup(j)];
    RunExtends(hash, INITIAL, before, Lookup(i));
    LookupMisses(hash, w, i);
    RunExtends(hash, INITIAL, before + [Lookup(i)], Lookup(j));
    LookupMisses(hash, Goto(w, i, Missed), j);
    assert Goto(Goto(w, i, Missed), j, Missed) == Pair(a, b, Missed);
  }

  lemma {:induction false} BothExecute(hash: Hash, a: Request, b: Request, before: seq<Action>)
    returns (actions: seq<Action>)
    requires a.op.Create? && b.op.Create? && a.op.id != b.op.id
    requires CreatePayment(EMPTY, a.op).result.Ok? && CreatePayment(EMPTY, b.op).result.Ok?
    requires Run(hash, INITIAL, before) == Pair(a, b, Missed)
    ensures Run(hash, INITIAL, actions) == Pair(a, b, Accepted)
  {
    var i, j := a.op.id, b.op.id;
    var w := Pair(a, b, Missed);
    actions := before + [Execute(i)] + [Execute(j)];
    RunExtends(hash, INITIAL, before, Execute(i));
    ExecuteAccepts(hash, w, i);
    RunExtends(hash, INITIAL, before + [Execute(i)], Execute(j));
    ExecuteAccepts(hash, Goto(w, i, Accepted), j);
    assert Goto(Goto(w, i, Accepted), j, Accepted) == Pair(a, b, Accepted);
  }

  /** Both requests have been accepted by the provider; nothing is committed. */
  lemma BothReachProvider(hash: Hash, a: Request, b: Request) returns (actions: seq<Action>)
    requires a.op.Create? && b.op.Create? && a.op.id != b.op.id
    requires CreatePayment(EMPTY, a.op).result.Ok? && CreatePayment(EMPTY, b.op).result.Ok?
    ensures Run(hash, INITIAL, actions) == Pair(a, b, Accepted)
  {
    actions := BothStart(hash, a, b);
    actions := BothLookUp(hash, a, b, actions);
    actions := BothExecute(hash, a, b, actions);
  }

  /** Keys bound payments, not charges: any two acceptable creates under one key can overlap
      so that the provider accepts both, and one of them is then lost. */
  lemma OverlappingRetriesBothCharge(hash: Hash, a: Request, b: Request)
    returns (charged: seq<Action>, rest: seq<Action>)
    requires a.op.Create? && b.op.Create? && a.op.id != b.op.id
    requires SameKey(a, b)
    requires CreatePayment(EMPTY, a.op).result.Ok? && CreatePayment(EMPTY, b.op).result.Ok?
    ensures At(Run(hash, INITIAL, charged), a.op.id, Accepted) && At(Run(hash, INITIAL, charged), b.op.id, Accepted)
    ensures
      var w := Run(hash, INITIAL, charged + rest);
      && a.op.id in w.store.tables.payments && b.op.id !in w.store.tables.payments
      && At(w, b.op.id, Done(Failure(Integrity))) && w.txs[b.op.id].request == b
      && w.history == [a] && KeyOf(a) in w.store.keys
  {
    var i, j := a.op.id, b.op.id;
    charged := BothReachProvider(hash, a, b);
    var w0 := Run(hash, INITIAL, charged);
    rest := [Flush(i), Commit(i), Flush(j)];
    var w1 := FlushFirst(hash, w0, a, b);
    FlushSecond(hash, w1, a, b);
    RunExtends(hash, INITIAL, charged, Flush(i));
    RunTwoMore(hash, charged + [Flush(i)], w1, i, j);
    assert charged + rest == charged + [Flush(i)] + [Commit(i), Flush(j)];
  }

  lemma {:induction false} RunTwoMore(hash: Hash, actions: seq<Action>, w: World, i: TxId, j: TxId)
    requires Run(hash, INITIAL, actions) == w
    ensures Run(hash, INITIAL, actions + [Commit(i), Flush(j)]) == Do(hash, Do(hash, w, Commit(i)), Flush(j))
  {
    RunExtends(hash, INITIAL, actions, Commit(i));
    RunExtends(hash, INITIAL, actions + [Commit(i)], Flush(j));
    assert actions + [Commit(i), Flush(j)] == actions + [Commit(i)] + [Flush(j)];
  }

  lemma FlushFirst(hash: Hash, w: World, a: Request, b: Request) returns (w': World)
    requires a.op.Create? && b.op.Create? && a.op.id != b.op.id
    requires w == Pair(a, b, Accepted)
    ensures w' == Do(hash, w, Flush(a.op.id))
    ensures w' == World(Store(EMPTY, map[]), map[a.op.id := Tx(a, Flushed), b.op.id := Tx(b, Accepted)], [])
  {
    w' := Do(hash, w, Flush(a.op.id));
    assert !Blocked(w, a.op.id) && !TakenInStore(w.store, a);
  }

  lemma FlushSecond(hash: Hash, w: World, a: Request, b: Request)
    requires a.op.Create? && b.op.Create? && a.op.id != b.op.id && a.op.charge.Replied?
    requires SameKey(a, b)
    requires w == World(Store(EMPTY, map[]), map[a.op.id := Tx(a, Flushed), b.op.id := Tx(b, Accepted)], [])
    ensures
      var w' := Do(hash, Do(hash, w, Commit(a.op.id)), Flush(b.op.id));
      && a.op.id in w'.store.tables.payments && b.op.id !in w'.store.tables.payments
      && At(w', b.op.id, Done(Failure(Integrity))) && w'.txs[b.op.id].request == b
      && w'.history == [a] && KeyOf(a) in w'.store.keys
  {
    var w1 := Do(hash, w, Commit(a.op.id));
    assert KeyOf(b) in w1.store.keys && At(w1, b.op.id, Accepted) && !Blocked(w1, b.op.id);
  }
}
