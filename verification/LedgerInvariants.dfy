/**
 What every run of the ledger keeps. A run is any sequence of requests with any provider
 replies; requests on one payment are serialised, since the services read a payment without
 locking it.
 */
module LedgerInvariants {
  import opened Common
  import opened Enums
  import opened StateMachine
  import opened Money
  import opened Model
  import opened Ledger

  function Run(t: Tables, ops: seq<Op>): Tables {
    if ops == [] then t else Apply(Run(t, ops[..|ops| - 1]), ops[|ops| - 1]).tables
  }

  /** The sum of a payment's refund rows, pending ones included. */
  function RefundTotal(rs: seq<Refund>, id: PaymentId): int {
    if rs == [] then 0
    else RefundTotal(rs[..|rs| - 1], id) + if rs[|rs| - 1].payment == id then rs[|rs| - 1].amount else 0
  }

  function RefundCount(rs: seq<Refund>, id: PaymentId): nat {
    if rs == [] then 0
    else RefundCount(rs[..|rs| - 1], id) + if rs[|rs| - 1].payment == id then 1 else 0
  }

  /** Status, captured and refunded amounts of a committed payment agree. */
  ghost predicate Consistent(p: Payment) {
    && p.amount > 0 && p.reference.Some?
    && p.status != RequiresConfirmation
    && (p.status in {Authorized, Canceled, PaymentStatus.Failed} ==> p.captured == 0)
    && 0 <= p.refunded <= Max(0, p.captured)
    && (p.status.Refunded? <==> p.refunded == p.captured > 0)
    && (p.status.PartiallyRefunded? <==> 0 < p.refunded < p.captured)
  }

  ghost predicate RowsMatch(t: Tables) {
    forall i :: 0 <= i < |t.refunds| ==>
      && t.refunds[i].amount > 0
      && t.refunds[i].payment in t.payments
      && t.refunds[i].currency == t.payments[t.refunds[i].payment].currency
  }

  ghost predicate LedgerInv(t: Tables) {
    && (forall id :: id in t.payments ==> Consistent(t.payments[id]))
    && (forall id :: id in t.payments ==> t.payments[id].refunded == RefundTotal(t.refunds, id))
    && RowsMatch(t)
    && UniqueReferences(t)
  }

  lemma {:induction false} NoRowsNoTotal(rs: seq<Refund>, id: PaymentId)
    requires forall i :: 0 <= i < |rs| ==> rs[i].payment != id
    ensures RefundTotal(rs, id) == 0
  {
    if rs == [] {
    } else {
      NoRowsNoTotal(rs[..|rs| - 1], id);
    }
  }

  lemma AppendTotal(rs: seq<Refund>, r: Refund, id: PaymentId)
    ensures RefundTotal(rs + [r], id) == RefundTotal(rs, id) + if r.payment == id then r.amount else 0
  {
    assert (rs + [r])[..|rs|] == rs;
  }

  /** A new or changed row that owes nothing to the refund rows keeps the ledger. */
  lemma PutKeepsInv(t: Tables, id: PaymentId, q: Payment)
    requires LedgerInv(t) && UniqueReferences(Put(t, id, q))
    requires Consistent(q)
    requires id in t.payments ==> q.refunded == t.payments[id].refunded && q.currency == t.payments[id].currency
    requires id !in t.payments ==> q.refunded == 0
    ensures LedgerInv(Put(t, id, q))
  {
    if id !in t.payments {
      NoRowsNoTotal(t.refunds, id);
    }
  }

  /** What a committed refund does: one row appended, one payment moved. */
  lemma RefundEffect(t: Tables, op: Op)
    requires LedgerInv(t) && op.MakeRefund? && Apply(t, op).result.Ok?
    ensures
      var t', row := Apply(t, op).tables, Apply(t, op).result.value.refund;
      && op.id in t.payments && row.payment == op.id && row.amount > 0 && row.currency == t.payments[op.id].currency
      && row.amount <= t.payments[op.id].captured - t.payments[op.id].refunded
      && t' == WithRefund(t, row)
      && UniqueReferences(t')
  {
  }

  lemma RefundedIsConsistent(p: Payment, amount: int)
    requires Consistent(p) && 0 < amount <= p.captured - p.refunded
    ensures Consistent(RefundedPayment(p, amount))
  {
  }

  lemma RefundKeepsInv(t: Tables, op: Op)
    requires LedgerInv(t) && op.MakeRefund?
    ensures LedgerInv(Apply(t, op).tables)
  {
    if Apply(t, op).result.Ok? {
      RefundEffect(t, op);
      var row := Apply(t, op).result.value.refund;
      RefundedIsConsistent(t.payments[op.id], row.amount);
      AppendKeepsInv(t, row);
    }
  }

  /** The ledger with one more refund row, counted on its payment. */
  function WithRefund(t: Tables, row: Refund): Tables
    requires row.payment in t.payments
  {
    Tables(t.payments[row.payment := RefundedPayment(t.payments[row.payment], row.amount)], t.refunds + [row])
  }

  lemma AppendKeepsInv(t: Tables, row: Refund)
    requires LedgerInv(t) && row.payment in t.payments && row.amount > 0
    requires row.currency == t.payments[row.payment].currency
    requires Consistent(RefundedPayment(t.payments[row.payment], row.amount))
    requires UniqueReferences(WithRefund(t, row))
    ensures LedgerInv(WithRefund(t, row))
  {
    forall id | id in t.payments
      ensures RefundTotal(t.refunds + [row], id) ==
              RefundTotal(t.refunds, id) + if row.payment == id then row.amount else 0
    {
      AppendTotal(t.refunds, row, id);
    }
  }

  lemma StepKeepsInv(t: Tables, op: Op)
    requires LedgerInv(t)
    ensures LedgerInv(Apply(t, op).tables)
  {
    if op.MakeRefund? {
      RefundKeepsInv(t, op);
    } else if Apply(t, op).result.Ok? {
      PutKeepsInv(t, op.id, Apply(t, op).result.value.payment);
    }
  }

  /** Whatever the providers reply, in every reachable store a payment's refunded amount is
      the sum of its refund rows, never exceeds what was captured, and fits its status. */
  lemma {:induction false} EveryRunKeepsTheLedger(t: Tables, ops: seq<Op>)
    requires LedgerInv(t)
    ensures LedgerInv(Run(t, ops))
  {
    if ops == [] {
    } else {
      EveryRunKeepsTheLedger(t, ops[..|ops| - 1]);
      StepKeepsInv(Run(t, ops[..|ops| - 1]), ops[|ops| - 1]);
    }
  }

  // ---------------------------------------------------------------- rows only move forward

  /** From `p` to `q` a payment kept its identity and moved along the lifecycle. */
  ghost predicate Advances(p: Payment, q: Payment) {
    && q.owner == p.owner && q.provider == p.provider && q.reference == p.reference
    && q.amount == p.amount && q.currency == p.currency
    && q.captureMethod == p.captureMethod && q.details == p.details && q.failureReason == p.failureReason
    && (p.status != Authorized ==> q.captured == p.captured && q.status != Authorized)
    && p.refunded <= q.refunded
    && (p.status in TERMINAL_STATES ==> q == p)
  }

  /** A request changes at most the payment it names and adds at most one refund row. */
  lemma OnlyItsRowChanges(t: Tables, op: Op, other: PaymentId)
    requires other in t.payments && other != op.id
    ensures
      var t' := Apply(t, op).tables;
      && other in t'.payments && t'.payments[other] == t.payments[other]
      && t.refunds <= t'.refunds && |t'.refunds| <= |t.refunds| + 1
      && (!op.MakeRefund? ==> t'.refunds == t.refunds)
  {
  }

  lemma StepAdvances(t: Tables, op: Op, id: PaymentId)
    requires LedgerInv(t) && id in t.payments
    ensures id in Apply(t, op).tables.payments
    ensures Advances(t.payments[id], Apply(t, op).tables.payments[id])
  {
    if id != op.id {
      OnlyItsRowChanges(t, op, id);
    } else {
      assert Consistent(t.payments[id]);
    }
  }

  /** Once a payment has left AUTHORIZED its captured amount never changes again, a terminal
      payment never changes at all, and no request touches who pays whom how much. */
  lemma {:induction false} RowsAdvance(t: Tables, ops: seq<Op>, id: PaymentId)
    requires LedgerInv(t) && id in t.payments
    ensures id in Run(t, ops).payments
    ensures Advances(t.payments[id], Run(t, ops).payments[id])
  {
    if ops == [] {
    } else {
      RowsAdvance(t, ops[..|ops| - 1], id);
      EveryRunKeepsTheLedger(t, ops[..|ops| - 1]);
      StepAdvances(Run(t, ops[..|ops| - 1]), ops[|ops| - 1], id);
    }
  }

  /** Requests of one owner never change another owner's payments. */
  lemma {:induction false} OwnersAreIsolated(t: Tables, ops: seq<Op>, id: PaymentId)
    requires id in t.payments
    requires forall i :: 0 <= i < |ops| ==> ops[i].owner != t.payments[id].owner
    ensures id in Run(t, ops).payments && Run(t, ops).payments[id] == t.payments[id]
  {
    if ops == [] {
    } else {
      OwnersAreIsolated(t, ops[..|ops| - 1], id);
    }
  }

  // ---------------------------------------------------------------- captured within the amount

  ghost predicate WithinAmount(t: Tables) {
    forall id :: id in t.payments ==> 0 <= t.payments[id].captured <= t.payments[id].amount
  }

  /** The provider's reply captures an amount between zero and the payment's. */
  ghost predicate CapturesWithin(t: Tables, op: Op) {
    match op
    case Create(_, _, _, amount, _, _, Replied(c)) =>
      c.status.Captured? ==> 0 <= c.amountCaptured <= amount.minorUnits
    case Capture(_, id, capture, Replied(c)) =>
      id in t.payments ==>
        0 <= CapturedAmount(c, Requested(t.payments[id], capture).minorUnits) <= t.payments[id].amount
    case _ => true
  }

  lemma CreateWithin(t: Tables, op: Op)
    requires LedgerInv(t) && op.Create? && Apply(t, op).result.Ok?
    ensures WithinAmount(Apply(t, op).tables) <==> WithinAmount(t) && CapturesWithin(t, op)
  {
    OneRowWithin(t, Apply(t, op).tables, op.id);
  }

  lemma CaptureWithin(t: Tables, op: Op)
    requires LedgerInv(t) && op.Capture? && Apply(t, op).result.Ok?
    ensures WithinAmount(Apply(t, op).tables) <==> WithinAmount(t) && CapturesWithin(t, op)
  {
    assert t.payments[op.id].captured == 0;
    OneRowWithin(t, Apply(t, op).tables, op.id);
  }

  lemma OthersStayWithin(t: Tables, op: Op)
    requires LedgerInv(t) && (op.Cancel? || op.MakeRefund?) && Apply(t, op).result.Ok?
    ensures WithinAmount(Apply(t, op).tables) <==> WithinAmount(t)
  {
    OneRowWithin(t, Apply(t, op).tables, op.id);
  }

  lemma WithinAmountStep(t: Tables, op: Op)
    requires LedgerInv(t)
    ensures
      WithinAmount(Apply(t, op).tables) <==>
      WithinAmount(t) && (Apply(t, op).result.Ok? ==> CapturesWithin(t, op))
  {
    if Apply(t, op).result.Ok? {
      match op
      case Create(_, _, _, _, _, _, _) => CreateWithin(t, op);
      case Capture(_, _, _, _) => CaptureWithin(t, op);
      case Cancel(_, _, _) => OthersStayWithin(t, op);
      case MakeRefund(_, _, _, _, _) => OthersStayWithin(t, op);
    }
  }

  /** Only one row can change the verdict. */
  lemma OneRowWithin(t: Tables, t': Tables, id: PaymentId)
    requires id in t'.payments && t'.payments.Keys == t.payments.Keys + {id}
    requires forall q :: q in t.payments && q != id ==> t'.payments[q] == t.payments[q]
    ensures WithinAmount(t') <==>
            && (forall q :: q in t.payments && q != id ==> 0 <= t.payments[q].captured <= t.payments[q].amount)
            && 0 <= t'.payments[id].captured <= t'.payments[id].amount
  {
    forall q | q in t.payments && q != id
      ensures t'.payments[q] == t.payments[q] && q in t'.payments
    {
    }
  }

  /** The i-th request of a run did not commit, or committed a faithful capture. */
  ghost predicate FaithfulAt(ops: seq<Op>, i: nat)
    requires i < |ops|
  {
    var now := Run(EMPTY, ops[..i]);
    Apply(now, ops[i]).result.Ok? ==> CapturesWithin(now, ops[i])
  }

  ghost predicate Faithful(ops: seq<Op>) {
    forall i :: 0 <= i < |ops| ==> FaithfulAt(ops, i)
  }

  lemma {:induction false} FaithfulExtends(ops: seq<Op>)
    requires ops != []
    ensures Faithful(ops) <==> Faithful(ops[..|ops| - 1]) && FaithfulAt(ops, |ops| - 1)
  {
    var front := ops[..|ops| - 1];
    forall i | 0 <= i < |front|
      ensures FaithfulAt(front, i) == FaithfulAt(ops, i)
    {
      assert front[..i] == ops[..i];
    }
    if Faithful(ops) {
      assert forall i :: 0 <= i < |front| ==> FaithfulAt(ops, i);
    }
  }

  /** No payment ever holds more than its amount exactly when every committed reply captured
      between zero and the amount. */
  lemma {:induction false} CapturedWithinAmountExactly(ops: seq<Op>)
    ensures WithinAmount(Run(EMPTY, ops)) <==> Faithful(ops)
  {
    if ops == [] {
    } else {
      var front, n := ops[..|ops| - 1], |ops| - 1;
      CapturedWithinAmountExactly(front);
      EveryRunKeepsTheLedger(EMPTY, front);
      WithinAmountStep(Run(EMPTY, front), ops[n]);
      FaithfulExtends(ops);
    }
  }

  /** The provider's contract and the schema's bounds: a reply captures between zero and the
      requested amount, and a capture request is positive. */
  ghost predicate Contract(t: Tables, op: Op) {
    match op
    case Create(_, _, _, amount, _, _, Replied(c)) => 0 <= c.amountCaptured <= amount.minorUnits
    case Capture(_, id, capture, Replied(c)) =>
      && (capture.Some? ==> capture.value.minorUnits > 0)
      && (id in t.payments ==> 0 <= c.amountCaptured <= Requested(t.payments[id], capture).minorUnits)
    case _ => true
  }

  lemma ContractIsFaithful(t: Tables, op: Op)
    requires LedgerInv(t) && Contract(t, op) && Apply(t, op).result.Ok?
    ensures CapturesWithin(t, op)
  {
  }

  ghost predicate KeepsContract(ops: seq<Op>) {
    forall i :: 0 <= i < |ops| ==> Contract(Run(EMPTY, ops[..i]), ops[i])
  }

  lemma ContractsAreFaithful(ops: seq<Op>)
    requires KeepsContract(ops)
    ensures Faithful(ops)
  {
    forall i | 0 <= i < |ops|
      ensures FaithfulAt(ops, i)
    {
      var now := Run(EMPTY, ops[..i]);
      EveryRunKeepsTheLedger(EMPTY, ops[..i]);
      if Apply(now, ops[i]).result.Ok? {
        ContractIsFaithful(now, ops[i]);
      }
    }
  }

  /** With providers that keep their contract, every reachable payment satisfies
      `0 <= refunded <= captured <= amount`. */
  lemma {:induction false} ContractBoundsTheLedger(ops: seq<Op>, id: PaymentId)
    requires KeepsContract(ops) && id in Run(EMPTY, ops).payments
    ensures
      var p := Run(EMPTY, ops).payments[id];
      0 <= p.refunded <= p.captured <= p.amount
  {
    ContractsAreFaithful(ops);
    CapturedWithinAmountExactly(ops);
    EveryRunKeepsTheLedger(EMPTY, ops);
  }

  /** A provider may report more than the payment; the ledger then refunds more than it. */
  lemma OvercaptureIsPossible()
    ensures
      var create := Create(1, 7, Mock, MoneyAmount(100, "USD"), Automatic, "",
                           Replied(Charge("r", PaymentStatus.Captured, 250, None)));
      var refund := MakeRefund(1, 7, None, None, Replied(RefundReply("f", "succeeded")));
      var t := Run(EMPTY, [create, refund]);
      && 7 in t.payments && t.payments[7].amount == 100 && t.payments[7].refunded == 250
  {
    var create := Create(1, 7, Mock, MoneyAmount(100, "USD"), Automatic, "",
                         Replied(Charge("r", PaymentStatus.Captured, 250, None)));
    var refund := MakeRefund(1, 7, None, None, Replied(RefundReply("f", "succeeded")));
    assert [create, refund][..1] == [create] && [create][..0] == [];
    var p := OvercapturedRow(create);
    FullRefundOf(Run(EMPTY, [create]), refund, p);
  }

  lemma {:induction false} OvercapturedRow(create: Op) returns (p: Payment)
    requires create == Create(1, 7, Mock, MoneyAmount(100, "USD"), Automatic, "",
                              Replied(Charge("r", PaymentStatus.Captured, 250, None)))
    ensures Run(EMPTY, [create]) == Put(EMPTY, 7, p)
    ensures p.owner == 1 && p.amount == 100 && p.captured == 250 && p.refunded == 0 && p.status.Captured?
  {
    assert [create][..0] == [];
    p := Charged(NewPayment(create), create.charge.value);
    assert CreatePayment(EMPTY, create) == Worked(Put(EMPTY, 7, p), Ok(PaymentRow(7, p)));
    assert UniqueReferences(Put(EMPTY, 7, p));
  }

  lemma {:induction false} FullRefundOf(t: Tables, refund: Op, p: Payment)
    requires t == Put(EMPTY, 7, p) && p.owner == 1 && p.captured > 0 && p.refunded == 0 && p.status.Captured?
    requires refund == MakeRefund(1, 7, None, None, Replied(RefundReply("f", "succeeded")))
    ensures 7 in Apply(t, refund).tables.payments
    ensures Apply(t, refund).tables.payments[7] == p.(refunded := p.captured, status := Refunded)
  {
    assert CreateRefund(t, refund).result.Ok?;
  }

  // ---------------------------------------------------------------- no refusal after acceptance

  /** The request passes every check made before the provider is called. */
  predicate ReachesProvider(t: Tables, op: Op) {
    match op
    case Create(_, id, _, amount, _, _, _) => amount.minorUnits > 0 && id !in t.payments
    case Capture(owner, id, capture, _) =>
      && id in t.payments && t.payments[id].owner == owner && t.payments[id].status == Authorized
      && (capture.Some? ==>
            capture.value.currency == t.payments[id].currency && capture.value.minorUnits <= t.payments[id].amount)
    case Cancel(owner, id, _) =>
      && id in t.payments && t.payments[id].owner == owner
      && t.payments[id].status in {RequiresConfirmation, Authorized}
    case MakeRefund(owner, id, refund, _, _) =>
      && id in t.payments && t.payments[id].owner == owner
      && t.payments[id].status in {PaymentStatus.Captured, PartiallyRefunded}
      && 0 < (if refund.Some? then refund.value else t.payments[id].captured - t.payments[id].refunded)
           <= t.payments[id].captured - t.payments[id].refunded
  }

  predicate ProviderAccepted(op: Op) {
    if op.MakeRefund? then op.reply.Replied? else op.charge.Replied?
  }

  predicate ReferenceTaken(t: Tables, provider: ProviderName, reference: string) {
    exists q | q in t.payments :: t.payments[q].provider == provider && t.payments[q].reference == Some(reference)
  }

  /** A capture, cancel or refund commits exactly when it reaches the provider and the
      provider replies: no later local check can fail. A create can still be lost after the
      provider's reply, exactly for a status that is no first transition or a reference in use. */
  lemma CommitsExactlyWhenAccepted(t: Tables, op: Op)
    requires LedgerInv(t)
    ensures !op.Create? ==>
              (Apply(t, op).result.Ok? <==> ReachesProvider(t, op) && ProviderAccepted(op))
    ensures op.Create? ==>
              (Apply(t, op).result.Ok? <==>
               && ReachesProvider(t, op) && ProviderAccepted(op)
               && op.charge.value.status in {Authorized, PaymentStatus.Captured, Canceled, PaymentStatus.Failed}
               && !ReferenceTaken(t, op.provider, op.charge.value.reference))
  {
    if op.Create? {
      CreateCommitsExactly(t, op);
    } else {
      OthersCommitExactly(t, op);
    }
  }

  lemma OthersCommitExactly(t: Tables, op: Op)
    requires LedgerInv(t) && !op.Create?
    ensures Apply(t, op).result.Ok? <==> ReachesProvider(t, op) && ProviderAccepted(op)
  {
    OthersSucceedExactly(t, op);
    OthersKeepReferences(t, op);
  }

  lemma OthersSucceedExactly(t: Tables, op: Op)
    requires LedgerInv(t) && !op.Create?
    ensures Perform(t, op).result.Ok? <==> ReachesProvider(t, op) && ProviderAccepted(op)
  {
  }

  lemma OthersKeepReferences(t: Tables, op: Op)
    requires UniqueReferences(t) && !op.Create?
    ensures UniqueReferences(Perform(t, op).tables)
  {
  }

  lemma CreateCommitsExactly(t: Tables, op: Op)
    requires LedgerInv(t) && op.Create?
    ensures Apply(t, op).result.Ok? <==>
            && ReachesProvider(t, op) && ProviderAccepted(op)
            && op.charge.value.status in {Authorized, PaymentStatus.Captured, Canceled, PaymentStatus.Failed}
            && !ReferenceTaken(t, op.provider, op.charge.value.reference)
  {
    if CreatePayment(t, op).result.Ok? {
      CreateAddsReference(t, op);
    }
  }

  lemma CreateAddsReference(t: Tables, op: Op)
    requires LedgerInv(t) && op.Create? && CreatePayment(t, op).result.Ok?
    ensures UniqueReferences(CreatePayment(t, op).tables) <==>
            !ReferenceTaken(t, op.provider, op.charge.value.reference)
  {
    var w := CreatePayment(t, op).tables;
    var r := op.charge.value.reference;
    assert w.payments[op.id].provider == op.provider && w.payments[op.id].reference == Some(r);
    if ReferenceTaken(t, op.provider, r) {
      var q :| q in t.payments && t.payments[q].provider == op.provider && t.payments[q].reference == Some(r);
      assert q != op.id && q in w.payments && w.payments[q] == t.payments[q];
    }
  }

  /** One accepted refund: what was asked for and what the provider answered. */
  datatype Acceptance = Acceptance(
    payment: PaymentId, amount: int, reason: Option<string>, reference: string, settled: bool)

  /** The refund the provider accepts when the request is made now, if any. */
  function Accepted(t: Tables, op: Op): seq<Acceptance> {
    if op.MakeRefund? && ReachesProvider(t, op) && ProviderAccepted(op)
    then
      var balance := t.payments[op.id].captured - t.payments[op.id].refunded;
      [Acceptance(op.id, if op.refund.Some? then op.refund.value else balance,
                  op.reason, op.reply.value.reference, op.reply.value.status == "succeeded")]
    else []
  }

  /** The refunds the provider accepted along a run, in order. */
  function AcceptedRefunds(t: Tables, ops: seq<Op>): seq<Acceptance> {
    if ops == [] then []
    else AcceptedRefunds(t, ops[..|ops| - 1]) + Accepted(Run(t, ops[..|ops| - 1]), ops[|ops| - 1])
  }

  function Digest(r: Refund): Acceptance {
    Acceptance(r.payment, r.amount, r.reason, r.reference, r.status.Succeeded?)
  }

  function Summary(rs: seq<Refund>): seq<Acceptance> {
    seq(|rs|, i requires 0 <= i < |rs| => Digest(rs[i]))
  }

  /** What one request adds to the accepted refunds is what it adds to the rows. */
  lemma OneAcceptance(t: Tables, op: Op)
    requires LedgerInv(t)
    ensures Summary(Apply(t, op).tables.refunds) == Summary(t.refunds) + Accepted(t, op)
  {
    CommitsExactlyWhenAccepted(t, op);
    if Apply(t, op).result.Ok? && op.MakeRefund? {
      var row := Apply(t, op).result.value.refund;
      assert Apply(t, op).tables.refunds == t.refunds + [row];
      assert Summary(t.refunds + [row]) == Summary(t.refunds) + [Digest(row)];
    }
  }

  /** The refund rows a run commits are, one for one and in order, the refunds the provider
      accepted during it. */
  lemma {:induction false} RefundRowsMatchAcceptances(t: Tables, ops: seq<Op>)
    requires LedgerInv(t)
    ensures Summary(Run(t, ops).refunds) == Summary(t.refunds) + AcceptedRefunds(t, ops)
  {
    if ops == [] {
    } else {
      var front, op := ops[..|ops| - 1], ops[|ops| - 1];
      RefundRowsMatchAcceptances(t, front);
      EveryRunKeepsTheLedger(t, front);
      OneAcceptance(Run(t, front), op);
    }
  }

  // ---------------------------------------------------------------- progress

  /** Every successful capture, cancel or refund strictly decreases the pair (rank of the
      status, captured minus refunded), whose second part never goes below zero. */
  lemma EverySuccessMakesProgress(t: Tables, op: Op)
    requires LedgerInv(t) && !op.Create? && Apply(t, op).result.Ok?
    ensures op.id in t.payments && op.id in Apply(t, op).tables.payments
    ensures
      var p, q := t.payments[op.id], Apply(t, op).tables.payments[op.id];
      && p.status !in TERMINAL_STATES
      && (|| Rank(q.status) < Rank(p.status)
          || (q.status == p.status && 0 <= q.captured - q.refunded < p.captured - p.refunded))
  {
  }

  lemma {:induction false} CountWithinTotal(rs: seq<Refund>, id: PaymentId)
    requires forall i :: 0 <= i < |rs| ==> rs[i].amount > 0
    ensures RefundCount(rs, id) <= RefundTotal(rs, id)
  {
    if rs == [] {
    } else {
      CountWithinTotal(rs[..|rs| - 1], id);
    }
  }

  /** A payment that captured `c` minor units has at most `c` refund rows, in every
      reachable store. */
  lemma RefundsAreBounded(ops: seq<Op>, id: PaymentId)
    requires id in Run(EMPTY, ops).payments
    ensures RefundCount(Run(EMPTY, ops).refunds, id) <= Max(0, Run(EMPTY, ops).payments[id].captured)
  {
    EveryRunKeepsTheLedger(EMPTY, ops);
    CountWithinTotal(Run(EMPTY, ops).refunds, id);
  }

  /** The request was a successful capture, cancel or refund of the payment. */
  predicate Succeeds(t: Tables, op: Op, id: PaymentId) {
    !op.Create? && op.id == id && Apply(t, op).result.Ok?
  }

  function SuccessCount(t: Tables, ops: seq<Op>, id: PaymentId): nat {
    if ops == [] then 0
    else
      var front, op := ops[..|ops| - 1], ops[|ops| - 1];
      SuccessCount(t, front, id) + if Succeeds(Run(t, front), op, id) then 1 else 0
  }

  /** A payment's changes so far: one for leaving AUTHORIZED, one per refund row. */
  function ChangesSeen(t: Tables, id: PaymentId): nat {
    RefundCount(t.refunds, id) + if id in t.payments && t.payments[id].status != Authorized then 1 else 0
  }

  lemma RefundIsSeen(t: Tables, op: Op, id: PaymentId)
    requires LedgerInv(t) && op.MakeRefund? && Apply(t, op).result.Ok?
    ensures ChangesSeen(Apply(t, op).tables, id) == ChangesSeen(t, id) + if op.id == id then 1 else 0
  {
    var t' := Apply(t, op).tables;
    assert t'.refunds[..|t.refunds|] == t.refunds;
  }

  lemma OtherChangeIsSeen(t: Tables, op: Op, id: PaymentId)
    requires LedgerInv(t) && !op.MakeRefund?
    ensures ChangesSeen(Apply(t, op).tables, id) >= ChangesSeen(t, id) + if Succeeds(t, op, id) then 1 else 0
  {
  }

  lemma {:induction false} SuccessesAreSeen(ops: seq<Op>, id: PaymentId)
    ensures SuccessCount(EMPTY, ops, id) <= ChangesSeen(Run(EMPTY, ops), id)
  {
    if ops == [] {
    } else {
      var front, op := ops[..|ops| - 1], ops[|ops| - 1];
      SuccessesAreSeen(front, id);
      EveryRunKeepsTheLedger(EMPTY, front);
      if !op.MakeRefund? {
        OtherChangeIsSeen(Run(EMPTY, front), op, id);
      } else if Apply(Run(EMPTY, front), op).result.Ok? {
        RefundIsSeen(Run(EMPTY, front), op, id);
      }
    }
  }

  /** However long a run, a payment sees at most one successful capture or cancel and one
      successful refund per captured minor unit. */
  lemma LifetimeIsBounded(ops: seq<Op>, id: PaymentId)
    requires id in Run(EMPTY, ops).payments
    ensures SuccessCount(EMPTY, ops, id) <= 1 + Max(0, Run(EMPTY, ops).payments[id].captured)
  {
    SuccessesAreSeen(ops, id);
    RefundsAreBounded(ops, id);
  }
}
