/**
 What each committed request stores and answers, what can follow it, and why a request is
 refused, all in terms of the request and the provider's reply.
 */
module LedgerEffects {
  import opened Common
  import opened Enums
  import opened StateMachine
  import opened Money
  import opened Model
  import opened Ledger
  import opened LedgerInvariants

  // ---------------------------------------------------------------- create

  /** A committed create adds one row: what was requested, with the provider's reference and
      status, the captured amount exactly for a capture, and the failure reason exactly for a
      charge that did not succeed. The row is also the answer. */
  lemma CreateStoresTheReply(t: Tables, op: Op)
    requires op.Create? && Apply(t, op).result.Ok?
    ensures op.charge.Replied? && op.id !in t.payments
    ensures
      var c := op.charge.value;
      var row := Payment(
                   op.owner, op.provider, Some(c.reference), op.amount.minorUnits, op.amount.currency,
                   if c.status == PaymentStatus.Captured then c.amountCaptured else 0, 0,
                   c.status, op.captureMethod,
                   if c.status in {Canceled, PaymentStatus.Failed} then c.failureReason else None, op.details);
      Apply(t, op) == Worked(Tables(t.payments[op.id := row], t.refunds), Ok(PaymentRow(op.id, row)))
  {
  }

  /** The provider's reply to a create decides what its owner can do next: capture or cancel
      exactly an authorized payment, in its own currency and up to its amount, and refund
      exactly what was captured. */
  lemma CreateDecidesWhatFollows(
    t: Tables, op: Op, part: Option<MoneyAmount>, refund: Option<int>, reason: Option<string>,
    charge: Charge, reply: RefundReply)
    requires LedgerInv(t) && op.Create? && Apply(t, op).result.Ok?
    ensures op.charge.Replied?
    ensures
      var t', c := Apply(t, op).tables, op.charge.value;
      && (Apply(t', Capture(op.owner, op.id, part, Replied(charge))).result.Ok? <==>
            && c.status == Authorized
            && (part.Some? ==>
                  part.value.currency == op.amount.currency && part.value.minorUnits <= op.amount.minorUnits))
      && (Apply(t', Cancel(op.owner, op.id, Replied(charge))).result.Ok? <==> c.status == Authorized)
      && (Apply(t', MakeRefund(op.owner, op.id, refund, reason, Replied(reply))).result.Ok? <==>
            && c.status == PaymentStatus.Captured
            && 0 < (if refund.Some? then refund.value else c.amountCaptured) <= c.amountCaptured)
  {
    var t' := Apply(t, op).tables;
    StepKeepsInv(t, op);
    CreateStoresTheReply(t, op);
    CommitsExactlyWhenAccepted(t', Capture(op.owner, op.id, part, Replied(charge)));
    CommitsExactlyWhenAccepted(t', Cancel(op.owner, op.id, Replied(charge)));
    CommitsExactlyWhenAccepted(t', MakeRefund(op.owner, op.id, refund, reason, Replied(reply)));
  }

  // ---------------------------------------------------------------- capture

  /** A committed capture moves one row to CAPTURED with the amount the provider reports, or
      the requested one when it reports none, and answers that row. */
  lemma CaptureStoresTheAmount(t: Tables, op: Op)
    requires op.Capture? && Apply(t, op).result.Ok?
    ensures op.charge.Replied? && op.id in t.payments
    ensures
      var p, c := t.payments[op.id], op.charge.value;
      var requested := if op.capture.Some? then op.capture.value.minorUnits else p.amount;
      var row := p.(status := PaymentStatus.Captured,
                    captured := if c.amountCaptured == 0 then requested else c.amountCaptured);
      Apply(t, op) == Worked(Tables(t.payments[op.id := row], t.refunds), Ok(PaymentRow(op.id, row)))
  {
  }

  /** After a capture the payment can be refunded, by default in full and exactly by what was
      captured; it can neither be captured again nor canceled. */
  lemma CaptureDecidesWhatFollows(
    t: Tables, op: Op, again: Option<MoneyAmount>, reason: Option<string>, charge: Charge, reply: RefundReply)
    requires LedgerInv(t) && op.Capture? && Apply(t, op).result.Ok?
    ensures op.charge.Replied? && op.id in t.payments
    ensures
      var t', c := Apply(t, op).tables, op.charge.value;
      var requested := if op.capture.Some? then op.capture.value.minorUnits else t.payments[op.id].amount;
      var captured := if c.amountCaptured == 0 then requested else c.amountCaptured;
      var full := Apply(t', MakeRefund(op.owner, op.id, None, reason, Replied(reply)));
      && (full.result.Ok? <==> captured > 0)
      && (captured > 0 ==>
            && full.result.value.RefundRow? && full.result.value.refund.amount == captured
            && op.id in full.tables.payments && full.tables.payments[op.id].status == Refunded)
      && !Apply(t', Capture(op.owner, op.id, again, Replied(charge))).result.Ok?
      && !Apply(t', Cancel(op.owner, op.id, Replied(charge))).result.Ok?
  {
    var t' := Apply(t, op).tables;
    var full := MakeRefund(op.owner, op.id, None, reason, Replied(reply));
    StepKeepsInv(t, op);
    assert Consistent(t.payments[op.id]);
    CaptureStoresTheAmount(t, op);
    CommitsExactlyWhenAccepted(t', full);
    CommitsExactlyWhenAccepted(t', Capture(op.owner, op.id, again, Replied(charge)));
    CommitsExactlyWhenAccepted(t', Cancel(op.owner, op.id, Replied(charge)));
    if Apply(t', full).result.Ok? {
      RefundStoresTheRow(t', full);
    }
  }

  // ---------------------------------------------------------------- cancel

  /** A committed cancel marks one row as CANCELED, whatever the provider replied, and answers it. */
  lemma CancelStoresTheStatus(t: Tables, op: Op)
    requires op.Cancel? && Apply(t, op).result.Ok?
    ensures op.id in t.payments
    ensures
      var row := t.payments[op.id].(status := Canceled);
      Apply(t, op) == Worked(Tables(t.payments[op.id := row], t.refunds), Ok(PaymentRow(op.id, row)))
  {
  }

  /** A canceled payment stays as it is, and no request on it ever succeeds again. */
  lemma {:induction false} CancelIsFinal(t: Tables, op: Op, ops: seq<Op>)
    requires LedgerInv(t) && op.Cancel? && Apply(t, op).result.Ok?
    ensures
      var t' := Run(Apply(t, op).tables, ops);
      && op.id in t.payments && op.id in t'.payments
      && t'.payments[op.id] == t.payments[op.id].(status := Canceled)
    ensures SuccessCount(Apply(t, op).tables, ops, op.id) == 0
  {
    var t' := Apply(t, op).tables;
    StepKeepsInv(t, op);
    CancelStoresTheStatus(t, op);
    RowsAdvance(t', ops, op.id);
    if ops != [] {
      var front := ops[..|ops| - 1];
      CancelIsFinal(t, op, front);
      EveryRunKeepsTheLedger(t', front);
      var last := ops[|ops| - 1];
      if Succeeds(Run(t', front), last, op.id) {
        EverySuccessMakesProgress(Run(t', front), last);
      }
    }
  }

  // ---------------------------------------------------------------- refund

  /** A committed refund adds one row with the requested amount, or the whole balance, settled
      exactly when the provider says so, and raises the refunded amount by it; the payment is
      REFUNDED when nothing of the captured amount is left. The row is also the answer. */
  lemma RefundStoresTheRow(t: Tables, op: Op)
    requires LedgerInv(t) && op.MakeRefund? && Apply(t, op).result.Ok?
    ensures op.reply.Replied? && op.id in t.payments
    ensures
      var p, reply := t.payments[op.id], op.reply.value;
      var amount := if op.refund.Some? then op.refund.value else p.captured - p.refunded;
      var row := Refund(op.id, amount, p.currency, if reply.status == "succeeded" then Succeeded else Pending,
                        op.reason, reply.reference);
      var after := p.(refunded := p.refunded + amount,
                      status := if p.refunded + amount == p.captured then Refunded else PartiallyRefunded);
      Apply(t, op) == Worked(Tables(t.payments[op.id := after], t.refunds + [row]), Ok(RefundRow(|t.refunds|, row)))
  {
    assert Consistent(t.payments[op.id]);
  }

  // ---------------------------------------------------------------- why a request is refused

  /** The payment exists and belongs to the requester. */
  predicate Owned(t: Tables, op: Op) {
    op.id in t.payments && t.payments[op.id].owner == op.owner
  }

  /** The states an existing payment must be in for the request. */
  function Sources(op: Op): set<PaymentStatus> {
    if op.Capture? then {Authorized}
    else if op.Cancel? then {Authorized, RequiresConfirmation}
    else if op.MakeRefund? then {PaymentStatus.Captured, PartiallyRefunded}
    else {}
  }

  /** The statuses a provider may give a new payment. */
  const FIRST_STATUSES: set<PaymentStatus> := {Authorized, PaymentStatus.Captured, Canceled, PaymentStatus.Failed}

  /** A create is refused for its amount, for an id or reference in use, for the provider, or
      for a reply whose status is no first one, and then leaves no trace. */
  lemma CreateRefusedExactly(t: Tables, op: Op)
    requires LedgerInv(t) && op.Create?
    ensures
      var r := Apply(t, op).result;
      var asked := op.amount.minorUnits > 0 && op.id !in t.payments;
      && (r == Raised(Invalid) <==> op.amount.minorUnits <= 0)
      && (r == Raised(ProviderFailure) <==> asked && op.charge.Unreached?)
      && (r == Raised(InvalidState) <==> asked && op.charge.Replied? && op.charge.value.status !in FIRST_STATUSES)
      && (r == Raised(Integrity) <==>
            && op.amount.minorUnits > 0
            && (|| op.id in t.payments
                || (&& op.charge.Replied? && op.charge.value.status in FIRST_STATUSES
                    && ReferenceTaken(t, op.provider, op.charge.value.reference))))
      && r != Raised(NotFound) && r != Raised(KeyConflict)
    ensures Apply(t, op).result.Raised? ==> Apply(t, op).tables == t
  {
    CommitsExactlyWhenAccepted(t, op);
  }

  /** The amount of a capture or refund request is out of bounds. */
  predicate BadAmount(t: Tables, op: Op)
    requires op.id in t.payments
  {
    var p := t.payments[op.id];
    || (&& op.Capture? && op.capture.Some?
        && (op.capture.value.currency != p.currency || op.capture.value.minorUnits > p.amount))
    || (&& op.MakeRefund?
        && !(0 < (if op.refund.Some? then op.refund.value else p.captured - p.refunded) <= p.captured - p.refunded))
  }

  /** A capture, cancel or refund of a missing payment and of one that belongs to somebody else
      fail alike; then the status, the amount and the provider are decisive, in this order. A
      refused request leaves no trace. */
  lemma OthersRefusedExactly(t: Tables, op: Op)
    requires LedgerInv(t) && !op.Create?
    ensures
      var r := Apply(t, op).result;
      && (r == Raised(NotFound) <==> !Owned(t, op))
      && (r == Raised(InvalidState) <==> Owned(t, op) && t.payments[op.id].status !in Sources(op))
      && (r == Raised(Invalid) <==>
            Owned(t, op) && t.payments[op.id].status in Sources(op) && BadAmount(t, op))
      && (r == Raised(ProviderFailure) <==>
            && Owned(t, op) && t.payments[op.id].status in Sources(op) && !BadAmount(t, op)
            && !ProviderAccepted(op))
      && r != Raised(Integrity) && r != Raised(KeyConflict)
    ensures Apply(t, op).result.Raised? ==> Apply(t, op).tables == t
  {
    OthersSucceedExactly(t, op);
    OthersKeepReferences(t, op);
    if Owned(t, op) {
      assert Consistent(t.payments[op.id]);
    }
  }
}
