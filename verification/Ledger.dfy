/**
 `PaymentService` and `RefundService` (app/services/payments.py, app/services/refunds.py) inside
 the unit of work of app/api/deps.py: a service changes the rows of its session, and the
 session is committed when the service returns and rolled back when it raises.
 */
module Ledger {
  import opened Common
  import opened Enums
  import opened StateMachine
  import opened Money
  import opened Model

  /** The session's rows and the outcome when a service returns or raises. */
  datatype Worked = Worked(tables: Tables, result: Result<Row, Error>)

  function Put(t: Tables, id: PaymentId, p: Payment): Tables {
    t.(payments := t.payments[id := p])
  }

  /** `PaymentRepository.get_for_owner`. */
  function GetForOwner(t: Tables, id: PaymentId, owner: OwnerId): Option<Payment> {
    if id in t.payments && t.payments[id].owner == owner then Some(t.payments[id]) else None
  }

  // ---------------------------------------------------------------- services as functions of the session

  function NewPayment(op: Op): Payment
    requires op.Create?
  {
    Payment(op.owner, op.provider, None, op.amount.minorUnits, op.amount.currency, 0, 0,
            RequiresConfirmation, op.captureMethod, None, op.details)
  }

  /** The row once the provider's charge has been accepted. */
  function Charged(p: Payment, c: Charge): Payment {
    var q := p.(reference := Some(c.reference), status := c.status);
    if c.status.Captured? then q.(captured := c.amountCaptured)
    else if c.status.Authorized? then q
    else q.(failureReason := c.failureReason)
  }

  function CreatePayment(t: Tables, op: Op): Worked
    requires op.Create?
  {
    if op.amount.minorUnits <= 0 then Worked(t, Raised(Invalid))
    else if op.id in t.payments then Worked(t, Raised(Integrity))
    else
      var p := NewPayment(op);
      if op.charge.Unreached? then Worked(Put(t, op.id, p), Raised(ProviderFailure))
      else
        var c := op.charge.value;
        if !CanTransition(p.status, c.status)
        then Worked(Put(t, op.id, p.(reference := Some(c.reference))), Raised(InvalidState))
        else Worked(Put(t, op.id, Charged(p, c)), Ok(PaymentRow(op.id, Charged(p, c))))
  }

  /** The amount a capture asks for: the given one, or the whole payment. */
  function Requested(p: Payment, capture: Option<MoneyAmount>): MoneyAmount {
    if capture.Some? then capture.value else MoneyAmount(p.amount, p.currency)
  }

  /** A reply of zero captured means the requested amount. */
  function CapturedAmount(c: Charge, requested: int): int {
    if c.amountCaptured != 0 then c.amountCaptured else requested
  }

  function CapturePayment(t: Tables, op: Op): Worked
    requires op.Capture?
  {
    var found := GetForOwner(t, op.id, op.owner);
    if found.None? then Worked(t, Raised(NotFound))
    else
      var p := found.value;
      var requested := Requested(p, op.capture);
      if !p.status.Authorized? then Worked(t, Raised(InvalidState))
      else if requested.currency != p.currency then Worked(t, Raised(Invalid))
      else if requested.minorUnits > p.amount then Worked(t, Raised(Invalid))
      else if op.charge.Unreached? then Worked(t, Raised(ProviderFailure))
      else if !CanTransition(p.status, PaymentStatus.Captured) then Worked(t, Raised(InvalidState))
      else
        var q := p.(status := PaymentStatus.Captured,
                    captured := CapturedAmount(op.charge.value, requested.minorUnits));
        Worked(Put(t, op.id, q), Ok(PaymentRow(op.id, q)))
  }

  function CancelPayment(t: Tables, op: Op): Worked
    requires op.Cancel?
  {
    var found := GetForOwner(t, op.id, op.owner);
    if found.None? then Worked(t, Raised(NotFound))
    else if !CanTransition(found.value.status, Canceled) then Worked(t, Raised(InvalidState))
    else if op.charge.Unreached? then Worked(t, Raised(ProviderFailure))
    else
      var q := found.value.(status := Canceled);
      Worked(Put(t, op.id, q), Ok(PaymentRow(op.id, q)))
  }

  predicate IsRefundable(s: PaymentStatus) {
    s in {PaymentStatus.Captured, PartiallyRefunded}
  }

  function RefundAmount(p: Payment, refund: Option<int>): int {
    if refund.Some? then refund.value else Refundable(p)
  }

  function RefundedPayment(p: Payment, amount: int): Payment {
    var refunded := p.refunded + amount;
    p.(refunded := refunded, status := if refunded >= p.captured then Refunded else PartiallyRefunded)
  }

  function CreateRefund(t: Tables, op: Op): Worked
    requires op.MakeRefund?
  {
    var found := GetForOwner(t, op.id, op.owner);
    if found.None? then Worked(t, Raised(NotFound))
    else
      var p := found.value;
      var amount := RefundAmount(p, op.refund);
      if !IsRefundable(p.status) then Worked(t, Raised(InvalidState))
      else if amount <= 0 then Worked(t, Raised(Invalid))
      else if amount > Refundable(p) then Worked(t, Raised(Invalid))
      else if op.reply.Unreached? then Worked(t, Raised(ProviderFailure))
      else
        var reply := op.reply.value;
        var row := Refund(op.id, amount, p.currency,
                          if reply.status == "succeeded" then Succeeded else Pending,
                          op.reason, reply.reference);
        var q := RefundedPayment(p, amount);
        var added := t.(refunds := t.refunds + [row]);
        if !CanTransition(p.status, q.status)
        then Worked(Put(added, op.id, p.(refunded := q.refunded)), Raised(InvalidState))
        else Worked(Put(added, op.id, q), Ok(RefundRow(|t.refunds|, row)))
  }

  function Perform(t: Tables, op: Op): Worked {
    match op
    case Create(_, _, _, _, _, _, _) => CreatePayment(t, op)
    case Capture(_, _, _, _) => CapturePayment(t, op)
    case Cancel(_, _, _) => CancelPayment(t, op)
    case MakeRefund(_, _, _, _, _) => CreateRefund(t, op)
  }

  /** Commit or roll back: the unique constraint is checked when the rows are flushed. */
  function Finish(before: Tables, w: Worked): Worked {
    if w.result.Ok? && UniqueReferences(w.tables) then w
    else Worked(before, if w.result.Ok? then Raised(Integrity) else w.result)
  }

  /** One request: the committed rows and the answer after it. */
  function Apply(t: Tables, op: Op): Worked {
    Finish(t, Perform(t, op))
  }

  // ---------------------------------------------------------------- services on a session object

  class Session {
    var tables: Tables
    var keys: map<KeyId, Record>

    constructor (store: Store)
      ensures tables == store.tables && keys == store.keys
    {
      tables, keys := store.tables, store.keys;
    }

    /** Rewrites one payment row of the session. */
    method Update(id: PaymentId, p: Payment)
      modifies this`tables
      ensures tables == Put(old(tables), id, p)
    {
      tables := tables.(payments := tables.payments[id := p]);
    }
  }

  class PaymentService {
    const session: Session

    constructor (session: Session)
      ensures this.session == session
    {
      this.session := session;
    }

    method Create(owner: OwnerId, id: PaymentId, provider: ProviderName, amount: MoneyAmount,
                  captureMethod: CaptureMethod, details: string, charge: Reply<Charge>)
      returns (r: Result<Row, Error>)
      modifies session`tables
      ensures Worked(session.tables, r) == CreatePayment(
                old(session.tables), Op.Create(owner, id, provider, amount, captureMethod, details, charge))
    {
      if amount.minorUnits <= 0 {
        return Raised(Invalid);
      }
      if id in session.tables.payments {
        return Raised(Integrity);
      }
      var payment := Payment(owner, provider, None, amount.minorUnits, amount.currency, 0, 0,
                             RequiresConfirmation, captureMethod, None, details);
      session.Update(id, payment);
      if charge.Unreached? {
        return Raised(ProviderFailure);
      }
      payment := payment.(reference := Some(charge.value.reference));
      session.Update(id, payment);
      if !CanTransition(payment.status, charge.value.status) {
        return Raised(InvalidState);
      }
      payment := payment.(status := charge.value.status);
      if charge.value.status.Captured? {
        payment := payment.(captured := charge.value.amountCaptured);
      } else if !charge.value.status.Authorized? {
        payment := payment.(failureReason := charge.value.failureReason);
      }
      session.Update(id, payment);
      r := Ok(PaymentRow(id, payment));
    }

    method Capture(owner: OwnerId, id: PaymentId, capture: Option<MoneyAmount>, charge: Reply<Charge>)
      returns (r: Result<Row, Error>)
      modifies session`tables
      ensures Worked(session.tables, r) ==
              CapturePayment(old(session.tables), Op.Capture(owner, id, capture, charge))
    {
      var found := GetForOwner(session.tables, id, owner);
      if found.None? {
        return Raised(NotFound);
      }
      var payment := found.value;
      if payment.status != Authorized {
        return Raised(InvalidState);
      }
      var amount := if capture.Some? then capture.value else MoneyAmount(payment.amount, payment.currency);
      if amount.currency != payment.currency {
        return Raised(Invalid);
      }
      if amount.minorUnits > payment.amount {
        return Raised(Invalid);
      }
      if charge.Unreached? {
        return Raised(ProviderFailure);
      }
      if !CanTransition(payment.status, PaymentStatus.Captured) {
        return Raised(InvalidState);
      }
      payment := payment.(status := PaymentStatus.Captured);
      payment := payment.(captured :=
        if charge.value.amountCaptured != 0 then charge.value.amountCaptured else amount.minorUnits);
      session.Update(id, payment);
      r := Ok(PaymentRow(id, payment));
    }

    method Cancel(owner: OwnerId, id: PaymentId, charge: Reply<Charge>) returns (r: Result<Row, Error>)
      modifies session`tables
      ensures Worked(session.tables, r) == CancelPayment(old(session.tables), Op.Cancel(owner, id, charge))
    {
      var found := GetForOwner(session.tables, id, owner);
      if found.None? {
        return Raised(NotFound);
      }
      if !CanTransition(found.value.status, Canceled) {
        return Raised(InvalidState);
      }
      if charge.Unreached? {
        return Raised(ProviderFailure);
      }
      var payment := found.value.(status := Canceled);
      session.Update(id, payment);
      r := Ok(PaymentRow(id, payment));
    }
  }

  class RefundService {
    const session: Session

    constructor (session: Session)
      ensures this.session == session
    {
      this.session := session;
    }

    method Create(owner: OwnerId, id: PaymentId, amount: Option<int>, reason: Option<string>, reply: Reply<RefundReply>)
      returns (r: Result<Row, Error>)
      modifies session`tables
      ensures Worked(session.tables, r) ==
              CreateRefund(old(session.tables), MakeRefund(owner, id, amount, reason, reply))
    {
      var found := GetForOwner(session.tables, id, owner);
      if found.None? {
        return Raised(NotFound);
      }
      var payment := found.value;
      if payment.status !in {PaymentStatus.Captured, PartiallyRefunded} {
        return Raised(InvalidState);
      }
      var refundable := Refundable(payment);
      var minorUnits := if amount.Some? then amount.value else refundable;
      if minorUnits <= 0 {
        return Raised(Invalid);
      }
      if minorUnits > refundable {
        return Raised(Invalid);
      }
      if reply.Unreached? {
        return Raised(ProviderFailure);
      }
      var status := if reply.value.status == "succeeded" then Succeeded else Pending;
      var row := Refund(id, minorUnits, payment.currency, status, reason, reply.value.reference);
      var index := |session.tables.refunds|;
      session.tables := session.tables.(refunds := session.tables.refunds + [row]);
      payment := payment.(refunded := payment.refunded + minorUnits);
      session.Update(id, payment);
      var target := if payment.refunded >= payment.captured then Refunded else PartiallyRefunded;
      if !CanTransition(payment.status, target) {
        return Raised(InvalidState);
      }
      payment := payment.(status := target);
      session.Update(id, payment);
      r := Ok(RefundRow(index, row));
    }
  }
}
