/** The enumerations of app/domain/enums.py that the services branch on. */
module Enums {
  datatype PaymentStatus =
    | RequiresConfirmation
    | Authorized
    | Captured
    | PartiallyRefunded
    | Refunded
    | Canceled
    | Failed

  datatype RefundStatus = Pending | Succeeded

  datatype CaptureMethod = Automatic | Manual

  datatype ProviderName = Mock | Stripe
}

/** The payment lifecycle of app/domain/state_machine.py. */
module StateMachine {
  import opened Enums

  /** The directed graph of permitted transitions. */
  function Allowed(s: PaymentStatus): set<PaymentStatus> {
    match s
    case RequiresConfirmation => {Authorized, Captured, Canceled, Failed}
    case Authorized => {Captured, Canceled, Failed}
    case Captured => {PartiallyRefunded, Refunded}
    case PartiallyRefunded => {PartiallyRefunded, Refunded}
    case Refunded => {}
    case Canceled => {}
    case Failed => {}
  }

  const TERMINAL_STATES: set<PaymentStatus> := {Refunded, Canceled, Failed}

  predicate CanTransition(current: PaymentStatus, target: PaymentStatus) {
    target in Allowed(current)
  }

  /** How far a payment is from a terminal state. */
  function Rank(s: PaymentStatus): nat {
    match s
    case RequiresConfirmation => 4
    case Authorized => 3
    case Captured => 2
    case PartiallyRefunded => 1
    case Refunded => 0
    case Canceled => 0
    case Failed => 0
  }

  /** Read backwards: no payment returns to confirmation, only an unconfirmed one is authorized,
      only one that has not settled is captured, canceled or failed, and only a captured one
      is refunded, in part or in full. */
  lemma SourcesExactly(current: PaymentStatus, target: PaymentStatus)
    ensures CanTransition(current, target) <==>
            || (target == Authorized && current == RequiresConfirmation)
            || (target in {Captured, Canceled, Failed} && current in {RequiresConfirmation, Authorized})
            || (target in {PartiallyRefunded, Refunded} && current in {Captured, PartiallyRefunded})
  {
    assert CanTransition(current, target) <==> target in Allowed(current);
  }

  /** The terminal states are exactly those without an outgoing edge, and apart from the
      self-loop of PARTIALLY_REFUNDED every edge leads strictly closer to one of them. */
  lemma TransitionsDescend(current: PaymentStatus, target: PaymentStatus)
    ensures current in TERMINAL_STATES <==> Allowed(current) == {}
    ensures CanTransition(current, target) ==>
              Rank(target) < Rank(current) || current == target == PartiallyRefunded
  {
    assert Authorized in Allowed(RequiresConfirmation) && Captured in Allowed(Authorized);
    assert Refunded in Allowed(Captured) && Refunded in Allowed(PartiallyRefunded);
  }
}
