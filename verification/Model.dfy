/**
 The rows the services persist, and what a provider answers.

 Row ids are UUIDs drawn by the database layer; here they are inputs of the request that
 creates the row. Refund rows are kept in insertion order. Request fields the services only
 copy through (description, customer reference, method type, metadata, token) travel together
 in `details`.
 */
module Model {
  import opened Common
  import opened Enums
  import opened Money

  type OwnerId = nat
  type PaymentId = nat

  datatype Payment = Payment(
    owner: OwnerId, provider: ProviderName, reference: Option<string>,
    amount: int, currency: CurrencyCode, captured: int, refunded: int,
    status: PaymentStatus, captureMethod: CaptureMethod,
    failureReason: Option<string>, details: string)

  /** `Payment.amount_refundable`. */
  function Refundable(p: Payment): int {
    Max(0, p.captured - p.refunded)
  }

  datatype Refund = Refund(
    payment: PaymentId, amount: int, currency: CurrencyCode,
    status: RefundStatus, reason: Option<string>, reference: string)

  /** The tables a session reads and writes. */
  datatype Tables = Tables(payments: map<PaymentId, Payment>, refunds: seq<Refund>)

  const EMPTY := Tables(map[], [])

  /** The unique constraint on (provider, provider_reference). */
  predicate UniqueReferences(t: Tables) {
    forall p, q | p in t.payments && q in t.payments && p != q ::
      t.payments[p].provider == t.payments[q].provider && t.payments[p].reference.Some? ==>
        t.payments[p].reference != t.payments[q].reference
  }

  // ---------------------------------------------------------------- provider replies

  /** `ProviderCharge`. */
  datatype Charge = Charge(reference: string, status: PaymentStatus, amountCaptured: int, failureReason: Option<string>)

  /** `ProviderRefund`. */
  datatype RefundReply = RefundReply(reference: string, status: string)

  /** Resolving the adapter and running the operation under the gateway either yields the
      provider's reply or raises. */
  datatype Reply<+T> = Replied(value: T) | Unreached

  datatype Error =
    | NotFound
    | InvalidState
    | Invalid
    | ProviderFailure
    | Integrity
    | KeyConflict

  /** What a service returns: the row it created or changed. */
  datatype Row = PaymentRow(id: PaymentId, payment: Payment) | RefundRow(index: nat, refund: Refund)

  // ---------------------------------------------------------------- operations

  datatype Op =
    | Create(owner: OwnerId, id: PaymentId, provider: ProviderName, amount: MoneyAmount,
             captureMethod: CaptureMethod, details: string, charge: Reply<Charge>)
    | Capture(owner: OwnerId, id: PaymentId, capture: Option<MoneyAmount>, charge: Reply<Charge>)
    | Cancel(owner: OwnerId, id: PaymentId, charge: Reply<Charge>)
    | MakeRefund(owner: OwnerId, id: PaymentId, refund: Option<int>, reason: Option<string>, reply: Reply<RefundReply>)

  // ---------------------------------------------------------------- idempotency keys

  datatype Endpoint = CreatePaymentEndpoint | CreateRefundEndpoint

  /** The columns of the unique constraint `owner_endpoint_key`. */
  datatype KeyId = KeyId(owner: OwnerId, endpoint: Endpoint, key: string)

  /** The stored response of a keyed request, with the hash of its body. */
  datatype Record = Record(requestHash: string, status: int, body: Row)

  /** Everything that is committed. */
  datatype Store = Store(tables: Tables, keys: map<KeyId, Record>)
}
