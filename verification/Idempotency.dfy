/**
 The idempotency service (app/services/idempotency.py) and the request handlers that use it
 (app/api/v1/payments.py, app/api/v1/refunds.py). The body hash is a parameter; only the
 statement about conflicting bodies needs it to be injective.
 */
module Idempotency {
  import opened Common
  import opened Enums
  import opened Money
  import opened Model
  import opened Ledger

  /** The request body the hash is taken of; a refund's body includes the payment id. */
  datatype Body =
    | CreateBody(provider: ProviderName, amount: MoneyAmount, captureMethod: CaptureMethod, details: string)
    | RefundBody(id: PaymentId, refund: Option<int>, reason: Option<string>)

  type Hash = Body -> string

  /** A request with its Idempotency-Key header; absent and empty headers are both "". */
  datatype Request = Request(op: Op, key: string)

  datatype Response = Response(status: int, body: Row) | Failure(error: Error)

  /** Only the create and refund handlers look at the header. */
  predicate Keyed(r: Request) {
    r.key != "" && (r.op.Create? || r.op.MakeRefund?)
  }

  function BodyOf(op: Op): Body
    requires op.Create? || op.MakeRefund?
  {
    if op.Create? then CreateBody(op.provider, op.amount, op.captureMethod, op.details)
    else RefundBody(op.id, op.refund, op.reason)
  }

  function KeyOf(r: Request): KeyId
    requires Keyed(r)
  {
    KeyId(r.op.owner, if r.op.Create? then CreatePaymentEndpoint else CreateRefundEndpoint, r.key)
  }

  /** What it takes for two requests to share a key: a header that is present, and the same
      owner, endpoint and header text. */
  predicate SameKey(a: Request, b: Request) {
    && a.key == b.key && a.key != "" && a.op.owner == b.op.owner
    && ((a.op.Create? && b.op.Create?) || (a.op.MakeRefund? && b.op.MakeRefund?))
  }

  /** What it takes for them to have the same body. The fresh id of a create and the
      provider's reply are no part of it; the payment a refund is for is. */
  predicate SameBody(a: Op, b: Op) {
    || (&& a.Create? && b.Create? && a.provider == b.provider && a.amount == b.amount
        && a.captureMethod == b.captureMethod && a.details == b.details)
    || (&& a.MakeRefund? && b.MakeRefund? && a.id == b.id && a.refund == b.refund && a.reason == b.reason)
  }

  /** Owner, endpoint and header text, and nothing else, decide which requests share a key. */
  lemma KeysCoincideExactly(a: Request, b: Request)
    ensures SameKey(a, b) <==> Keyed(a) && Keyed(b) && KeyOf(a) == KeyOf(b)
  {
  }

  /** The hashed bodies differ exactly when the requests do. */
  lemma BodiesCoincideExactly(hash: Hash, a: Op, b: Op)
    requires forall x, y: Body :: hash(x) == hash(y) ==> x == y
    requires (a.Create? || a.MakeRefund?) && (b.Create? || b.MakeRefund?)
    ensures hash(BodyOf(a)) == hash(BodyOf(b)) <==> SameBody(a, b)
  {
  }

  function SuccessStatus(op: Op): int {
    if op.Create? || op.MakeRefund? then 201 else 200
  }

  datatype Handled = Handled(store: Store, response: Response)

  /** One request against the committed store. */
  function Handle(hash: Hash, s: Store, r: Request): Handled {
    if Keyed(r) && KeyOf(r) in s.keys then
      var record := s.keys[KeyOf(r)];
      Handled(s, if record.requestHash == hash(BodyOf(r.op))
                 then Response(record.status, record.body)
                 else Failure(KeyConflict))
    else
      var w := Apply(s.tables, r.op);
      if w.result.Raised? then Handled(s, Failure(w.result.error))
      else
        var status, row := SuccessStatus(r.op), w.result.value;
        var keys := if Keyed(r) then s.keys[KeyOf(r) := Record(hash(BodyOf(r.op)), status, row)] else s.keys;
        Handled(Store(w.tables, keys), Response(status, row))
  }

  // ---------------------------------------------------------------- the service and the handlers

  class IdempotencyService {
    const session: Session

    constructor (session: Session)
      ensures this.session == session
    {
      this.session := session;
    }

    /** The stored response, nothing, or a conflict. */
    method Lookup(hash: Hash, key: KeyId, body: Body) returns (r: Result<Option<Response>, Error>)
      ensures key !in session.keys ==> r == Ok(None)
      ensures key in session.keys && session.keys[key].requestHash == hash(body) ==>
                r == Ok(Some(Response(session.keys[key].status, session.keys[key].body)))
      ensures key in session.keys && session.keys[key].requestHash != hash(body) ==> r == Raised(KeyConflict)
    {
      if key !in session.keys {
        return Ok(None);
      }
      var record := session.keys[key];
      if record.requestHash != hash(body) {
        return Raised(KeyConflict);
      }
      return Ok(Some(Response(record.status, record.body)));
    }

    /** Inserts the key row; the unique constraint is checked by the flush. */
    method Save(hash: Hash, key: KeyId, body: Body, status: int, row: Row) returns (ok: bool)
      modifies session`keys
      ensures key in old(session.keys) ==> !ok && session.keys == old(session.keys)
      ensures key !in old(session.keys) ==>
                ok && session.keys == old(session.keys)[key := Record(hash(body), status, row)]
    {
      if key in session.keys {
        return false;
      }
      session.keys := session.keys[key := Record(hash(body), status, row)];
      return true;
    }
  }

  class Api {
    var store: Store

    constructor ()
      ensures store == Store(EMPTY, map[])
    {
      store := Store(EMPTY, map[]);
    }

    /** Dispatches to the service that performs the operation on the session. */
    method Dispatch(session: Session, op: Op) returns (r: Result<Row, Error>)
      modifies session`tables
      ensures Worked(session.tables, r) == Perform(old(session.tables), op)
    {
      var payments := new PaymentService(session);
      var refunds := new RefundService(session);
      match op {
        case Create(owner, id, provider, amount, captureMethod, details, charge) =>
          r := payments.Create(owner, id, provider, amount, captureMethod, details, charge);
        case Capture(owner, id, capture, charge) =>
          r := payments.Capture(owner, id, capture, charge);
        case Cancel(owner, id, charge) =>
          r := payments.Cancel(owner, id, charge);
        case MakeRefund(owner, id, refund, reason, reply) =>
          r := refunds.Create(owner, id, refund, reason, reply);
      }
    }

    /** The handler inside `get_session`: lookup, execute and store share one session, which
        is committed at the end or dropped on the first error. */
    method Serve(hash: Hash, r: Request) returns (response: Response)
      modifies this
      ensures Handled(store, response) == Handle(hash, old(store), r)
    {
      var session := new Session(store);
      var idempotency := new IdempotencyService(session);
      if Keyed(r) {
        var cached := idempotency.Lookup(hash, KeyOf(r), BodyOf(r.op));
        if cached.Raised? {
          return Failure(cached.error);
        }
        if cached.value.Some? {
          return cached.value.value;
        }
      }
      var result := Dispatch(session, r.op);
      if result.Raised? {
        return Failure(result.error);
      }
      if Keyed(r) {
        var saved := idempotency.Save(hash, KeyOf(r), BodyOf(r.op), SuccessStatus(r.op), result.value);
        if !saved {
          return Failure(Integrity);
        }
      }
      if !UniqueReferences(session.tables) {
        return Failure(Integrity);
      }
      store := Store(session.tables, session.keys);
      return Response(SuccessStatus(r.op), result.value);
    }
  }
}
