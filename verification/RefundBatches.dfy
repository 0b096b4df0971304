/** Several refunds of one payment, as app/services/refunds.py accepts them one by one. */
module RefundBatches {
  import opened Common
  import opened Enums
  import opened Model
  import opened Ledger
  import opened LedgerInvariants

  function Sum(xs: seq<int>): int {
    if xs == [] then 0 else Sum(xs[..|xs| - 1]) + xs[|xs| - 1]
  }

  /** What may differ from refund to refund: the stated reason and the provider's reply. */
  datatype Slip = Slip(reason: Option<string>, reply: RefundReply)

  /** One refund request per amount, each answered by the provider. */
  function Batch(owner: OwnerId, id: PaymentId, amounts: seq<int>, slips: seq<Slip>): (ops: seq<Op>)
    requires |slips| == |amounts|
    ensures |ops| == |amounts|
  {
    if amounts == [] then []
    else
      var n := |amounts| - 1;
      Batch(owner, id, amounts[..n], slips[..n]) +
      [MakeRefund(owner, id, Some(amounts[n]), slips[n].reason, Replied(slips[n].reply))]
  }

  predicate AllAccepted(t: Tables, ops: seq<Op>) {
    ops != [] ==>
      var front := ops[..|ops| - 1];
      AllAccepted(t, front) && Apply(Run(t, front), ops[|ops| - 1]).result.Ok?
  }

  ghost predicate Positive(amounts: seq<int>) {
    forall i :: 0 <= i < |amounts| ==> amounts[i] > 0
  }

  /** The payment after refunds that add up to `total`. */
  function AfterRefunds(p: Payment, total: int): Payment {
    if total == 0 then p
    else
      var refunded := p.refunded + total;
      p.(refunded := refunded, status := if refunded == p.captured then Refunded else PartiallyRefunded)
  }

  lemma {:induction false} PositiveSum(amounts: seq<int>)
    requires Positive(amounts)
    ensures Sum(amounts) >= |amounts|
  {
    if amounts == [] {
    } else {
      PositiveSum(amounts[..|amounts| - 1]);
    }
  }

  lemma OneMoreRefund(t: Tables, p: Payment, total: int, op: Op)
    requires op.MakeRefund? && op.reply.Replied? && op.refund.Some? && op.refund.value > 0
    requires op.id in t.payments && t.payments[op.id] == AfterRefunds(p, total)
    requires p.owner == op.owner && IsRefundable(p.status) && Consistent(p) && 0 <= total <= Refundable(p)
    requires LedgerInv(t)
    ensures Apply(t, op).result.Ok? <==> total + op.refund.value <= Refundable(p)
    ensures Apply(t, op).result.Ok? ==>
              && op.id in Apply(t, op).tables.payments
              && Apply(t, op).tables.payments[op.id] == AfterRefunds(p, total + op.refund.value)
  {
    CommitsExactlyWhenAccepted(t, op);
  }

  /** The refunds `ops` of the payment, adding up to `total`, are accepted exactly when they fit. */
  ghost predicate Fits(t: Tables, id: PaymentId, p: Payment, ops: seq<Op>, total: int) {
    && (AllAccepted(t, ops) <==> total <= Refundable(p))
    && (total <= Refundable(p) ==> id in Run(t, ops).payments && Run(t, ops).payments[id] == AfterRefunds(p, total))
  }

  lemma ExtendBatch(t: Tables, p: Payment, ops: seq<Op>, total: nat, op: Op)
    requires LedgerInv(t) && p.owner == op.owner && IsRefundable(p.status) && Consistent(p)
    requires op.MakeRefund? && op.reply.Replied? && op.refund.Some? && op.refund.value > 0
    requires Fits(t, op.id, p, ops, total)
    ensures Fits(t, op.id, p, ops + [op], total + op.refund.value)
  {
    assert (ops + [op])[..|ops|] == ops;
    if total <= Refundable(p) {
      EveryRunKeepsTheLedger(t, ops);
      OneMoreRefund(Run(t, ops), p, total, op);
    }
  }

  /** A batch of positive refunds is accepted in full exactly when its sum fits the
      refundable balance, and the payment then depends on the sum alone. */
  lemma BatchAcceptedExactly(
    t: Tables, owner: OwnerId, id: PaymentId, amounts: seq<int>, slips: seq<Slip>)
    requires LedgerInv(t) && |slips| == |amounts|
    requires id in t.payments && t.payments[id].owner == owner && IsRefundable(t.payments[id].status)
    requires Positive(amounts)
    ensures AllAccepted(t, Batch(owner, id, amounts, slips)) <==> Sum(amounts) <= Refundable(t.payments[id])
    ensures Sum(amounts) <= Refundable(t.payments[id]) ==>
              var t' := Run(t, Batch(owner, id, amounts, slips));
              id in t'.payments && t'.payments[id] == AfterRefunds(t.payments[id], Sum(amounts))
  {
    BatchFits(t, owner, id, amounts, slips);
  }

  lemma {:induction false} BatchFits(
    t: Tables, owner: OwnerId, id: PaymentId, amounts: seq<int>, slips: seq<Slip>)
    requires LedgerInv(t) && |slips| == |amounts|
    requires id in t.payments && t.payments[id].owner == owner && IsRefundable(t.payments[id].status)
    requires Positive(amounts)
    ensures Fits(t, id, t.payments[id], Batch(owner, id, amounts, slips), Sum(amounts))
  {
    if amounts == [] {
    } else {
      var n := |amounts| - 1;
      BatchFits(t, owner, id, amounts[..n], slips[..n]);
      PositiveSum(amounts[..n]);
      ExtendBatch(t, t.payments[id], Batch(owner, id, amounts[..n], slips[..n]), Sum(amounts[..n]),
                  MakeRefund(owner, id, Some(amounts[n]), slips[n].reason, Replied(slips[n].reply)));
    }
  }

  lemma {:induction false} SumSplits(xs: seq<int>, i: nat)
    requires i < |xs|
    ensures Sum(xs) == Sum(xs[..i] + xs[i + 1..]) + xs[i]
  {
    var n := |xs| - 1;
    if i == n {
      assert xs[..i] + xs[i + 1..] == xs[..n];
    } else {
      SumSplits(xs[..n], i);
      var rest := xs[..i] + xs[i + 1..];
      assert rest[..|rest| - 1] == xs[..n][..i] + xs[..n][i + 1..];
    }
  }

  lemma {:induction false} SumOfPermutation(xs: seq<int>, ys: seq<int>)
    requires multiset(xs) == multiset(ys)
    ensures Sum(xs) == Sum(ys)
  {
    if xs == [] {
      assert |multiset(ys)| == 0;
    } else {
      var n := |xs| - 1;
      assert xs == xs[..n] + [xs[n]];
      assert xs[n] in multiset(ys);
      var i :| 0 <= i < |ys| && ys[i] == xs[n];
      var rest := ys[..i] + ys[i + 1..];
      assert ys == ys[..i] + [ys[i]] + ys[i + 1..];
      assert multiset(rest) == multiset(ys) - multiset{ys[i]};
      SumOfPermutation(xs[..n], rest);
      SumSplits(ys, i);
    }
  }

  /** The order of the requests does not matter: a reordered batch, whatever its reasons and
      replies, is accepted in full just as well and leaves the payment in the same state. */
  lemma BatchOrderDoesNotMatter(
    t: Tables, owner: OwnerId, id: PaymentId, a: seq<int>, b: seq<int>, sa: seq<Slip>, sb: seq<Slip>)
    requires LedgerInv(t) && |sa| == |a| && |sb| == |b|
    requires id in t.payments && t.payments[id].owner == owner && IsRefundable(t.payments[id].status)
    requires Positive(a) && multiset(a) == multiset(b)
    ensures
      var opsA, opsB := Batch(owner, id, a, sa), Batch(owner, id, b, sb);
      && (AllAccepted(t, opsA) <==> AllAccepted(t, opsB))
      && (AllAccepted(t, opsA) ==>
            && id in Run(t, opsA).payments && id in Run(t, opsB).payments
            && Run(t, opsA).payments[id] == Run(t, opsB).payments[id])
  {
    forall i | 0 <= i < |b|
      ensures b[i] > 0
    {
      assert b[i] in multiset(a);
    }
    SumOfPermutation(a, b);
    BatchAcceptedExactly(t, owner, id, a, sa);
    BatchAcceptedExactly(t, owner, id, b, sb);
  }

  /** A refund without an amount on a payment with a positive balance ends in REFUNDED with
      nothing left, after any batch that was accepted in full. */
  lemma FullRefundSettles(t: Tables, op: Op)
    requires LedgerInv(t) && op.MakeRefund? && op.refund.None? && op.reply.Replied?
    requires op.id in t.payments && t.payments[op.id].owner == op.owner
    requires IsRefundable(t.payments[op.id].status) && Refundable(t.payments[op.id]) > 0
    ensures Apply(t, op).result.Ok? && op.id in Apply(t, op).tables.payments
    ensures
      var q := Apply(t, op).tables.payments[op.id];
      q.status == Refunded && Refundable(q) == 0 && q.refunded == q.captured == t.payments[op.id].captured
  {
    CommitsExactlyWhenAccepted(t, op);
  }
}
