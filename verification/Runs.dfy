/** Serial runs of any request handler, and what can be left out of them. */
module Runs {
  import opened Common

  type Handler<!S, !R, !A> = (S, R) -> (S, A)

  /** The state after a sequence of requests. */
  function After<S, R, A>(step: Handler<S, R, A>, s: S, rs: seq<R>): S {
    if rs == [] then s else step(After(step, s, rs[..|rs| - 1]), rs[|rs| - 1]).0
  }

  /** The answers to them, in order. */
  function Answers<S, R, A>(step: Handler<S, R, A>, s: S, rs: seq<R>): (answers: seq<A>)
    ensures |answers| == |rs|
  {
    if rs == [] then []
    else
      var front := rs[..|rs| - 1];
      Answers(step, s, front) + [step(After(step, s, front), rs[|rs| - 1]).1]
  }

  lemma {:induction false} Appends<S, R, A>(step: Handler<S, R, A>, s: S, rs: seq<R>, r: R)
    ensures After(step, s, rs + [r]) == step(After(step, s, rs), r).0
    ensures Answers(step, s, rs + [r]) == Answers(step, s, rs) + [step(After(step, s, rs), r).1]
  {
    assert (rs + [r])[..|rs|] == rs;
  }

  lemma {:induction false} AnswerAt<S, R, A>(step: Handler<S, R, A>, s: S, rs: seq<R>, i: nat)
    requires i < |rs|
    ensures Answers(step, s, rs)[i] == step(After(step, s, rs[..i]), rs[i]).1
    ensures After(step, s, rs[..i + 1]) == step(After(step, s, rs[..i]), rs[i]).0
  {
    assert rs[..i + 1] == rs[..i] + [rs[i]];
    Appends(step, s, rs[..i], rs[i]);
    if i + 1 < |rs| {
      var front := rs[..|rs| - 1];
      AnswerAt(step, s, front, i);
      assert front[..i] == rs[..i];
    } else {
      assert rs[..i + 1] == rs;
    }
  }

  lemma {:induction false} Splits<S, R, A>(step: Handler<S, R, A>, s: S, rs: seq<R>, i: nat)
    requires i <= |rs|
    ensures After(step, s, rs) == After(step, After(step, s, rs[..i]), rs[i..])
  {
    if i == |rs| {
      assert rs[..i] == rs;
    } else {
      var front := rs[..|rs| - 1];
      Splits(step, s, front, i);
      assert front[..i] == rs[..i];
      assert rs[i..][..|rs[i..]| - 1] == front[i..];
    }
  }

  /** Leaving out the requests not marked in `keep` changes neither the final state nor the
      other answers. */
  ghost predicate ErasesTo<S, R, A>(step: Handler<S, R, A>, s: S, rs: seq<R>, keep: seq<bool>)
    requires |keep| == |rs|
  {
    && After(step, s, Kept(rs, keep)) == After(step, s, rs)
    && Answers(step, s, Kept(rs, keep)) == Kept(Answers(step, s, rs), keep)
  }

  lemma {:induction false} EraseStep<S, R, A>(
    step: Handler<S, R, A>, s: S, rs: seq<R>, r: R, keep: seq<bool>, b: bool)
    requires |keep| == |rs| && ErasesTo(step, s, rs, keep)
    requires b || step(After(step, s, rs), r).0 == After(step, s, rs)
    ensures ErasesTo(step, s, rs + [r], keep + [b])
  {
    Appends(step, s, rs, r);
    Appends(step, s, Kept(rs, keep), r);
    KeptAppends(rs, r, keep, b);
    KeptAppends(Answers(step, s, rs), step(After(step, s, rs), r).1, keep, b);
  }

  /** The j-th request of the run changes nothing. */
  ghost predicate Idle<S, R, A>(step: Handler<S, R, A>, s: S, rs: seq<R>, j: nat)
    requires j < |rs|
  {
    step(After(step, s, rs[..j]), rs[j]).0 == After(step, s, rs[..j])
  }

  /** Requests that change nothing can be left out, any number of them at once. */
  lemma {:induction false} IdleRequestsErase<S, R, A>(step: Handler<S, R, A>, s: S, rs: seq<R>, keep: seq<bool>, n: nat)
    requires |keep| == |rs| && n <= |rs|
    requires forall j :: 0 <= j < |rs| && !keep[j] ==> Idle(step, s, rs, j)
    ensures ErasesTo(step, s, rs[..n], keep[..n])
  {
    if n == 0 {
    } else {
      var j := n - 1;
      IdleRequestsErase(step, s, rs, keep, j);
      assert keep[j] || Idle(step, s, rs, j);
      EraseStep(step, s, rs[..j], rs[j], keep[..j], keep[j]);
      assert rs[..n] == rs[..j] + [rs[j]];
      assert keep[..n] == keep[..j] + [keep[j]];
    }
  }
}
