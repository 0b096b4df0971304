/** Datatypes and sequence helpers shared by every module. */
module Common {
  datatype Option<+T> = None | Some(value: T)

  /** A call either returns a value or raises an error. */
  datatype Result<+T, +E> = Ok(value: T) | Raised(error: E)

  type Byte = b: nat | b < 256

  /** The elements of `xs` whose mark in `keep` is set, in order. */
  function Kept<T>(xs: seq<T>, keep: seq<bool>): (r: seq<T>)
    requires |xs| == |keep|
    ensures |r| <= |xs|
  {
    if xs == [] then []
    else
      var r := Kept(xs[..|xs| - 1], keep[..|keep| - 1]);
      if keep[|keep| - 1] then r + [xs[|xs| - 1]] else r
  }

  lemma KeptAppends<T>(xs: seq<T>, x: T, keep: seq<bool>, b: bool)
    requires |xs| == |keep|
    ensures Kept(xs + [x], keep + [b]) == if b then Kept(xs, keep) + [x] else Kept(xs, keep)
  {
    assert (xs + [x])[..|xs|] == xs && (keep + [b])[..|keep|] == keep;
  }

  function Max(a: int, b: int): int {
    if a < b then b else a
  }
}
