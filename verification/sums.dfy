/** Sums of real-valued terms over a sequence, as Python accumulates them
    with `+=` in a loop. */
module Sums {

  /** The sum of `f(x)` over the elements of `xs`, from the front. */
  function Sum<T>(xs: seq<T>, f: T -> real): real
    decreases |xs|
  {
    if |xs| == 0 then 0.0 else f(xs[0]) + Sum(xs[1..], f)
  }

  /** A sum over a concatenation splits into the two sums. */
  lemma {:induction false} SumAppend<T>(xs: seq<T>, ys: seq<T>, f: T -> real)
    ensures Sum(xs + ys, f) == Sum(xs, f) + Sum(ys, f)
    decreases |xs|
  {
    if |xs| == 0 {
      assert xs + ys == ys;
    } else {
      assert (xs + ys)[1..] == xs[1..] + ys;
      SumAppend(xs[1..], ys, f);
    }
  }

  /** Adding one more element at the end adds its term: the shape of a
      left-to-right accumulation loop. */
  lemma SumSnoc<T>(xs: seq<T>, x: T, f: T -> real)
    ensures Sum(xs + [x], f) == Sum(xs, f) + f(x)
  {
    SumAppend(xs, [x], f);
  }

  /** When every term is zero, so is the sum. */
  lemma {:induction false} SumZero<T>(xs: seq<T>, f: T -> real)
    requires forall k :: 0 <= k < |xs| ==> f(xs[k]) == 0.0
    ensures Sum(xs, f) == 0.0
    decreases |xs|
  {
    if |xs| > 0 {
      SumZero(xs[1..], f);
    }
  }

  /** The sum does not depend on the order of the elements. */
  lemma {:induction false} SumPermutation<T>(xs: seq<T>, ys: seq<T>, f: T -> real)
    requires multiset(xs) == multiset(ys)
    ensures Sum(xs, f) == Sum(ys, f)
    decreases |xs|
  {
    if |xs| == 0 {
      assert |ys| == |multiset(ys)| == 0;
    } else {
      var x := xs[0];
      assert x in multiset(ys);
      var i :| 0 <= i < |ys| && ys[i] == x;
      var rest := ys[..i] + ys[i + 1..];
      assert ys == ys[..i] + [x] + ys[i + 1..];
      assert xs == [x] + xs[1..];
      assert multiset(ys) == multiset(ys[..i]) + multiset{x} + multiset(ys[i + 1..]);
      assert multiset(rest) == multiset(ys[..i]) + multiset(ys[i + 1..]);
      assert multiset(xs) == multiset{x} + multiset(xs[1..]);
      assert multiset(xs[1..]) == multiset(xs) - multiset{x};
      assert multiset(rest) == multiset(ys) - multiset{x};
      SumPermutation(xs[1..], rest, f);
      SumAppend(ys[..i] + [x], ys[i + 1..], f);
      SumAppend(ys[..i], [x], f);
      SumAppend(ys[..i], ys[i + 1..], f);
    }
  }
}
