/** Facts about sequences shared by several scripts. */
module Seqs {

  /** No element occurs twice. */
  predicate Distinct<T(==)>(s: seq<T>) {
    forall i, j :: 0 <= i < j < |s| ==> s[i] != s[j]
  }

  /** Two duplicate-free sequences with no common element concatenate to a
      duplicate-free sequence. */
  lemma DistinctAppend<T>(a: seq<T>, b: seq<T>)
    requires Distinct(a) && Distinct(b)
    requires forall x :: x in a ==> x !in b
    ensures Distinct(a + b)
  {
    forall i, j | 0 <= i < j < |a + b|
      ensures (a + b)[i] != (a + b)[j]
    {
      if j < |a| {
        assert (a + b)[i] == a[i] && (a + b)[j] == a[j];
      } else if i < |a| {
        assert (a + b)[i] == a[i] && (a + b)[j] == b[j - |a|];
        assert a[i] in a;
      } else {
        assert (a + b)[i] == b[i - |a|] && (a + b)[j] == b[j - |a|];
      }
    }
  }

  /** `a` occurs in `s` before the first occurrence of `b`. */
  predicate Before<T(==)>(s: seq<T>, a: T, b: T) {
    forall q :: 0 <= q < |s| && s[q] == b ==> a in s[..q]
  }

  /** An element that comes earlier stays earlier when `s` grows. */
  lemma BeforeSnoc<T>(s: seq<T>, x: T, a: T, b: T)
    requires Before(s, a, b) && a in s
    ensures Before(s + [x], a, b)
  {
    forall q | 0 <= q < |s + [x]| && (s + [x])[q] == b
      ensures a in (s + [x])[..q]
    {
      if q < |s| {
        assert (s + [x])[..q] == s[..q];
      } else {
        assert (s + [x])[..q] == s;
      }
    }
  }

  /** Every element of `s` comes before a new last element. */
  lemma BeforeNew<T>(s: seq<T>, x: T, a: T)
    requires a in s && x !in s
    ensures Before(s + [x], a, x)
  {
    forall q | 0 <= q < |s + [x]| && (s + [x])[q] == x
      ensures a in (s + [x])[..q]
    {
      assert q == |s|;
      assert (s + [x])[..q] == s;
    }
  }

  /** `pd.unique`: the distinct elements in order of first appearance. */
  function Unique<T(==,!new)>(s: seq<T>): (r: seq<T>)
    ensures Distinct(r)
    ensures forall x :: x in r <==> x in s
    ensures forall i, j :: 0 <= i < j < |r| ==> Before(s, r[i], r[j])
    decreases |s|
  {
    if |s| == 0 then []
    else
      var init := s[..|s| - 1];
      var r := Unique(init);
      var x := s[|s| - 1];
      assert s == init + [x];
      if x in r then
        assert forall i, j :: 0 <= i < j < |r| ==> Before(s, r[i], r[j]) by {
          forall i, j | 0 <= i < j < |r|
            ensures Before(s, r[i], r[j])
          {
            BeforeSnoc(init, x, r[i], r[j]);
          }
        }
        r
      else
        assert forall y :: y in r ==> y != x;
        DistinctAppend(r, [x]);
        var r' := r + [x];
        assert forall i, j :: 0 <= i < j < |r'| ==> Before(s, r'[i], r'[j]) by {
          forall i, j | 0 <= i < j < |r'|
            ensures Before(s, r'[i], r'[j])
          {
            assert r'[i] == r[i];
            if j < |r| {
              assert r'[j] == r[j];
              BeforeSnoc(init, x, r[i], r[j]);
            } else {
              assert r'[j] == x;
              BeforeNew(init, x, r[i]);
            }
          }
        }
        r'
  }

  /** The elements that satisfy `keep`, in order. */
  function Filter<T(!new)>(s: seq<T>, keep: T -> bool): (r: seq<T>)
    ensures |r| <= |s|
    ensures forall x :: x in r <==> x in s && keep(x)
    ensures Distinct(s) ==> Distinct(r)
    decreases |s|
  {
    if |s| == 0 then []
    else
      var r := Filter(s[..|s| - 1], keep);
      var x := s[|s| - 1];
      assert s == s[..|s| - 1] + [x];
      if !keep(x) then r
      else
        assert Distinct(s) ==> x !in s[..|s| - 1];
        assert Distinct(s) ==> Distinct(s[..|s| - 1]);
        assert Distinct(s) ==> Distinct(r + [x]) by {
          if Distinct(s) {
            DistinctAppend(r, [x]);
          }
        }
        r + [x]
  }

  /** The kept elements keep their order: two of them sit, in the same
      order, at two positions of `s`. */
  lemma {:induction false} FilterIndices<T(!new)>(s: seq<T>, keep: T -> bool, i: nat, j: nat) returns (p: nat, q: nat)
    requires i < j < |Filter(s, keep)|
    ensures p < q < |s| && s[p] == Filter(s, keep)[i] && s[q] == Filter(s, keep)[j]
    decreases |s|
  {
    var init := s[..|s| - 1];
    var x := s[|s| - 1];
    var r := Filter(init, keep);
    assert s == init + [x];
    if j < |r| {
      assert Filter(s, keep)[i] == r[i] && Filter(s, keep)[j] == r[j];
      p, q := FilterIndices(init, keep, i, j);
    } else {
      assert Filter(s, keep) == r + [x];
      assert r[i] in r;
      p :| 0 <= p < |init| && init[p] == r[i];
      q := |s| - 1;
    }
  }

  /** Filtering a concatenation filters each part: the kept elements stay
      in their original order. */
  lemma {:induction false} FilterAppend<T(!new)>(a: seq<T>, b: seq<T>, keep: T -> bool)
    ensures Filter(a + b, keep) == Filter(a, keep) + Filter(b, keep)
    decreases |b|
  {
    if |b| == 0 {
      assert a + b == a;
    } else {
      var b' := b[..|b| - 1];
      assert (a + b)[..|a + b| - 1] == a + b';
      FilterAppend(a, b', keep);
    }
  }

  /** The number of elements that satisfy `p`. */
  function Count<T>(s: seq<T>, p: T -> bool): (n: nat)
    ensures n <= |s|
    decreases |s|
  {
    if |s| == 0 then 0 else Count(s[..|s| - 1], p) + (if p(s[|s| - 1]) then 1 else 0)
  }

  /** One more element at the end adds one exactly when it satisfies `p`. */
  lemma CountSnoc<T>(s: seq<T>, x: T, p: T -> bool)
    ensures Count(s + [x], p) == Count(s, p) + (if p(x) then 1 else 0)
  {
    assert (s + [x])[..|s|] == s;
  }

  /** The count is zero exactly when no element satisfies `p`, and the
      length exactly when every element does. */
  lemma {:induction false} CountExtremes<T>(s: seq<T>, p: T -> bool)
    ensures Count(s, p) == 0 <==> forall k :: 0 <= k < |s| ==> !p(s[k])
    ensures Count(s, p) == |s| <==> forall k :: 0 <= k < |s| ==> p(s[k])
    decreases |s|
  {
    if |s| > 0 {
      var init := s[..|s| - 1];
      assert forall k :: 0 <= k < |init| ==> init[k] == s[k];
      CountExtremes(init, p);
    }
  }

  /** A weaker condition counts at least as many elements. */
  lemma {:induction false} CountMonotone<T>(s: seq<T>, p: T -> bool, q: T -> bool)
    requires forall k :: 0 <= k < |s| ==> p(s[k]) ==> q(s[k])
    ensures Count(s, p) <= Count(s, q)
    decreases |s|
  {
    if |s| > 0 {
      var init := s[..|s| - 1];
      assert forall k :: 0 <= k < |init| ==> init[k] == s[k];
      CountMonotone(init, p, q);
    }
  }

  /** `f` applied to every element, in order. */
  function Map<S, T>(s: seq<S>, f: S -> T): (r: seq<T>)
    ensures |r| == |s|
    ensures forall i :: 0 <= i < |s| ==> r[i] == f(s[i])
  {
    seq(|s|, i requires 0 <= i < |s| => f(s[i]))
  }

  lemma MapAppend<S, T>(a: seq<S>, b: seq<S>, f: S -> T)
    ensures Map(a + b, f) == Map(a, f) + Map(b, f)
  {
  }

  /** Reordering the input reorders the output the same way. */
  lemma {:induction false} MapPermutation<S, T>(a: seq<S>, b: seq<S>, f: S -> T)
    requires multiset(a) == multiset(b)
    ensures multiset(Map(a, f)) == multiset(Map(b, f))
    decreases |a|
  {
    if |a| == 0 {
      assert |b| == |multiset(b)| == 0;
    } else {
      var a' := a[..|a| - 1];
      var x := a[|a| - 1];
      assert a == a' + [x];
      assert x in multiset(b);
      var i :| 0 <= i < |b| && b[i] == x;
      var b' := b[..i] + b[i + 1..];
      assert b == b[..i] + [x] + b[i + 1..];
      assert multiset(b') == multiset(b) - multiset{x};
      assert multiset(a') == multiset(a) - multiset{x};
      MapPermutation(a', b', f);
      MapAppend(a', [x], f);
      MapAppend(b[..i] + [x], b[i + 1..], f);
      MapAppend(b[..i], [x], f);
      MapAppend(b[..i], b[i + 1..], f);
    }
  }
}
