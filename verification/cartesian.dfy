/** `itertools.product` over a list of value lists: every combination that
    takes one value from each list, in lexicographic order of positions
    (the last list varies fastest). */
module Cartesian {
  import opened Seqs

  /** `x` put in front of every tail. */
  function Cons<T>(x: T, tails: seq<seq<T>>): (r: seq<seq<T>>)
    ensures |r| == |tails|
    ensures forall i :: 0 <= i < |r| ==> r[i] == [x] + tails[i]
  {
    seq(|tails|, i requires 0 <= i < |tails| => [x] + tails[i])
  }

  /** Every value of `xs`, in order, in front of every tail. */
  function Prepend<T>(xs: seq<T>, tails: seq<seq<T>>): (r: seq<seq<T>>)
    ensures |r| == |xs| * |tails|
    decreases |xs|
  {
    if |xs| == 0 then []
    else
      var rest := Prepend(xs[1..], tails);
      assert |xs| * |tails| == |tails| + (|xs| - 1) * |tails|;
      Cons(xs[0], tails) + rest
  }

  function Product<T>(lists: seq<seq<T>>): seq<seq<T>>
    decreases |lists|
  {
    if |lists| == 0 then [[]] else Prepend(lists[0], Product(lists[1..]))
  }

  /** The number of combinations: the product of the list lengths. */
  function Weight<T>(lists: seq<seq<T>>): nat
    decreases |lists|
  {
    if |lists| == 0 then 1 else |lists[0]| * Weight(lists[1..])
  }

  lemma {:induction false} ProductLength<T>(lists: seq<seq<T>>)
    ensures |Product(lists)| == Weight(lists)
    decreases |lists|
  {
    if |lists| > 0 {
      ProductLength(lists[1..]);
    }
  }

  lemma MulStep(i: nat, m: nat)
    requires i > 0
    ensures i * m == m + (i - 1) * m
  {
  }

  lemma IndexBelow(i: nat, j: nat, n: nat, m: nat)
    requires i < n && j < m
    ensures i * m + j < n * m
  {
    assert (i + 1) * m <= n * m;
  }

  /** Position `i * |tails| + j` of the block holds value `i` in front of
      tail `j`. */
  lemma {:induction false} PrependIndex<T>(xs: seq<T>, tails: seq<seq<T>>, i: nat, j: nat)
    requires i < |xs| && j < |tails|
    ensures i * |tails| + j < |Prepend(xs, tails)|
    ensures Prepend(xs, tails)[i * |tails| + j] == [xs[i]] + tails[j]
    decreases i
  {
    var m := |tails|;
    IndexBelow(i, j, |xs|, m);
    var head := Cons(xs[0], tails);
    var rest := Prepend(xs[1..], tails);
    assert Prepend(xs, tails) == head + rest;
    if i > 0 {
      var k := (i - 1) * m + j;
      PrependIndex(xs[1..], tails, i - 1, j);
      MulStep(i, m);
      assert i * m + j == m + k;
      assert (head + rest)[m + k] == rest[k];
      assert xs[1..][i - 1] == xs[i];
    } else {
      assert i * m + j == j;
      assert (head + rest)[j] == head[j];
    }
  }

  lemma DivBelow(n: nat, a: nat, w: nat)
    requires n < a * w
    ensures w > 0 && n / w < a
  {
    assert w > 0;
    var q := n / w;
    assert q * w <= n;
    assert q * w < a * w;
  }

  /** The combination at position `n`, read as a mixed-radix numeral whose
      most significant digit picks from the first list. */
  function Decode<T>(lists: seq<seq<T>>, n: nat): (c: seq<T>)
    requires n < Weight(lists)
    ensures |c| == |lists|
    ensures forall k :: 0 <= k < |c| ==> c[k] in lists[k]
    decreases |lists|
  {
    if |lists| == 0 then []
    else
      var w := Weight(lists[1..]);
      DivBelow(n, |lists[0]|, w);
      var tail := Decode(lists[1..], n % w);
      assert forall k :: 1 <= k < |lists| ==> lists[1..][k - 1] == lists[k];
      [lists[0][n / w]] + tail
  }

  /** Position `n` of the enumeration is the combination that `n` encodes. */
  lemma {:induction false} ProductIndex<T>(lists: seq<seq<T>>, n: nat)
    requires n < Weight(lists)
    ensures n < |Product(lists)|
    ensures Product(lists)[n] == Decode(lists, n)
    decreases |lists|
  {
    ProductLength(lists);
    if |lists| > 0 {
      var xs, tails := lists[0], Product(lists[1..]);
      var w := Weight(lists[1..]);
      ProductLength(lists[1..]);
      var i, j := DigitsOf(n, |xs|, w);
      ProductIndex(lists[1..], j);
      PrependIndex(xs, tails, i, j);
    }
  }

  /** The leading digit and the remainder of `n` in the radix `w`. */
  lemma DigitsOf(n: nat, a: nat, w: nat) returns (i: nat, j: nat)
    requires n < a * w
    ensures w > 0 && i == n / w && j == n % w
    ensures i < a && j < w && i * w + j == n
  {
    DivBelow(n, a, w);
    i, j := n / w, n % w;
  }

  lemma {:induction false} ConsMember<T>(x: T, tails: seq<seq<T>>, c: seq<T>)
    ensures c in Cons(x, tails) <==> |c| > 0 && c[0] == x && c[1..] in tails
  {
    if c in Cons(x, tails) {
      var i :| 0 <= i < |tails| && Cons(x, tails)[i] == c;
      assert c[1..] == tails[i];
    }
    if |c| > 0 && c[0] == x && c[1..] in tails {
      var i :| 0 <= i < |tails| && tails[i] == c[1..];
      assert c == [x] + tails[i];
      assert Cons(x, tails)[i] == c;
    }
  }

  lemma {:induction false} PrependMember<T>(xs: seq<T>, tails: seq<seq<T>>, c: seq<T>)
    ensures c in Prepend(xs, tails) <==> |c| > 0 && c[0] in xs && c[1..] in tails
    decreases |xs|
  {
    if |xs| > 0 {
      ConsMember(xs[0], tails, c);
      PrependMember(xs[1..], tails, c);
      assert xs == [xs[0]] + xs[1..];
    }
  }

  /** The enumeration holds exactly the sequences that take, at each
      position, a value of that position's list. */
  lemma {:induction false} ProductMembers<T>(lists: seq<seq<T>>, c: seq<T>)
    ensures c in Product(lists) <==> (|c| == |lists| && forall k :: 0 <= k < |c| ==> c[k] in lists[k])
    decreases |lists|
  {
    if |lists| == 0 {
      assert Product(lists) == [[]];
    } else {
      PrependMember(lists[0], Product(lists[1..]), c);
      if |c| > 0 {
        ProductMembers(lists[1..], c[1..]);
        assert forall k :: 1 <= k < |c| ==> c[1..][k - 1] == c[k];
        assert forall k :: 1 <= k < |lists| ==> lists[1..][k - 1] == lists[k];
      }
    }
  }

  lemma {:induction false} ConsDistinct<T>(x: T, tails: seq<seq<T>>)
    requires Distinct(tails)
    ensures Distinct(Cons(x, tails))
  {
    var r := Cons(x, tails);
    forall i, j | 0 <= i < j < |r|
      ensures r[i] != r[j]
    {
      assert r[i][1..] == tails[i] && r[j][1..] == tails[j];
    }
  }

  lemma {:induction false} PrependDistinct<T>(xs: seq<T>, tails: seq<seq<T>>)
    requires Distinct(xs) && Distinct(tails)
    ensures Distinct(Prepend(xs, tails))
    decreases |xs|
  {
    if |xs| > 0 {
      var head := Cons(xs[0], tails);
      var rest := Prepend(xs[1..], tails);
      ConsDistinct(xs[0], tails);
      assert Distinct(xs[1..]) by {
        forall i, j | 0 <= i < j < |xs[1..]|
          ensures xs[1..][i] != xs[1..][j]
        {
          assert xs[1..][i] == xs[i + 1] && xs[1..][j] == xs[j + 1];
        }
      }
      PrependDistinct(xs[1..], tails);
      forall c | c in head
        ensures c !in rest
      {
        ConsMember(xs[0], tails, c);
        PrependMember(xs[1..], tails, c);
        assert xs[0] !in xs[1..] by {
          forall k | 0 <= k < |xs[1..]|
            ensures xs[1..][k] != xs[0]
          {
            assert xs[1..][k] == xs[k + 1];
          }
        }
      }
      DistinctAppend(head, rest);
    }
  }

  /** With no value repeated within a list, no combination is repeated. */
  lemma {:induction false} ProductDistinct<T>(lists: seq<seq<T>>)
    requires forall k :: 0 <= k < |lists| ==> Distinct(lists[k])
    ensures Distinct(Product(lists))
    decreases |lists|
  {
    if |lists| > 0 {
      assert forall k :: 1 <= k < |lists| ==> lists[1..][k - 1] == lists[k];
      ProductDistinct(lists[1..]);
      PrependDistinct(lists[0], Product(lists[1..]));
    }
  }

  /** For two lists, position `i * |b| + j` holds `a[i]` then `b[j]`. */
  lemma PairAt<T>(a: seq<T>, b: seq<T>, i: nat, j: nat)
    requires i < |a| && j < |b|
    ensures i * |b| + j < |Product([a, b])|
    ensures Product([a, b])[i * |b| + j] == [a[i], b[j]]
  {
    assert [a, b][1..] == [b];
    assert [b][1..] == [];
    assert Product([b]) == Prepend(b, [[]]);
    PrependIndex(b, [[]], j, 0);
    assert Product([b])[j] == [b[j]];
    PrependIndex(a, Product([b]), i, j);
  }

  /** For two lists, an earlier position holds an earlier value of the
      first list, or the same value followed by an earlier value of the
      second: the nested loops' order. */
  lemma PairOrder<T>(a: seq<T>, b: seq<T>, p: nat, q: nat) returns (i: nat, j: nat, i': nat, j': nat)
    requires p < q < |Product([a, b])|
    ensures i < |a| && j < |b| && i' < |a| && j' < |b|
    ensures Product([a, b])[p] == [a[i], b[j]] && Product([a, b])[q] == [a[i'], b[j']]
    ensures i < i' || (i == i' && j < j')
  {
    PairCount(a, b);
    i, j := DigitsOf(p, |a|, |b|);
    i', j' := DigitsOf(q, |a|, |b|);
    PairAt(a, b, i, j);
    PairAt(a, b, i', j');
    DigitOrder(i, j, i', j', |b|);
  }

  lemma PairCount<T>(a: seq<T>, b: seq<T>)
    ensures |Product([a, b])| == |a| * |b|
  {
    ProductLength([a, b]);
    assert [a, b][1..] == [b];
    assert [b][1..] == [];
    assert Weight([b]) == |b|;
  }

  /** Of two mixed-radix numerals, the smaller has the smaller leading digit,
      or the same leading digit and the smaller trailing one. */
  lemma DigitOrder(i: nat, j: nat, i': nat, j': nat, w: nat)
    requires j < w && j' < w && i * w + j < i' * w + j'
    ensures i < i' || (i == i' && j < j')
  {
    if i' < i {
      BelowNextBlock(i', j', i, w);
    }
  }

  lemma BelowNextBlock(x: nat, y: nat, z: nat, w: nat)
    requires x < z && y < w
    ensures x * w + y < z * w
  {
    MulMonotone(x + 1, z, w);
    assert (x + 1) * w == x * w + w;
  }

  lemma MulMonotone(x: nat, y: nat, m: nat)
    requires x <= y
    ensures x * m <= y * m
  {
  }
}
