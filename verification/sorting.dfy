/** Sorting rows by a real-valued key, the way `DataFrame.sort_values`
    orders them. pandas' default algorithm is not stable, so the contracts
    only promise what every outcome of it shares: the result is ordered by
    the key and holds the same rows. Insertion sort is one such outcome. */
module Sorting {

  predicate SortedBy<T>(s: seq<T>, key: T -> real) {
    forall i, j :: 0 <= i < j < |s| ==> key(s[i]) <= key(s[j])
  }

  /** Puts `x` into the sorted sequence `s` before the first element with a
      larger-or-equal key. */
  function Insert<T(==)>(x: T, s: seq<T>, key: T -> real): (r: seq<T>)
    requires SortedBy(s, key)
    ensures SortedBy(r, key)
    ensures multiset(r) == multiset(s) + multiset{x}
    ensures |r| == |s| + 1
    decreases |s|
  {
    if |s| == 0 then [x]
    else if key(x) <= key(s[0]) then [x] + s
    else
      var tail := Insert(x, s[1..], key);
      assert s == [s[0]] + s[1..];
      HeadBelowInsert(x, s, tail, key);
      [s[0]] + tail
  }

  /** The head of a sorted list, when `x` sorts after it, sorts before
      everything in `x` inserted into the rest. */
  lemma HeadBelowInsert<T>(x: T, s: seq<T>, tail: seq<T>, key: T -> real)
    requires |s| > 0 && SortedBy(s, key) && key(s[0]) < key(x)
    requires multiset(tail) == multiset(s[1..]) + multiset{x}
    ensures forall k :: 0 <= k < |tail| ==> key(s[0]) <= key(tail[k])
  {
    forall k | 0 <= k < |tail|
      ensures key(s[0]) <= key(tail[k])
    {
      assert tail[k] in multiset(tail);
      if tail[k] != x {
        assert tail[k] in s[1..];
        var j :| 0 <= j < |s[1..]| && s[1..][j] == tail[k];
        assert s[j + 1] == tail[k];
      }
    }
  }

  /** Insertion sort: ascending by `key`, a permutation of the input. */
  function SortBy<T(==)>(s: seq<T>, key: T -> real): (r: seq<T>)
    ensures SortedBy(r, key)
    ensures multiset(r) == multiset(s)
    ensures |r| == |s|
    decreases |s|
  {
    if |s| == 0 then []
    else
      assert s == [s[0]] + s[1..];
      Insert(s[0], SortBy(s[1..], key), key)
  }
}
