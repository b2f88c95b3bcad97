/**
 * Sortedness with respect to a strict total order, the insertion sort that
 * specifies every sort in this model, and the fact that a sorted permutation
 * is unique, so that any correct sort yields the same sequence.
 */
module Ordering {

  /** Never both `x` before `y` and `y` before `x` (so never `x` before itself). */
  ghost predicate Asymmetric<T(!new)>(less: (T, T) -> bool) {
    forall x, y :: less(x, y) ==> !less(y, x)
  }

  ghost predicate StrictTotalOrder<T(!new)>(less: (T, T) -> bool) {
    && Asymmetric(less)
    && (forall x, y, z :: less(x, y) && less(y, z) ==> less(x, z))
    && (forall x, y :: x != y ==> less(x, y) || less(y, x))
  }

  /** No element sorts strictly before the one in front of it. */
  ghost predicate SortedBy<T>(less: (T, T) -> bool, s: seq<T>) {
    forall i, j :: 0 <= i < j < |s| && j == i + 1 ==> !less(s[j], s[i])
  }

  lemma {:induction false} SortedByPair<T(!new)>(less: (T, T) -> bool, s: seq<T>, i: int, j: int)
    requires StrictTotalOrder(less) && SortedBy(less, s)
    requires 0 <= i <= j < |s|
    ensures !less(s[j], s[i])
    decreases j - i
  {
    if i < j {
      SortedByPair(less, s, i + 1, j);
    }
  }

  /** Adjacent order extends to every pair of positions. */
  lemma SortedByAllPairs<T(!new)>(less: (T, T) -> bool, s: seq<T>)
    requires StrictTotalOrder(less) && SortedBy(less, s)
    ensures forall i, j :: 0 <= i <= j < |s| ==> !less(s[j], s[i])
  {
    forall i, j | 0 <= i <= j < |s| ensures !less(s[j], s[i]) {
      SortedByPair(less, s, i, j);
    }
  }

  /** Insert `x` into the sorted `s` in front of the first element it sorts before. */
  function Insert<T(!new)>(less: (T, T) -> bool, x: T, s: seq<T>): (r: seq<T>)
    requires Asymmetric(less) && SortedBy(less, s)
    ensures SortedBy(less, r)
    ensures multiset(r) == multiset(s) + multiset{x}
    ensures r[0] == x || (s != [] && r[0] == s[0])
  {
    if s == [] || less(x, s[0]) then [x] + s
    else
      assert s == [s[0]] + s[1..];
      [s[0]] + Insert(less, x, s[1..])
  }

  /** Insertion sort: the reference definition of a sorted permutation. */
  function Sort<T(!new)>(less: (T, T) -> bool, s: seq<T>): (r: seq<T>)
    requires Asymmetric(less)
    ensures SortedBy(less, r)
    ensures multiset(r) == multiset(s)
  {
    if s == [] then []
    else
      assert s == [s[0]] + s[1..];
      Insert(less, s[0], Sort(less, s[1..]))
  }

  /** Two sorted sequences holding the same elements are the same sequence. */
  lemma {:induction false} SortedPermutationUnique<T(!new)>(less: (T, T) -> bool, x: seq<T>, y: seq<T>)
    requires StrictTotalOrder(less)
    requires SortedBy(less, x) && SortedBy(less, y)
    requires multiset(x) == multiset(y)
    ensures x == y
    decreases |x|
  {
    assert |x| == |multiset(x)| == |multiset(y)| == |y|;
    if x != [] {
      SortedPermutationSameHead(less, x, y);
      MultisetOfTail(x);
      MultisetOfTail(y);
      SortedTail(less, x);
      SortedTail(less, y);
      SortedPermutationUnique(less, x[1..], y[1..]);
      SameHeadSameTail(x, y);
    }
  }

  lemma SameHeadSameTail<T>(x: seq<T>, y: seq<T>)
    requires x != [] && y != [] && x[0] == y[0] && x[1..] == y[1..]
    ensures x == y
  {
    assert x == [x[0]] + x[1..] && y == [y[0]] + y[1..];
  }

  /** Two sorted sequences holding the same elements start with the same (least) element. */
  lemma SortedPermutationSameHead<T(!new)>(less: (T, T) -> bool, x: seq<T>, y: seq<T>)
    requires StrictTotalOrder(less)
    requires SortedBy(less, x) && SortedBy(less, y)
    requires multiset(x) == multiset(y) && x != []
    ensures y != [] && x[0] == y[0]
  {
    assert x[0] in multiset(y);
    var j :| 0 <= j < |y| && y[j] == x[0];
    assert y[0] in multiset(x);
    var i :| 0 <= i < |x| && x[i] == y[0];
    SortedByPair(less, y, 0, j);
    SortedByPair(less, x, 0, i);
  }

  lemma MultisetOfTail<T>(x: seq<T>)
    requires x != []
    ensures multiset(x[1..]) == multiset(x) - multiset{x[0]}
  {
    assert x == [x[0]] + x[1..];
  }

  lemma SortedTail<T(!new)>(less: (T, T) -> bool, x: seq<T>)
    requires SortedBy(less, x) && x != []
    ensures SortedBy(less, x[1..])
  {
    var t := x[1..];
    forall i, j | 0 <= i < j < |t| && j == i + 1 ensures !less(t[j], t[i]) {
      assert t[i] == x[i + 1] && t[j] == x[j + 1];
    }
  }


  /** Sorting an already sorted sequence leaves it as it is. */
  lemma SortOfSorted<T(!new)>(less: (T, T) -> bool, s: seq<T>)
    requires StrictTotalOrder(less) && SortedBy(less, s)
    ensures Sort(less, s) == s
  {
    SortedPermutationUnique(less, Sort(less, s), s);
  }

  /** Sorting is idempotent. */
  lemma SortIdempotent<T(!new)>(less: (T, T) -> bool, s: seq<T>)
    requires StrictTotalOrder(less)
    ensures Sort(less, Sort(less, s)) == Sort(less, s)
  {
    SortOfSorted(less, Sort(less, s));
  }

  /** The result of sorting depends only on which elements there are, not on their order. */
  lemma SortIgnoresInputOrder<T(!new)>(less: (T, T) -> bool, s: seq<T>, t: seq<T>)
    requires StrictTotalOrder(less)
    requires multiset(s) == multiset(t)
    ensures Sort(less, s) == Sort(less, t)
  {
    SortedPermutationUnique(less, Sort(less, s), Sort(less, t));
  }
}
