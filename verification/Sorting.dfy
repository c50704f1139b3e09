/** Stable insertion sort by any total preorder: what the application's library sorts promise. */
module Sorting {

  /** Any two elements are comparable, and the order is transitive. */
  ghost predicate IsOrder<T(!new)>(before: (T, T) -> bool) {
    && (forall a, b :: before(a, b) || before(b, a))
    && (forall a, b, c :: before(a, b) && before(b, c) ==> before(a, c))
  }

  predicate Sorted<T>(xs: seq<T>, before: (T, T) -> bool) {
    forall i, j | 0 <= i < j < |xs| :: before(xs[i], xs[j])
  }

  /** Insert `x` after everything that may come before it. */
  function Insert<T>(xs: seq<T>, x: T, before: (T, T) -> bool): seq<T> {
    if |xs| == 0 || before(xs[|xs| - 1], x) then xs + [x]
    else Insert(xs[..|xs| - 1], x, before) + [xs[|xs| - 1]]
  }

  function Sort<T>(xs: seq<T>, before: (T, T) -> bool): seq<T> {
    if |xs| == 0 then [] else Insert(Sort(xs[..|xs| - 1], before), xs[|xs| - 1], before)
  }

  lemma {:induction false} InsertKeepsAll<T>(xs: seq<T>, x: T, before: (T, T) -> bool)
    ensures multiset(Insert(xs, x, before)) == multiset(xs) + multiset{x}
  {
    if |xs| != 0 && !before(xs[|xs| - 1], x) {
      InsertKeepsAll(xs[..|xs| - 1], x, before);
      assert xs == xs[..|xs| - 1] + [xs[|xs| - 1]];
    }
  }

  lemma {:induction false} InsertSorts<T(!new)>(xs: seq<T>, x: T, before: (T, T) -> bool)
    requires IsOrder(before) && Sorted(xs, before)
    ensures Sorted(Insert(xs, x, before), before)
  {
    hide IsOrder;
    if |xs| == 0 || before(xs[|xs| - 1], x) {
      LastIsLast(xs, x, before);
    } else {
      var init, last := xs[..|xs| - 1], xs[|xs| - 1];
      InsertSorts(init, x, before);
      InsertKeepsAll(init, x, before);
      Comparable(last, x, before);
      var s := Insert(init, x, before);
      forall i | 0 <= i < |s| ensures before(s[i], last) {
        assert s[i] in multiset(s);
      }
    }
  }

  lemma Comparable<T(!new)>(a: T, b: T, before: (T, T) -> bool)
    requires IsOrder(before)
    ensures before(a, b) || before(b, a)
  {}

  lemma LastIsLast<T(!new)>(xs: seq<T>, x: T, before: (T, T) -> bool)
    requires IsOrder(before) && Sorted(xs, before) && (|xs| == 0 || before(xs[|xs| - 1], x))
    ensures Sorted(xs + [x], before)
  {
    forall i | 0 <= i < |xs| ensures before(xs[i], x) {
      if i < |xs| - 1 {
        assert before(xs[i], xs[|xs| - 1]);
      }
    }
  }

  /** Sorting puts the elements in order and neither loses nor adds any. */
  lemma {:induction false} SortSorts<T(!new)>(xs: seq<T>, before: (T, T) -> bool)
    requires IsOrder(before)
    ensures Sorted(Sort(xs, before), before) && multiset(Sort(xs, before)) == multiset(xs)
  {
    hide IsOrder, Sorted, Insert;
    if |xs| == 0 {
      EmptyIsSorted(before);
    } else {
      var init, last := xs[..|xs| - 1], xs[|xs| - 1];
      SortSorts(init, before);
      InsertSorts(Sort(init, before), last, before);
      InsertKeepsAll(Sort(init, before), last, before);
      assert xs == init + [last];
    }
  }

  lemma EmptyIsSorted<T>(before: (T, T) -> bool)
    ensures Sorted([], before)
  {}
}
