/**
 * `Array.prototype.sort` with a comparator, as the departure board uses it.
 * The sort is stable (ECMAScript 2019 and later), so for a comparator that
 * induces a total preorder its result is the unique stable ordering; stable
 * insertion sort computes that ordering, first as a function on sequences
 * and then in place on an array.
 *
 * `before(a, b)` holds when the comparator does not put `a` after `b`
 * (`compare(a, b) <= 0`).
 */
module Sorting {
  import Lists

  /** `before` is total and transitive: the comparator is consistent. */
  ghost predicate TotalPreorder<T(!new)>(before: (T, T) -> bool) {
    && (forall a, b :: before(a, b) || before(b, a))
    && (forall a, b, c :: before(a, b) && before(b, c) ==> before(a, c))
  }

  predicate SortedBy<T>(s: seq<T>, before: (T, T) -> bool) {
    forall i, j :: 0 <= i < j < |s| ==> before(s[i], s[j])
  }

  /** Inserts `x` into `t` after every element that is not strictly after it. */
  function Insert<T>(t: seq<T>, x: T, before: (T, T) -> bool): seq<T>
    decreases |t|
  {
    if t == [] || before(t[|t| - 1], x) then t + [x]
    else Insert(t[..|t| - 1], x, before) + [t[|t| - 1]]
  }

  /** Stable insertion sort. */
  function InsertionSorted<T>(s: seq<T>, before: (T, T) -> bool): seq<T>
    decreases |s|
  {
    if s == [] then []
    else Insert(InsertionSorted(s[..|s| - 1], before), s[|s| - 1], before)
  }

  lemma {:induction false} InsertPermutes<T>(t: seq<T>, x: T, before: (T, T) -> bool)
    ensures multiset(Insert(t, x, before)) == multiset(t) + multiset{x}
    decreases |t|
  {
    if !(t == [] || before(t[|t| - 1], x)) {
      InsertPermutes(t[..|t| - 1], x, before);
      Lists.LastSplit(t);
    }
  }

  /** Sorting only reorders: the result is a permutation of the input. */
  lemma {:induction false} InsertionSortedPermutes<T>(s: seq<T>, before: (T, T) -> bool)
    ensures multiset(InsertionSorted(s, before)) == multiset(s)
    decreases |s|
  {
    if s != [] {
      InsertionSortedPermutes(s[..|s| - 1], before);
      InsertPermutes(InsertionSorted(s[..|s| - 1], before), s[|s| - 1], before);
      Lists.LastSplit(s);
    }
  }

  lemma {:induction false} InsertKeepsSorted<T(!new)>(t: seq<T>, x: T, before: (T, T) -> bool)
    requires TotalPreorder(before)
    requires SortedBy(t, before)
    ensures SortedBy(Insert(t, x, before), before)
    decreases |t|
  {
    if t == [] || before(t[|t| - 1], x) {
      forall i | 0 <= i < |t| ensures before(t[i], x) {
        if i < |t| - 1 {
          assert before(t[i], t[|t| - 1]);
        }
      }
    } else {
      var init, last := t[..|t| - 1], t[|t| - 1];
      InsertKeepsSorted(init, x, before);
      var r := Insert(init, x, before);
      assert before(x, last);
      InsertPermutes(init, x, before);
      forall y | y in r ensures before(y, last) {
        assert y in multiset(r);
        if y != x {
          assert y in multiset(init);
          var k :| 0 <= k < |init| && init[k] == y;
        }
      }
    }
  }

  /** A consistent comparator leaves the insertion-sorted sequence in order. */
  lemma {:induction false} InsertionSortedIsSorted<T(!new)>(s: seq<T>, before: (T, T) -> bool)
    requires TotalPreorder(before)
    ensures SortedBy(InsertionSorted(s, before), before)
    decreases |s|
  {
    if s != [] {
      InsertionSortedIsSorted(s[..|s| - 1], before);
      InsertKeepsSorted(InsertionSorted(s[..|s| - 1], before), s[|s| - 1], before);
    }
  }

  /** The elements that rank equal to `x`: neither is strictly before the other. */
  function Ties<T>(x: T, before: (T, T) -> bool): T -> bool {
    y => before(x, y) && before(y, x)
  }

  /** Inserting `x` appends it after the elements of `t` that tie with `x0`, if it ties too. */
  lemma {:induction false} InsertTies<T(!new)>(t: seq<T>, x: T, before: (T, T) -> bool, x0: T)
    requires TotalPreorder(before)
    ensures Lists.Filter(Insert(t, x, before), Ties(x0, before))
         == Lists.Filter(t, Ties(x0, before)) + (if Ties(x0, before)(x) then [x] else [])
    decreases |t|
  {
    var p := Ties(x0, before);
    if t == [] || before(t[|t| - 1], x) {
      assert (t + [x])[..|t|] == t;
    } else {
      var init, last := t[..|t| - 1], t[|t| - 1];
      InsertTies(init, x, before, x0);
      var r := Insert(init, x, before);
      var fi := Lists.Filter(init, p);
      assert (r + [last])[..|r|] == r;
      assert Lists.Filter(r + [last], p) == Lists.Filter(r, p) + (if p(last) then [last] else []);
      Lists.LastSplit(t);
      assert Lists.Filter(t, p) == fi + (if p(last) then [last] else []);
      if p(x) {
        TieNotAfter(before, x0, last, x);
        assert Lists.Filter(r + [last], p) == fi + [x];
      } else {
        assert Lists.Filter(r + [last], p) == fi + (if p(last) then [last] else []);
      }
    }
  }

  /** An element strictly after one that ties with `x0` does not tie with `x0`. */
  lemma TieNotAfter<T(!new)>(before: (T, T) -> bool, x0: T, a: T, b: T)
    requires TotalPreorder(before)
    requires Ties(x0, before)(b) && !before(a, b)
    ensures !Ties(x0, before)(a)
  {
  }

  /**
   * The sort is stable: the elements that tie with any `x0` come out in
   * the order they went in.
   */
  lemma {:induction false} SortKeepsTieOrder<T(!new)>(s: seq<T>, before: (T, T) -> bool, x0: T)
    requires TotalPreorder(before)
    ensures Lists.Filter(InsertionSorted(s, before), Ties(x0, before)) == Lists.Filter(s, Ties(x0, before))
    decreases |s|
  {
    if s != [] {
      var init := s[..|s| - 1];
      SortKeepsTieOrder(init, before, x0);
      InsertTies(InsertionSorted(init, before), s[|s| - 1], before, x0);
    }
  }

  /** The sorted sequence is an ordered rearrangement of its input. */
  lemma SortedRearrangement<T(!new)>(s: seq<T>, before: (T, T) -> bool)
    requires TotalPreorder(before)
    ensures var r := InsertionSorted(s, before);
      && |r| == |s| && multiset(r) == multiset(s) && SortedBy(r, before)
      && (forall x :: x in r <==> x in s)
  {
    var r := InsertionSorted(s, before);
    InsertionSortedPermutes(s, before);
    InsertionSortedIsSorted(s, before);
    assert |r| == |multiset(r)| == |multiset(s)| == |s|;
    forall x ensures x in r <==> x in s {
      assert x in r <==> x in multiset(r);
      assert x in s <==> x in multiset(s);
    }
  }

  /** Sorts `a` in place; the result is `InsertionSorted` of the old contents. */
  method SortInPlace<T>(a: array<T>, before: (T, T) -> bool)
    modifies a
    ensures a[..] == InsertionSorted(old(a[..]), before)
  {
    var i := 0;
    while i < a.Length
      invariant 0 <= i <= a.Length
      invariant a[..i] == InsertionSorted(old(a[..])[..i], before)
      invariant a[i..] == old(a[..])[i..]
    {
      InsertInPlace(a, i, before);
      assert old(a[..])[..i + 1][..i] == old(a[..])[..i];
      i := i + 1;
    }
    assert a[..] == a[..a.Length];
    assert old(a[..]) == old(a[..])[..a.Length];
  }

  /** Moves `a[i]` left into the prefix `a[..i]`, as `Insert` does. */
  method InsertInPlace<T>(a: array<T>, i: nat, before: (T, T) -> bool)
    requires i < a.Length
    modifies a
    ensures a[..i + 1] == Insert(old(a[..i]), old(a[i]), before)
    ensures a[i + 1..] == old(a[i + 1..])
  {
    var x := a[i];
    ghost var o, t := a[..], a[..i];
    var j := i;
    while j > 0 && !before(a[j - 1], x)
      invariant 0 <= j <= i
      invariant forall k :: 0 <= k < j ==> a[k] == t[k]
      invariant forall k :: j < k <= i ==> a[k] == t[k - 1]
      invariant forall k :: i < k < a.Length ==> a[k] == o[k]
      invariant forall k :: j <= k < i ==> !before(t[k], x)
    {
      a[j] := a[j - 1];
      j := j - 1;
    }
    a[j] := x;
    InsertAt(t, x, j, before);
    Shifted(a[..], o, x, i, j);
  }

  /**
   * The array after the shifting loop: the prefix before `j`, then `x`,
   * then the rest of the old prefix moved one place right, and the part
   * after `i` untouched.
   */
  lemma Shifted<T>(s: seq<T>, o: seq<T>, x: T, i: nat, j: nat)
    requires |s| == |o| && j <= i < |s|
    requires forall k :: 0 <= k < j ==> s[k] == o[k]
    requires s[j] == x
    requires forall k :: j < k <= i ==> s[k] == o[k - 1]
    requires forall k :: i < k < |s| ==> s[k] == o[k]
    ensures s[..i + 1] == o[..i][..j] + [x] + o[..i][j..]
    ensures s[i + 1..] == o[i + 1..]
  {
    var t := o[..i];
    var inserted := t[..j] + [x] + t[j..];
    forall k | 0 <= k <= i ensures s[k] == inserted[k] {
      if k > j {
        assert inserted[k] == t[k - 1];
      }
    }
  }

  /**
   * `Insert` puts `x` right after the last element that is not strictly
   * after it.
   */
  lemma {:induction false} InsertAt<T>(t: seq<T>, x: T, j: nat, before: (T, T) -> bool)
    requires j <= |t|
    requires j == 0 || before(t[j - 1], x)
    requires forall k :: j <= k < |t| ==> !before(t[k], x)
    ensures Insert(t, x, before) == t[..j] + [x] + t[j..]
    decreases |t|
  {
    if |t| > j {
      var init := t[..|t| - 1];
      InsertAt(init, x, j, before);
      assert init[..j] == t[..j];
      assert init[j..] + [t[|t| - 1]] == t[j..];
    } else {
      assert t[..j] == t;
    }
  }
}
