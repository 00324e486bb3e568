/**
 * `Array.prototype.filter`: the elements a predicate keeps, in their
 * original order.
 */
module Lists {

  function Filter<T>(s: seq<T>, p: T -> bool): (r: seq<T>)
    ensures |r| <= |s|
    decreases |s|
  {
    if s == [] then []
    else Filter(s[..|s| - 1], p) + (if p(s[|s| - 1]) then [s[|s| - 1]] else [])
  }

  /** An element is kept exactly when it occurs in the input and satisfies the predicate. */
  lemma {:induction false} FilterMembers<T(!new)>(s: seq<T>, p: T -> bool)
    ensures forall x :: x in Filter(s, p) <==> x in s && p(x)
    decreases |s|
  {
    if s != [] {
      var init, last := s[..|s| - 1], s[|s| - 1];
      FilterMembers(init, p);
      LastSplit(s);
    }
  }

  /** The positions of `s` that `Filter` keeps, in increasing order. */
  function KeptIndices<T>(s: seq<T>, p: T -> bool): seq<nat>
    decreases |s|
  {
    if s == [] then []
    else KeptIndices(s[..|s| - 1], p) + (if p(s[|s| - 1]) then [|s| - 1] else [])
  }

  /**
   * The filtered sequence is a subsequence of the input: it is picked by
   * strictly increasing positions, which are exactly the positions whose
   * element satisfies the predicate.
   */
  lemma {:induction false} FilterIsSubsequence<T>(s: seq<T>, p: T -> bool)
    ensures var r, idx := Filter(s, p), KeptIndices(s, p);
      && |r| == |idx|
      && (forall j :: 0 <= j < |idx| ==> idx[j] < |s| && r[j] == s[idx[j]])
      && (forall j, k :: 0 <= j < k < |idx| ==> idx[j] < idx[k])
      && (forall i :: 0 <= i < |s| ==> (i in idx <==> p(s[i])))
  {
    KeptIndicesPick(s, p);
    KeptIndicesIncrease(s, p);
    KeptIndicesIff(s, p);
  }

  /** The `j`-th kept element sits at the `j`-th kept position. */
  lemma {:induction false} KeptIndicesPick<T>(s: seq<T>, p: T -> bool)
    ensures |Filter(s, p)| == |KeptIndices(s, p)|
    ensures forall j :: 0 <= j < |KeptIndices(s, p)| ==>
      KeptIndices(s, p)[j] < |s| && Filter(s, p)[j] == s[KeptIndices(s, p)[j]]
    decreases |s|
  {
    if s != [] {
      var init := s[..|s| - 1];
      KeptIndicesPick(init, p);
      var idx0 := KeptIndices(init, p);
      assert KeptIndices(s, p) == idx0 + (if p(s[|s| - 1]) then [|s| - 1] else []);
      assert Filter(s, p) == Filter(init, p) + (if p(s[|s| - 1]) then [s[|s| - 1]] else []);
      forall j | 0 <= j < |idx0| ensures s[idx0[j]] == init[idx0[j]] {
      }
    }
  }

  /** The kept positions are in range and strictly increasing. */
  lemma {:induction false} KeptIndicesIncrease<T>(s: seq<T>, p: T -> bool)
    ensures forall j :: 0 <= j < |KeptIndices(s, p)| ==> KeptIndices(s, p)[j] < |s|
    ensures forall j, k :: 0 <= j < k < |KeptIndices(s, p)| ==> KeptIndices(s, p)[j] < KeptIndices(s, p)[k]
    decreases |s|
  {
    if s != [] {
      var init := s[..|s| - 1];
      KeptIndicesIncrease(init, p);
      var idx0 := KeptIndices(init, p);
      assert KeptIndices(s, p) == idx0 + (if p(s[|s| - 1]) then [|s| - 1] else []);
    }
  }

  /** A position is kept exactly when its element satisfies the predicate. */
  lemma {:induction false} KeptIndicesIff<T>(s: seq<T>, p: T -> bool)
    ensures forall i :: 0 <= i < |s| ==> (i in KeptIndices(s, p) <==> p(s[i]))
    decreases |s|
  {
    if s != [] {
      var init := s[..|s| - 1];
      KeptIndicesIff(init, p);
      KeptIndicesIncrease(init, p);
      var idx0 := KeptIndices(init, p);
      assert KeptIndices(s, p) == idx0 + (if p(s[|s| - 1]) then [|s| - 1] else []);
      forall i | 0 <= i < |s| ensures i in KeptIndices(s, p) <==> p(s[i]) {
        if i < |init| {
          assert s[i] == init[i];
        } else {
          assert i !in idx0;
        }
      }
    }
  }

  /** A predicate that holds throughout keeps everything. */
  lemma {:induction false} FilterKeepsAll<T(!new)>(s: seq<T>, p: T -> bool)
    requires forall i :: 0 <= i < |s| ==> p(s[i])
    ensures Filter(s, p) == s
    decreases |s|
  {
    if s != [] {
      var init := s[..|s| - 1];
      FilterKeepsAll(init, p);
      assert Filter(s, p) == Filter(init, p) + [s[|s| - 1]];
      LastSplit(s);
    }
  }

  /** No element occurs twice. */
  predicate Distinct<T(==)>(s: seq<T>) {
    forall i, j :: 0 <= i < j < |s| ==> s[i] != s[j]
  }

  /** Filtering a sequence without duplicates gives one without duplicates. */
  lemma {:induction false} FilterDistinct<T(!new)>(s: seq<T>, p: T -> bool)
    requires Distinct(s)
    ensures Distinct(Filter(s, p))
    decreases |s|
  {
    if s != [] {
      var init := s[..|s| - 1];
      FilterDistinct(init, p);
      FilterMembers(init, p);
      assert s[|s| - 1] !in init;
      assert s[|s| - 1] !in Filter(init, p);
    }
  }

  /** A relation that holds between every earlier and later element still holds after filtering. */
  lemma FilterKeepsOrder<T(!new)>(s: seq<T>, p: T -> bool, rel: (T, T) -> bool)
    requires forall i, j :: 0 <= i < j < |s| ==> rel(s[i], s[j])
    ensures forall i, j :: 0 <= i < j < |Filter(s, p)| ==> rel(Filter(s, p)[i], Filter(s, p)[j])
  {
    FilterIsSubsequence(s, p);
    var r, idx := Filter(s, p), KeptIndices(s, p);
    forall i, j | 0 <= i < j < |r| ensures rel(r[i], r[j]) {
      assert r[i] == s[idx[i]] && r[j] == s[idx[j]] && idx[i] < idx[j];
    }
  }

  /** `Boolean` on strings: the non-empty ones. */
  function NonEmpty(): string -> bool {
    u => u != ""
  }

  /** `Array.prototype.map`. */
  function Map<A, B>(s: seq<A>, f: A -> B): (r: seq<B>)
    ensures |r| == |s| && forall i :: 0 <= i < |s| ==> r[i] == f(s[i])
  {
    seq(|s|, i requires 0 <= i < |s| => f(s[i]))
  }

  /**
   * Filtering mapped elements keeps, in order, the images of the elements at
   * strictly increasing positions: exactly those whose image is kept.
   */
  lemma FilterOfMap<A, B>(s: seq<A>, f: A -> B, p: B -> bool)
    ensures var r, kept := Filter(Map(s, f), p), KeptIndices(Map(s, f), p);
      && |r| == |kept|
      && (forall j :: 0 <= j < |kept| ==> kept[j] < |s| && r[j] == f(s[kept[j]]))
      && (forall j, k :: 0 <= j < k < |kept| ==> kept[j] < kept[k])
      && (forall i :: 0 <= i < |s| ==> (i in kept <==> p(f(s[i]))))
  {
    var m := Map(s, f);
    FilterIsSubsequence(m, p);
  }

  /** Mapping a non-empty sequence maps its first element, then the rest. */
  lemma MapCons<A, B>(s: seq<A>, f: A -> B)
    requires s != []
    ensures Map(s, f) == [f(s[0])] + Map(s[1..], f)
  {
  }

  /** The first `n` elements, or all of them when there are fewer (`slice(0, n)`). */
  function Take<T>(s: seq<T>, n: nat): (r: seq<T>)
    ensures |r| == if |s| <= n then |s| else n
    ensures forall i :: 0 <= i < |r| ==> r[i] == s[i]
  {
    if |s| <= n then s else s[..n]
  }

  /**
   * `r` is the first `n` kept elements of `s`: picked by increasing
   * positions, skipping no kept position before the last one picked, and
   * all of them when at most `n` are kept.
   */
  ghost predicate FirstKept<T>(r: seq<T>, s: seq<T>, p: T -> bool, n: nat) {
    var idx := KeptIndices(s, p);
    && |r| <= |idx|
    && (forall j :: 0 <= j < |r| ==> idx[j] < |s| && r[j] == s[idx[j]] && p(r[j]))
    && (forall j, k :: 0 <= j < k < |r| ==> idx[j] < idx[k])
    && (forall i :: 0 <= i < |s| && p(s[i]) && (|r| < n || (|r| > 0 && i <= idx[|r| - 1])) ==> i in idx[..|r|])
    && (|r| == n || |r| == |idx|)
    && (|r| < n ==> |r| == |idx|)
  }

  lemma TakeOfFilter<T(!new)>(s: seq<T>, p: T -> bool, n: nat)
    ensures FirstKept(Take(Filter(s, p), n), s, p, n)
  {
    FilterIsSubsequence(s, p);
    TakeSkipsNothing(s, p, n);
  }

  /** No kept position before the last one taken is skipped, and all are taken when fewer than `n` are kept. */
  lemma TakeSkipsNothing<T>(s: seq<T>, p: T -> bool, n: nat)
    requires forall j, k :: 0 <= j < k < |KeptIndices(s, p)| ==> KeptIndices(s, p)[j] < KeptIndices(s, p)[k]
    requires forall i :: 0 <= i < |s| ==> (i in KeptIndices(s, p) <==> p(s[i]))
    requires |Filter(s, p)| == |KeptIndices(s, p)|
    ensures var r, idx := Take(Filter(s, p), n), KeptIndices(s, p);
      forall i :: 0 <= i < |s| && p(s[i]) && (|r| < n || (|r| > 0 && i <= idx[|r| - 1])) ==> i in idx[..|r|]
  {
    var r, idx := Take(Filter(s, p), n), KeptIndices(s, p);
    forall i | 0 <= i < |s| && p(s[i]) && (|r| < n || (|r| > 0 && i <= idx[|r| - 1])) ensures i in idx[..|r|] {
      EarlyPositionsInPrefix(idx, |r|, i);
    }
  }

  /** Filtering a sequence with an element in front filters that element, then the rest. */
  lemma {:induction false} FilterCons<T>(a: T, s: seq<T>, p: T -> bool)
    ensures Filter([a] + s, p) == (if p(a) then [a] else []) + Filter(s, p)
    decreases |s|
  {
    var t := [a] + s;
    if s == [] {
      assert t[..|t| - 1] == [];
    } else {
      var init, last := s[..|s| - 1], s[|s| - 1];
      FilterCons(a, init, p);
      assert t[..|t| - 1] == [a] + init;
      assert t[|t| - 1] == last;
    }
  }

  /** A non-empty sequence is its front followed by its last element. */
  lemma LastSplit<T>(s: seq<T>)
    requires s != []
    ensures s == s[..|s| - 1] + [s[|s| - 1]]
  {
  }

  /** Dropping the last element lowers its count by one and leaves the other counts alone. */
  lemma MultisetLast<T>(s: seq<T>)
    requires s != []
    ensures forall y :: multiset(s)[y] == multiset(s[..|s| - 1])[y] + (if y == s[|s| - 1] then 1 else 0)
  {
    LastSplit(s);
  }

  /** Concatenation is associative. */
  lemma AppendAssoc<T>(a: seq<T>, b: seq<T>, c: seq<T>)
    ensures (a + b) + c == a + (b + c)
  {
  }

  /** In a strictly increasing sequence, a value no larger than the `n`-th lies among the first `n`. */
  lemma EarlyPositionsInPrefix(idx: seq<nat>, n: nat, i: nat)
    requires forall j, k :: 0 <= j < k < |idx| ==> idx[j] < idx[k]
    requires i in idx && n <= |idx|
    requires n == |idx| || (n > 0 && i <= idx[n - 1])
    ensures i in idx[..n]
  {
    var m :| 0 <= m < |idx| && idx[m] == i;
    if n < |idx| {
      assert forall k :: n <= k < |idx| ==> idx[n - 1] < idx[k];
    }
    assert m < n;
    assert idx[..n][m] == i;
  }
}
