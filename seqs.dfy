/**
  Generic sequence operations behind the list pipeline: `Array.prototype.filter`,
  the stable `Array.prototype.sort` with a comparator returning a number, and
  `Array.prototype.slice` with its negative-index and clipping rules.
*/
module Seqs {

  // ---------------------------------------------------------------------------
  // filter

  /** The elements of `s` satisfying `p`, in their original order. */
  function Filter<T>(s: seq<T>, p: T -> bool): (r: seq<T>)
    ensures |r| <= |s|
    ensures forall i :: 0 <= i < |r| ==> p(r[i])
  {
    if s == [] then [] else if p(s[0]) then [s[0]] + Filter(s[1..], p) else Filter(s[1..], p)
  }

  /** `a` can be obtained from `b` by deleting elements. */
  predicate IsSubsequence<T(==)>(a: seq<T>, b: seq<T>)
    decreases |b|
  {
    if a == [] then true
    else if b == [] then false
    else (a[0] == b[0] && IsSubsequence(a[1..], b[1..])) || IsSubsequence(a, b[1..])
  }

  lemma {:induction false} FilterIsSubsequence<T>(s: seq<T>, p: T -> bool)
    ensures IsSubsequence(Filter(s, p), s)
  {
    if s != [] {
      FilterIsSubsequence(s[1..], p);
      if p(s[0]) {
        assert Filter(s, p)[1..] == Filter(s[1..], p);
      }
    }
  }

  /** Filtering keeps every occurrence of a satisfying element and none of the others. */
  lemma {:induction false} FilterMultiset<T>(s: seq<T>, p: T -> bool)
    ensures forall x :: multiset(Filter(s, p))[x] == if p(x) then multiset(s)[x] else 0
  {
    if s != [] {
      FilterMultiset(s[1..], p);
      assert s == [s[0]] + s[1..];
    }
  }

  lemma {:induction false} FilterKeepsAll<T>(s: seq<T>, p: T -> bool)
    requires forall i :: 0 <= i < |s| ==> p(s[i])
    ensures Filter(s, p) == s
  {
    if s != [] {
      FilterKeepsAll(s[1..], p);
    }
  }

  lemma {:induction false} FilterConcat<T>(a: seq<T>, b: seq<T>, p: T -> bool)
    ensures Filter(a + b, p) == Filter(a, p) + Filter(b, p)
  {
    if a != [] {
      assert (a + b)[1..] == a[1..] + b;
      FilterConcat(a[1..], b, p);
    } else {
      assert a + b == b;
    }
  }

  lemma {:induction false} FilterExt<T>(s: seq<T>, p: T -> bool, q: T -> bool)
    requires forall i :: 0 <= i < |s| ==> p(s[i]) == q(s[i])
    ensures Filter(s, p) == Filter(s, q)
  {
    if s != [] {
      FilterExt(s[1..], p, q);
    }
  }

  // ---------------------------------------------------------------------------
  // sort

  /**
    A comparator in the sense of `Array.prototype.sort`: its sign flips when the
    arguments are swapped, and "not after" is transitive.
  */
  ghost predicate Consistent<T(!new)>(cmp: (T, T) -> int) {
    && (forall a, b :: cmp(a, b) < 0 <==> cmp(b, a) > 0)
    && (forall a, b, c :: cmp(a, b) <= 0 && cmp(b, c) <= 0 ==> cmp(a, c) <= 0)
  }

  ghost predicate SortedBy<T>(s: seq<T>, cmp: (T, T) -> int) {
    forall i, j :: 0 <= i < j < |s| ==> cmp(s[i], s[j]) <= 0
  }

  /** The elements the comparator ranks equal to `x`. */
  function TiedWith<T>(cmp: (T, T) -> int, x: T): T -> bool {
    y => cmp(x, y) == 0
  }

  /** `r` keeps every group of equally ranked elements in the order `s` has them. */
  ghost predicate StableOver<T(!new)>(r: seq<T>, s: seq<T>, cmp: (T, T) -> int) {
    forall x :: Filter(r, TiedWith(cmp, x)) == Filter(s, TiedWith(cmp, x))
  }

  /** Inserts `x` in front of the first element it is not ranked after. */
  function Insert<T>(x: T, t: seq<T>, cmp: (T, T) -> int): (r: seq<T>)
    ensures |r| == |t| + 1
    ensures multiset(r) == multiset(t) + multiset{x}
  {
    if t == [] then [x]
    else if cmp(x, t[0]) <= 0 then [x] + t
    else
      assert t == [t[0]] + t[1..];
      [t[0]] + Insert(x, t[1..], cmp)
  }

  /** Stable insertion sort: the order the sorted array has after `sort(cmp)`. */
  function Sort<T>(s: seq<T>, cmp: (T, T) -> int): (r: seq<T>)
    ensures |r| == |s|
    ensures multiset(r) == multiset(s)
  {
    if s == [] then []
    else
      assert s == [s[0]] + s[1..];
      Insert(s[0], Sort(s[1..], cmp), cmp)
  }

  /** `y` is ranked no later than any element of `t`. */
  ghost predicate NotAfterAll<T>(y: T, t: seq<T>, cmp: (T, T) -> int) {
    forall k :: 0 <= k < |t| ==> cmp(y, t[k]) <= 0
  }

  lemma SortedCons<T>(y: T, t: seq<T>, cmp: (T, T) -> int)
    requires NotAfterAll(y, t, cmp) && SortedBy(t, cmp)
    ensures SortedBy([y] + t, cmp)
  {
    var r := [y] + t;
    forall i, j | 0 <= i < j < |r|
      ensures cmp(r[i], r[j]) <= 0
    {
      assert r[j] == t[j - 1];
      if i > 0 {
        assert r[i] == t[i - 1];
      }
    }
  }

  lemma {:induction false} InsertNotAfter<T>(y: T, x: T, t: seq<T>, cmp: (T, T) -> int)
    requires cmp(y, x) <= 0 && NotAfterAll(y, t, cmp)
    ensures NotAfterAll(y, Insert(x, t, cmp), cmp)
  {
    if t != [] && cmp(x, t[0]) > 0 {
      InsertNotAfter(y, x, t[1..], cmp);
      assert NotAfterAll(y, Insert(x, t[1..], cmp), cmp);
      var r := Insert(x, t, cmp);
      assert r == [t[0]] + Insert(x, t[1..], cmp);
      forall k | 0 <= k < |r|
        ensures cmp(y, r[k]) <= 0
      {
        if k > 0 {
          assert r[k] == Insert(x, t[1..], cmp)[k - 1];
        }
      }
    }
  }

  lemma {:induction false} InsertSorted<T(!new)>(x: T, t: seq<T>, cmp: (T, T) -> int)
    requires Consistent(cmp)
    requires SortedBy(t, cmp)
    ensures SortedBy(Insert(x, t, cmp), cmp)
  {
    if t == [] {
    } else if cmp(x, t[0]) <= 0 {
      forall k | 0 <= k < |t|
        ensures cmp(x, t[k]) <= 0
      {
        if k > 0 {
          assert cmp(t[0], t[k]) <= 0;
        }
      }
      SortedCons(x, t, cmp);
    } else {
      var tail := t[1..];
      assert SortedBy(tail, cmp) by {
        forall i, j | 0 <= i < j < |tail|
          ensures cmp(tail[i], tail[j]) <= 0
        {
          assert tail[i] == t[i + 1] && tail[j] == t[j + 1];
        }
      }
      InsertSorted(x, tail, cmp);
      assert cmp(t[0], x) <= 0;
      forall k | 0 <= k < |tail|
        ensures cmp(t[0], tail[k]) <= 0
      {
        assert tail[k] == t[k + 1];
      }
      InsertNotAfter(t[0], x, tail, cmp);
      SortedCons(t[0], Insert(x, tail, cmp), cmp);
    }
  }

  /** The sorted list is ordered by the comparator. */
  lemma {:induction false} SortSorted<T(!new)>(s: seq<T>, cmp: (T, T) -> int)
    requires Consistent(cmp)
    ensures SortedBy(Sort(s, cmp), cmp)
  {
    if s != [] {
      SortSorted(s[1..], cmp);
      InsertSorted(s[0], Sort(s[1..], cmp), cmp);
    }
  }

  /** Inserting `z` lands it after nothing that is ranked equal to it. */
  lemma {:induction false} InsertTies<T(!new)>(z: T, t: seq<T>, cmp: (T, T) -> int, x: T)
    requires Consistent(cmp)
    ensures Filter(Insert(z, t, cmp), TiedWith(cmp, x)) ==
      if cmp(x, z) == 0 then [z] + Filter(t, TiedWith(cmp, x)) else Filter(t, TiedWith(cmp, x))
  {
    var p := TiedWith(cmp, x);
    if t == [] {
    } else if cmp(z, t[0]) <= 0 {
      assert Insert(z, t, cmp) == [z] + t;
    } else {
      InsertTies(z, t[1..], cmp, x);
      assert Insert(z, t, cmp) == [t[0]] + Insert(z, t[1..], cmp);
      if cmp(x, z) == 0 {
        assert cmp(z, x) <= 0;
        assert !p(t[0]);
      }
    }
  }

  /** Equally ranked elements keep their relative order: the sort is stable. */
  lemma {:induction false} SortStable<T(!new)>(s: seq<T>, cmp: (T, T) -> int)
    requires Consistent(cmp)
    ensures StableOver(Sort(s, cmp), s, cmp)
  {
    forall x
      ensures Filter(Sort(s, cmp), TiedWith(cmp, x)) == Filter(s, TiedWith(cmp, x))
    {
      SortStableAt(s, cmp, x);
    }
  }

  lemma {:induction false} SortStableAt<T(!new)>(s: seq<T>, cmp: (T, T) -> int, x: T)
    requires Consistent(cmp)
    ensures Filter(Sort(s, cmp), TiedWith(cmp, x)) == Filter(s, TiedWith(cmp, x))
  {
    if s != [] {
      SortStableAt(s[1..], cmp, x);
      InsertTies(s[0], Sort(s[1..], cmp), cmp, x);
    }
  }

  lemma SortedTail<T>(s: seq<T>, cmp: (T, T) -> int)
    requires s != [] && SortedBy(s, cmp)
    ensures SortedBy(s[1..], cmp)
  {
    var tail := s[1..];
    forall i, j | 0 <= i < j < |tail|
      ensures cmp(tail[i], tail[j]) <= 0
    {
      assert tail[i] == s[i + 1] && tail[j] == s[j + 1];
    }
  }

  /** The first elements of two sorted permutations of each other are ranked equal. */
  lemma HeadsTied<T(!new)>(r1: seq<T>, r2: seq<T>, cmp: (T, T) -> int)
    requires Consistent(cmp)
    requires SortedBy(r1, cmp) && SortedBy(r2, cmp)
    requires multiset(r1) == multiset(r2) && r1 != []
    ensures r2 != [] && cmp(r1[0], r2[0]) == 0 && cmp(r1[0], r1[0]) == 0
  {
    assert cmp(r1[0], r1[0]) == 0;
    assert |r2| == |multiset(r1)| > 0;
    var a, b := r1[0], r2[0];
    assert b in multiset(r1);
    var i :| 0 <= i < |r1| && r1[i] == b;
    assert cmp(a, b) <= 0 by {
      if i == 0 { assert cmp(a, a) == 0; }
    }
    assert a in multiset(r2);
    var j :| 0 <= j < |r2| && r2[j] == a;
    assert cmp(b, a) <= 0 by {
      if j == 0 { assert cmp(b, b) == 0; }
    }
  }

  lemma TailsStable<T(!new)>(r1: seq<T>, r2: seq<T>, cmp: (T, T) -> int)
    requires r1 != [] && r2 != [] && r1[0] == r2[0]
    requires StableOver(r1, r2, cmp)
    ensures StableOver(r1[1..], r2[1..], cmp)
  {
    var a := r1[0];
    assert r1 == [a] + r1[1..] && r2 == [a] + r2[1..];
    forall x
      ensures Filter(r1[1..], TiedWith(cmp, x)) == Filter(r2[1..], TiedWith(cmp, x))
    {
      var q := TiedWith(cmp, x);
      assert Filter(r1, q) == Filter(r2, q);
      if q(a) {
        assert Filter(r1, q) == [a] + Filter(r1[1..], q);
        assert Filter(r2, q) == [a] + Filter(r2[1..], q);
        assert Filter(r1, q)[1..] == Filter(r1[1..], q);
        assert Filter(r2, q)[1..] == Filter(r2[1..], q);
      }
    }
  }

  lemma HeadsEqual<T(!new)>(r1: seq<T>, r2: seq<T>, cmp: (T, T) -> int)
    requires r1 != [] && r2 != [] && cmp(r1[0], r2[0]) == 0 && cmp(r1[0], r1[0]) == 0
    requires StableOver(r1, r2, cmp)
    ensures r1[0] == r2[0]
  {
    var p := TiedWith(cmp, r1[0]);
    assert p(r1[0]) && p(r2[0]);
    assert Filter(r1, p) == Filter(r2, p);
    assert Filter(r1, p) == [r1[0]] + Filter(r1[1..], p);
    assert Filter(r2, p) == [r2[0]] + Filter(r2[1..], p);
    assert Filter(r1, p)[0] == r1[0] && Filter(r2, p)[0] == r2[0];
  }

  lemma MultisetTail<T>(r1: seq<T>, r2: seq<T>)
    requires r1 != [] && r2 != [] && r1[0] == r2[0]
    requires multiset(r1) == multiset(r2)
    ensures multiset(r1[1..]) == multiset(r2[1..])
  {
    assert r1 == [r1[0]] + r1[1..] && r2 == [r2[0]] + r2[1..];
    assert multiset(r1) == multiset{r1[0]} + multiset(r1[1..]);
    assert multiset(r2) == multiset{r1[0]} + multiset(r2[1..]);
    forall x
      ensures multiset(r1[1..])[x] == multiset(r2[1..])[x]
    {
      assert multiset(r1)[x] == multiset(r2)[x];
    }
  }

  /** A sorted, stable permutation is unique. */
  lemma {:induction false} SortedUnique<T(!new)>(r1: seq<T>, r2: seq<T>, cmp: (T, T) -> int)
    requires Consistent(cmp)
    requires SortedBy(r1, cmp) && SortedBy(r2, cmp)
    requires multiset(r1) == multiset(r2)
    requires StableOver(r1, r2, cmp)
    ensures r1 == r2
    decreases |r1|
  {
    if r1 == [] {
      assert |r2| == |multiset(r2)| == 0;
    } else {
      HeadsTied(r1, r2, cmp);
      var a := r1[0];
      HeadsEqual(r1, r2, cmp);
      TailsStable(r1, r2, cmp);
      SortedTail(r1, cmp);
      SortedTail(r2, cmp);
      MultisetTail(r1, r2);
      SortedUnique(r1[1..], r2[1..], cmp);
      assert r1 == [a] + r1[1..] && r2 == [a] + r2[1..];
    }
  }

  /** `Sort(s, cmp)` is exactly the ordered, stable permutation of `s`. */
  lemma SortCharacterization<T(!new)>(s: seq<T>, r: seq<T>, cmp: (T, T) -> int)
    requires Consistent(cmp)
    ensures r == Sort(s, cmp) <==>
      multiset(r) == multiset(s) && SortedBy(r, cmp) && StableOver(r, s, cmp)
  {
    SortSorted(s, cmp);
    SortStable(s, cmp);
    if multiset(r) == multiset(s) && SortedBy(r, cmp) && StableOver(r, s, cmp) {
      var t := Sort(s, cmp);
      forall x
        ensures Filter(r, TiedWith(cmp, x)) == Filter(t, TiedWith(cmp, x))
      {
        assert Filter(r, TiedWith(cmp, x)) == Filter(s, TiedWith(cmp, x));
        assert Filter(t, TiedWith(cmp, x)) == Filter(s, TiedWith(cmp, x));
      }
      SortedUnique(r, t, cmp);
    }
  }

  /**
    Re-sorting with a comparator that ranks the same pairs equal (for instance the
    reverse direction) gives what sorting the original would: the earlier order only
    survives among ties, and there both sorts keep the original order.
  */
  lemma SortResort<T(!new)>(s: seq<T>, c1: (T, T) -> int, c2: (T, T) -> int)
    requires Consistent(c1) && Consistent(c2)
    requires forall a, b :: c1(a, b) == 0 <==> c2(a, b) == 0
    ensures Sort(Sort(s, c1), c2) == Sort(s, c2)
  {
    var t := Sort(s, c1);
    var r := Sort(t, c2);
    SortSorted(t, c2);
    SortStable(t, c2);
    SortStable(s, c1);
    forall x
      ensures Filter(r, TiedWith(c2, x)) == Filter(s, TiedWith(c2, x))
    {
      assert Filter(r, TiedWith(c2, x)) == Filter(t, TiedWith(c2, x));
      FilterExt(t, TiedWith(c2, x), TiedWith(c1, x));
      FilterExt(s, TiedWith(c2, x), TiedWith(c1, x));
      assert Filter(t, TiedWith(c1, x)) == Filter(s, TiedWith(c1, x));
    }
    SortCharacterization(s, r, c2);
  }

  // ---------------------------------------------------------------------------
  // slice

  /** How `slice` turns an argument into an index: negative counts from the end, then clip to `[0, n]`. */
  function RelativeIndex(i: int, n: nat): (r: nat)
    ensures r <= n
  {
    if i < 0 then (if n + i < 0 then 0 else n + i) else if i > n then n else i
  }

  /**
    `s.slice(start, end)`. For non-negative arguments it is the run of elements from
    `start` up to, not including, `end`, with `end` clipped to the length; it is empty
    when `end <= start` or `start` lies past the end.
  */
  function Slice<T>(s: seq<T>, start: int, end: int): (r: seq<T>)
    ensures |r| <= |s|
    ensures 0 <= start && 0 <= end ==>
      |r| == if end <= start || |s| <= start then 0 else (if end < |s| then end else |s|) - start
    ensures 0 <= start && 0 <= end ==> forall i :: 0 <= i < |r| ==> r[i] == s[start + i]
  {
    var from := RelativeIndex(start, |s|);
    var to := RelativeIndex(end, |s|);
    if from < to then s[from..to] else []
  }
}
