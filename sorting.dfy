/** Sorting as the sources use it: std::ranges::sort on a small array, run
    in place. The model sorts by insertion, which is stable; std::sort is not,
    which matters only for elements the comparator cannot tell apart. */
module Sorting {

  /** The requirements std::sort places on its comparator. */
  ghost predicate StrictWeakOrder<T(!new)>(less: (T, T) -> bool) {
    && (forall x :: !less(x, x))
    && (forall x, y, z :: less(x, y) && less(y, z) ==> less(x, z))
    && (forall x, y, z :: !less(x, y) && !less(y, z) ==> !less(x, z))
  }

  /** No element is smaller than one before it. */
  ghost predicate Sorted<T>(s: seq<T>, less: (T, T) -> bool) {
    forall i, j :: 0 <= i < j < |s| ==> !less(s[j], s[i])
  }

  /** Inserts x after every element it is not smaller than, scanning from the back. */
  function Insert<T>(x: T, s: seq<T>, less: (T, T) -> bool): (r: seq<T>)
    ensures |r| == |s| + 1
  {
    if s == [] then [x]
    else if less(x, s[|s| - 1]) then Insert(x, s[..|s| - 1], less) + [s[|s| - 1]]
    else s + [x]
  }

  lemma {:induction false} InsertPermutes<T>(x: T, s: seq<T>, less: (T, T) -> bool)
    ensures multiset(Insert(x, s, less)) == multiset(s) + multiset{x}
  {
    if s != [] && less(x, s[|s| - 1]) {
      InsertPermutes(x, s[..|s| - 1], less);
      assert s == s[..|s| - 1] + [s[|s| - 1]];
    }
  }

  /** The order std::ranges::sort leaves s in, for a comparator that is a strict weak order. */
  function InsertionSort<T>(s: seq<T>, less: (T, T) -> bool): (r: seq<T>)
    ensures |r| == |s|
  {
    if s == [] then [] else Insert(s[|s| - 1], InsertionSort(s[..|s| - 1], less), less)
  }

  lemma {:induction false} InsertSorted<T(!new)>(x: T, s: seq<T>, less: (T, T) -> bool)
    requires StrictWeakOrder(less) && Sorted(s, less)
    ensures Sorted(Insert(x, s, less), less)
  {
    if s != [] {
      var init, last := s[..|s| - 1], s[|s| - 1];
      if less(x, last) {
        InsertSorted(x, init, less);
        var r := Insert(x, init, less);
        InsertPermutes(x, init, less);
        forall k | 0 <= k < |r|
          ensures !less(last, r[k])
        {
          assert r[k] in multiset(r);
          if r[k] != x {
            assert r[k] in multiset(init);
            var m :| 0 <= m < |init| && init[m] == r[k];
            assert s[m] == r[k];
          }
        }
      } else {
        forall i | 0 <= i < |s|
          ensures !less(x, s[i])
        {
          if i < |s| - 1 {
            assert !less(s[|s| - 1], s[i]);
          }
        }
      }
    }
  }

  /** std::ranges::sort's postcondition: the result is ordered and a permutation of the input. */
  lemma {:induction false} InsertionSortCorrect<T(!new)>(s: seq<T>, less: (T, T) -> bool)
    requires StrictWeakOrder(less)
    ensures Sorted(InsertionSort(s, less), less)
    ensures multiset(InsertionSort(s, less)) == multiset(s)
  {
    if s != [] {
      var init := s[..|s| - 1];
      InsertionSortCorrect(init, less);
      InsertSorted(s[|s| - 1], InsertionSort(init, less), less);
      InsertPermutes(s[|s| - 1], InsertionSort(init, less), less);
      assert s == init + [s[|s| - 1]];
    }
  }

  /** Sorting permutes, whatever the comparator. */
  lemma {:induction false} InsertionSortPermutes<T>(s: seq<T>, less: (T, T) -> bool)
    ensures multiset(InsertionSort(s, less)) == multiset(s)
  {
    if s != [] {
      var init := s[..|s| - 1];
      InsertionSortPermutes(init, less);
      InsertPermutes(s[|s| - 1], InsertionSort(init, less), less);
      assert s == init + [s[|s| - 1]];
    }
  }

  /** f applied to every element. */
  function Apply<A, B>(f: A -> B, s: seq<A>): (r: seq<B>)
    ensures |r| == |s| && forall i :: 0 <= i < |s| ==> r[i] == f(s[i])
  {
    seq(|s|, i requires 0 <= i < |s| => f(s[i]))
  }

  /** lessA orders the elements of s as less orders their images under f. */
  ghost predicate Agrees<A, B>(s: seq<A>, lessA: (A, A) -> bool, f: A -> B, less: (B, B) -> bool) {
    forall x, y :: x in s && y in s ==> lessA(x, y) == less(f(x), f(y))
  }

  /** Sorting the images is taking the images of the elements sorted by
      their images: both sorts make the same decisions. */
  lemma {:induction false} InsertionSortApply<A, B>(f: A -> B, s: seq<A>, lessA: (A, A) -> bool, less: (B, B) -> bool)
    requires Agrees(s, lessA, f, less)
    ensures Apply(f, InsertionSort(s, lessA)) == InsertionSort(Apply(f, s), less)
  {
    if s != [] {
      var init := s[..|s| - 1];
      assert forall x :: x in init ==> x in s;
      InsertionSortApply(f, init, lessA, less);
      assert Apply(f, s)[..|s| - 1] == Apply(f, init);
      InsertionSortPermutes(init, lessA);
      assert forall x :: x in InsertionSort(init, lessA) ==> x in multiset(init);
      InsertApply(f, s[|s| - 1], InsertionSort(init, lessA), lessA, less);
    }
  }

  lemma {:induction false} InsertApply<A, B>(f: A -> B, x: A, s: seq<A>, lessA: (A, A) -> bool, less: (B, B) -> bool)
    requires forall y :: y in s ==> lessA(x, y) == less(f(x), f(y))
    ensures Apply(f, Insert(x, s, lessA)) == Insert(f(x), Apply(f, s), less)
  {
    if s != [] {
      var init := s[..|s| - 1];
      assert Apply(f, s)[..|s| - 1] == Apply(f, init);
      assert s[|s| - 1] in s;
      if lessA(x, s[|s| - 1]) {
        assert forall y :: y in init ==> y in s;
        InsertApply(f, x, init, lessA, less);
      }
    }
  }

  /** A sorted sequence is left as it is. */
  lemma {:induction false} InsertionSortOfSorted<T(!new)>(s: seq<T>, less: (T, T) -> bool)
    requires Sorted(s, less)
    ensures InsertionSort(s, less) == s
  {
    if s != [] {
      var init := s[..|s| - 1];
      assert Sorted(init, less);
      InsertionSortOfSorted(init, less);
      assert s == init + [s[|s| - 1]];
    }
  }

  /** Sorts a in place by insertion; the result is InsertionSort of the old contents. */
  method SortInPlace<T>(a: array<T>, less: (T, T) -> bool)
    modifies a
    ensures a[..] == InsertionSort(old(a[..]), less)
  {
    ghost var orig := a[..];
    var i := 0;
    while i < a.Length
      invariant 0 <= i <= a.Length
      invariant a[..i] == InsertionSort(orig[..i], less)
      invariant a[i..] == orig[i..]
    {
      InsertAt(a, i, less);
      assert orig[..i + 1][..i] == orig[..i];
      i := i + 1;
    }
    assert orig[..a.Length] == orig;
  }

  /** One pass of the insertion sort: moves a[i] back into the prefix a[..i]. */
  method InsertAt<T>(a: array<T>, i: nat, less: (T, T) -> bool)
    requires i < a.Length
    modifies a
    ensures a[..i + 1] == Insert(old(a[i]), old(a[..i]), less)
    ensures a[i + 1..] == old(a[i + 1..])
  {
    ghost var sorted := a[..i];
    ghost var tail := a[i + 1..];
    var x := a[i];
    var j := i;
    assert sorted[..j] == sorted && sorted[j..] == [];
    while j > 0 && less(x, a[j - 1])
      invariant 0 <= j <= i
      invariant forall k :: 0 <= k < j ==> a[k] == sorted[k]
      invariant forall k :: j < k <= i ==> a[k] == sorted[k - 1]
      invariant forall k :: i < k < a.Length ==> a[k] == tail[k - i - 1]
      invariant Insert(x, sorted, less) == Insert(x, sorted[..j], less) + sorted[j..]
    {
      InsertShift(x, sorted, j, less);
      a[j] := a[j - 1];
      j := j - 1;
    }
    InsertStop(x, sorted, j, less);
    a[j] := x;
    Placed(a[..], sorted, tail, x, j);
  }

  /** The array after the pass: sorted[..j], then x, then sorted[j..] and
      the untouched tail. */
  lemma {:induction false} Placed<T>(r: seq<T>, sorted: seq<T>, tail: seq<T>, x: T, j: nat)
    requires j <= |sorted| && |r| == |sorted| + 1 + |tail|
    requires forall k :: 0 <= k < j ==> r[k] == sorted[k]
    requires r[j] == x
    requires forall k :: j < k <= |sorted| ==> r[k] == sorted[k - 1]
    requires forall k :: |sorted| < k < |r| ==> r[k] == tail[k - |sorted| - 1]
    ensures r[..|sorted| + 1] == sorted[..j] + [x] + sorted[j..]
    ensures r[|sorted| + 1..] == tail
  {
  }

  /** The scan moves past an element x is smaller than. */
  lemma {:induction false} InsertShift<T>(x: T, s: seq<T>, j: nat, less: (T, T) -> bool)
    requires 0 < j <= |s| && less(x, s[j - 1])
    ensures Insert(x, s[..j], less) + s[j..] == Insert(x, s[..j - 1], less) + s[j - 1..]
  {
    assert s[..j][..j - 1] == s[..j - 1];
    assert s[j - 1..] == [s[j - 1]] + s[j..];
  }

  /** The scan stops at the front or after an element x is not smaller than. */
  lemma {:induction false} InsertStop<T>(x: T, s: seq<T>, j: nat, less: (T, T) -> bool)
    requires j <= |s| && (j == 0 || !less(x, s[j - 1]))
    ensures Insert(x, s[..j], less) == s[..j] + [x]
  {
  }
}
