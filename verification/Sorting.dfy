/**
 Sorting by a caller-supplied "less" function, as `sort.Slice` and `sort.Strings`
 do it: the result is a permutation in which no element is less than an earlier one.
 */
module Sorting {

  /** A strict order: what both sort functions demand of the comparison they are given. */
  ghost predicate StrictOrder<T(!new)>(less: (T, T) -> bool) {
    && (forall a, b :: less(a, b) ==> !less(b, a))
    && (forall a, b, c :: less(a, b) && less(b, c) ==> less(a, c))
    && (forall a, b, c :: !less(b, a) && !less(c, b) ==> !less(c, a))
  }

  predicate SortedBy<T>(less: (T, T) -> bool, xs: seq<T>) {
    forall i, j :: 0 <= i < j < |xs| ==> !less(xs[j], xs[i])
  }

  predicate Distinct<T(==)>(xs: seq<T>) {
    forall i, j :: 0 <= i < j < |xs| ==> xs[i] != xs[j]
  }

  /** No two different elements of `xs` tie under `less`. */
  ghost predicate NoTies<T>(less: (T, T) -> bool, xs: seq<T>) {
    forall a, b :: a in xs && b in xs && a != b ==> less(a, b) || less(b, a)
  }

  ghost predicate Permutation<T>(xs: seq<T>, ys: seq<T>) {
    multiset(xs) == multiset(ys)
  }

  lemma SameMembers<T>(xs: seq<T>, ys: seq<T>)
    requires Permutation(xs, ys)
    ensures |xs| == |ys|
    ensures forall x :: x in xs <==> x in ys
  {
    assert |multiset(xs)| == |multiset(ys)|;
    forall x ensures x in xs <==> x in ys {
      assert x in xs <==> x in multiset(xs);
      assert x in ys <==> x in multiset(ys);
    }
  }

  function Insert<T>(less: (T, T) -> bool, x: T, xs: seq<T>): seq<T> {
    if xs == [] || !less(xs[0], x) then [x] + xs
    else [xs[0]] + Insert(less, x, xs[1..])
  }

  lemma {:induction false} InsertMultiset<T>(less: (T, T) -> bool, x: T, xs: seq<T>)
    ensures multiset(Insert(less, x, xs)) == multiset{x} + multiset(xs)
  {
    if xs == [] || !less(xs[0], x) {
    } else {
      InsertMultiset(less, x, xs[1..]);
      assert xs == [xs[0]] + xs[1..];
    }
  }

  lemma InsertMembers<T>(less: (T, T) -> bool, x: T, xs: seq<T>, y: T)
    requires y in Insert(less, x, xs)
    ensures y == x || y in xs
  {
    InsertMultiset(less, x, xs);
    assert y in multiset(Insert(less, x, xs));
    assert y in multiset{x} + multiset(xs);
  }

  /** Prepending an element that nothing in a sorted list is less than keeps it sorted. */
  lemma SortedCons<T>(less: (T, T) -> bool, x: T, xs: seq<T>)
    requires SortedBy(less, xs) && forall y :: y in xs ==> !less(y, x)
    ensures SortedBy(less, [x] + xs)
  {
    var r := [x] + xs;
    forall i, j | 0 <= i < j < |r| ensures !less(r[j], r[i]) {
      assert r[j] == xs[j - 1] && xs[j - 1] in xs;
      assert i > 0 ==> r[i] == xs[i - 1];
    }
  }

  lemma {:induction false} InsertSorted<T(!new)>(less: (T, T) -> bool, x: T, xs: seq<T>)
    requires StrictOrder(less) && SortedBy(less, xs)
    ensures SortedBy(less, Insert(less, x, xs))
  {
    if xs == [] {
    } else if !less(xs[0], x) {
      forall y | y in xs ensures !less(y, x) {
        var i :| 0 <= i < |xs| && xs[i] == y;
        assert !less(xs[i], xs[0]) || i == 0;
      }
      SortedCons(less, x, xs);
    } else {
      var rest := xs[1..];
      InsertSorted(less, x, rest);
      forall y | y in Insert(less, x, rest) ensures !less(y, xs[0]) {
        InsertMembers(less, x, rest, y);
        if y in rest {
          var i :| 0 <= i < |rest| && rest[i] == y;
          assert !less(xs[i + 1], xs[0]);
        }
      }
      SortedCons(less, xs[0], Insert(less, x, rest));
    }
  }

  /** `sort.Slice`: a sorted permutation of the input. */
  function Sort<T(!new)>(less: (T, T) -> bool, xs: seq<T>): (r: seq<T>)
    requires StrictOrder(less)
    ensures SortedBy(less, r) && Permutation(r, xs)
  {
    if xs == [] then []
    else
      var rest := Sort(less, xs[1..]);
      InsertSorted(less, xs[0], rest);
      InsertMultiset(less, xs[0], rest);
      assert xs == [xs[0]] + xs[1..];
      Insert(less, xs[0], rest)
  }

  /** The first element of a sorted list is minimal. */
  lemma HeadIsMinimal<T>(less: (T, T) -> bool, xs: seq<T>, x: T)
    requires SortedBy(less, xs) && x in xs
    ensures x == xs[0] || !less(x, xs[0])
  {
    var i :| 0 <= i < |xs| && xs[i] == x;
  }

  lemma TailMultiset<T>(xs: seq<T>)
    requires xs != []
    ensures multiset(xs[1..]) == multiset(xs) - multiset{xs[0]}
  {
    assert xs == [xs[0]] + xs[1..];
  }

  /** With no ties the sorted permutation is unique, so the input order is forgotten. */
  lemma {:induction false} SortedIsUnique<T>(less: (T, T) -> bool, xs: seq<T>, ys: seq<T>)
    requires SortedBy(less, xs) && SortedBy(less, ys)
    requires Permutation(xs, ys) && NoTies(less, xs)
    ensures xs == ys
  {
    SameMembers(xs, ys);
    if xs != [] {
      assert xs[0] in ys && ys[0] in xs;
      HeadIsMinimal(less, xs, ys[0]);
      HeadIsMinimal(less, ys, xs[0]);
      TailMultiset(xs);
      TailMultiset(ys);
      assert forall x :: x in xs[1..] ==> x in xs;
      SortedIsUnique(less, xs[1..], ys[1..]);
    }
  }

  lemma {:induction false} DistinctMultiset<T>(xs: seq<T>)
    requires Distinct(xs)
    ensures multiset(xs) == multiset(set x | x in xs)
  {
    if xs != [] {
      DistinctMultiset(xs[1..]);
      assert xs == [xs[0]] + xs[1..];
      assert (set x | x in xs) == {xs[0]} + (set x | x in xs[1..]);
    }
  }

  lemma DistinctConcat<T>(xs: seq<T>, ys: seq<T>)
    requires Distinct(xs) && Distinct(ys)
    requires forall x :: x in xs ==> x !in ys
    ensures Distinct(xs + ys)
  {
    var zs := xs + ys;
    forall i, j | 0 <= i < j < |zs| ensures zs[i] != zs[j] {
      assert i < |xs| ==> zs[i] in xs;
      assert |xs| <= j ==> zs[j] in ys;
    }
  }

  lemma DistinctAppend<T>(xs: seq<T>, x: T)
    requires Distinct(xs) && x !in xs
    ensures Distinct(xs + [x])
    ensures forall y :: y in xs + [x] <==> y in xs || y == x
  {
    DistinctConcat(xs, [x]);
  }

  lemma TwoOccurrences<T>(xs: seq<T>, i: nat, j: nat)
    requires i < j < |xs|
    ensures multiset(xs)[xs[i]] >= (if xs[i] == xs[j] then 2 else 1)
  {
    assert xs == xs[..i] + [xs[i]] + xs[i + 1..j] + [xs[j]] + xs[j + 1..];
  }

  lemma MultisetDistinct<T>(xs: seq<T>, s: set<T>)
    requires multiset(xs) == multiset(s)
    ensures Distinct(xs) && |xs| == |s|
    ensures forall x :: x in xs <==> x in s
  {
    forall x ensures x in xs <==> x in s {
      assert x in xs <==> x in multiset(xs);
    }
    assert |multiset(xs)| == |multiset(s)| == |s|;
    forall i, j | 0 <= i < j < |xs| ensures xs[i] != xs[j] {
      TwoOccurrences(xs, i, j);
    }
  }

  /** The strictly increasing list of a finite set. */
  ghost function SortedSet<T(!new)>(less: (T, T) -> bool, s: set<T>): (r: seq<T>)
    requires StrictOrder(less)
    ensures SortedBy(less, r) && multiset(r) == multiset(s)
  {
    if s == {} then []
    else
      var x :| x in s;
      var rest := SortedSet(less, s - {x});
      InsertSorted(less, x, rest);
      InsertMultiset(less, x, rest);
      assert s == (s - {x}) + {x};
      Insert(less, x, rest)
  }

  lemma SortedSetMembers<T(!new)>(less: (T, T) -> bool, s: set<T>)
    requires StrictOrder(less)
    ensures Distinct(SortedSet(less, s)) && |SortedSet(less, s)| == |s|
    ensures forall x :: x in SortedSet(less, s) <==> x in s
  {
    MultisetDistinct(SortedSet(less, s), s);
  }

  /** Sorting a duplicate-free list gives the sorted list of its elements. */
  lemma SortIsSortedSet<T(!new)>(less: (T, T) -> bool, xs: seq<T>, s: set<T>)
    requires StrictOrder(less)
    requires Distinct(xs) && s == set x | x in xs
    requires NoTies(less, xs)
    ensures Sort(less, xs) == SortedSet(less, s)
  {
    DistinctMultiset(xs);
    SameMembers(Sort(less, xs), xs);
    SortedIsUnique(less, Sort(less, xs), SortedSet(less, s));
  }
}
