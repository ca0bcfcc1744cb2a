/** Go's string comparison and the sorting of string slices. */
module Strings {
  import opened Sorting

  /** `a < b` on Go strings: lexicographic by element, a proper prefix first. */
  predicate Less(a: string, b: string) {
    b != [] && (a == [] || a[0] < b[0] || (a[0] == b[0] && Less(a[1..], b[1..])))
  }

  lemma {:induction false} LessAsymmetric(a: string, b: string)
    requires Less(a, b)
    ensures !Less(b, a) && a != b
  {
    if a != [] && a[0] == b[0] {
      LessAsymmetric(a[1..], b[1..]);
    }
  }

  lemma {:induction false} LessTransitive(a: string, b: string, c: string)
    requires Less(a, b) && Less(b, c)
    ensures Less(a, c)
  {
    if a != [] && a[0] == b[0] == c[0] {
      LessTransitive(a[1..], b[1..], c[1..]);
    }
  }

  lemma {:induction false} LessConnected(a: string, b: string)
    ensures a == b || Less(a, b) || Less(b, a)
  {
    if a != [] && b != [] && a[0] == b[0] {
      LessConnected(a[1..], b[1..]);
      assert a == [a[0]] + a[1..] && b == [b[0]] + b[1..];
    }
  }

  /** A proper prefix comes first: why a parent directory sorts before its children. */
  lemma {:induction false} PrefixLess(a: string, b: string)
    requires a < b
    ensures Less(a, b)
  {
    if a != [] {
      PrefixLess(a[1..], b[1..]);
    }
  }

  lemma LessIsStrictOrder()
    ensures StrictOrder(Less)
  {
    forall a, b | Less(a, b) ensures !Less(b, a) { LessAsymmetric(a, b); }
    forall a, b, c | Less(a, b) && Less(b, c) ensures Less(a, c) { LessTransitive(a, b, c); }
    forall a, b, c | !Less(b, a) && !Less(c, b) ensures !Less(c, a) {
      LessConnected(a, b);
      LessConnected(b, c);
      if Less(c, a) && Less(a, b) { LessTransitive(c, a, b); }
    }
  }

  lemma LessHasNoTies(xs: seq<string>)
    ensures NoTies(Less, xs)
  {
    forall a, b | a in xs && b in xs && a != b ensures Less(a, b) || Less(b, a) {
      LessConnected(a, b);
    }
  }

  /** `sort.Strings`. */
  function SortStrings(xs: seq<string>): (r: seq<string>)
    ensures SortedBy(Less, r) && Permutation(r, xs)
  {
    LessIsStrictOrder();
    Sort(Less, xs)
  }

  /** The increasing list of a finite set of strings. */
  ghost function Sorted(s: set<string>): (r: seq<string>)
    ensures SortedBy(Less, r) && Distinct(r) && |r| == |s|
    ensures forall x :: x in r <==> x in s
  {
    LessIsStrictOrder();
    SortedSetMembers(Less, s);
    SortedSet(Less, s)
  }

  lemma SortStringsOfSet(xs: seq<string>, s: set<string>)
    requires Distinct(xs) && s == set x | x in xs
    ensures SortStrings(xs) == Sorted(s)
  {
    LessIsStrictOrder();
    LessHasNoTies(xs);
    SortIsSortedSet(Less, xs, s);
  }

  /** A sorted duplicate-free list is the sorted list of its elements. */
  lemma SortedIsCanonical(xs: seq<string>, s: set<string>)
    requires SortedBy(Less, xs) && Distinct(xs) && s == set x | x in xs
    ensures xs == Sorted(s)
  {
    LessHasNoTies(xs);
    DistinctMultiset(xs);
    DistinctMultiset(Sorted(s));
    assert (set x | x in Sorted(s)) == s;
    SortedIsUnique(Less, xs, Sorted(s));
  }

  lemma SameFirst(a: string, b: string, i: nat)
    requires i < |a| && i < |b| && a[..i] == b[..i]
    ensures i > 0 ==> a[0] == b[0]
  {
    assert i > 0 ==> a[0] == a[..i][0] && b[0] == b[..i][0];
  }

  /** The order of `Less`, by the first place where the two strings differ. */
  lemma {:induction false} LessIff(a: string, b: string)
    ensures Less(a, b) <==> a < b || exists i :: 0 <= i < |a| && i < |b| && a[..i] == b[..i] && a[i] < b[i]
  {
    if a != [] && b != [] && a[0] == b[0] {
      LessIff(a[1..], b[1..]);
      if Less(a, b) && !(a < b) {
        assert a[1..] < b[1..] ==> a < b;
        var i :| 0 <= i < |a[1..]| && i < |b[1..]| && a[1..][..i] == b[1..][..i] && a[1..][i] < b[1..][i];
        assert a[..i + 1] == [a[0]] + a[1..][..i] && b[..i + 1] == [b[0]] + b[1..][..i];
        assert a[i + 1] < b[i + 1];
      }
      if exists i :: 0 <= i < |a| && i < |b| && a[..i] == b[..i] && a[i] < b[i] {
        var i :| 0 <= i < |a| && i < |b| && a[..i] == b[..i] && a[i] < b[i];
        assert a[1..][..i - 1] == a[..i][1..] && b[1..][..i - 1] == b[..i][1..];
        assert a[1..][i - 1] < b[1..][i - 1];
      }
    } else if a != [] && b != [] {
      if a[0] < b[0] {
        assert a[..0] == b[..0];
      }
      forall i | 0 <= i < |a| && i < |b| && a[..i] == b[..i] && a[i] < b[i] ensures i == 0 {
        SameFirst(a, b, i);
      }
    }
  }
}
