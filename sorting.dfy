/** The sort the selector applies to its copy of the bounds. Any algorithm that
    produces a permutation sorted under `Cmp` produces the same sequence
    (`SortedUnique`), so a simple insertion sort stands for the library sort. */
module Sorting {
  import opened SourceBounds

  predicate Sorted(s: seq<SourceBound>) {
    forall i, j {:trigger Le(s[i], s[j])} :: 0 <= i < j < |s| ==> Le(s[i], s[j])
  }

  /** A bound not after any element of a sorted sequence can be put in front of it. */
  lemma ConsSorted(x: SourceBound, t: seq<SourceBound>)
    requires Sorted(t)
    requires forall y :: y in multiset(t) ==> Le(x, y)
    ensures Sorted([x] + t)
  {
    assert forall j :: 0 <= j < |t| ==> t[j] in multiset(t);
  }

  /** A bound not after the head of a sorted sequence is not after any of its elements. */
  lemma BelowHead(b: SourceBound, s: seq<SourceBound>)
    requires Sorted(s) && (s == [] || Le(b, s[0]))
    ensures forall y :: y in multiset(s) ==> Le(b, y)
  {
    forall y | y in multiset(s) ensures Le(b, y) {
      HeadIsLeast(s, y);
      LeTotalOrder(b, s[0], y);
    }
  }

  /** The head of a sorted sequence is not after `b` when `b` is after it, nor
      after anything in the rest. */
  lemma HeadBelowInsert(b: SourceBound, s: seq<SourceBound>, t: seq<SourceBound>)
    requires Sorted(s) && s != [] && !Le(b, s[0])
    requires multiset(t) == multiset(s[1..]) + multiset{b}
    ensures forall y :: y in multiset(t) ==> Le(s[0], y)
  {
    forall y | y in multiset(t) ensures Le(s[0], y) {
      if y != b {
        assert y in multiset(s[1..]);
        var k :| 0 <= k < |s[1..]| && s[1..][k] == y;
        assert s[k + 1] == y;
      }
    }
  }

  /** Inserts `b` into a sorted sequence, keeping it sorted. */
  function Insert(b: SourceBound, s: seq<SourceBound>): (r: seq<SourceBound>)
    requires Sorted(s)
    ensures Sorted(r)
    ensures multiset(r) == multiset(s) + multiset{b}
    ensures |r| == |s| + 1
  {
    if s == [] || Le(b, s[0]) then
      BelowHead(b, s);
      ConsSorted(b, s);
      [b] + s
    else
      SortedTail(s);
      var t := Insert(b, s[1..]);
      assert s == [s[0]] + s[1..];
      HeadBelowInsert(b, s, t);
      ConsSorted(s[0], t);
      [s[0]] + t
  }

  /** Sorts a sequence of bounds under `Cmp`. */
  function Sort(s: seq<SourceBound>): (r: seq<SourceBound>)
    ensures Sorted(r)
    ensures multiset(r) == multiset(s)
    ensures |r| == |s|
  {
    if s == [] then []
    else
      assert s == [s[0]] + s[1..];
      Insert(s[0], Sort(s[1..]))
  }

  /** The head of a sorted sequence is not after any of its elements. */
  lemma HeadIsLeast(a: seq<SourceBound>, x: SourceBound)
    requires Sorted(a) && x in multiset(a)
    ensures Le(a[0], x)
  {
    var m :| 0 <= m < |a| && a[m] == x;
    if m > 0 { assert Le(a[0], a[m]); }
  }

  lemma TailMultiset(a: seq<SourceBound>)
    requires a != []
    ensures multiset(a[1..]) == multiset(a) - multiset{a[0]}
  {
    assert a == [a[0]] + a[1..];
  }

  lemma SortedTail(a: seq<SourceBound>)
    requires Sorted(a) && a != []
    ensures Sorted(a[1..])
  {
  }

  /** Two sorted permutations of one non-empty multiset start with the same bound. */
  lemma SameHead(a: seq<SourceBound>, b: seq<SourceBound>)
    requires Sorted(a) && Sorted(b) && a != [] && b != []
    requires multiset(a) == multiset(b)
    ensures a[0] == b[0]
  {
    assert a[0] in multiset(a) && b[0] in multiset(b);
    HeadIsLeast(a, b[0]);
    HeadIsLeast(b, a[0]);
    LeTotalOrder(a[0], b[0], b[0]);
  }

  /** Two sorted permutations of one multiset are the same sequence: the order
      leaves no ties, so the sort result does not depend on the algorithm. */
  lemma {:induction false} SortedUnique(a: seq<SourceBound>, b: seq<SourceBound>)
    requires Sorted(a) && Sorted(b)
    requires multiset(a) == multiset(b)
    ensures a == b
  {
    assert |a| == |multiset(a)| == |b|;
    if a != [] {
      SameHead(a, b);
      TailMultiset(a);
      TailMultiset(b);
      SortedTail(a);
      SortedTail(b);
      SortedUnique(a[1..], b[1..]);
      assert a == [a[0]] + a[1..] && b == [b[0]] + b[1..];
    }
  }

  /** Reordering the input does not change the sorted copy. */
  lemma SortIgnoresInputOrder(a: seq<SourceBound>, b: seq<SourceBound>)
    requires multiset(a) == multiset(b)
    ensures Sort(a) == Sort(b)
  {
    SortedUnique(Sort(a), Sort(b));
  }
}
