/** The selector's results on the concrete inputs of the source's test suite,
    each derived from `Selected`, which `TryFromSourceBounds` guarantees for its
    result on the sorted copy; and two inputs that pair the same ends
    differently. */
module Scenarios {
  import opened SourceBounds
  import opened Sorting
  import opened Marzullo
  import opened Agreement
  import opened Relabelling

  /** A sorted permutation of the input is its sorted copy. */
  lemma SortedCopy(input: seq<SourceBound>, t: seq<SourceBound>)
    requires Sorted(t) && multiset(input) == multiset(t)
    ensures Sort(input) == t
  {
    SortedUnique(Sort(input), t);
  }

  /** The running counts, given position by position. */
  lemma {:induction false} DepthsAre(s: seq<SourceBound>, d: seq<int>, n: nat)
    requires n <= |d| == |s|
    requires 0 < n ==> d[0] == Step(s[0])
    requires forall j :: 0 < j < n ==> d[j] == d[j - 1] + Step(s[j])
    ensures forall j :: 0 <= j < n ==> Depth(s, j) == d[j]
  {
    if 0 < n {
      DepthsAre(s, d, n - 1);
      CountSnoc(s, n - 1);
      if n == 1 {
        assert s[..0] == [];
      } else {
        assert Count(s[..n - 1]) == Depth(s, n - 2);
      }
      assert Depth(s, n - 1) == d[n - 1];
    }
  }

  /** The conditions under which `Selected` asks for a success. */
  lemma SelectedOk(s: seq<SourceBound>, m: nat, w: nat, iv: Interval)
    requires 2 <= |s| && s[0].boundType == Lower && InOrder(s) && s[|s| - 1].boundType == Upper
    requires IsPeak(s, m) && m <= |s| / 2
    requires ChosenBefore(s, m, w, |s|)
    requires iv.lowerBound == s[w].value && iv.upperBound == s[w + 1].value
    requires iv.sourcesTrue as int == m && iv.sourcesTrue as int + iv.sourcesFalse as int == |s| / 2
    ensures Selected(s, Ok(iv))
  {
  }

  // Three sources that all contain `[11, 12]`.

  const AllAgreeInput := FromEnds([11, 13, 10, 12, 8, 12])
  const AllAgreeSorted := [SourceBound(8, 2, Lower), SourceBound(10, 1, Lower), SourceBound(11, 0, Lower),
                           SourceBound(12, 1, Upper), SourceBound(12, 2, Upper), SourceBound(13, 0, Upper)]

  lemma AllAgreeIsSorted()
    ensures Sorted(AllAgreeSorted)
  {
  }

  lemma AllAgreeBounds()
    ensures AllAgreeInput == [SourceBound(11, 0, Lower), SourceBound(13, 0, Upper), SourceBound(10, 1, Lower),
                              SourceBound(12, 1, Upper), SourceBound(8, 2, Lower), SourceBound(12, 2, Upper)]
  {
  }

  lemma AllAgreePermutation()
    ensures multiset(AllAgreeInput) == multiset(AllAgreeSorted)
  {
    AllAgreeBounds();
  }

  lemma AllAgreeSortedCopy()
    ensures Sort(AllAgreeInput) == AllAgreeSorted
  {
    AllAgreeIsSorted();
    AllAgreePermutation();
    SortedCopy(AllAgreeInput, AllAgreeSorted);
  }

  lemma AllAgreeChosen()
    ensures ChosenBefore(AllAgreeSorted, 3, 2, 6)
  {
    var t := AllAgreeSorted;
    DepthsAre(t, [1, 2, 3, 2, 1, 0], 6);
    assert Candidate(t, 3, 2);
  }

  lemma AllAgreePeak()
    ensures IsPeak(AllAgreeSorted, 3)
  {
    var t := AllAgreeSorted;
    DepthsAre(t, [1, 2, 3, 2, 1, 0], 6);
    assert Depth(t, 2) == 3;
  }

  lemma AllAgreeSelected()
    ensures Selected(AllAgreeSorted, Ok(Interval(11, 12, 3, 0)))
  {
    var t := AllAgreeSorted;
    AllAgreeIsSorted();
    SortedInOrder(t);
    AllAgreePeak();
    AllAgreeChosen();
    SelectedOk(t, 3, 2, Interval(11, 12, 3, 0));
  }

  /** The test's expectation for this input. */
  lemma AllAgree(r: Result)
    requires Selected(Sort(AllAgreeInput), r)
    ensures r == Ok(Interval(11, 12, 3, 0))
  {
    AllAgreeSortedCopy();
    AllAgreeSelected();
    SelectedUnique(AllAgreeSorted, r, Ok(Interval(11, 12, 3, 0)));
  }

  // Two sources overlap on `[11, 12]`; the third lies apart.

  const TwoOfThreeInput := FromEnds([8, 12, 11, 13, 14, 15])
  const TwoOfThreeSorted := [SourceBound(8, 0, Lower), SourceBound(11, 1, Lower), SourceBound(12, 0, Upper),
                             SourceBound(13, 1, Upper), SourceBound(14, 2, Lower), SourceBound(15, 2, Upper)]

  lemma TwoOfThreeIsSorted()
    ensures Sorted(TwoOfThreeSorted)
  {
  }

  lemma TwoOfThreeBounds()
    ensures TwoOfThreeInput == [SourceBound(8, 0, Lower), SourceBound(12, 0, Upper), SourceBound(11, 1, Lower),
                                SourceBound(13, 1, Upper), SourceBound(14, 2, Lower), SourceBound(15, 2, Upper)]
  {
  }

  lemma TwoOfThreePermutation()
    ensures multiset(TwoOfThreeInput) == multiset(TwoOfThreeSorted)
  {
    TwoOfThreeBounds();
  }

  lemma TwoOfThreeSortedCopy()
    ensures Sort(TwoOfThreeInput) == TwoOfThreeSorted
  {
    TwoOfThreeIsSorted();
    TwoOfThreePermutation();
    SortedCopy(TwoOfThreeInput, TwoOfThreeSorted);
  }

  lemma TwoOfThreeChosen()
    ensures ChosenBefore(TwoOfThreeSorted, 2, 1, 6)
  {
    var t := TwoOfThreeSorted;
    DepthsAre(t, [1, 2, 1, 0, 1, 0], 6);
    assert Candidate(t, 2, 1);
  }

  lemma TwoOfThreePeak()
    ensures IsPeak(TwoOfThreeSorted, 2)
  {
    var t := TwoOfThreeSorted;
    DepthsAre(t, [1, 2, 1, 0, 1, 0], 6);
    assert Depth(t, 1) == 2;
  }

  lemma TwoOfThreeSelected()
    ensures Selected(TwoOfThreeSorted, Ok(Interval(11, 12, 2, 1)))
  {
    var t := TwoOfThreeSorted;
    TwoOfThreeIsSorted();
    SortedInOrder(t);
    TwoOfThreePeak();
    TwoOfThreeChosen();
    SelectedOk(t, 2, 1, Interval(11, 12, 2, 1));
  }

  /** The test's expectation for this input. */
  lemma TwoOfThree(r: Result)
    requires Selected(Sort(TwoOfThreeInput), r)
    ensures r == Ok(Interval(11, 12, 2, 1))
  {
    TwoOfThreeSortedCopy();
    TwoOfThreeSelected();
    SelectedUnique(TwoOfThreeSorted, r, Ok(Interval(11, 12, 2, 1)));
  }

  // Three nested intervals, the innermost the single point 0.

  const NestedPointInput := FromEnds([-10, 10, -1, 1, 0, 0])
  const NestedPointSorted := [SourceBound(-10, 0, Lower), SourceBound(-1, 1, Lower), SourceBound(0, 2, Lower),
                              SourceBound(0, 2, Upper), SourceBound(1, 1, Upper), SourceBound(10, 0, Upper)]

  lemma NestedPointIsSorted()
    ensures Sorted(NestedPointSorted)
  {
  }

  lemma NestedPointBounds()
    ensures NestedPointInput == [SourceBound(-10, 0, Lower), SourceBound(10, 0, Upper), SourceBound(-1, 1, Lower),
                                 SourceBound(1, 1, Upper), SourceBound(0, 2, Lower), SourceBound(0, 2, Upper)]
  {
  }

  lemma NestedPointPermutation()
    ensures multiset(NestedPointInput) == multiset(NestedPointSorted)
  {
    NestedPointBounds();
  }

  lemma NestedPointSortedCopy()
    ensures Sort(NestedPointInput) == NestedPointSorted
  {
    NestedPointIsSorted();
    NestedPointPermutation();
    SortedCopy(NestedPointInput, NestedPointSorted);
  }

  lemma NestedPointChosen()
    ensures ChosenBefore(NestedPointSorted, 3, 2, 6)
  {
    var t := NestedPointSorted;
    DepthsAre(t, [1, 2, 3, 2, 1, 0], 6);
    assert Candidate(t, 3, 2);
  }

  lemma NestedPointPeak()
    ensures IsPeak(NestedPointSorted, 3)
  {
    var t := NestedPointSorted;
    DepthsAre(t, [1, 2, 3, 2, 1, 0], 6);
    assert Depth(t, 2) == 3;
  }

  lemma NestedPointSelected()
    ensures Selected(NestedPointSorted, Ok(Interval(0, 0, 3, 0)))
  {
    var t := NestedPointSorted;
    NestedPointIsSorted();
    SortedInOrder(t);
    NestedPointPeak();
    NestedPointChosen();
    SelectedOk(t, 3, 2, Interval(0, 0, 3, 0));
  }

  /** The test's expectation for this input. */
  lemma NestedPoint(r: Result)
    requires Selected(Sort(NestedPointInput), r)
    ensures r == Ok(Interval(0, 0, 3, 0))
  {
    NestedPointSortedCopy();
    NestedPointSelected();
    SelectedUnique(NestedPointSorted, r, Ok(Interval(0, 0, 3, 0)));
  }

  // The upper end of one interval touches the lower end of another, inclusively.

  const TouchingEndsInput := FromEnds([8, 12, 10, 11, 8, 10])
  const TouchingEndsSorted := [SourceBound(8, 0, Lower), SourceBound(8, 2, Lower), SourceBound(10, 1, Lower),
                               SourceBound(10, 2, Upper), SourceBound(11, 1, Upper), SourceBound(12, 0, Upper)]

  lemma TouchingEndsIsSorted()
    ensures Sorted(TouchingEndsSorted)
  {
  }

  lemma TouchingEndsBounds()
    ensures TouchingEndsInput == [SourceBound(8, 0, Lower), SourceBound(12, 0, Upper), SourceBound(10, 1, Lower),
                                  SourceBound(11, 1, Upper), SourceBound(8, 2, Lower), SourceBound(10, 2, Upper)]
  {
  }

  lemma TouchingEndsPermutation()
    ensures multiset(TouchingEndsInput) == multiset(TouchingEndsSorted)
  {
    TouchingEndsBounds();
  }

  lemma TouchingEndsSortedCopy()
    ensures Sort(TouchingEndsInput) == TouchingEndsSorted
  {
    TouchingEndsIsSorted();
    TouchingEndsPermutation();
    SortedCopy(TouchingEndsInput, TouchingEndsSorted);
  }

  lemma TouchingEndsChosen()
    ensures ChosenBefore(TouchingEndsSorted, 3, 2, 6)
  {
    var t := TouchingEndsSorted;
    DepthsAre(t, [1, 2, 3, 2, 1, 0], 6);
    assert Candidate(t, 3, 2);
  }

  lemma TouchingEndsPeak()
    ensures IsPeak(TouchingEndsSorted, 3)
  {
    var t := TouchingEndsSorted;
    DepthsAre(t, [1, 2, 3, 2, 1, 0], 6);
    assert Depth(t, 2) == 3;
  }

  lemma TouchingEndsSelected()
    ensures Selected(TouchingEndsSorted, Ok(Interval(10, 10, 3, 0)))
  {
    var t := TouchingEndsSorted;
    TouchingEndsIsSorted();
    SortedInOrder(t);
    TouchingEndsPeak();
    TouchingEndsChosen();
    SelectedOk(t, 3, 2, Interval(10, 10, 3, 0));
  }

  /** The test's expectation for this input. */
  lemma TouchingEnds(r: Result)
    requires Selected(Sort(TouchingEndsInput), r)
    ensures r == Ok(Interval(10, 10, 3, 0))
  {
    TouchingEndsSortedCopy();
    TouchingEndsSelected();
    SelectedUnique(TouchingEndsSorted, r, Ok(Interval(10, 10, 3, 0)));
  }

  // Two windows reach two sources; the first, `[8, 9]`, is narrower than `[10, 12]`.

  const FirstNarrowestInput := FromEnds([8, 12, 10, 12, 8, 9])
  const FirstNarrowestSorted := [SourceBound(8, 0, Lower), SourceBound(8, 2, Lower), SourceBound(9, 2, Upper),
                                 SourceBound(10, 1, Lower), SourceBound(12, 0, Upper), SourceBound(12, 1, Upper)]

  lemma FirstNarrowestIsSorted()
    ensures Sorted(FirstNarrowestSorted)
  {
  }

  lemma FirstNarrowestBounds()
    ensures FirstNarrowestInput == [SourceBound(8, 0, Lower), SourceBound(12, 0, Upper), SourceBound(10, 1, Lower),
                                    SourceBound(12, 1, Upper), SourceBound(8, 2, Lower), SourceBound(9, 2, Upper)]
  {
  }

  lemma FirstNarrowestPermutation()
    ensures multiset(FirstNarrowestInput) == multiset(FirstNarrowestSorted)
  {
    FirstNarrowestBounds();
  }

  lemma FirstNarrowestSortedCopy()
    ensures Sort(FirstNarrowestInput) == FirstNarrowestSorted
  {
    FirstNarrowestIsSorted();
    FirstNarrowestPermutation();
    SortedCopy(FirstNarrowestInput, FirstNarrowestSorted);
  }

  lemma FirstNarrowestChosen()
    ensures ChosenBefore(FirstNarrowestSorted, 2, 1, 6)
  {
    var t := FirstNarrowestSorted;
    DepthsAre(t, [1, 2, 1, 2, 1, 0], 6);
    assert Candidate(t, 2, 1);
    assert Candidate(t, 2, 3);
  }

  lemma FirstNarrowestPeak()
    ensures IsPeak(FirstNarrowestSorted, 2)
  {
    var t := FirstNarrowestSorted;
    DepthsAre(t, [1, 2, 1, 2, 1, 0], 6);
    assert Depth(t, 1) == 2;
  }

  lemma FirstNarrowestSelected()
    ensures Selected(FirstNarrowestSorted, Ok(Interval(8, 9, 2, 1)))
  {
    var t := FirstNarrowestSorted;
    FirstNarrowestIsSorted();
    SortedInOrder(t);
    FirstNarrowestPeak();
    FirstNarrowestChosen();
    SelectedOk(t, 2, 1, Interval(8, 9, 2, 1));
  }

  /** The test's expectation for this input. */
  lemma FirstNarrowest(r: Result)
    requires Selected(Sort(FirstNarrowestInput), r)
    ensures r == Ok(Interval(8, 9, 2, 1))
  {
    FirstNarrowestSortedCopy();
    FirstNarrowestSelected();
    SelectedUnique(FirstNarrowestSorted, r, Ok(Interval(8, 9, 2, 1)));
  }

  // Two windows reach two sources; the later, `[10, 11]`, is narrower than `[7, 9]`.

  const LaterNarrowestInput := FromEnds([7, 9, 7, 12, 10, 11])
  const LaterNarrowestSorted := [SourceBound(7, 0, Lower), SourceBound(7, 1, Lower), SourceBound(9, 0, Upper),
                                 SourceBound(10, 2, Lower), SourceBound(11, 2, Upper), SourceBound(12, 1, Upper)]

  lemma LaterNarrowestIsSorted()
    ensures Sorted(LaterNarrowestSorted)
  {
  }

  lemma LaterNarrowestBounds()
    ensures LaterNarrowestInput == [SourceBound(7, 0, Lower), SourceBound(9, 0, Upper), SourceBound(7, 1, Lower),
                                    SourceBound(12, 1, Upper), SourceBound(10, 2, Lower), SourceBound(11, 2, Upper)]
  {
  }

  lemma LaterNarrowestPermutation()
    ensures multiset(LaterNarrowestInput) == multiset(LaterNarrowestSorted)
  {
    LaterNarrowestBounds();
  }

  lemma LaterNarrowestSortedCopy()
    ensures Sort(LaterNarrowestInput) == LaterNarrowestSorted
  {
    LaterNarrowestIsSorted();
    LaterNarrowestPermutation();
    SortedCopy(LaterNarrowestInput, LaterNarrowestSorted);
  }

  lemma LaterNarrowestChosen()
    ensures ChosenBefore(LaterNarrowestSorted, 2, 3, 6)
  {
    var t := LaterNarrowestSorted;
    DepthsAre(t, [1, 2, 1, 2, 1, 0], 6);
    assert Candidate(t, 2, 1);
    assert Candidate(t, 2, 3);
  }

  lemma LaterNarrowestPeak()
    ensures IsPeak(LaterNarrowestSorted, 2)
  {
    var t := LaterNarrowestSorted;
    DepthsAre(t, [1, 2, 1, 2, 1, 0], 6);
    assert Depth(t, 3) == 2;
  }

  lemma LaterNarrowestSelected()
    ensures Selected(LaterNarrowestSorted, Ok(Interval(10, 11, 2, 1)))
  {
    var t := LaterNarrowestSorted;
    LaterNarrowestIsSorted();
    SortedInOrder(t);
    LaterNarrowestPeak();
    LaterNarrowestChosen();
    SelectedOk(t, 2, 3, Interval(10, 11, 2, 1));
  }

  /** The test's expectation for this input. */
  lemma LaterNarrowest(r: Result)
    requires Selected(Sort(LaterNarrowestInput), r)
    ensures r == Ok(Interval(10, 11, 2, 1))
  {
    LaterNarrowestSortedCopy();
    LaterNarrowestSelected();
    SelectedUnique(LaterNarrowestSorted, r, Ok(Interval(10, 11, 2, 1)));
  }

  // The previous shape at negative values.

  const NegativeValuesInput := FromEnds([-9, -7, -12, -7, -11, -10])
  const NegativeValuesSorted := [SourceBound(-12, 1, Lower), SourceBound(-11, 2, Lower), SourceBound(-10, 2, Upper),
                                 SourceBound(-9, 0, Lower), SourceBound(-7, 0, Upper), SourceBound(-7, 1, Upper)]

  lemma NegativeValuesIsSorted()
    ensures Sorted(NegativeValuesSorted)
  {
  }

  lemma NegativeValuesBounds()
    ensures NegativeValuesInput == [SourceBound(-9, 0, Lower), SourceBound(-7, 0, Upper), SourceBound(-12, 1, Lower),
                                    SourceBound(-7, 1, Upper), SourceBound(-11, 2, Lower), SourceBound(-10, 2, Upper)]
  {
  }

  lemma NegativeValuesPermutation()
    ensures multiset(NegativeValuesInput) == multiset(NegativeValuesSorted)
  {
    NegativeValuesBounds();
  }

  lemma NegativeValuesSortedCopy()
    ensures Sort(NegativeValuesInput) == NegativeValuesSorted
  {
    NegativeValuesIsSorted();
    NegativeValuesPermutation();
    SortedCopy(NegativeValuesInput, NegativeValuesSorted);
  }

  lemma NegativeValuesChosen()
    ensures ChosenBefore(NegativeValuesSorted, 2, 1, 6)
  {
    var t := NegativeValuesSorted;
    DepthsAre(t, [1, 2, 1, 2, 1, 0], 6);
    assert Candidate(t, 2, 1);
    assert Candidate(t, 2, 3);
  }

  lemma NegativeValuesPeak()
    ensures IsPeak(NegativeValuesSorted, 2)
  {
    var t := NegativeValuesSorted;
    DepthsAre(t, [1, 2, 1, 2, 1, 0], 6);
    assert Depth(t, 1) == 2;
  }

  lemma NegativeValuesSelected()
    ensures Selected(NegativeValuesSorted, Ok(Interval(-11, -10, 2, 1)))
  {
    var t := NegativeValuesSorted;
    NegativeValuesIsSorted();
    SortedInOrder(t);
    NegativeValuesPeak();
    NegativeValuesChosen();
    SelectedOk(t, 2, 1, Interval(-11, -10, 2, 1));
  }

  /** The test's expectation for this input. */
  lemma NegativeValues(r: Result)
    requires Selected(Sort(NegativeValuesInput), r)
    ensures r == Ok(Interval(-11, -10, 2, 1))
  {
    NegativeValuesSortedCopy();
    NegativeValuesSelected();
    SelectedUnique(NegativeValuesSorted, r, Ok(Interval(-11, -10, 2, 1)));
  }

  // A single source: its own interval.

  const OneSourceInput := FromEnds([1, 3])
  const OneSourceSorted := [SourceBound(1, 0, Lower), SourceBound(3, 0, Upper)]

  lemma OneSourceIsSorted()
    ensures Sorted(OneSourceSorted)
  {
  }

  lemma OneSourceBounds()
    ensures OneSourceInput == [SourceBound(1, 0, Lower), SourceBound(3, 0, Upper)]
  {
  }

  lemma OneSourcePermutation()
    ensures multiset(OneSourceInput) == multiset(OneSourceSorted)
  {
    OneSourceBounds();
  }

  lemma OneSourceSortedCopy()
    ensures Sort(OneSourceInput) == OneSourceSorted
  {
    OneSourceIsSorted();
    OneSourcePermutation();
    SortedCopy(OneSourceInput, OneSourceSorted);
  }

  lemma OneSourceChosen()
    ensures ChosenBefore(OneSourceSorted, 1, 0, 2)
  {
    var t := OneSourceSorted;
    DepthsAre(t, [1, 0], 2);
    assert Candidate(t, 1, 0);
  }

  lemma OneSourcePeak()
    ensures IsPeak(OneSourceSorted, 1)
  {
    var t := OneSourceSorted;
    DepthsAre(t, [1, 0], 2);
    assert Depth(t, 0) == 1;
  }

  lemma OneSourceSelected()
    ensures Selected(OneSourceSorted, Ok(Interval(1, 3, 1, 0)))
  {
    var t := OneSourceSorted;
    OneSourceIsSorted();
    SortedInOrder(t);
    OneSourcePeak();
    OneSourceChosen();
    SelectedOk(t, 1, 0, Interval(1, 3, 1, 0));
  }

  /** The test's expectation for this input. */
  lemma OneSource(r: Result)
    requires Selected(Sort(OneSourceInput), r)
    ensures r == Ok(Interval(1, 3, 1, 0))
  {
    OneSourceSortedCopy();
    OneSourceSelected();
    SelectedUnique(OneSourceSorted, r, Ok(Interval(1, 3, 1, 0)));
  }

  // A point inside the other source's interval.

  const PointInsideInput := FromEnds([1, 3, 2, 2])
  const PointInsideSorted := [SourceBound(1, 0, Lower), SourceBound(2, 1, Lower), SourceBound(2, 1, Upper),
                              SourceBound(3, 0, Upper)]

  lemma PointInsideIsSorted()
    ensures Sorted(PointInsideSorted)
  {
  }

  lemma PointInsideBounds()
    ensures PointInsideInput == [SourceBound(1, 0, Lower), SourceBound(3, 0, Upper), SourceBound(2, 1, Lower),
                                 SourceBound(2, 1, Upper)]
  {
  }

  lemma PointInsidePermutation()
    ensures multiset(PointInsideInput) == multiset(PointInsideSorted)
  {
    PointInsideBounds();
  }

  lemma PointInsideSortedCopy()
    ensures Sort(PointInsideInput) == PointInsideSorted
  {
    PointInsideIsSorted();
    PointInsidePermutation();
    SortedCopy(PointInsideInput, PointInsideSorted);
  }

  lemma PointInsideChosen()
    ensures ChosenBefore(PointInsideSorted, 2, 1, 4)
  {
    var t := PointInsideSorted;
    DepthsAre(t, [1, 2, 1, 0], 4);
    assert Candidate(t, 2, 1);
  }

  lemma PointInsidePeak()
    ensures IsPeak(PointInsideSorted, 2)
  {
    var t := PointInsideSorted;
    DepthsAre(t, [1, 2, 1, 0], 4);
    assert Depth(t, 1) == 2;
  }

  lemma PointInsideSelected()
    ensures Selected(PointInsideSorted, Ok(Interval(2, 2, 2, 0)))
  {
    var t := PointInsideSorted;
    PointInsideIsSorted();
    SortedInOrder(t);
    PointInsidePeak();
    PointInsideChosen();
    SelectedOk(t, 2, 1, Interval(2, 2, 2, 0));
  }

  /** The test's expectation for this input. */
  lemma PointInside(r: Result)
    requires Selected(Sort(PointInsideInput), r)
    ensures r == Ok(Interval(2, 2, 2, 0))
  {
    PointInsideSortedCopy();
    PointInsideSelected();
    SelectedUnique(PointInsideSorted, r, Ok(Interval(2, 2, 2, 0)));
  }

  // Two disjoint intervals: the later, narrower one is chosen.

  const DisjointInput := FromEnds([1, 3, 4, 5])
  const DisjointSorted := [SourceBound(1, 0, Lower), SourceBound(3, 0, Upper), SourceBound(4, 1, Lower),
                           SourceBound(5, 1, Upper)]

  lemma DisjointIsSorted()
    ensures Sorted(DisjointSorted)
  {
  }

  lemma DisjointBounds()
    ensures DisjointInput == [SourceBound(1, 0, Lower), SourceBound(3, 0, Upper), SourceBound(4, 1, Lower),
                              SourceBound(5, 1, Upper)]
  {
  }

  lemma DisjointPermutation()
    ensures multiset(DisjointInput) == multiset(DisjointSorted)
  {
    DisjointBounds();
  }

  lemma DisjointSortedCopy()
    ensures Sort(DisjointInput) == DisjointSorted
  {
    DisjointIsSorted();
    DisjointPermutation();
    SortedCopy(DisjointInput, DisjointSorted);
  }

  lemma DisjointChosen()
    ensures ChosenBefore(DisjointSorted, 1, 2, 4)
  {
    var t := DisjointSorted;
    DepthsAre(t, [1, 0, 1, 0], 4);
    assert Candidate(t, 1, 0);
    assert Candidate(t, 1, 2);
  }

  lemma DisjointPeak()
    ensures IsPeak(DisjointSorted, 1)
  {
    var t := DisjointSorted;
    DepthsAre(t, [1, 0, 1, 0], 4);
    assert Depth(t, 2) == 1;
  }

  lemma DisjointSelected()
    ensures Selected(DisjointSorted, Ok(Interval(4, 5, 1, 1)))
  {
    var t := DisjointSorted;
    DisjointIsSorted();
    SortedInOrder(t);
    DisjointPeak();
    DisjointChosen();
    SelectedOk(t, 1, 2, Interval(4, 5, 1, 1));
  }

  /** The test's expectation for this input. */
  lemma Disjoint(r: Result)
    requires Selected(Sort(DisjointInput), r)
    ensures r == Ok(Interval(4, 5, 1, 1))
  {
    DisjointSortedCopy();
    DisjointSelected();
    SelectedUnique(DisjointSorted, r, Ok(Interval(4, 5, 1, 1)));
  }

  // The same ends paired into different intervals: `[1, 3], [2, 4]` and `[1, 4], [2, 3]`.

  const CrossedInput := FromEnds([1, 3, 2, 4])
  const NestedInput := FromEnds([1, 4, 2, 3])

  /** The two pairings hold the same bounds once the source indices are cleared. */
  lemma RepairedSameBounds()
    ensures multiset(Anonymize(CrossedInput)) == multiset(Anonymize(NestedInput))
  {
    var l1, u3 := SourceBound(1, 0, Lower), SourceBound(3, 0, Upper);
    var l2, u4 := SourceBound(2, 0, Lower), SourceBound(4, 0, Upper);
    assert CrossedInput == [SourceBound(1, 0, Lower), SourceBound(3, 0, Upper), SourceBound(2, 1, Lower), SourceBound(4, 1, Upper)];
    assert NestedInput == [SourceBound(1, 0, Lower), SourceBound(4, 0, Upper), SourceBound(2, 1, Lower), SourceBound(3, 1, Upper)];
    assert Anonymize(CrossedInput) == [l1, u3, l2, u4];
    assert Anonymize(NestedInput) == [l1, u4, l2, u3];
  }

  /** Re-pairing the ends changes only the source indices, so both inputs get
      the same result. */
  lemma RepairedEnds(r1: Result, r2: Result)
    requires Selected(Sort(CrossedInput), r1) && Selected(Sort(NestedInput), r2)
    ensures r1 == r2
  {
    RepairedSameBounds();
    SameKeysSameResult(CrossedInput, NestedInput, r1, r2);
  }
}
