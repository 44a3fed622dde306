/** Marzullo's agreement algorithm: from the bounds of the sources' intervals,
    the smallest interval consistent with the largest number of sources. */
module Marzullo {
  import opened SourceBounds
  import opened Sorting

  /** The selected interval and how many sources agree (or not) with it. */
  datatype Interval = Interval(lowerBound: int, upperBound: int, sourcesTrue: u8, sourcesFalse: u8)

  /** One variant per defensive check; the diagnostic text is left out. */
  datatype MarzulloError = InvalidSourceBounds | InvalidSourceBoundsOrder | IntervalInvariant

  datatype Result = Ok(value: Interval) | Err(error: MarzulloError)

  datatype Option<T> = None | Some(value: T)

  /** The change a bound makes to the number of open intervals. */
  function Step(b: SourceBound): int {
    if b.boundType == Lower then 1 else -1
  }

  /** The running overlap count after visiting every bound of `s`:
      Lower bounds seen minus Upper bounds seen. */
  function Count(s: seq<SourceBound>): int {
    if s == [] then 0 else Count(s[..|s| - 1]) + Step(s[|s| - 1])
  }

  /** The overlap count just after visiting the bound at position `j`. */
  function Depth(s: seq<SourceBound>, j: nat): int
    requires j < |s|
  {
    Count(s[..j + 1])
  }

  /** Every adjacent pair is in order: what the loop's sort check accepts. */
  predicate InOrder(s: seq<SourceBound>) {
    forall k :: 0 < k < |s| ==> Cmp(s[k - 1], s[k]) != Greater
  }

  /** The exact condition under which the sweep never decrements a zero count
      (a `usize` underflow): wherever an Upper bound after the first meets
      nothing open, an earlier check has already returned, because the first
      bound is Upper or the bounds up to it are out of order. */
  ghost predicate NoUnderflow(s: seq<SourceBound>) {
    forall i {:trigger Count(s[..i])} ::
      0 < i < |s| && s[0].boundType == Lower && s[i].boundType == Upper && Count(s[..i]) == 0 ==>
        !InOrder(s[..i + 1])
  }

  /** The width of the window between the bound at `j` and the next one. */
  function Width(s: seq<SourceBound>, j: nat): int
    requires j < |s| - 1
  {
    s[j + 1].value - s[j].value
  }

  /** `m` is the largest overlap count at any position but the last. */
  ghost predicate IsPeak(s: seq<SourceBound>, m: int) {
    && (forall j :: 0 <= j < |s| - 1 ==> Depth(s, j) <= m)
    && (exists j :: 0 <= j < |s| - 1 && Depth(s, j) == m)
  }

  /** The window after position `j` competes for depth `m`: the count there is
      `m`, and either `j` is the first position that reaches `m`, or the next
      bound closes an interval. */
  ghost predicate Candidate(s: seq<SourceBound>, m: int, j: int) {
    && 0 <= j < |s| - 1
    && Depth(s, j) == m
    && ((forall i :: 0 <= i < j ==> Depth(s, i) < m) || s[j + 1].boundType == Upper)
  }

  /** Among the candidates before position `n`, `j` is the first of the narrowest. */
  ghost predicate ChosenBefore(s: seq<SourceBound>, m: int, j: int, n: int) {
    && Candidate(s, m, j)
    && j < n
    && (forall k :: Candidate(s, m, k) && k < j ==> Width(s, j) < Width(s, k))
    && (forall k :: Candidate(s, m, k) && j < k < n ==> Width(s, j) <= Width(s, k))
  }

  /** What the selector returns for the sorted bounds `s` (at least one source),
      check by check in the order the source performs them. */
  ghost predicate Selected(s: seq<SourceBound>, r: Result)
    requires 2 <= |s|
  {
    var sources := |s| / 2;
    if s[0].boundType == Upper then r == Err(InvalidSourceBounds)
    else if !InOrder(s) then r == Err(InvalidSourceBoundsOrder)
    else if s[|s| - 1].boundType == Lower then r == Err(IntervalInvariant)
    else if exists j :: 0 <= j < |s| - 1 && Depth(s, j) > sources then r == Err(IntervalInvariant)
    else
      && r.Ok?
      && IsPeak(s, r.value.sourcesTrue as int)
      && r.value.sourcesTrue as int + r.value.sourcesFalse as int == sources
      && exists j :: ChosenBefore(s, r.value.sourcesTrue as int, j, |s|)
                  && r.value.lowerBound == s[j].value && r.value.upperBound == s[j + 1].value
  }

  lemma CountSnoc(s: seq<SourceBound>, i: nat)
    requires i < |s|
    ensures Depth(s, i) == Count(s[..i]) + Step(s[i])
  {
    assert s[..i + 1][..i] == s[..i];
  }

  lemma InOrderSnoc(s: seq<SourceBound>, i: nat)
    requires i < |s| && InOrder(s[..i])
    requires i > 0 ==> Cmp(s[i - 1], s[i]) != Greater
    ensures InOrder(s[..i + 1])
  {
    var t := s[..i + 1];
    forall k | 0 < k < |t| ensures Cmp(t[k - 1], t[k]) != Greater {
      if k < i {
        assert t[k - 1] == s[..i][k - 1] && t[k] == s[..i][k];
      }
    }
  }

  /** A new peak at `idx` makes its window the only candidate so far. */
  lemma ChooseNewPeak(s: seq<SourceBound>, best: int, idx: nat)
    requires idx < |s| - 1
    requires forall j :: 0 <= j < idx ==> Depth(s, j) <= best
    requires Depth(s, idx) > best
    ensures ChosenBefore(s, Depth(s, idx), idx, idx + 1)
  {
  }

  /** The window at `idx` is not a candidate: the choice stands. */
  lemma KeepChoice(s: seq<SourceBound>, m: int, w: int, idx: nat)
    requires ChosenBefore(s, m, w, idx)
    requires idx < |s|
    requires idx == |s| - 1 || Depth(s, idx) != m || s[idx + 1].boundType == Lower
    ensures ChosenBefore(s, m, w, idx + 1)
  {
    assert !Candidate(s, m, idx) by {
      assert 0 <= w < idx && Depth(s, w) == m;
    }
  }

  /** The window at `idx` ties in depth but is not strictly narrower: the earlier choice stands. */
  lemma KeepTie(s: seq<SourceBound>, m: int, w: int, idx: nat)
    requires ChosenBefore(s, m, w, idx)
    requires idx < |s| - 1 && Width(s, w) <= Width(s, idx)
    ensures ChosenBefore(s, m, w, idx + 1)
  {
  }

  /** The window at `idx` ties in depth and is strictly narrower: it becomes the choice. */
  lemma ReplaceTie(s: seq<SourceBound>, m: int, w: int, idx: nat)
    requires ChosenBefore(s, m, w, idx)
    requires idx < |s| - 1 && Depth(s, idx) == m && s[idx + 1].boundType == Upper
    requires Width(s, idx) < Width(s, w)
    ensures ChosenBefore(s, m, idx, idx + 1)
  {
    forall k | Candidate(s, m, k) && k < idx ensures Width(s, idx) < Width(s, k) {
      if k != w {
        assert Width(s, w) <= Width(s, k);
      }
    }
  }

  /** The depth at `idx` does not exceed the new best: the bound extends one position. */
  lemma RaiseBound(s: seq<SourceBound>, best: int, newBest: int, idx: nat)
    requires idx < |s| && best <= newBest
    requires forall j :: 0 <= j < idx && j < |s| - 1 ==> Depth(s, j) <= best
    requires idx < |s| - 1 ==> Depth(s, idx) <= newBest
    ensures forall j :: 0 <= j < idx + 1 && j < |s| - 1 ==> Depth(s, j) <= newBest
  {
  }

  /** Where the bounds so far are in order, an Upper bound after the first finds a positive count. */
  lemma CountPositive(s: seq<SourceBound>, i: nat)
    requires NoUnderflow(s) && 0 < i < |s| && s[0].boundType == Lower
    requires s[i].boundType == Upper && InOrder(s[..i + 1])
    ensures Count(s[..i]) != 0
  {
  }

  /** A success of `Selected` consists of the peak and the chosen window. */
  lemma SuccessParts(s: seq<SourceBound>, r: Result) returns (w: nat)
    requires 2 <= |s| && Selected(s, r) && r.Ok?
    ensures IsPeak(s, r.value.sourcesTrue as int)
    ensures ChosenBefore(s, r.value.sourcesTrue as int, w, |s|)
    ensures r.value.lowerBound == s[w].value && r.value.upperBound == s[w + 1].value
    ensures r.value.sourcesTrue as int + r.value.sourcesFalse as int == |s| / 2
  {
    w :| ChosenBefore(s, r.value.sourcesTrue as int, w, |s|)
      && r.value.lowerBound == s[w].value && r.value.upperBound == s[w + 1].value;
  }

  /** An adjacent pair out of order makes the sort check fail. */
  lemma OrderBroken(s: seq<SourceBound>, idx: nat)
    requires 2 <= |s| && s[0].boundType == Lower
    requires 0 < idx < |s| && Cmp(s[idx - 1], s[idx]) == Greater
    ensures Selected(s, Err(InvalidSourceBoundsOrder))
  {
  }

  /** A sweep that passed every check ends in the success `Selected` describes. */
  lemma SweepSucceeds(s: seq<SourceBound>, best: nat, w: nat, r: Result)
    requires 2 <= |s| && s[0].boundType == Lower && InOrder(s) && s[|s| - 1].boundType == Upper
    requires forall j :: 0 <= j < |s| - 1 ==> Depth(s, j) <= best
    requires ChosenBefore(s, best, w, |s|) && best <= |s| / 2
    requires r.Ok? && r.value.lowerBound == s[w].value && r.value.upperBound == s[w + 1].value
    requires r.value.sourcesTrue as int == best && r.value.sourcesTrue as int + r.value.sourcesFalse as int == |s| / 2
    ensures Selected(s, r)
  {
  }

  /** The window bookkeeping after the sweep has visited `n` bounds: `best` bounds
      every depth seen, and `interval` is the window chosen for it so far. */
  ghost predicate Tracked(s: seq<SourceBound>, n: nat, best: int, w: int, interval: Option<Interval>) {
    && n <= |s|
    && (forall j :: 0 <= j < n && j < |s| - 1 ==> Depth(s, j) <= best)
    && (n == 0 ==> best == 0 && interval == None)
    && (n > 0 ==> && ChosenBefore(s, best, w, n) && 0 <= w < |s| - 1
                  && interval == Some(Interval(s[w].value, s[w + 1].value, 0, 0)))
  }

  /** One step of the sweep's window bookkeeping, once the count includes the
      bound at `idx`: a new peak takes over the window, a tie before an Upper
      bound takes it only when strictly narrower. */
  method Track(bounds: seq<SourceBound>, idx: nat, count: nat, best: nat, interval: Option<Interval>, ghost w: nat)
      returns (newBest: nat, newInterval: Option<Interval>, ghost newW: nat)
    requires 2 <= |bounds| && bounds[0].boundType == Lower
    requires idx < |bounds| && count == Depth(bounds, idx)
    requires Tracked(bounds, idx, best, w, interval)
    ensures Tracked(bounds, idx + 1, newBest, newW, newInterval)
  {
    newBest, newInterval, newW := best, interval, w;
    if idx == 0 {
      CountSnoc(bounds, 0);
    }
    if count > best && idx < |bounds| - 1 {
      ChooseNewPeak(bounds, best, idx);
      newBest := count;
      newInterval := Some(Interval(bounds[idx].value, bounds[idx + 1].value, 0, 0));
      newW := idx;
    } else if count == best && idx < |bounds| - 1 && bounds[idx + 1].boundType == Upper {
      // a tie in depth: keep the narrower window, the earlier one when equally wide
      var alternative := bounds[idx + 1].value - bounds[idx].value;
      if interval.Some? && alternative < interval.value.upperBound - interval.value.lowerBound {
        ReplaceTie(bounds, best, w, idx);
        newInterval := Some(Interval(bounds[idx].value, bounds[idx + 1].value, 0, 0));
        newW := idx;
      } else {
        KeepTie(bounds, best, w, idx);
      }
    } else if idx > 0 {
      KeepChoice(bounds, best, w, idx);
    }
    RaiseBound(bounds, best, newBest, idx);
  }

  /** The part of the selector after the sort: the structural checks, the
      sweep and the post-condition checks, on the bounds in the order given. */
  method Select(bounds: seq<SourceBound>) returns (r: Result)
    requires 2 <= |bounds| && |bounds| / 2 <= 255
    requires NoUnderflow(bounds)
    ensures Selected(bounds, r)
  {
    var sources := |bounds| / 2;
    if bounds[0].boundType != Lower {
      return Err(InvalidSourceBounds);
    }
    var best: nat := 0;
    var count: nat := 0;
    var prev: Option<SourceBound> := None;
    var interval: Option<Interval> := None;
    ghost var w: nat := 0;
    var idx := 0;
    while idx < |bounds|
      invariant 0 <= idx <= |bounds|
      invariant InOrder(bounds[..idx])
      invariant prev == if idx == 0 then None else Some(bounds[idx - 1])
      invariant count == Count(bounds[..idx])
      invariant Tracked(bounds, idx, best, w, interval)
    {
      var bound := bounds[idx];
      // the sort check
      if prev.Some? && Cmp(prev.value, bound) == Greater {
        OrderBroken(bounds, idx);
        return Err(InvalidSourceBoundsOrder);
      }
      InOrderSnoc(bounds, idx);
      prev := Some(bound);
      CountSnoc(bounds, idx);
      if bound.boundType == Upper && idx > 0 {
        CountPositive(bounds, idx);
      }
      match bound.boundType {
        case Lower => count := count + 1;
        case Upper => count := count - 1;
      }
      best, interval, w := Track(bounds, idx, count, best, interval, w);
      idx := idx + 1;
    }
    assert bounds[..idx] == bounds;
    r := Conclude(bounds, best, w, prev, interval);
  }

  /** The checks after the sweep: the last bound must close an interval, the best
      count must not exceed the sources, and the counts are filled in. */
  method Conclude(bounds: seq<SourceBound>, best: nat, ghost w: nat, prev: Option<SourceBound>,
                  interval: Option<Interval>) returns (r: Result)
    requires 2 <= |bounds| && |bounds| / 2 <= 255 && bounds[0].boundType == Lower && InOrder(bounds)
    requires prev == Some(bounds[|bounds| - 1])
    requires Tracked(bounds, |bounds|, best, w, interval)
    ensures Selected(bounds, r)
  {
    var sources := |bounds| / 2;
    if !(prev.Some? && prev.value.boundType == Upper) {
      return Err(IntervalInvariant);
    }
    if best > sources {
      return Err(IntervalInvariant);
    }
    var sourcesTrue := best as u8;
    var sourcesFalse := (sources - best) as u8;
    var result := match interval
      case Some(ivl) => Some(ivl.(sourcesTrue := sourcesTrue, sourcesFalse := sourcesFalse))
      case None => None;
    if !(result.Some? && result.value.sourcesTrue + result.value.sourcesFalse == sources as u8) {
      return Err(IntervalInvariant);
    }
    r := Ok(result.value);
    SweepSucceeds(bounds, best, w, r);
  }

  /** The peak depth is unique. */
  lemma PeakUnique(s: seq<SourceBound>, m1: int, m2: int)
    requires IsPeak(s, m1) && IsPeak(s, m2)
    ensures m1 == m2
  {
    var p1 :| 0 <= p1 < |s| - 1 && Depth(s, p1) == m1;
    var p2 :| 0 <= p2 < |s| - 1 && Depth(s, p2) == m2;
    assert Depth(s, p1) <= m2 && Depth(s, p2) <= m1;
  }

  /** At most one window is the first of the narrowest candidates. */
  lemma ChosenUnique(s: seq<SourceBound>, m: int, w1: int, w2: int)
    requires ChosenBefore(s, m, w1, |s|) && ChosenBefore(s, m, w2, |s|)
    ensures w1 == w2
  {
  }

  /** `Selected` leaves no freedom: at most one result meets it. */
  lemma SelectedUnique(s: seq<SourceBound>, r1: Result, r2: Result)
    requires 2 <= |s|
    requires Selected(s, r1) && Selected(s, r2)
    ensures r1 == r2
  {
    if r1.Ok? && r2.Ok? {
      var w1 := SuccessParts(s, r1);
      var w2 := SuccessParts(s, r2);
      PeakUnique(s, r1.value.sourcesTrue as int, r2.value.sourcesTrue as int);
      ChosenUnique(s, r1.value.sourcesTrue as int, w1, w2);
    }
  }

  /** Sorted bounds pass the sweep's order check. */
  lemma SortedInOrder(s: seq<SourceBound>)
    requires Sorted(s)
    ensures InOrder(s)
  {
    forall k | 0 < k < |s| ensures Cmp(s[k - 1], s[k]) != Greater {
      assert Le(s[k - 1], s[k]);
    }
  }

  /** A sorted copy that starts with an Upper bound is within the model's
      precondition, and the first-bound check rejects it before the sweep. */
  lemma UpperFirstRejected(s: seq<SourceBound>, r: Result)
    requires 2 <= |s| && s[0].boundType == Upper
    ensures NoUnderflow(s)
    ensures Selected(s, r) <==> r == Err(InvalidSourceBounds)
  {
  }

  /** On sorted bounds the sort check never fails, and a success has a proper
      interval whose counts split the sources: at least one agrees, no more
      than there are sources, and the two counts add up to the sources. */
  lemma SortedSelection(s: seq<SourceBound>, r: Result)
    requires 2 <= |s| && Sorted(s)
    requires Selected(s, r)
    ensures r != Err(InvalidSourceBoundsOrder)
    ensures r.Ok? ==> r.value.lowerBound <= r.value.upperBound
    ensures r.Ok? ==> 1 <= r.value.sourcesTrue as int <= |s| / 2
    ensures r.Ok? ==> r.value.sourcesTrue as int + r.value.sourcesFalse as int == |s| / 2
  {
    SortedInOrder(s);
    if r.Ok? {
      var m := r.value.sourcesTrue as int;
      var w :| ChosenBefore(s, m, w, |s|) && r.value.lowerBound == s[w].value && r.value.upperBound == s[w + 1].value;
      assert Le(s[w], s[w + 1]);
      assert Depth(s, 0) == 1 by { CountSnoc(s, 0); }
      assert Depth(s, 0) <= m;
    }
  }

  /** `Interval::try_from_source_bounds`: no source gives the empty interval at
      zero; otherwise the bounds are sorted and handed to `Select`. */
  method TryFromSourceBounds(sourceBounds: seq<SourceBound>) returns (r: Result)
    requires |sourceBounds| / 2 <= 255
    requires |sourceBounds| / 2 == 0 || NoUnderflow(Sort(sourceBounds))
    ensures |sourceBounds| / 2 == 0 ==> r == Ok(Interval(0, 0, 0, 0))
    ensures |sourceBounds| / 2 > 0 ==> Selected(Sort(sourceBounds), r)
    ensures r != Err(InvalidSourceBoundsOrder)
    ensures r.Ok? ==> r.value.lowerBound <= r.value.upperBound
    ensures r.Ok? ==> r.value.sourcesTrue as int <= |sourceBounds| / 2
    ensures r.Ok? ==> r.value.sourcesTrue as int + r.value.sourcesFalse as int == |sourceBounds| / 2
  {
    var sources := |sourceBounds| / 2;
    if sources == 0 {
      return Ok(Interval(0, 0, 0, 0));
    }
    var bounds := Sort(sourceBounds);
    assert |bounds| == |multiset(bounds)| == |sourceBounds|;
    r := Select(bounds);
    SortedSelection(bounds, r);
  }

  /** Reordering the input bounds does not change the result. */
  lemma ReorderedInputSameResult(a: seq<SourceBound>, b: seq<SourceBound>, ra: Result, rb: Result)
    requires multiset(a) == multiset(b) && 2 <= |a|
    requires Selected(Sort(a), ra) && Selected(Sort(b), rb)
    ensures ra == rb
  {
    SortIgnoresInputOrder(a, b);
    SelectedUnique(Sort(a), ra, rb);
  }
}
