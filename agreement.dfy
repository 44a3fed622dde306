/** What the selector guarantees for the input its callers are meant to give:
    every source contributes one Lower and one Upper bound, the lower not above
    the upper. Such input never makes the sweep underflow and always succeeds,
    and the result is Marzullo's answer: `sourcesTrue` counts exactly the sources
    whose interval contains the returned one, no point lies in more sources, and
    no maximal agreement region is narrower. */
module Agreement {
  import opened SourceBounds
  import opened Sorting
  import opened Marzullo

  /** The bounds of the sources' intervals given as the flat list
      `[lower_0, upper_0, lower_1, upper_1, ...]`: entry `i` belongs to source
      `i / 2` and is a Lower bound when `i` is even. */
  function FromEnds(ends: seq<int>): (r: seq<SourceBound>)
    requires |ends| <= 512
    ensures |r| == |ends|
  {
    seq(|ends|, i requires 0 <= i < |ends| =>
      SourceBound(ends[i], (i / 2) as u8, if i % 2 == 0 then Lower else Upper))
  }

  function LowOf(ends: seq<int>, k: nat): int
    requires 2 * k + 1 < |ends|
  {
    ends[2 * k]
  }

  function HighOf(ends: seq<int>, k: nat): int
    requires 2 * k + 1 < |ends|
  {
    ends[2 * k + 1]
  }

  /** Whole sources (at most 255 of them), each with its lower end not above its upper end. */
  predicate WellFormed(ends: seq<int>) {
    && |ends| % 2 == 0
    && |ends| / 2 <= 255
    && forall k: nat :: k < |ends| / 2 ==> LowOf(ends, k) <= HighOf(ends, k)
  }

  /** The bound of kind `t` that source `k` contributes. */
  function BoundOf(ends: seq<int>, k: nat, t: BoundType): SourceBound
    requires 2 * k + 1 < |ends| && k < 256
  {
    SourceBound(if t == Lower then LowOf(ends, k) else HighOf(ends, k), k as u8, t)
  }

  /** The sources whose interval contains all of `[lo, hi]`. */
  function Agree(ends: seq<int>, lo: int, hi: int): (r: set<int>)
    requires |ends| % 2 == 0
    ensures forall k :: k in r ==> 0 <= k < |ends| / 2
  {
    set k: nat | k < |ends| / 2 && LowOf(ends, k) <= lo && hi <= HighOf(ends, k)
  }

  /** `s` is the selector's sorted copy of a well-formed input. */
  ghost predicate SortedInput(ends: seq<int>, s: seq<SourceBound>) {
    && WellFormed(ends)
    && Sorted(s)
    && multiset(s) == multiset(FromEnds(ends))
  }

  /** The sources with a Lower bound in `p`. */
  function Opened(p: seq<SourceBound>): set<int> {
    set b | b in p && b.boundType == Lower :: b.source as int
  }

  /** The sources with an Upper bound in `p`. */
  function Closed(p: seq<SourceBound>): set<int> {
    set b | b in p && b.boundType == Upper :: b.source as int
  }

  /** The sources whose interval the sweep is inside after visiting `p`. */
  function Open(p: seq<SourceBound>): set<int> {
    Opened(p) - Closed(p)
  }

  // Facts about the elements of the sorted copy

  lemma DistinctCountsOnce(r: seq<SourceBound>, x: SourceBound)
    requires forall i, j :: 0 <= i < j < |r| ==> r[i] != r[j]
    ensures multiset(r)[x] <= 1
  {
    if r != [] {
      var n := |r| - 1;
      assert r == r[..n] + [r[n]];
      DistinctCountsOnce(r[..n], x);
      if x == r[n] {
        assert x !in r[..n];
      }
    }
  }

  lemma RepeatCountsTwice(s: seq<SourceBound>, p: nat, q: nat)
    requires p < q < |s| && s[p] == s[q]
    ensures multiset(s)[s[q]] >= 2
  {
    assert s == s[..q] + s[q..];
    assert s[p] == s[..q][p];
    assert s[q] == s[q..][0];
  }

  /** No bound occurs twice in the sorted copy. */
  lemma NoRepeats(ends: seq<int>, s: seq<SourceBound>, p: nat, q: nat)
    requires SortedInput(ends, s)
    requires p < q < |s|
    ensures s[p] != s[q]
  {
    var r := FromEnds(ends);
    forall i, j | 0 <= i < j < |r| ensures r[i] != r[j] {
      if i / 2 == j / 2 {
        assert i % 2 != j % 2;
      } else {
        assert (i / 2) as u8 != (j / 2) as u8;
      }
    }
    DistinctCountsOnce(r, s[q]);
    if s[p] == s[q] {
      RepeatCountsTwice(s, p, q);
    }
  }

  /** Every bound of the sorted copy is one that its source contributes. */
  lemma MemberOf(ends: seq<int>, s: seq<SourceBound>, b: SourceBound)
    requires SortedInput(ends, s) && b in s
    ensures b.source as int < |ends| / 2
    ensures b == BoundOf(ends, b.source as nat, b.boundType)
  {
    assert b in multiset(FromEnds(ends));
    var i :| 0 <= i < |ends| && FromEnds(ends)[i] == b;
    assert i == 2 * (i / 2) + i % 2;
  }

  /** The position in the sorted copy of the bound of kind `t` of source `k`. */
  lemma PositionOf(ends: seq<int>, s: seq<SourceBound>, k: nat, t: BoundType) returns (p: nat)
    requires SortedInput(ends, s) && k < |ends| / 2
    ensures p < |s| && s[p] == BoundOf(ends, k, t)
  {
    var i := if t == Lower then 2 * k else 2 * k + 1;
    assert FromEnds(ends)[i] == BoundOf(ends, k, t);
    assert BoundOf(ends, k, t) in multiset(s);
    p :| 0 <= p < |s| && s[p] == BoundOf(ends, k, t);
  }

  /** A source's Lower bound comes before its Upper bound in the sorted copy. */
  lemma LowerComesFirst(ends: seq<int>, s: seq<SourceBound>, p: nat, q: nat)
    requires SortedInput(ends, s) && p < |s| && q < |s|
    requires s[p].boundType == Lower && s[q].boundType == Upper && s[p].source == s[q].source
    ensures p < q
  {
    MemberOf(ends, s, s[p]);
    MemberOf(ends, s, s[q]);
    assert KeyLess(s[p], s[q]);
    assert q < p ==> Le(s[q], s[p]);
  }

  /** Up to position `i` the bounds are in value order. */
  lemma ValueOrder(s: seq<SourceBound>, p: nat, q: nat)
    requires Sorted(s) && p <= q < |s|
    ensures s[p].value <= s[q].value
  {
    if p < q {
      assert Le(s[p], s[q]);
    }
  }

  // The overlap count is the number of open sources

  lemma OpenedSnoc(p: seq<SourceBound>, b: SourceBound)
    ensures Opened(p + [b]) == Opened(p) + (if b.boundType == Lower then {b.source as int} else {})
    ensures Closed(p + [b]) == Closed(p) + (if b.boundType == Upper then {b.source as int} else {})
  {
    assert forall x :: x in p + [b] <==> x in p || x == b;
  }

  /** A source is among `Opened(s[..i])` exactly when its Lower bound lies before `i`;
      likewise for `Closed` and the Upper bound. */
  lemma InPrefix(ends: seq<int>, s: seq<SourceBound>, i: nat, k: nat, t: BoundType, q: nat)
    requires SortedInput(ends, s) && i <= |s| && k < |ends| / 2
    requires q < |s| && s[q] == BoundOf(ends, k, t)
    ensures t == Lower ==> (k in Opened(s[..i]) <==> q < i)
    ensures t == Upper ==> (k in Closed(s[..i]) <==> q < i)
  {
    if q < i {
      assert s[q] == s[..i][q];
    }
    var set_ := if t == Lower then Opened(s[..i]) else Closed(s[..i]);
    if k in set_ {
      var b :| b in s[..i] && b.boundType == t && b.source as int == k;
      var q' :| 0 <= q' < i && s[..i][q'] == b;
      MemberOf(ends, s, b);
      if q' != q {
        if q' < q { NoRepeats(ends, s, q', q); } else { NoRepeats(ends, s, q, q'); }
      }
    }
  }

  /** The bound at `j` opens a source that is neither opened nor closed before
      it, or closes one that is open before it. */
  lemma OpenStep(ends: seq<int>, s: seq<SourceBound>, j: nat)
    requires SortedInput(ends, s) && j < |s|
    ensures s[j].source as int !in Closed(s[..j])
    ensures s[j].boundType == Lower <==> s[j].source as int !in Opened(s[..j])
  {
    var b := s[j];
    MemberOf(ends, s, b);
    var k := b.source as nat;
    var lo := PositionOf(ends, s, k, Lower);
    var hi := PositionOf(ends, s, k, Upper);
    InPrefix(ends, s, j, k, Lower, lo);
    InPrefix(ends, s, j, k, Upper, hi);
    LowerComesFirst(ends, s, lo, hi);
    if b.boundType == Lower {
      if lo < j { NoRepeats(ends, s, lo, j); } else if j < lo { NoRepeats(ends, s, j, lo); }
    } else {
      if hi < j { NoRepeats(ends, s, hi, j); } else if j < hi { NoRepeats(ends, s, j, hi); }
    }
  }

  lemma PrefixSnoc(s: seq<SourceBound>, j: nat)
    requires j < |s|
    ensures s[..j + 1] == s[..j] + [s[j]]
  {
  }

  lemma OpenSetStep(o: set<int>, c: set<int>, k: int, opens: bool)
    requires c <= o && k !in c && (opens <==> k !in o)
    ensures var o', c' := (if opens then o + {k} else o), (if opens then c else c + {k});
      c' <= o' && |o' - c'| == |o - c| + (if opens then 1 else -1)
  {
    if opens {
      assert o + {k} - c == (o - c) + {k};
    } else {
      assert o - (c + {k}) == (o - c) - {k};
    }
  }

  /** One more bound that opens a fresh source or closes an open one changes
      the number of open sources by its step. */
  lemma OpenCardStep(p: seq<SourceBound>, b: SourceBound)
    requires Closed(p) <= Opened(p)
    requires b.source as int !in Closed(p)
    requires b.boundType == Lower <==> b.source as int !in Opened(p)
    ensures Closed(p + [b]) <= Opened(p + [b])
    ensures |Open(p + [b])| == |Open(p)| + Step(b)
  {
    OpenedSnoc(p, b);
    OpenSetStep(Opened(p), Closed(p), b.source as int, b.boundType == Lower);
  }

  /** After visiting `s[..i]` the overlap count is the number of open sources,
      and every closed source was opened before. */
  lemma {:induction false} CountIsOpen(ends: seq<int>, s: seq<SourceBound>, i: nat)
    requires SortedInput(ends, s) && i <= |s|
    ensures Closed(s[..i]) <= Opened(s[..i])
    ensures Count(s[..i]) == |Open(s[..i])|
  {
    if i == 0 {
      assert s[..0] == [];
    } else {
      var j := i - 1;
      CountIsOpen(ends, s, j);
      OpenStep(ends, s, j);
      OpenCardStep(s[..j], s[j]);
      PrefixSnoc(s, j);
      CountSnoc(s, j);
    }
  }

  /** The bound at `i` is an Upper bound of a source that is open before it. */
  lemma UpperClosesOpen(ends: seq<int>, s: seq<SourceBound>, i: nat)
    requires SortedInput(ends, s) && i < |s| && s[i].boundType == Upper
    ensures s[i].source as int in Open(s[..i])
  {
    MemberOf(ends, s, s[i]);
    var k := s[i].source as nat;
    var lo := PositionOf(ends, s, k, Lower);
    LowerComesFirst(ends, s, lo, i);
    InPrefix(ends, s, i, k, Lower, lo);
    InPrefix(ends, s, i, k, Upper, i);
  }

  lemma CardBelow(a: set<int>, n: nat)
    requires forall x :: x in a ==> 0 <= x < n
    ensures |a| <= n
  {
    if n > 0 {
      CardBelow(a - {n - 1}, n - 1);
    } else {
      assert forall x :: x !in a;
      assert a == {};
    }
  }

  lemma CardSubset(a: set<int>, b: set<int>)
    requires a <= b
    ensures |a| <= |b|
  {
    assert b == a + (b - a);
  }

  /** Every overlap count lies between zero and the number of sources. */
  lemma DepthBounded(ends: seq<int>, s: seq<SourceBound>, j: nat)
    requires SortedInput(ends, s) && j < |s|
    ensures 0 <= Depth(s, j) <= |ends| / 2
  {
    CountIsOpen(ends, s, j + 1);
    var open := Open(s[..j + 1]);
    forall x | x in open ensures 0 <= x < |ends| / 2 {
      var b :| b in s[..j + 1] && b.boundType == Lower && b.source as int == x;
      MemberOf(ends, s, b);
    }
    CardBelow(open, |ends| / 2);
  }

  /** The sorted copy opens with a Lower bound and closes with an Upper bound. */
  lemma Ends(ends: seq<int>, s: seq<SourceBound>)
    requires SortedInput(ends, s) && 2 <= |s|
    ensures s[0].boundType == Lower && s[|s| - 1].boundType == Upper
  {
    if s[0].boundType == Upper {
      UpperClosesOpen(ends, s, 0);
    }
    var n := |s| - 1;
    if s[n].boundType == Lower {
      MemberOf(ends, s, s[n]);
      var hi := PositionOf(ends, s, s[n].source as nat, Upper);
      LowerComesFirst(ends, s, n, hi);
    }
  }

  /** Well-formed input never makes the sweep decrement a zero count. */
  lemma WellFormedNoUnderflow(ends: seq<int>, s: seq<SourceBound>)
    requires SortedInput(ends, s)
    ensures NoUnderflow(s)
  {
    forall i | 0 <= i < |s| && s[i].boundType == Upper
      ensures Count(s[..i]) > 0
    {
      UpperClosesOpen(ends, s, i);
      CountIsOpen(ends, s, i);
    }
  }

  /** Well-formed input with at least one source always succeeds. */
  lemma WellFormedSucceeds(ends: seq<int>, s: seq<SourceBound>, r: Result)
    requires SortedInput(ends, s) && 2 <= |s|
    requires Selected(s, r)
    ensures r.Ok?
  {
    Ends(ends, s);
    SortedInOrder(s);
    assert |s| == |multiset(s)| == |ends|;
    forall j | 0 <= j < |s| - 1 ensures Depth(s, j) <= |s| / 2 {
      DepthBounded(ends, s, j);
    }
  }

  // The result is Marzullo's answer

  /** An Upper bound at a value not below a Lower bound's value comes after it. */
  lemma LowerFirstAtValue(s: seq<SourceBound>, p: nat, q: nat)
    requires Sorted(s) && p < |s| && q < |s|
    requires s[p].boundType == Upper && s[q].boundType == Lower && s[q].value <= s[p].value
    ensures q < p
  {
    assert p < q ==> Le(s[p], s[q]);
  }

  /** Around a position at peak depth, the bound there opens and the next one closes. */
  lemma PeakWindow(ends: seq<int>, s: seq<SourceBound>, m: int, w: nat)
    requires SortedInput(ends, s) && 2 <= |s| && IsPeak(s, m)
    requires w < |s| - 1 && Depth(s, w) == m
    ensures s[w].boundType == Lower && s[w + 1].boundType == Upper
  {
    Ends(ends, s);
    if w + 1 < |s| - 1 {
      assert Depth(s, w + 1) <= m;
    }
    CountSnoc(s, w + 1);
    if 0 < w {
      assert Depth(s, w - 1) <= m;
      CountSnoc(s, w);
    }
  }

  /** The position of the last Lower bound before `n` whose value is at most `x`, or -1. */
  function LastLowerAtMost(s: seq<SourceBound>, x: int, n: nat): (r: int)
    requires n <= |s|
    ensures -1 <= r < n
    ensures 0 <= r ==> s[r].boundType == Lower && s[r].value <= x
    ensures forall i :: r < i < n ==> !(s[i].boundType == Lower && s[i].value <= x)
  {
    if n == 0 then -1
    else if s[n - 1].boundType == Lower && s[n - 1].value <= x then n - 1
    else LastLowerAtMost(s, x, n - 1)
  }

  /** Every source covering `x` is open just after the last Lower bound at or below `x`. */
  lemma CoveringAreOpen(ends: seq<int>, s: seq<SourceBound>, x: int) returns (j: nat)
    requires SortedInput(ends, s) && 2 <= |s| && Agree(ends, x, x) != {}
    ensures j < |s| - 1 && s[j].boundType == Lower && s[j].value <= x
    ensures Agree(ends, x, x) <= Open(s[..j + 1])
  {
    Ends(ends, s);
    var k0 :| k0 in Agree(ends, x, x);
    var lo0 := PositionOf(ends, s, k0, Lower);
    var last := LastLowerAtMost(s, x, |s|);
    assert 0 <= lo0 <= last;
    j := last;
    forall k | k in Agree(ends, x, x) ensures k in Open(s[..j + 1]) {
      var lo := PositionOf(ends, s, k, Lower);
      var hi := PositionOf(ends, s, k, Upper);
      LowerFirstAtValue(s, hi, j);
      InPrefix(ends, s, j + 1, k, Lower, lo);
      InPrefix(ends, s, j + 1, k, Upper, hi);
    }
  }

  /** On success, the agreeing sources are exactly the sources open at the chosen window. */
  lemma AgreeingAreOpen(ends: seq<int>, s: seq<SourceBound>, m: int, w: nat)
    requires SortedInput(ends, s) && 2 <= |s| && IsPeak(s, m)
    requires w < |s| - 1 && Depth(s, w) == m
    ensures Agree(ends, s[w].value, s[w + 1].value) == Open(s[..w + 1])
  {
    PeakWindow(ends, s, m, w);
    ValueOrder(s, w, w + 1);
    var agree := Agree(ends, s[w].value, s[w + 1].value);
    var open := Open(s[..w + 1]);
    forall k ensures k in agree <==> k in open {
      if 0 <= k < |ends| / 2 {
        var lo := PositionOf(ends, s, k, Lower);
        var hi := PositionOf(ends, s, k, Upper);
        InPrefix(ends, s, w + 1, k, Lower, lo);
        InPrefix(ends, s, w + 1, k, Upper, hi);
        LowerComesFirst(ends, s, lo, hi);
        if lo <= w { ValueOrder(s, lo, w); }
        if w + 1 <= hi { ValueOrder(s, w + 1, hi); }
        if s[lo].value <= s[w].value { LowerFirstAtValue(s, w + 1, lo); }
        if s[w + 1].value <= s[hi].value { LowerFirstAtValue(s, hi, w); }
      } else if k in open {
        var b :| b in s[..w + 1] && b.boundType == Lower && b.source as int == k;
        MemberOf(ends, s, b);
      }
    }
  }

  lemma SubsetSameSize(a: set<int>, b: set<int>)
    requires a <= b && |b| <= |a|
    ensures a == b
  {
    assert b == a + (b - a);
  }

  /** At a window of peak depth, the depth counts the sources agreeing on the window. */
  lemma AgreementAtWindow(ends: seq<int>, s: seq<SourceBound>, m: int, w: nat)
    requires SortedInput(ends, s) && 2 <= |s| && IsPeak(s, m)
    requires w < |s| - 1 && Depth(s, w) == m
    ensures |Agree(ends, s[w].value, s[w + 1].value)| == m
  {
    AgreeingAreOpen(ends, s, m, w);
    CountIsOpen(ends, s, w + 1);
  }

  /** No point lies in the intervals of more sources than the peak depth. */
  lemma NoPointAbovePeak(ends: seq<int>, s: seq<SourceBound>, m: int, y: int)
    requires SortedInput(ends, s) && 2 <= |s| && IsPeak(s, m)
    ensures |Agree(ends, y, y)| <= m
  {
    var j0 :| 0 <= j0 < |s| - 1 && Depth(s, j0) == m;
    DepthBounded(ends, s, j0);
    if Agree(ends, y, y) != {} {
      var j := CoveringAreOpen(ends, s, y);
      CountIsOpen(ends, s, j + 1);
      CardSubset(Agree(ends, y, y), Open(s[..j + 1]));
      assert Depth(s, j) <= m;
    }
  }

  /** A region agreed on by at least the peak number of sources, starting at one
      source's lower end and ending at one source's upper end, is a candidate
      window of exactly its width. */
  lemma RegionIsCandidate(ends: seq<int>, s: seq<SourceBound>, m: int, a: int, b: int, kl: int, kh: int)
      returns (p: nat)
    requires SortedInput(ends, s) && 2 <= |s| && IsPeak(s, m)
    requires a <= b && |Agree(ends, a, b)| >= m
    requires kl in Agree(ends, a, b) && LowOf(ends, kl) == a
    requires kh in Agree(ends, a, b) && HighOf(ends, kh) == b
    ensures Candidate(s, m, p) && Width(s, p) == b - a
  {
    var agree := Agree(ends, a, b);
    assert agree <= Agree(ends, a, a);
    p := CoveringAreOpen(ends, s, a);
    CountIsOpen(ends, s, p + 1);
    assert Depth(s, p) <= m;
    CardSubset(agree, Open(s[..p + 1]));
    SubsetSameSize(agree, Open(s[..p + 1]));
    PeakWindow(ends, s, m, p);
    RegionEnds(ends, s, a, b, p, kl, kh);
  }

  /** The window after `p` runs from `a` to `b` when the sources open there are
      exactly those agreeing on `[a, b]`. */
  lemma RegionEnds(ends: seq<int>, s: seq<SourceBound>, a: int, b: int, p: nat, kl: int, kh: int)
    requires SortedInput(ends, s) && p < |s| - 1
    requires s[p].value <= a && s[p + 1].boundType == Upper
    requires Agree(ends, a, b) == Open(s[..p + 1])
    requires kl in Agree(ends, a, b) && LowOf(ends, kl) == a
    requires kh in Agree(ends, a, b) && HighOf(ends, kh) == b
    ensures s[p].value == a && s[p + 1].value == b
  {
    // the bound after p closes one of the agreeing sources
    UpperClosesOpen(ends, s, p + 1);
    MemberOf(ends, s, s[p + 1]);
    // the source ending at b closes after p, the one starting at a opens by p
    var hi := PositionOf(ends, s, kh as nat, Upper);
    InPrefix(ends, s, p + 1, kh as nat, Upper, hi);
    ValueOrder(s, p + 1, hi);
    var lo := PositionOf(ends, s, kl as nat, Lower);
    InPrefix(ends, s, p + 1, kl as nat, Lower, lo);
    ValueOrder(s, lo, p);
  }

  /** `sourcesTrue` is exactly the number of sources whose interval contains the
      returned interval, `sourcesFalse` the number of the others, and no point
      lies in the intervals of more sources than `sourcesTrue`; the lower end of
      the result is such a point of maximal agreement. */
  lemma AgreementIsMaximal(ends: seq<int>, s: seq<SourceBound>, r: Result, x: int)
    requires SortedInput(ends, s) && 2 <= |s| && Selected(s, r) && r.Ok?
    ensures r.value.sourcesTrue as int == |Agree(ends, r.value.lowerBound, r.value.upperBound)|
    ensures r.value.sourcesFalse as int == |ends| / 2 - r.value.sourcesTrue as int
    ensures |Agree(ends, x, x)| <= r.value.sourcesTrue as int
    ensures |Agree(ends, r.value.lowerBound, r.value.lowerBound)| == r.value.sourcesTrue as int
  {
    assert |s| == |multiset(s)| == |ends|;
    var m := r.value.sourcesTrue as int;
    var w := SuccessParts(s, r);
    var lower, upper := r.value.lowerBound, r.value.upperBound;
    AgreementAtWindow(ends, s, m, w);
    NoPointAbovePeak(ends, s, m, x);
    NoPointAbovePeak(ends, s, m, lower);
    ValueOrder(s, w, w + 1);
    CardSubset(Agree(ends, lower, upper), Agree(ends, lower, lower));
  }

  /** No region agreed on by as many sources is narrower than the returned
      interval: if at least `sourcesTrue` sources contain `[a, b]`, one of them
      starting at `a` and one ending at `b`, then `b - a` is at least the
      returned width. */
  lemma SmallestRegion(ends: seq<int>, s: seq<SourceBound>, r: Result, a: int, b: int, kl: int, kh: int)
    requires SortedInput(ends, s) && 2 <= |s| && Selected(s, r) && r.Ok?
    requires a <= b && |Agree(ends, a, b)| >= r.value.sourcesTrue as int
    requires kl in Agree(ends, a, b) && LowOf(ends, kl) == a
    requires kh in Agree(ends, a, b) && HighOf(ends, kh) == b
    ensures r.value.upperBound - r.value.lowerBound <= b - a
  {
    var m := r.value.sourcesTrue as int;
    var w := SuccessParts(s, r);
    var p := RegionIsCandidate(ends, s, m, a, b, kl, kh);
    assert Width(s, w) <= Width(s, p);
  }

  // The selector's entry point on well-formed input

  /** Well-formed input in any order meets the preconditions of
      `TryFromSourceBounds`, and its sorted copy is the sorted input the
      theorems above speak of. */
  lemma WellFormedAccepted(ends: seq<int>, input: seq<SourceBound>)
    requires WellFormed(ends) && multiset(input) == multiset(FromEnds(ends))
    ensures |input| == |ends| && |input| / 2 <= 255
    ensures SortedInput(ends, Sort(input))
    ensures |input| / 2 == 0 || NoUnderflow(Sort(input))
  {
    assert |input| == |multiset(input)| == |FromEnds(ends)|;
    WellFormedNoUnderflow(ends, Sort(input));
  }

  /** For well-formed input in any order with at least one source, the result
      `TryFromSourceBounds` guarantees is a success, and it is Marzullo's answer. */
  lemma MarzulloAnswer(ends: seq<int>, input: seq<SourceBound>, r: Result, x: int)
    requires WellFormed(ends) && multiset(input) == multiset(FromEnds(ends)) && 2 <= |input|
    requires Selected(Sort(input), r)
    ensures r.Ok?
    ensures r.value.sourcesTrue as int == |Agree(ends, r.value.lowerBound, r.value.upperBound)|
    ensures r.value.sourcesFalse as int == |ends| / 2 - r.value.sourcesTrue as int
    ensures |Agree(ends, x, x)| <= r.value.sourcesTrue as int
  {
    WellFormedAccepted(ends, input);
    WellFormedSucceeds(ends, Sort(input), r);
    AgreementIsMaximal(ends, Sort(input), r, x);
  }
}
