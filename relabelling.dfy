/** The selector's result depends on the bounds only up to `PartialEq`, which
    ignores the source index: the index breaks ties in the sort and nothing
    else. Relabelling the sources, or pairing the same ends into different
    intervals, leaves the result unchanged. */
module Relabelling {
  import opened SourceBounds
  import opened Sorting
  import opened Marzullo

  /** The bounds with every source index cleared: two bounds are `Eq` exactly
      when they agree here. */
  function Anonymize(s: seq<SourceBound>): (r: seq<SourceBound>)
    ensures |r| == |s|
  {
    seq(|s|, i requires 0 <= i < |s| => s[i].(source := 0))
  }

  lemma AnonymizeAppend(a: seq<SourceBound>, b: seq<SourceBound>)
    ensures Anonymize(a + b) == Anonymize(a) + Anonymize(b)
  {
  }

  /** Taking out the bound at `k` takes it out of the multiset. */
  lemma RemoveAt(t: seq<SourceBound>, k: nat)
    requires k < |t|
    ensures multiset(t[..k] + t[k + 1..]) == multiset(t) - multiset{t[k]}
  {
    assert t == t[..k] + [t[k]] + t[k + 1..];
  }

  /** Clearing the source indices around the bound at `k`. */
  lemma AnonymizeSplit(t: seq<SourceBound>, k: nat)
    requires k < |t|
    ensures Anonymize(t) == Anonymize(t[..k]) + [t[k].(source := 0)] + Anonymize(t[k + 1..])
  {
  }

  /** Taking out the bound at `k` takes its anonymous copy out of the anonymous bounds. */
  lemma AnonymousRemoveAt(t: seq<SourceBound>, k: nat)
    requires k < |t|
    ensures multiset(Anonymize(t)) == multiset(Anonymize(t[..k] + t[k + 1..])) + multiset{t[k].(source := 0)}
  {
    AnonymizeSplit(t, k);
    AnonymizeAppend(t[..k], t[k + 1..]);
    var x, y := Anonymize(t[..k]), Anonymize(t[k + 1..]);
    assert multiset(x + [t[k].(source := 0)] + y) == multiset(x + y) + multiset{t[k].(source := 0)};
  }

  /** Clearing the source indices commutes with reordering. */
  lemma {:induction false} AnonymizePermutation(s: seq<SourceBound>, t: seq<SourceBound>)
    requires multiset(s) == multiset(t)
    ensures multiset(Anonymize(s)) == multiset(Anonymize(t))
    decreases |s|
  {
    if s == [] {
      assert |t| == |multiset(t)| == 0;
    } else {
      assert s[0] in multiset(t);
      var k :| 0 <= k < |t| && t[k] == s[0];
      RemoveAt(t, k);
      AnonymousRemoveAt(t, k);
      TailMultiset(s);
      AnonymizePermutation(s[1..], t[..k] + t[k + 1..]);
      assert Anonymize(s) == [s[0].(source := 0)] + Anonymize(s[1..]);
    }
  }

  /** Clearing the source indices keeps a sorted sequence sorted. */
  lemma SortedAnonymous(s: seq<SourceBound>)
    requires Sorted(s)
    ensures Sorted(Anonymize(s))
  {
    var r := Anonymize(s);
    forall i, j | 0 <= i < j < |r| ensures Le(r[i], r[j]) {
      assert Le(s[i], s[j]);
    }
  }

  /** Bounds that agree in kind, position by position, give the same count. */
  lemma {:induction false} CountSameKinds(s: seq<SourceBound>, t: seq<SourceBound>)
    requires |s| == |t|
    requires forall i :: 0 <= i < |s| ==> s[i].boundType == t[i].boundType
    ensures Count(s) == Count(t)
    decreases |s|
  {
    if s != [] {
      CountSameKinds(s[..|s| - 1], t[..|t| - 1]);
    }
  }

  /** `s` and `t` agree in value and kind, position by position. */
  ghost predicate SameKeys(s: seq<SourceBound>, t: seq<SourceBound>) {
    && |s| == |t|
    && forall i :: 0 <= i < |s| ==> s[i].value == t[i].value && s[i].boundType == t[i].boundType
  }

  /** Bounds that agree once the source indices are cleared agree in value and kind. */
  lemma AnonymousKeys(s: seq<SourceBound>, t: seq<SourceBound>)
    requires Anonymize(s) == Anonymize(t)
    ensures SameKeys(s, t)
  {
    forall i | 0 <= i < |s| ensures s[i].value == t[i].value && s[i].boundType == t[i].boundType {
      assert Anonymize(s)[i] == Anonymize(t)[i];
    }
  }

  lemma DepthsAgree(s: seq<SourceBound>, t: seq<SourceBound>)
    requires SameKeys(s, t)
    ensures forall j :: 0 <= j < |s| ==> Depth(s, j) == Depth(t, j)
  {
    forall j | 0 <= j < |s| ensures Depth(s, j) == Depth(t, j) {
      CountSameKinds(s[..j + 1], t[..j + 1]);
    }
  }

  lemma PeakSame(s: seq<SourceBound>, t: seq<SourceBound>, m: int)
    requires SameKeys(s, t) && IsPeak(s, m)
    ensures IsPeak(t, m)
  {
    DepthsAgree(s, t);
    var p :| 0 <= p < |s| - 1 && Depth(s, p) == m;
    assert Depth(t, p) == m;
  }

  lemma ChosenSame(s: seq<SourceBound>, t: seq<SourceBound>, m: int, w: int)
    requires SameKeys(s, t) && ChosenBefore(s, m, w, |s|)
    ensures ChosenBefore(t, m, w, |t|)
  {
    DepthsAgree(s, t);
    assert forall k :: Candidate(s, m, k) <==> Candidate(t, m, k);
  }

  lemma TooDeepSame(s: seq<SourceBound>, t: seq<SourceBound>)
    requires SameKeys(s, t)
    ensures (exists j :: 0 <= j < |s| - 1 && Depth(s, j) > |s| / 2)
        == (exists j :: 0 <= j < |t| - 1 && Depth(t, j) > |t| / 2)
  {
    DepthsAgree(s, t);
  }

  lemma SuccessSame(s: seq<SourceBound>, t: seq<SourceBound>, r: Result)
    requires 2 <= |s| && SameKeys(s, t) && Selected(s, r) && r.Ok?
    ensures IsPeak(t, r.value.sourcesTrue as int)
    ensures exists j :: (ChosenBefore(t, r.value.sourcesTrue as int, j, |t|)
                         && r.value.lowerBound == t[j].value && r.value.upperBound == t[j + 1].value)
  {
    var w := SuccessParts(s, r);
    PeakSame(s, t, r.value.sourcesTrue as int);
    ChosenSame(s, t, r.value.sourcesTrue as int, w);
  }

  /** On bounds in order, `Selected` reads only the values and kinds. */
  lemma SelectedSameKeys(s: seq<SourceBound>, t: seq<SourceBound>, r: Result)
    requires 2 <= |s| && InOrder(s) && InOrder(t) && SameKeys(s, t)
    requires Selected(s, r)
    ensures Selected(t, r)
  {
    TooDeepSame(s, t);
    if r.Ok? {
      SuccessSame(s, t, r);
    }
  }

  /** Inputs whose bounds agree up to `Eq`, in any order, get the same result:
      the source indices and the pairing of the ends do not matter. */
  lemma SameKeysSameResult(a: seq<SourceBound>, b: seq<SourceBound>, ra: Result, rb: Result)
    requires multiset(Anonymize(a)) == multiset(Anonymize(b)) && 2 <= |a| == |b|
    requires Selected(Sort(a), ra) && Selected(Sort(b), rb)
    ensures ra == rb
  {
    AnonymizePermutation(Sort(a), a);
    AnonymizePermutation(Sort(b), b);
    SortedAnonymous(Sort(a));
    SortedAnonymous(Sort(b));
    SortedUnique(Anonymize(Sort(a)), Anonymize(Sort(b)));
    AnonymousKeys(Sort(a), Sort(b));
    SortedInOrder(Sort(a));
    SortedInOrder(Sort(b));
    SelectedSameKeys(Sort(a), Sort(b), ra);
    SelectedUnique(Sort(b), ra, rb);
  }
}
