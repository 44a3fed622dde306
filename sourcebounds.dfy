/** Interval endpoints reported by clock sources, and the total order that the
    selector sorts them by. */
module SourceBounds {

  /** An unsigned 8-bit integer: the width of a source index and of the source counts. */
  newtype u8 = x: int | 0 <= x < 256

  datatype BoundType = Lower | Upper

  /** One endpoint of one source's claimed interval. */
  datatype SourceBound = SourceBound(value: int, source: u8, boundType: BoundType)

  datatype Ordering = Less | Equal | Greater

  /** The rank of a bound kind in the reference order: Lower before Upper. */
  function Rank(t: BoundType): nat {
    if t == Lower then 0 else 1
  }

  /** The reference order, written independently of `Cmp`: lexicographic on
      (value, kind with Lower first, source index). */
  predicate KeyLess(a: SourceBound, b: SourceBound) {
    || a.value < b.value
    || (a.value == b.value && Rank(a.boundType) < Rank(b.boundType))
    || (a.value == b.value && a.boundType == b.boundType && a.source < b.source)
  }

  /** The bounds' `PartialEq`: value and kind agree, the source index is ignored. */
  function Eq(a: SourceBound, b: SourceBound): (r: bool)
    ensures r <==> a.(source := b.source) == b
  {
    a.value == b.value && a.boundType == b.boundType
  }

  /** The bounds' `Ord::cmp`. */
  function Cmp(a: SourceBound, b: SourceBound): (r: Ordering)
    ensures r == Less <==> KeyLess(a, b)
    ensures r == Greater <==> KeyLess(b, a)
    ensures r == Equal <==> a == b
  {
    if Eq(a, b) then
      // equal value and kind: the source index breaks the tie
      if a.source < b.source then Less
      else if a.source > b.source then Greater
      else Equal
    else if a.value < b.value then Less
    else if a.value > b.value then Greater
    else if a.boundType == Lower && b.boundType == Upper then Less
    else if a.boundType == Upper && b.boundType == Lower then Greater
    else assert false; Equal  // the source's unreachable! arm
  }

  /** Two bounds at one value: the Lower one comes first, whatever the source indices. */
  lemma LowerBeforeUpper(a: SourceBound, b: SourceBound)
    requires a.value == b.value && a.boundType == Lower && b.boundType == Upper
    ensures Cmp(a, b) == Less && Cmp(b, a) == Greater
  {
  }

  /** `Cmp` only looks at the kind or the source when the values are equal. */
  lemma ValueDecidesFirst(a: SourceBound, b: SourceBound)
    requires a.value != b.value
    ensures Cmp(a, b) == (if a.value < b.value then Less else Greater)
  {
  }

  /** `PartialEq` and `Ord` disagree: equal under `Eq` need not be `Equal` under `Cmp`.
      `Cmp` is the finer of the two. */
  lemma CmpFinerThanEq(a: SourceBound, b: SourceBound)
    ensures Cmp(a, b) == Equal ==> Eq(a, b)
    ensures Eq(a, b) && a.source != b.source ==> Cmp(a, b) != Equal
  {
  }

  /** "Not after": the non-strict order that sortedness is stated with. */
  predicate Le(a: SourceBound, b: SourceBound) {
    Cmp(a, b) != Greater
  }

  /** `Le` is a total order: reflexive, antisymmetric, transitive and total. */
  lemma LeTotalOrder(a: SourceBound, b: SourceBound, c: SourceBound)
    ensures Le(a, a)
    ensures Le(a, b) && Le(b, a) ==> a == b
    ensures Le(a, b) && Le(b, c) ==> Le(a, c)
    ensures Le(a, b) || Le(b, a)
  {
  }
}
