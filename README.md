# Marzullo's agreement algorithm, modelled in Dafny

This project models the Rust crate `marzullo-rs`, a port of TigerBeetle's
implementation of Marzullo's algorithm. Each clock source reports an interval
`[lower, upper]` as two `SourceBound`s. `Interval::try_from_source_bounds`
returns the smallest interval consistent with the largest number of sources,
together with `sources_true` (the sources that agree) and `sources_false`
(the rest), or one of three defensive `MarzulloError`s.

Files and modules:

- `sourcebounds.dfy` (`SourceBounds`): `BoundType`, `SourceBound`, the bounds'
  `PartialEq` (`Eq`) and `Ord::cmp` (`Cmp`), with `Cmp` specified against an
  independent lexicographic reference order (`KeyLess`).
- `sorting.dfy` (`Sorting`): an insertion sort standing in for `Vec::sort`,
  and the proof that every sorted permutation of one multiset is the same
  sequence, so the choice of sort algorithm does not matter.
- `marzullo.dfy` (`Marzullo`): `Interval`, `MarzulloError`, the selector.
  `Select` is the part after the sort (the first-bound check, the sweep with its
  in-loop order check) as a method with loop invariants; `Track` is one step of
  the sweep's window bookkeeping and `Conclude` the checks after the sweep;
  `TryFromSourceBounds` adds the zero-source early return and the sort. All are
  proved against `Selected`, a declarative statement of the result: the peak
  overlap count over every position but the last, and the first of the
  narrowest windows among the positions that compete for that peak.
- `agreement.dfy` (`Agreement`): what the result means for the input callers are
  meant to give, where every source contributes one Lower and one Upper bound
  with the lower not above the upper. Such input, in any order, never makes the
  count underflow and always succeeds. The overlap count at each position is the
  number of sources whose interval is open there. `sources_true` is exactly the
  number of sources whose interval contains the returned one, and no point lies
  in the intervals of more sources. No region that is agreed on by as many
  sources, and that starts at one source's lower end and ends at another's upper
  end, is narrower than the result.
- `relabelling.dfy` (`Relabelling`): the result depends on the bounds only up
  to `PartialEq`, which ignores the source index. Relabelling the sources, or
  pairing the same ends into different intervals, leaves it unchanged.
- `scenarios.dfy` (`Scenarios`): the inputs of the crate's test suite, each with
  the exact result `Selected` allows for it, and one pair of inputs that differ
  only in how the ends are paired.

`PartialEq::eq` (src/lib.rs:32-36) ignores the source index, while `cmp`
(src/lib.rs:52-84) breaks ties in value and kind by the source index and
answers `Equal` only when all three fields agree. `CmpFinerThanEq` states the
difference; `SameKeysSameResult` shows that the result nonetheless depends on
the bounds only up to `eq`.

## Model

| member | source | states |
|---|---|---|
| `SourceBounds.Eq` | src/lib.rs:32-36 | two bounds are `==` exactly when they agree in everything but the source index |
| `SourceBounds.Cmp` | src/lib.rs:52-84 | `Less` exactly when the first bound is lexicographically smaller by value, then Lower before Upper, then source index; `Greater` symmetrically; `Equal` only for identical bounds; the `unreachable!` arm is proved dead |
| `SourceBounds.LowerBeforeUpper` | src/lib.rs:74-80 | at equal values a Lower bound is `Less` than an Upper bound whatever their source indices |
| `SourceBounds.ValueDecidesFirst` | src/lib.rs:66-72 | when the values differ, the value alone decides the order |
| `SourceBounds.CmpFinerThanEq` | src/lib.rs:32-63 | `Equal` under `cmp` implies `==`, but `==` bounds from different sources are not `Equal` |
| `SourceBounds.LeTotalOrder` | src/lib.rs:52-84 | "not `Greater`" is reflexive, antisymmetric, transitive and total |
| `Sorting.Insert` | src/lib.rs:128 | inserting into a sorted sequence keeps it sorted and adds exactly the one bound |
| `Sorting.Sort` | src/lib.rs:127-128 | the sorted copy is sorted under `cmp` and a permutation of the input |
| `Sorting.SortedUnique` | src/lib.rs:54-63 | two sorted permutations of one multiset are equal, so the tie-break makes the sort fully specified |
| `Sorting.SortIgnoresInputOrder` | src/lib.rs:127-128 | reordering the input does not change the sorted copy |
| `Marzullo.Select` | src/lib.rs:130-228 | the result meets `Selected`: `InvalidSourceBounds` exactly when the first bound is Upper, `InvalidSourceBoundsOrder` exactly when an adjacent pair is out of order, `IntervalInvariant` exactly when the last bound is Lower or some count exceeds the sources, and otherwise `Ok` with `sources_true` the peak count, the two counts summing to the sources, and the interval the first narrowest competing window |
| `Marzullo.Track` | src/lib.rs:165-190 | after each step `best` bounds every count seen before the last bound, and the window kept is the first of the narrowest windows competing for `best` so far |
| `Marzullo.Conclude` | src/lib.rs:193-228 | the post-sweep checks give `IntervalInvariant` exactly when the last bound is Lower or `best` exceeds the sources, and otherwise the success `Selected` describes; the `u8` sum check and the `unreachable!` arm never fire |
| `Marzullo.CountPositive` | src/lib.rs:157-161 | under `NoUnderflow`, when the first bound is Lower and the bounds up to an Upper bound are in order, that Upper bound meets a positive count, so the `usize` decrement does not underflow |
| `Marzullo.UpperFirstRejected` | src/lib.rs:130-137 | a sorted copy starting with an Upper bound is admitted by `NoUnderflow`, and the result is exactly `InvalidSourceBounds` |
| `Marzullo.SortedInOrder` | src/lib.rs:144-152 | sorted bounds pass the sweep's order check at every adjacent pair |
| `Marzullo.OrderBroken` | src/lib.rs:145-152 | an out-of-order adjacent pair makes the result `InvalidSourceBoundsOrder` |
| `Marzullo.TryFromSourceBounds` | src/lib.rs:113-229 | no source gives `[0,0]` with zero counts; otherwise the result meets `Selected` on the sorted copy, is never `InvalidSourceBoundsOrder`, and on success has `lower_bound <= upper_bound`, `sources_true <= sources` and `sources_true + sources_false == sources` |
| `Marzullo.ChooseNewPeak` | src/lib.rs:165-172 | a count above the best so far makes its window the only competitor |
| `Marzullo.ReplaceTie` | src/lib.rs:173-188 | on a tie in depth before an Upper bound, a strictly narrower window becomes the choice |
| `Marzullo.KeepTie` | src/lib.rs:173-188 | on a tie that is not strictly narrower, the earlier window stays |
| `Marzullo.KeepChoice` | src/lib.rs:163-190 | a position that does not compete leaves the choice unchanged |
| `Marzullo.SelectedUnique` | src/lib.rs:139-228 | at most one result meets `Selected`: the result is fully determined |
| `Marzullo.SortedSelection` | src/lib.rs:144-221 | on sorted bounds the order check never fails, and a success has `lower_bound <= upper_bound`, `1 <= sources_true <= sources` and counts summing to the sources |
| `Marzullo.ReorderedInputSameResult` | src/lib.rs:113-128 | two inputs that are reorderings of each other get the same result |
| `Relabelling.SelectedSameKeys` | src/lib.rs:130-228 | on bounds in order, two sequences that agree position by position in value and kind get the same result |
| `Relabelling.SameKeysSameResult` | src/lib.rs:113-229 | inputs whose bounds are the same multiset up to `eq` (source indices ignored) get the same result, whatever their order, labels or pairing |
| `Agreement.LowerComesFirst` | src/lib.rs:52-84 | in the sorted copy a source's Lower bound comes before its Upper bound, even when both have one value |
| `Agreement.CountIsOpen` | src/lib.rs:157-161 | the running count after a prefix equals the number of sources whose Lower bound is in the prefix and whose Upper bound is not |
| `Agreement.WellFormedNoUnderflow` | src/lib.rs:157-161 | on well-formed input the count never decrements from zero |
| `Agreement.WellFormedSucceeds` | src/lib.rs:130-228 | on well-formed input none of the three errors occurs |
| `Agreement.PeakWindow` | src/lib.rs:163-188 | at a position of peak count the bound opens an interval and the next bound closes one |
| `Agreement.AgreementAtWindow` | src/lib.rs:193-197 | at a window of peak count, the count is the number of sources whose interval contains the window |
| `Agreement.NoPointAbovePeak` | src/lib.rs:112 | no point lies in the intervals of more sources than the peak count |
| `Agreement.RegionIsCandidate` | src/lib.rs:173-188 | a region agreed on by at least the peak number of sources, from one source's lower end to another's upper end, is a competing window of that width |
| `Agreement.AgreementIsMaximal` | src/lib.rs:193-197 | on success `sources_true` is the number of sources containing the interval, `sources_false` the rest, no point is in more sources, and the lower end is in exactly `sources_true` of them |
| `Agreement.SmallestRegion` | src/lib.rs:173-188 | no region agreed on by at least `sources_true` sources and bounded by source ends is narrower than the result |
| `Agreement.WellFormedAccepted` | src/lib.rs:113-128 | well-formed input in any order meets the preconditions of `TryFromSourceBounds` |
| `Agreement.MarzulloAnswer` | src/lib.rs:112-229 | for well-formed input in any order with a source, the result is `Ok`, `sources_true` counts the sources containing it, and no point is in more sources |
| `Scenarios.AllAgree` | src/lib.rs:297-302 | `[11,13],[10,12],[8,12]` give `[11,12]` with 3 agreeing and 0 not |
| `Scenarios.TwoOfThree` | src/lib.rs:304-309 | `[8,12],[11,13],[14,15]` give `[11,12]` with 2 and 1 |
| `Scenarios.NestedPoint` | src/lib.rs:311-316 | `[-10,10],[-1,1],[0,0]` give `[0,0]` with 3 and 0 |
| `Scenarios.TouchingEnds` | src/lib.rs:318-324 | `[8,12],[10,11],[8,10]` give `[10,10]` with 3 and 0 |
| `Scenarios.FirstNarrowest` | src/lib.rs:326-333 | `[8,12],[10,12],[8,9]` give `[8,9]` with 2 and 1 |
| `Scenarios.LaterNarrowest` | src/lib.rs:335-342 | `[7,9],[7,12],[10,11]` give `[10,11]` with 2 and 1 |
| `Scenarios.NegativeValues` | src/lib.rs:344-350 | `[-9,-7],[-12,-7],[-11,-10]` give `[-11,-10]` with 2 and 1 |
| `Scenarios.OneSource` | src/lib.rs:360-366 | `[1,3]` gives `[1,3]` with 1 and 0 |
| `Scenarios.PointInside` | src/lib.rs:368-374 | `[1,3],[2,2]` give `[2,2]` with 2 and 0 |
| `Scenarios.Disjoint` | src/lib.rs:376-382 | `[1,3],[4,5]` give `[4,5]` with 1 and 1 |
| `Scenarios.RepairedEnds` | src/lib.rs:54-63 | `[1,3],[2,4]` and `[1,4],[2,3]` differ only in source indices and get the same result |

## Left out

- The `Display` text of the errors and their `String` payloads: the errors are payload-free variants.
- The algorithm of `Vec::sort`: an insertion sort stands in, and `SortedUnique` shows any correct sort gives the same sequence.
- `TryFromSourceBounds`: requires at most 255 sources, because `sources_true` and `sources_false` are `u8` and the source's `as u8` casts and `u8` addition would truncate or overflow beyond that.
- `TryFromSourceBounds`: requires that the sweep never decrements a zero `usize` count (`NoUnderflow` on the sorted copy). `NoUnderflow` fails exactly on the inputs whose sorted copy starts with a Lower bound and reaches, with the bounds so far in order, an Upper bound when no interval is open. On those the source's subtraction panics in a debug build and wraps in a release build; the model does not describe either outcome.
- `Select`: the width subtractions are on unbounded integers; the source's `i64` subtractions can overflow for extreme values.
- The `Debug` and `Clone` derives. The test module appears only as the inputs and expected results in `Scenarios`. The empty input of src/lib.rs:352-358 is covered by the contract of `TryFromSourceBounds`.
- `FromEnds`: gives entry `i` the source index `i / 2`. The tests' generator computes `(idx as u8) / 2`, which agrees only up to 128 sources.
- `AgreementIsMaximal`, `SmallestRegion`, `MarzulloAnswer`: these say what the result means only for well-formed input. For any other input, `Selected` alone describes the result.
- `SmallestRegion`: compares only regions that begin at a source's lower end and end at a source's upper end. The returned interval always has this form.
