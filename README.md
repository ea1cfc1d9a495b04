# rangeset_int in Dafny

`rangeset_int` stores a set of `u128` integers as a map from range starts to
range ends. The map is a `BTreeMap<u128, u128>` whose entries `start -> end`
stand for the half-open ranges `start..end`. The set also keeps a cached
element count, `len`. The map is kept *canonical*:

- every range is non-empty;
- the ranges are in ascending order;
- neighbouring ranges are separated by at least one integer that is not in
  the set, so touching ranges are merged.

Adding a range finds its predecessor entry. It then either inserts the range,
extends the predecessor, or does nothing when the range is already covered.
After that it absorbs every later entry that the new range now overlaps or
touches. `append`, `|` and `From<[u128; N]>` are all built on that one
operation. `IntoIter` yields the members in ascending order.

The crate also has a range-fusion iterator, `UnsortedDisjoint`, which works
over inclusive ranges of any integer type. It skips empty inputs. It merges
each input into a pending range while the two overlap or touch, and emits the
pending range when a gap appears. `SortedDisjointWithLenSoFar` passes sorted,
disjoint ranges through and counts the integers seen so far.
`AssumeSortedStarts` is a plain pass-through wrapper.

The project has four files:

- `common.dfy` holds `Option`, integer spans and sequence facts.
- `range_map.dfy` (module `RangeMap`) models the `BTreeMap` as its in-order
  sequence of `Range(start, end)` entries. It also defines the covered set,
  `len_slow`, canonicity, and the map lookups the set uses.
- `lib.dfy` (module `Lib`) holds the `RangeSetInt` class, with fields `items`
  and `len`, and the `IntoIter` class. `len` is a `u128` newtype, so every
  `+=` and `-=` on it is checked for overflow, as in a Rust debug build.
- `unsorted_disjoint.dfy` (module `Unsorted`) holds the three iterator
  classes. The element type is abstracted by `Domain(minValue, maxValue,
  maxValue2)`. An inner iterator is a sequence plus a cursor.

`UnsortedDisjoint.Next` runs the source's loop. It is proved equal to a pure
reference, `NextSpec`, for one call, and `Stream` for calls until the end.
Properties of the fused output are proved about those two functions.

## Model

| member | source | states |
|---|---|---|
| RangeMap.Predecessor | src/lib.rs:24-25 | the entry found by `range_mut(..=start).next_back()`: it is the last entry whose key is at most the given key; when none is returned, every key is greater |
| RangeMap.LowerBound | src/lib.rs:44-45 | the entry found by `range_mut(start..).next()`: every entry before it has a smaller key, and it has a key at least the given one |
| RangeMap.Get | src/lib.rs:69-70 | the old value that `insert` returns is absent exactly when no entry has that key; when present, the map holds that key with that end |
| RangeMap.RemoveAt | src/lib.rs:64-66 | removing the key of an entry whose key is unique drops exactly that entry and keeps the rest in order |
| RangeMap.LenSlow | src/lib.rs:17-19 | `len_slow` is defined as the sum of `end - start` over the entries, in key order; the lemmas below give its meaning |
| RangeMap.LenSlowNonNegative | src/lib.rs:17-19 | on a map whose entries are non-empty, `len_slow` is at least the number of entries, so it is never negative |
| RangeMap.Remove | src/lib.rs:65 | `items.remove(&key)`: a key that no entry has leaves the map unchanged, and a key that an entry has removes exactly one entry |
| RangeMap.CardCovered | src/lib.rs:17-19 | on a canonical map, `len_slow` (the sum of `end - start`) equals the number of integers the set covers |
| RangeMap.LenSlowBound | src/lib.rs:17-19 | on a canonical map, `len_slow` lies between 0 and `u128::MAX`, so the `u128` length field can hold it |
| RangeMap.CanonicalUnique | src/lib.rs:78-82 | two canonical maps that cover the same integers are equal, so the derived `PartialEq` on the map is set equality |
| RangeMap.RangeItems | src/lib.rs:335-339 | the `start..end` iterator that `item_iter` holds yields `end - start` items (none when `start >= end`), the k-th being `start + k` |
| RangeMap.FlattenCovers | src/lib.rs:318-323 | the elements yielded by walking the entries' ranges are exactly the covered integers |
| RangeMap.FlattenAscending | src/lib.rs:318-323 | on a canonical map, the walk yields its elements in strictly ascending order |
| Lib.InsertedReady | src/lib.rs:68-73 | inserting a new entry into a canonical map, when no entry at or before its key reaches its start, leaves a map ready for `delete_extra` (canonical except where later entries touch the new one), adds `[start, end)` to the covered set and `end - start` to `len_slow` |
| Lib.InsertedMeaning | src/lib.rs:68-73 | inserting entry `start..end` adds `[start, end)` to the covered set and `end - start` to `len_slow` |
| Lib.ExtendedReady | src/lib.rs:29-33 | extending the predecessor's end to `end`, when `start` lies within it or at its end, leaves a map ready for `delete_extra`, adds `[start, end)` to the covered set and `end - old end` to `len_slow` |
| Lib.ExtendedMeaning | src/lib.rs:29-33 | extending the predecessor's end adds `[start, new end)` to the covered set and `new end - old end` to `len_slow` |
| Lib.FirstAtOrAfter | src/lib.rs:44-46 | the first entry at or after the new key is the new entry itself (the `assert!(start == start_after)` holds) |
| Lib.ScanStep | src/lib.rs:49-58 | one step of the `map_while` scan: the next entry that starts at or before `end` is absorbed, the widest end is kept, its length is taken from `len`, and its key is queued for deletion |
| Lib.BeforeScan | src/lib.rs:43-48 | before the scan, `len` splits into the entries up to the new one and those after it |
| Lib.AfterScan | src/lib.rs:60-66 | after the scan, widening the new entry and removing the queued keys yields a canonical map with the same covered set, and a `len_slow` that fits in `u128` |
| Lib.Absorbed | src/lib.rs:48-66 | replacing the new entry and the entries it touches by one widened entry keeps the map canonical and keeps the covered set |
| Lib.AbsorbedMeaning | src/lib.rs:60-63 | the widened entry covers what the absorbed entries covered, so the covered set is unchanged and `len_slow` is the new width plus the untouched entries |
| Lib.Scan | src/lib.rs:48-59 | the `map_while` loop stops at the first entry that starts after `end`, and returns the widest end, the reduced `len` and the keys of every absorbed entry |
| Lib.RangeSetInt.constructor | src/lib.rs:114-119 | `new` gives an empty, valid set of length 0 |
| Lib.RangeSetInt.Clear | src/lib.rs:121-124 | `clear` empties the map, sets `len` to 0, and leaves the set empty |
| Lib.RangeSetInt.Len | src/lib.rs:127-129 | the cached `len` equals the number of members |
| Lib.RangeSetInt.Contains | src/lib.rs:174-179 | `contains(v)` is true exactly when `v` is a member |
| Lib.RangeSetInt.InternalAdd | src/lib.rs:21-41 | the set stays canonical, `len` stays equal to `len_slow`, the members become the old ones plus `[start, end)`, and when `[start, end)` is already covered neither the map nor `len` changes |
| Lib.RangeSetInt.DeleteExtra | src/lib.rs:43-67 | absorbing the entries after the new one leaves the map canonical and the covered set unchanged, and keeps the relation between `len` and `len_slow` |
| Lib.RangeSetInt.RemoveKeys | src/lib.rs:64-66 | removing the queued keys one at a time removes exactly those entries |
| Lib.RangeSetInt.Insert | src/lib.rs:68-73 | `insert` puts in a new key (the old-value assert holds), keeps the map canonical and adds `[start, end)` to the covered set; `len + (end - start)` then equals `len_slow` |
| Lib.RangeSetInt.Append | src/lib.rs:156-161 | `append` leaves `self` holding the union of both sets, and leaves `other` empty with length 0 |
| Lib.RangeSetInt.Clone | src/lib.rs:78 | the derived `Clone` is a fresh set with the same entries and length |
| Lib.RangeSetInt.BitOr | src/lib.rs:283-289 | `bitor` returns a fresh, valid set whose members are the union of both operands |
| Lib.RangeSetInt.FromValues | src/lib.rs:292-300 | a set built from an array has exactly the array's values as members |
| Lib.IntoIter.constructor | src/lib.rs:318-323 | `into_iter` starts an iterator whose remaining output is the walk of the map's ranges in key order |
| Lib.IntoIter.Next | src/lib.rs:334-343 | `next` returns the first remaining element and drops it, and returns `None` once nothing remains |
| Lib.IntoIterOrder | src/lib.rs:313-323 | the iterator yields exactly the members of the set, in strictly ascending order |
| Lib.Collect | src/lib.rs:313-316 | collecting an iterator returns exactly its remaining elements |
| Lib.ContainsExample | src/lib.rs:170-172 | `{1, 2, 3}` contains 1 and does not contain 4 |
| Lib.AppendExample | src/lib.rs:142-154 | appending `3..6` to `1..4` gives length 5 and covers 1 to 5, and the other set ends with length 0 |
| Lib.BitOrExample | src/lib.rs:277-281 | the union (`bitor`) of `{1, 2, 3}` and `{3, 4, 5}` equals `{1, 2, 3, 4, 5}` |
| Lib.IntoIterExample | src/lib.rs:313-316 | collecting `{1, 2, 3, 4}` gives `[1, 2, 3, 4]` |
| Lib.ExtendedLenAsWritten | src/lib.rs:29-30 | the length that line 30 stores before `delete_extra` runs; it is never below `len_slow` |
| Lib.ExtendOverflowsAsWritten | src/lib.rs:29-33 | with entries `0..1, 2..n`, adding `1..n` makes line 30 store `2n - 2`, although the final set has only `n` members; for `n = u128::MAX` that exceeds `u128::MAX` |
| Unsorted.HasGap | src/unsorted_disjoint.rs:56-58 | the guarded test, which never subtracts below the minimum, is true exactly when the two ranges neither overlap nor touch |
| Unsorted.Hull | src/unsorted_disjoint.rs:64-65 | `min(starts)..=max(ends)`: the start is one of the two starts and no greater than either, and the end is one of the two ends and no less than either |
| Unsorted.HullUnion | src/unsorted_disjoint.rs:63-66 | when two non-empty ranges overlap or touch, `min(starts)..=max(ends)` covers exactly their union |
| Unsorted.PullOne | src/unsorted_disjoint.rs:48-70 | handling one input either holds a valid pending range or emits the old pending range and makes a non-empty, in-range input pending |
| Unsorted.PullCovers | src/unsorted_disjoint.rs:49-70 | a held range covers the old pending range plus the input; handling an input panics exactly when it is non-empty and ends above `max_value2`; nothing is held only when nothing was pending and the input is empty |
| Unsorted.PullStarts | src/unsorted_disjoint.rs:56-70 | a held range starts where the pending range or the input starts; an emitted range ends at least two below the start of an input that starts after it |
| Unsorted.NextSpec | src/unsorted_disjoint.rs:46-79 | one call to `next` consumes inputs, never grows the remaining count, keeps the pending range valid, and emits only non-empty, in-range ranges |
| Unsorted.NextExhausted | src/unsorted_disjoint.rs:72-77 | `next` returns `None` exactly when nothing is pending and every remaining input is empty; then it stays `None`; with only empty inputs left, the pending range is emitted once and reset |
| Unsorted.NextCovers | src/unsorted_disjoint.rs:46-79 | unless it panics, a call preserves what is covered: old pending plus remaining inputs equals the emitted range plus new pending plus what remains |
| Unsorted.NextPanics | src/unsorted_disjoint.rs:53 | a call panics exactly on the last input it pulled, which ends above `max_value2`; a call that does not panic pulled no such input |
| Unsorted.Stream | src/unsorted_disjoint.rs:46-79 | calling `next` to the end emits only non-empty ranges inside the domain |
| Unsorted.StreamCovers | src/unsorted_disjoint.rs:46-79 | unless it panics, the union of all emitted ranges equals the pending range plus the union of the inputs |
| Unsorted.StreamPanics | src/unsorted_disjoint.rs:53 | the iterator panics exactly when some remaining non-empty input ends above `max_value2` |
| Unsorted.NextAbove | src/unsorted_disjoint.rs:56-70 | a bound below every pending and remaining start stays below them after a call, and is below the start of what the call emits |
| Unsorted.NextSorted | src/unsorted_disjoint.rs:56-70 | with inputs sorted by start, a call keeps them sorted, and what it emits ends at least two below every later start |
| Unsorted.StreamAbove | src/unsorted_disjoint.rs:46-79 | a bound below every pending and remaining start is below every emitted start |
| Unsorted.StreamSeparated | src/unsorted_disjoint.rs:46-79 | with inputs sorted by start, each emitted range ends at least two below the start of every later one |
| Unsorted.FusionSortedDisjoint | src/unsorted_disjoint.rs:175-187 | over inputs sorted by start (the `SortedStarts` guarantee), the output is sorted and disjoint, and unless it panics it covers exactly the union of the inputs |
| Unsorted.FusionExample | src/unsorted_disjoint.rs:46-79 | `1..=3, 2..=5, 10..=12, 11..=11` fuse to `1..=5, 10..=12` |
| Unsorted.UnsortedDisjoint.constructor | src/unsorted_disjoint.rs:29-36 | `from` starts with nothing pending and all the inputs still to pull |
| Unsorted.UnsortedDisjoint.Next | src/unsorted_disjoint.rs:46-79 | the loop's result, new pending range and remaining inputs are exactly those the reference `NextSpec` gives |
| Unsorted.Drain | src/unsorted_disjoint.rs:46-79 | calling `next` until `None` or a panic yields the ranges, and the panic outcome, that `Stream` predicts |
| Unsorted.UnsortedDisjoint.InnerSizeHint | src/unsorted_disjoint.rs:84 | `self.iter.size_hint()` for an inner iterator over a sequence: exactly the number of inputs still to pull, as both bounds |
| Unsorted.UnsortedDisjoint.SizeHintAsWritten | src/unsorted_disjoint.rs:81-91 | the hint as written: the lower bound is at most 1, and an upper bound is always given |
| Unsorted.SizeHintAsWrittenTooHigh | src/unsorted_disjoint.rs:81-91 | with one empty input `5..=3` and nothing pending, the written lower bound is 1, yet the iterator yields nothing |
| Unsorted.StreamLength | src/unsorted_disjoint.rs:81-91 | the number of emitted ranges is at most the remaining inputs plus one if a range is pending, and at least one while a range is pending |
| Unsorted.UnsortedDisjoint.SizeHint | src/unsorted_disjoint.rs:81-91 | the hint with the lower bound corrected: unless it panics, the number of ranges still to come lies within the bounds |
| Unsorted.AppendLen | src/unsorted_disjoint.rs:153 | adding a range that lies above everything seen so far grows the count by `end - start + 1` |
| Unsorted.UnionBound | src/unsorted_disjoint.rs:138-140 | ranges inside the domain cover at most `max_value2 - min_value + 1` integers |
| Unsorted.SortedDisjointWithLenSoFar.constructor | src/unsorted_disjoint.rs:126-131 | `from` starts with a count of zero over sorted, disjoint inputs |
| Unsorted.SortedDisjointWithLenSoFar.LenSoFar | src/unsorted_disjoint.rs:138-140 | `len_so_far` is the number of integers in the ranges returned so far, and fits within the domain's size |
| Unsorted.SortedDisjointWithLenSoFar.Next | src/unsorted_disjoint.rs:149-158 | `next` returns the next input as a `(start, end)` pair; the `debug_assert!` holds and the count grows by `end - start + 1`, staying the number of integers produced so far; once exhausted it returns `None` and leaves the count unchanged |
| Unsorted.SortedDisjointWithLenSoFar.SizeHint | src/unsorted_disjoint.rs:159-161 | the hint is the inner iterator's, which is exact: the number of inputs still to come |
| Unsorted.AssumeSortedStarts.constructor | src/unsorted_disjoint.rs:199-201 | `new` wraps the inputs with none consumed |
| Unsorted.AssumeSortedStarts.Next | src/unsorted_disjoint.rs:211-213 | `next` passes the next input through unchanged, and returns `None` once the inputs run out |
| Unsorted.AssumeSortedStarts.SizeHint | src/unsorted_disjoint.rs:216-218 | the hint is the inner iterator's: the number of inputs still to come |

## Left out

- Parsing a set from a string (`From<&str>`, src/lib.rs:88-99) is not modelled. It is text handling with `unwrap` panics on malformed input. `AppendExample` builds its sets with `internal_add` directly.
- Formatting is not modelled: `fmt`, `Debug`, `Display` and `UnsortedDisjoint::to_string`. It only produces strings.
- The commented-out `_internal_add` (src/lib.rs:187-264) is not modelled. It is dead code.
- examples/missing.rs is not part of this model. It does file I/O and uses another crate.
- The `BTreeMap` is modelled by its in-order sequence of entries. Its tree structure, balancing and cost are not captured. The set's map is a value held by one object, so aliasing between sets is not modelled.
- Lib.RangeSetInt.FromValues: requires every value to be below `u128::MAX`. The source's `*value + 1` would panic on overflow instead.
- Lib.RangeSetInt.InternalAdd: requires `start < end`. The source panics through `assert!` instead.
- The derived `Ord`, `PartialOrd`, `Hash` and `Default` of `RangeSetInt` are not modelled. They come from the compiler, not from this crate's logic.
- Lib.RangeSetInt.InternalAdd: updates `len` after `delete_extra` has subtracted the absorbed entries, not before as line 30 does (see Findings). The final value is the same.
- The `Integer` trait is replaced by the `Domain` parameter: `min_value`, `max_value`, and `max_value2`, which is at most `max_value`. Elements are unbounded integers inside those bounds. The type's own overflow behaviour is not modelled.
- `SafeLen` is an unbounded integer. `LenSoFar` proves the bound it needs instead.
- Unsorted.UnsortedDisjoint.SizeHint: the `usize` overflow of `x + 1` in the upper bound is not modelled. Counts are unbounded naturals.
- Inner iterators are a sequence plus a cursor. Their `size_hint` is therefore exact, and an inner iterator that loses ranges or gives loose hints is not modelled.
- The `SortedDisjoint` and `SortedStarts` marker traits are promises the type system cannot check. They become predicates: the `SortedDisjointWithLenSoFar` constructor requires sorted, disjoint input, and `FusionSortedDisjoint` assumes sorted starts.
- Unsorted.SortedDisjointWithLenSoFar.constructor: requires every input range to be non-empty and to end at most at `max_value2`, as well as sorted and disjoint. That bound is exactly the `debug_assert!` at src/unsorted_disjoint.rs:152, so the panic that assertion raises in debug builds on a stream breaking it is not modelled.
- The `assert!` at src/unsorted_disjoint.rs:53 is modelled as the `Panicked` outcome of a call, not as an abort. After a panic the model's state is not meaningful, just as Rust unwinds.
- Unsorted.UnsortedDisjoint.SizeHint: gives the corrected lower bound (1 while a range is pending, else 0), not the one as written (see Findings).

## Findings

| source | as written | input that shows it | evidently intended | confidence | as-written member | corrected member |
|---|---|---|---|---|---|---|
| src/lib.rs:30 | `*len += end - *end_before` runs before `delete_extra` subtracts the entries the extended range absorbs, so `len` briefly counts the overlap twice | entries `0..1` and `2..u128::MAX` (length `u128::MAX - 1`), then `internal_add(1, u128::MAX)`: line 30 computes `2 * u128::MAX - 2`, which overflows `u128` (a panic in debug builds), although the final length is `u128::MAX` | add the extension only after the absorbed entries have been subtracted, so `len` never exceeds the final count | not executed | Lib.ExtendOverflowsAsWritten | Lib.RangeSetInt.InternalAdd |
| src/unsorted_disjoint.rs:85 | the lower bound is 1 whenever the inner lower bound is positive | nothing pending and one remaining input `5..=3`: the hint's lower bound is 1, but empty inputs are skipped and `next` returns `None` | the lower bound is 1 only while a range is pending, since any remaining input may be empty | not executed | Unsorted.SizeHintAsWrittenTooHigh | Unsorted.UnsortedDisjoint.SizeHint |
