/**
 * src/unsorted_disjoint.rs: iterators over inclusive ranges `start..=end` of an
 * integer type `T`.
 *
 * `UnsortedDisjoint` fuses a stream of ranges, possibly empty, overlapping or
 * touching, into merged ranges: it keeps one pending range, skips empty inputs,
 * widens the pending range to the hull of every input that overlaps or touches
 * it, and emits it when an input lies beyond a gap. `SortedDisjointWithLenSoFar`
 * passes a sorted, disjoint stream through and counts the integers it has
 * produced. `AssumeSortedStarts` passes a stream through unchanged.
 *
 * The inner iterator `I` is a sequence of ranges and a cursor into it; its
 * `size_hint` is exact, as for an iterator over a vector or slice.
 */
module Unsorted {
  import opened Wrappers
  import opened Intervals
  import Seqs

  /**
   * The bounds of the integer type `T`: its least and greatest values and
   * `max_value2`, the greatest end a range may have.
   */
  datatype Domain = Domain(minValue: int, maxValue: int, maxValue2: int)
  {
    /** `T` has at least three values, so `min_value + 2` exists. */
    predicate Valid()
    {
      minValue + 2 <= maxValue && minValue <= maxValue2 <= maxValue
    }

    predicate Holds(x: int)
    {
      minValue <= x <= maxValue
    }
  }

  /** `start..=end`, empty when start > end. */
  datatype Inclusive = Inclusive(start: int, end: int)

  /** The integers a range holds. */
  function Members(r: Inclusive): set<int>
  {
    Span(r.start, r.end + 1)
  }

  predicate NonEmpty(r: Inclusive)
  {
    r.start <= r.end
  }

  /** Both bounds of every range are values of `T`. */
  predicate InDomain(d: Domain, rs: seq<Inclusive>)
  {
    forall k :: 0 <= k < |rs| ==> d.Holds(rs[k].start) && d.Holds(rs[k].end)
  }

  /** A range the fusion may hold or emit: non-empty and ending at most at `max_value2`. */
  predicate Accepted(d: Domain, r: Inclusive)
  {
    d.minValue <= r.start <= r.end <= d.maxValue2
  }

  /** The integers the ranges of a sequence hold. */
  function Union(rs: seq<Inclusive>): set<int>
  {
    if rs == [] then {} else Members(rs[0]) + Union(rs[1..])
  }

  function Held(o: Option<Inclusive>): set<int>
  {
    if o.Some? then Members(o.value) else {}
  }

  function Count(o: Option<Inclusive>): nat
  {
    if o.Some? then 1 else 0
  }

  /** `a - b` in `T`; the subtraction must not go below `min_value`. */
  function Minus(d: Domain, a: int, b: int): int
    requires d.Holds(a) && 0 <= b && d.minValue <= a - b
  {
    a - b
  }

  /**
   * The gap test of `next`: `pending` and `next` neither overlap nor touch. It
   * subtracts `two` only from a value at least `min_value_plus_2`, so it never
   * goes below `min_value`.
   */
  function HasGap(d: Domain, minValuePlus2: int, two: int, pending: Inclusive, next: Inclusive): (r: bool)
    requires d.Valid() && minValuePlus2 == d.minValue + 2 && two == 2
    requires d.Holds(pending.start) && d.Holds(pending.end) && d.Holds(next.start) && d.Holds(next.end)
    ensures r <==> pending.end + 1 < next.start || next.end + 1 < pending.start
  {
    (next.start >= minValuePlus2 && pending.end <= Minus(d, next.start, two))
    || (pending.start >= minValuePlus2 && next.end <= Minus(d, pending.start, two))
  }

  /**
   * `min(starts)..=max(ends)`: its start is one of the two starts and no
   * greater than either, its end one of the two ends and no less than either.
   */
  function Hull(a: Inclusive, b: Inclusive): (r: Inclusive)
    ensures r.start <= a.start && r.start <= b.start && (r.start == a.start || r.start == b.start)
    ensures r.end >= a.end && r.end >= b.end && (r.end == a.end || r.end == b.end)
  {
    Inclusive(if a.start <= b.start then a.start else b.start, if a.end >= b.end then a.end else b.end)
  }

  /** The hull of two non-empty ranges that overlap or touch holds exactly their integers. */
  lemma HullUnion(a: Inclusive, b: Inclusive)
    requires NonEmpty(a) && NonEmpty(b)
    requires !(a.end + 1 < b.start || b.end + 1 < a.start)
    ensures Members(Hull(a, b)) == Members(a) + Members(b)
  {
  }

  // ---------------------------------------------------------------------------
  // One call of `UnsortedDisjoint::next`, as a function

  /** What a call of `next` ends with: a range, `None`, or the panic of `assert!`. */
  datatype Pulled = Item(range: Inclusive) | Exhausted | Panicked

  /** The outcome of a call and the state it leaves: the pending range and the inputs not yet pulled. */
  datatype Step = Step(out: Pulled, pending: Option<Inclusive>, rest: seq<Inclusive>)

  predicate Pending(d: Domain, o: Option<Inclusive>)
  {
    o.Some? ==> Accepted(d, o.value)
  }

  /** What pulling one input does: hold a (new) pending range, emit one and hold the input, or panic. */
  datatype Pull = Hold(held: Option<Inclusive>) | Emit(range: Inclusive, next: Inclusive) | Panic

  /**
   * One input of the loop of `next`: skip it when empty; panic when it ends
   * beyond `max_value2`; with no pending range, hold it; with one, emit the
   * pending range and hold the input when a gap separates them, else hold
   * their hull.
   */
  function PullOne(d: Domain, pending: Option<Inclusive>, next: Inclusive): (p: Pull)
    requires d.Valid() && Pending(d, pending) && d.Holds(next.start) && d.Holds(next.end)
    ensures p.Hold? ==> Pending(d, p.held)
    ensures p.Emit? ==> pending == Some(p.range) && p.next == next && Accepted(d, next)
  {
    if next.start > next.end then Hold(pending)
    else if next.end > d.maxValue2 then Panic
    else if pending.None? then Hold(Some(next))
    else if HasGap(d, d.minValue + 2, 2, pending.value, next) then Emit(pending.value, next)
    else Hold(Some(Hull(pending.value, next)))
  }

  predicate OverMax(d: Domain, r: Inclusive)
  {
    NonEmpty(r) && r.end > d.maxValue2
  }

  /**
   * Pulling one input loses no integer and invents none; it panics exactly on
   * a non-empty input ending beyond `max_value2`; it leaves nothing pending
   * exactly when nothing was pending and the input is empty.
   */
  lemma PullCovers(d: Domain, pending: Option<Inclusive>, next: Inclusive)
    requires d.Valid() && Pending(d, pending) && d.Holds(next.start) && d.Holds(next.end)
    ensures var p := PullOne(d, pending, next);
      && (p.Hold? ==> Held(p.held) == Held(pending) + Members(next))
      && (p.Panic? <==> OverMax(d, next))
      && (p.Hold? && p.held.None? <==> pending.None? && !NonEmpty(next))
  {
    if pending.Some? && NonEmpty(next) && next.end <= d.maxValue2 && !HasGap(d, d.minValue + 2, 2, pending.value, next) {
      HullUnion(pending.value, next);
    }
  }

  /**
   * A held range starts where the pending range or the input does; an emitted
   * range starting no later than the input ends at least two below it.
   */
  lemma PullStarts(d: Domain, pending: Option<Inclusive>, next: Inclusive)
    requires d.Valid() && Pending(d, pending) && d.Holds(next.start) && d.Holds(next.end)
    ensures var p := PullOne(d, pending, next);
      && (p.Hold? && p.held.Some? ==>
            (pending.Some? && p.held.value.start == pending.value.start) || (NonEmpty(next) && p.held.value.start == next.start))
      && (p.Emit? && p.range.start <= next.start ==> p.range.end + 1 < next.start)
  {
  }

  /**
   * The loop of `next` from pending range `pending` with inputs `rest` still to
   * pull: pull inputs until one is emitted or the assertion fails; with the
   * inputs exhausted, emit the pending range, if any, and reset it.
   */
  function NextSpec(d: Domain, pending: Option<Inclusive>, rest: seq<Inclusive>): (s: Step)
    requires d.Valid() && InDomain(d, rest) && Pending(d, pending)
    ensures |s.rest| <= |rest|
    ensures Pending(d, s.pending)
    ensures s.out.Item? ==> Accepted(d, s.out.range)
    ensures s.out.Item? ==> |s.rest| + Count(s.pending) < |rest| + Count(pending)
    decreases |rest|
  {
    if rest == [] then
      if pending.Some? then Step(Item(pending.value), None, []) else Step(Exhausted, None, [])
    else
      match PullOne(d, pending, rest[0])
      case Hold(p) => NextSpec(d, p, rest[1..])
      case Emit(r, next) => Step(Item(r), Some(next), rest[1..])
      case Panic => Step(Panicked, pending, rest[1..])
  }

  predicate AllEmpty(rs: seq<Inclusive>)
  {
    forall k :: 0 <= k < |rs| ==> !NonEmpty(rs[k])
  }

  /**
   * A call returns `None` exactly when no range is pending and every input
   * left is empty, and then leaves nothing behind. With only empty inputs left,
   * a pending range is emitted once and reset.
   */
  lemma {:induction false} NextExhausted(d: Domain, pending: Option<Inclusive>, rest: seq<Inclusive>)
    requires d.Valid() && InDomain(d, rest) && Pending(d, pending)
    ensures NextSpec(d, pending, rest).out.Exhausted? <==> pending.None? && AllEmpty(rest)
    ensures NextSpec(d, pending, rest).out.Exhausted? ==> NextSpec(d, pending, rest) == Step(Exhausted, None, [])
    ensures AllEmpty(rest) && pending.Some? ==> NextSpec(d, pending, rest) == Step(Item(pending.value), None, [])
    decreases |rest|
  {
    if rest != [] {
      PullCovers(d, pending, rest[0]);
      var p := PullOne(d, pending, rest[0]);
      AllEmptyCons(rest);
      if p.Hold? {
        NextExhausted(d, p.held, rest[1..]);
      }
    }
  }

  lemma AllEmptyCons(rs: seq<Inclusive>)
    requires rs != []
    ensures AllEmpty(rs) <==> !NonEmpty(rs[0]) && AllEmpty(rs[1..])
  {
    if !NonEmpty(rs[0]) && AllEmpty(rs[1..]) {
      forall k | 0 < k < |rs| ensures !NonEmpty(rs[k]) {
        assert rs[k] == rs[1..][k - 1];
      }
    }
  }

  lemma {:induction false} UnionEmpty(rs: seq<Inclusive>)
    requires AllEmpty(rs)
    ensures Union(rs) == {}
  {
    if rs != [] {
      AllEmptyCons(rs);
      UnionEmpty(rs[1..]);
    }
  }

  function OutSet(p: Pulled): set<int>
  {
    if p.Item? then Members(p.range) else {}
  }

  /**
   * Unless it panics, a call loses and invents no integer: what was pending or
   * still to pull is what it emits, holds, or leaves to pull.
   */
  lemma {:induction false} NextCovers(d: Domain, pending: Option<Inclusive>, rest: seq<Inclusive>)
    requires d.Valid() && InDomain(d, rest) && Pending(d, pending)
    ensures var s := NextSpec(d, pending, rest);
      !s.out.Panicked? ==> Held(pending) + Union(rest) == OutSet(s.out) + Held(s.pending) + Union(s.rest)
    decreases |rest|
  {
    if rest != [] {
      PullCovers(d, pending, rest[0]);
      assert Union(rest) == Members(rest[0]) + Union(rest[1..]);
      var p := PullOne(d, pending, rest[0]);
      if p.Hold? {
        NextCovers(d, p.held, rest[1..]);
      }
    }
  }

  /**
   * A call panics exactly when the last input it pulled is non-empty and ends
   * beyond `max_value2`; a call that does not panic pulled no such input.
   */
  lemma {:induction false} NextPanics(d: Domain, pending: Option<Inclusive>, rest: seq<Inclusive>)
    requires d.Valid() && InDomain(d, rest) && Pending(d, pending)
    ensures var s := NextSpec(d, pending, rest); var c := |rest| - |s.rest|;
      && (s.out.Panicked? ==> 0 < c && OverMax(d, rest[c - 1]))
      && (!s.out.Panicked? ==> forall k :: 0 <= k < c ==> !OverMax(d, rest[k]))
    decreases |rest|
  {
    if rest != [] {
      PullCovers(d, pending, rest[0]);
      var p := PullOne(d, pending, rest[0]);
      if p.Hold? {
        NextPanics(d, p.held, rest[1..]);
        var s := NextSpec(d, p.held, rest[1..]);
        forall k | 1 <= k < |rest| ensures rest[k] == rest[1..][k - 1] {
        }
      }
    }
  }

  // ---------------------------------------------------------------------------
  // Every call until the end, as a function

  /** A call leaves a suffix of the inputs to pull. */
  lemma {:induction false} NextRest(d: Domain, pending: Option<Inclusive>, rest: seq<Inclusive>)
    requires d.Valid() && InDomain(d, rest) && Pending(d, pending)
    ensures var s := NextSpec(d, pending, rest);
      s.rest == rest[|rest| - |s.rest|..] && InDomain(d, s.rest)
    decreases |rest|
  {
    if rest != [] {
      var p := PullOne(d, pending, rest[0]);
      if p.Hold? {
        NextRest(d, p.held, rest[1..]);
      }
    }
  }

  /**
   * The ranges successive calls of `next` return until one returns `None` or
   * panics, each accepted; and whether that last call panicked.
   */
  function Stream(d: Domain, pending: Option<Inclusive>, rest: seq<Inclusive>): (r: (seq<Inclusive>, bool))
    requires d.Valid() && InDomain(d, rest) && Pending(d, pending)
    ensures forall k :: 0 <= k < |r.0| ==> Accepted(d, r.0[k])
    decreases |rest| + Count(pending)
  {
    var s := NextSpec(d, pending, rest);
    match s.out
    case Item(range) =>
      NextRest(d, pending, rest);
      var tail := Stream(d, s.pending, s.rest);
      ([range] + tail.0, tail.1)
    case Exhausted => ([], false)
    case Panicked => ([], true)
  }

  /** The stream is what one call returns followed by the stream of the state it leaves. */
  lemma StreamStep(d: Domain, pending: Option<Inclusive>, rest: seq<Inclusive>)
    requires d.Valid() && InDomain(d, rest) && Pending(d, pending)
    ensures var s := NextSpec(d, pending, rest);
      && (s.out.Item? ==> InDomain(d, s.rest))
      && (s.out.Item? ==> Stream(d, pending, rest) == ([s.out.range] + Stream(d, s.pending, s.rest).0, Stream(d, s.pending, s.rest).1))
      && (s.out.Exhausted? ==> Stream(d, pending, rest) == ([], false))
      && (s.out.Panicked? ==> Stream(d, pending, rest) == ([], true))
  {
    NextRest(d, pending, rest);
  }

  /** Everything the pending range and the inputs hold is emitted, unless a call panics. */
  lemma {:induction false} StreamCovers(d: Domain, pending: Option<Inclusive>, rest: seq<Inclusive>)
    requires d.Valid() && InDomain(d, rest) && Pending(d, pending)
    ensures var (out, panicked) := Stream(d, pending, rest); !panicked ==> Union(out) == Held(pending) + Union(rest)
    decreases |rest| + Count(pending)
  {
    var s := NextSpec(d, pending, rest);
    NextCovers(d, pending, rest);
    if s.out.Item? {
      NextRest(d, pending, rest);
      StreamCovers(d, s.pending, s.rest);
      var out := Stream(d, pending, rest).0;
      assert out[1..] == Stream(d, s.pending, s.rest).0;
    } else if s.out.Exhausted? {
      NextExhausted(d, pending, rest);
      UnionEmpty(rest);
    }
  }

  /** The calls end in a panic exactly when some non-empty input ends beyond `max_value2`. */
  lemma {:induction false} StreamPanics(d: Domain, pending: Option<Inclusive>, rest: seq<Inclusive>)
    requires d.Valid() && InDomain(d, rest) && Pending(d, pending)
    ensures Stream(d, pending, rest).1 <==> exists k :: 0 <= k < |rest| && OverMax(d, rest[k])
    decreases |rest| + Count(pending)
  {
    var s := NextSpec(d, pending, rest);
    var c := |rest| - |s.rest|;
    NextPanics(d, pending, rest);
    if s.out.Item? {
      NextRest(d, pending, rest);
      StreamPanics(d, s.pending, s.rest);
      OverMaxShift(d, rest, c);
    } else if s.out.Exhausted? {
      NextExhausted(d, pending, rest);
    }
  }

  /** Dropping a prefix in which no input ends beyond `max_value2` keeps whether some input does. */
  lemma OverMaxShift(d: Domain, rest: seq<Inclusive>, c: nat)
    requires c <= |rest| && forall k :: 0 <= k < c ==> !OverMax(d, rest[k])
    ensures (exists k :: 0 <= k < |rest| && OverMax(d, rest[k])) <==> (exists k :: 0 <= k < |rest[c..]| && OverMax(d, rest[c..][k]))
  {
    if exists k :: 0 <= k < |rest| && OverMax(d, rest[k]) {
      var k :| 0 <= k < |rest| && OverMax(d, rest[k]);
      assert rest[c..][k - c] == rest[k];
    }
    if exists k :: 0 <= k < |rest[c..]| && OverMax(d, rest[c..][k]) {
      var k :| 0 <= k < |rest[c..]| && OverMax(d, rest[c..][k]);
      assert rest[k + c] == rest[c..][k];
    }
  }

  /**
   * The non-empty inputs arrive in non-decreasing order of start, none before
   * the pending range's start.
   */
  predicate SortedStarts(pending: Option<Inclusive>, rest: seq<Inclusive>)
  {
    && (forall a, b :: 0 <= a < b < |rest| && NonEmpty(rest[a]) && NonEmpty(rest[b]) ==> rest[a].start <= rest[b].start)
    && (pending.Some? ==> forall k :: 0 <= k < |rest| && NonEmpty(rest[k]) ==> pending.value.start <= rest[k].start)
  }

  /** Every range pending or still to pull that is non-empty starts above v. */
  predicate Above(v: int, pending: Option<Inclusive>, rest: seq<Inclusive>)
  {
    && (pending.Some? ==> v < pending.value.start)
    && (forall k :: 0 <= k < |rest| && NonEmpty(rest[k]) ==> v < rest[k].start)
  }

  /** A bound below every pending or remaining start stays so across a call, and bounds what it emits. */
  lemma {:induction false} NextAbove(d: Domain, pending: Option<Inclusive>, rest: seq<Inclusive>, v: int)
    requires d.Valid() && InDomain(d, rest) && Pending(d, pending) && Above(v, pending, rest)
    ensures var s := NextSpec(d, pending, rest);
      Above(v, s.pending, s.rest) && (s.out.Item? ==> v < s.out.range.start)
    decreases |rest|
  {
    if rest != [] {
      PullStarts(d, pending, rest[0]);
      var p := PullOne(d, pending, rest[0]);
      assert Above(v, None, rest[1..]);
      if p.Hold? {
        NextAbove(d, p.held, rest[1..], v);
      }
    }
  }

  /**
   * With sorted starts, a call keeps the starts sorted, and whatever it emits
   * ends at least two below every start it leaves pending or to pull.
   */
  lemma {:induction false} NextSorted(d: Domain, pending: Option<Inclusive>, rest: seq<Inclusive>)
    requires d.Valid() && InDomain(d, rest) && Pending(d, pending) && SortedStarts(pending, rest)
    ensures var s := NextSpec(d, pending, rest);
      SortedStarts(s.pending, s.rest) && (s.out.Item? ==> Above(s.out.range.end + 1, s.pending, s.rest))
    decreases |rest|
  {
    if rest != [] {
      PullStarts(d, pending, rest[0]);
      var p := PullOne(d, pending, rest[0]);
      var tail := rest[1..];
      assert SortedStarts(None, tail) by {
        forall a, b | 0 <= a < b < |tail| && NonEmpty(tail[a]) && NonEmpty(tail[b]) ensures tail[a].start <= tail[b].start {
          assert tail[a] == rest[a + 1] && tail[b] == rest[b + 1];
        }
      }
      if p.Hold? {
        if p.held.Some? && NonEmpty(rest[0]) {
          assert forall k :: 0 <= k < |tail| && NonEmpty(tail[k]) ==> rest[0].start <= tail[k].start;
        }
        NextSorted(d, p.held, tail);
      } else if p.Emit? {
        assert forall k :: 0 <= k < |tail| && NonEmpty(tail[k]) ==> rest[0].start <= tail[k].start;
      }
    }
  }

  /** Each range ends at least two below the start of every later one. */
  predicate Separated(rs: seq<Inclusive>)
  {
    forall a, b :: 0 <= a < b < |rs| ==> rs[a].end + 1 < rs[b].start
  }

  /** Everything emitted starts above any bound below every pending or remaining start. */
  lemma {:induction false} StreamAbove(d: Domain, pending: Option<Inclusive>, rest: seq<Inclusive>, v: int)
    requires d.Valid() && InDomain(d, rest) && Pending(d, pending) && Above(v, pending, rest)
    ensures forall k :: 0 <= k < |Stream(d, pending, rest).0| ==> v < Stream(d, pending, rest).0[k].start
    decreases |rest| + Count(pending)
  {
    var s := NextSpec(d, pending, rest);
    NextAbove(d, pending, rest, v);
    if s.out.Item? {
      NextRest(d, pending, rest);
      StreamAbove(d, s.pending, s.rest, v);
      var tail := Stream(d, s.pending, s.rest).0;
      var out := Stream(d, pending, rest).0;
      assert out == [s.out.range] + tail;
    }
  }

  /**
   * Fed inputs whose non-empty members come in non-decreasing order of start,
   * the fusion emits ranges in ascending order, each separated from every later
   * one by at least one integer it does not hold.
   */
  lemma {:induction false} StreamSeparated(d: Domain, pending: Option<Inclusive>, rest: seq<Inclusive>)
    requires d.Valid() && InDomain(d, rest) && Pending(d, pending) && SortedStarts(pending, rest)
    ensures Separated(Stream(d, pending, rest).0)
    decreases |rest| + Count(pending)
  {
    var s := NextSpec(d, pending, rest);
    if s.out.Item? {
      var r := s.out.range;
      NextRest(d, pending, rest);
      NextSorted(d, pending, rest);
      StreamSeparated(d, s.pending, s.rest);
      StreamAbove(d, s.pending, s.rest, r.end + 1);
      var tail := Stream(d, s.pending, s.rest).0;
      var out := Stream(d, pending, rest).0;
      assert out == [r] + tail;
      forall a, b | 0 <= a < b < |out| ensures out[a].end + 1 < out[b].start {
        assert out[b] == tail[b - 1];
        if a == 0 {
          assert out[a] == r;
        } else {
          assert out[a] == tail[a - 1];
        }
      }
    }
  }

  /**
   * The fusion of a stream with sorted starts is sorted and disjoint, and
   * unless it panics holds exactly the integers of its inputs.
   */
  lemma FusionSortedDisjoint(d: Domain, rest: seq<Inclusive>)
    requires d.Valid() && InDomain(d, rest) && SortedStarts(None, rest)
    ensures SortedDisjoint(d, Stream(d, None, rest).0)
    ensures !Stream(d, None, rest).1 ==> Union(Stream(d, None, rest).0) == Union(rest)
  {
    StreamSeparated(d, None, rest);
    StreamCovers(d, None, rest);
  }

  /** `[1..=3, 2..=5, 10..=12, 11..=11]` fuses into `[1..=5, 10..=12]` (here with `T = u8`). */
  lemma FusionExample()
    ensures Stream(Domain(0, 255, 254), None, [Inclusive(1, 3), Inclusive(2, 5), Inclusive(10, 12), Inclusive(11, 11)])
      == ([Inclusive(1, 5), Inclusive(10, 12)], false)
  {
    var d := Domain(0, 255, 254);
    var rs := [Inclusive(1, 3), Inclusive(2, 5), Inclusive(10, 12), Inclusive(11, 11)];
    var item1 := Step(Item(Inclusive(1, 5)), Some(Inclusive(10, 12)), rs[3..]);
    assert PullOne(d, Some(Inclusive(1, 5)), rs[2..][0]) == Emit(Inclusive(1, 5), Inclusive(10, 12));
    assert rs[2..][1..] == rs[3..];
    assert NextSpec(d, Some(Inclusive(1, 5)), rs[2..]) == item1;
    assert PullOne(d, Some(Inclusive(1, 3)), rs[1..][0]) == Hold(Some(Inclusive(1, 5)));
    assert rs[1..][1..] == rs[2..];
    assert NextSpec(d, Some(Inclusive(1, 3)), rs[1..]) == item1;
    assert PullOne(d, None, rs[0]) == Hold(Some(Inclusive(1, 3)));
    assert NextSpec(d, None, rs) == item1;
    var item2 := Step(Item(Inclusive(10, 12)), None, []);
    assert PullOne(d, Some(Inclusive(10, 12)), rs[3..][0]) == Hold(Some(Inclusive(10, 12)));
    assert rs[3..][1..] == [];
    assert NextSpec(d, Some(Inclusive(10, 12)), rs[3..]) == item2;
    assert Stream(d, None, []) == ([], false);
    var tail := Stream(d, Some(Inclusive(10, 12)), rs[3..]);
    assert tail.0 == [Inclusive(10, 12)] + [] && !tail.1;
    assert Stream(d, None, rs) == ([Inclusive(1, 5)] + tail.0, tail.1);
    assert [Inclusive(1, 5)] + tail.0 == [Inclusive(1, 5), Inclusive(10, 12)];
  }

  // ---------------------------------------------------------------------------
  // The iterators

  /** `UnsortedDisjoint`: the inner iterator, the pending range and the two constants fixed at construction. */
  class UnsortedDisjoint {
    const domain: Domain
    /** The inner iterator: `input[cursor..]` is still to pull. */
    const input: seq<Inclusive>
    var cursor: nat
    /** `option_range_inclusive` */
    var pending: Option<Inclusive>
    const minValuePlus2: int
    const two: int

    ghost predicate Valid()
      reads this
    {
      && domain.Valid() && InDomain(domain, input) && cursor <= |input|
      && minValuePlus2 == domain.minValue + 2 && two == 2
      && Pending(domain, pending)
    }

    /** The inputs not yet pulled. */
    ghost function Rest(): seq<Inclusive>
      reads this
      requires cursor <= |input|
    {
      input[cursor..]
    }

    /** `from`: nothing pending; `min_value_plus_2` is `min_value + 2`, `two` is 2. */
    constructor (d: Domain, rs: seq<Inclusive>)
      requires d.Valid() && InDomain(d, rs)
      ensures Valid() && domain == d && input == rs && Rest() == rs && pending == None
    {
      domain, input, cursor, pending := d, rs, 0, None;
      minValuePlus2 := d.minValue + 1 + 1;
      two := 1 + 1;
    }

    /** `next`: pulls inputs until a range can be emitted, the inputs run out, or the assertion fails. */
    method Next() returns (r: Pulled)
      requires Valid()
      modifies this
      ensures Valid()
      ensures Step(r, pending, Rest()) == NextSpec(domain, old(pending), old(Rest()))
    {
      while cursor < |input|
        invariant Valid()
        invariant NextSpec(domain, pending, Rest()) == NextSpec(domain, old(pending), old(Rest()))
        decreases |input| - cursor
      {
        var next := input[cursor];
        assert Rest()[0] == next && Rest()[1..] == input[cursor + 1..];
        cursor := cursor + 1;
        if next.start > next.end {
          continue;
        }
        if next.end > domain.maxValue2 {
          return Panicked;
        }
        if pending.Some? {
          var current := pending.value;
          if HasGap(domain, minValuePlus2, two, current, next) {
            pending := Some(next);
            return Item(current);
          } else {
            pending := Some(Hull(current, next));
            continue;
          }
        } else {
          pending := Some(next);
          continue;
        }
      }
      if pending.Some? {
        r := Item(pending.value);
        pending := None;
      } else {
        r := Exhausted;
      }
    }

    /** The inner iterator's `size_hint`, exact for a sequence. */
    function InnerSizeHint(): (r: (nat, Option<nat>))
      reads this
      requires cursor <= |input|
      ensures r == (|Rest()|, Some(|Rest()|))
    {
      (|input| - cursor, Some(|input| - cursor))
    }

    /**
     * `size_hint` as written: lower bound 1 when the inner lower bound is
     * positive, else 0; upper bound the inner one, plus 1 while a range is pending.
     */
    function SizeHintAsWritten(): (r: (nat, Option<nat>))
      reads this
      requires cursor <= |input|
      ensures r.0 <= 1 && r.1.Some?
    {
      var (lower, upper) := InnerSizeHint();
      var lower := if lower == 0 then 0 else 1;
      if pending.Some? then (lower, if upper.Some? then Some(upper.value + 1) else None) else (lower, upper)
    }

    /**
     * `size_hint` with the lower bound corrected: 1 while a range is pending,
     * else 0, since every remaining input may be empty.
     */
    function SizeHint(): (r: (nat, Option<nat>))
      reads this
      requires Valid()
      ensures r.1.Some?
      ensures var out := Stream(domain, pending, Rest());
        !out.1 ==> r.0 <= |out.0| <= r.1.value
    {
      var (_, upper) := InnerSizeHint();
      var lower := if pending.Some? then 1 else 0;
      StreamLength(domain, pending, Rest());
      if pending.Some? then (lower, if upper.Some? then Some(upper.value + 1) else None) else (lower, upper)
    }
  }

  /**
   * Calls `next` until it returns `None` or panics: the ranges it returns, and
   * whether it panicked, are those the stream function predicts.
   */
  method Drain(it: UnsortedDisjoint) returns (out: seq<Inclusive>, panicked: bool)
    requires it.Valid()
    modifies it
    ensures (out, panicked) == old(Stream(it.domain, it.pending, it.Rest()))
  {
    out, panicked := [], false;
    ghost var total := Stream(it.domain, it.pending, it.Rest());
    while true
      invariant it.Valid()
      invariant total.0 == out + Stream(it.domain, it.pending, it.Rest()).0
      invariant total.1 == Stream(it.domain, it.pending, it.Rest()).1
      decreases |it.Rest()| + Count(it.pending)
    {
      ghost var before := Stream(it.domain, it.pending, it.Rest());
      StreamStep(it.domain, it.pending, it.Rest());
      var r := it.Next();
      match r
      case Item(x) =>
        Seqs.Regroup(out, [x], Stream(it.domain, it.pending, it.Rest()).0);
        out := out + [x];
      case Exhausted =>
        assert before == ([], false) && out + [] == out;
        return;
      case Panicked =>
        assert before == ([], true) && out + [] == out;
        panicked := true;
        return;
    }
  }

  /**
   * Each emitted range uses up the pending range or a non-empty input, so the
   * calls emit at most one range more than there are inputs; and a pending
   * range is emitted unless a call panics.
   */
  lemma {:induction false} StreamLength(d: Domain, pending: Option<Inclusive>, rest: seq<Inclusive>)
    requires d.Valid() && InDomain(d, rest) && Pending(d, pending)
    ensures |Stream(d, pending, rest).0| <= |rest| + Count(pending)
    ensures pending.Some? && !Stream(d, pending, rest).1 ==> |Stream(d, pending, rest).0| >= 1
    decreases |rest| + Count(pending)
  {
    var s := NextSpec(d, pending, rest);
    if s.out.Item? {
      NextRest(d, pending, rest);
      StreamLength(d, s.pending, s.rest);
    } else if s.out.Exhausted? {
      NextExhausted(d, pending, rest);
    }
  }

  /**
   * The lower bound as written is too high: a single empty input `5..=3` gives
   * lower bound 1, yet the first call returns `None` without panicking.
   */
  lemma SizeHintAsWrittenTooHigh(it: UnsortedDisjoint)
    requires it.Valid() && it.pending.None? && it.Rest() == [Inclusive(5, 3)]
    ensures it.SizeHintAsWritten().0 == 1
    ensures Stream(it.domain, it.pending, it.Rest()) == ([], false)
  {
    assert [Inclusive(5, 3)][1..] == [];
  }

  // ---------------------------------------------------------------------------
  // SortedDisjointWithLenSoFar

  /**
   * What this model assumes of a stream marked `SortedDisjoint`: every range
   * is accepted (non-empty and ending at most at `max_value2`), and each ends
   * at least two below the start of every later one.
   */
  predicate SortedDisjoint(d: Domain, rs: seq<Inclusive>)
  {
    && (forall k :: 0 <= k < |rs| ==> Accepted(d, rs[k]))
    && (forall a, b :: 0 <= a < b < |rs| ==> rs[a].end + 1 < rs[b].start)
  }

  lemma {:induction false} UnionSnoc(rs: seq<Inclusive>, r: Inclusive)
    ensures Union(rs + [r]) == Union(rs) + Members(r)
  {
    if rs != [] {
      assert (rs + [r])[1..] == rs[1..] + [r];
      UnionSnoc(rs[1..], r);
    }
  }

  /** Every integer the ranges hold lies between the least start and the greatest end. */
  lemma {:induction false} UnionWithin(rs: seq<Inclusive>, lo: int, hi: int)
    requires forall k :: 0 <= k < |rs| ==> lo <= rs[k].start && rs[k].end <= hi
    ensures forall x :: x in Union(rs) ==> lo <= x <= hi
  {
    if rs != [] {
      UnionWithin(rs[1..], lo, hi);
    }
  }

  /**
   * Appending a range that starts above every integer held so far adds its
   * length, `end - start + 1`, to the number of integers held.
   */
  lemma AppendLen(pre: seq<Inclusive>, r: Inclusive)
    requires NonEmpty(r) && forall x :: x in Union(pre) ==> x < r.start
    ensures |Union(pre + [r])| == |Union(pre)| + (r.end - r.start + 1)
  {
    UnionSnoc(pre, r);
    DisjointCard(Union(pre), Members(r));
    SpanCard(r.start, r.end + 1);
  }

  /** The integers a sorted, disjoint prefix holds lie below the start of the next range. */
  lemma PrefixBelow(d: Domain, rs: seq<Inclusive>, n: nat)
    requires SortedDisjoint(d, rs) && n < |rs|
    ensures forall x :: x in Union(rs[..n]) ==> x < rs[n].start
  {
    forall k | 0 <= k < n ensures d.minValue <= rs[..n][k].start && rs[..n][k].end <= rs[n].start - 1 {
      assert rs[..n][k] == rs[k];
    }
    UnionWithin(rs[..n], d.minValue, rs[n].start - 1);
  }

  lemma DisjointCard(a: set<int>, b: set<int>)
    requires forall x :: x in a ==> x !in b
    ensures |a + b| == |a| + |b|
  {
    assert forall x :: x !in a * b;
    assert a * b == {};
  }

  lemma UnionBound(d: Domain, rs: seq<Inclusive>)
    requires d.Valid() && forall k :: 0 <= k < |rs| ==> Accepted(d, rs[k])
    ensures |Union(rs)| <= d.maxValue2 - d.minValue + 1
  {
    UnionWithin(rs, d.minValue, d.maxValue2);
    SubsetOfSpanCard(Union(rs), d.minValue, d.maxValue2 + 1);
  }

  /** `SortedDisjointWithLenSoFar`: a sorted, disjoint inner iterator and the number of integers produced so far. */
  class SortedDisjointWithLenSoFar {
    const domain: Domain
    /** The inner iterator: `input[cursor..]` is still to pull. */
    const input: seq<Inclusive>
    var cursor: nat
    /** `len`, of the unbounded `SafeLen` type. */
    var len: int

    ghost predicate Valid()
      reads this
    {
      && domain.Valid() && SortedDisjoint(domain, input) && cursor <= |input|
      && len == |Union(input[..cursor])|
    }

    /** `from`: nothing produced yet. */
    constructor (d: Domain, rs: seq<Inclusive>)
      requires d.Valid() && SortedDisjoint(d, rs)
      ensures Valid() && domain == d && input == rs && cursor == 0 && len == 0
    {
      domain, input, cursor, len := d, rs, 0, 0;
      assert rs[..0] == [];
    }

    /**
     * `len_so_far`: the number of integers held by the ranges produced so far,
     * which never exceeds the number of values from `min_value` to `max_value2`.
     */
    function LenSoFar(): (r: int)
      reads this
      requires Valid()
      ensures r == |Union(input[..cursor])|
      ensures 0 <= r <= domain.maxValue2 - domain.minValue + 1
    {
      assert forall k :: 0 <= k < cursor ==> input[..cursor][k] == input[k];
      UnionBound(domain, input[..cursor]);
      len
    }

    /**
     * `next`: pulls the next range, which meets the `debug_assert!`, as a
     * pair, and adds its length to `len`; returns `None` when the inner
     * iterator is exhausted.
     */
    method Next() returns (r: Option<(int, int)>)
      requires Valid()
      modifies this`cursor, this`len
      ensures Valid()
      ensures old(cursor) < |input| ==> cursor == old(cursor) + 1 && r == Some((input[old(cursor)].start, input[old(cursor)].end))
      ensures old(cursor) < |input| ==> len == old(len) + (input[old(cursor)].end - input[old(cursor)].start + 1)
      ensures old(cursor) == |input| ==> cursor == old(cursor) && len == old(len) && r.None?
    {
      if cursor < |input| {
        var range := input[cursor];
        var (start, end) := (range.start, range.end);
        assert start <= end && end <= domain.maxValue2;
        PrefixBelow(domain, input, cursor);
        AppendLen(input[..cursor], range);
        assert input[..cursor + 1] == input[..cursor] + [range];
        len := len + (end - start + 1);
        cursor := cursor + 1;
        r := Some((start, end));
      } else {
        r := None;
      }
    }

    /** `size_hint`: the inner iterator's, exactly the number of calls of `Next` still to return a range. */
    function SizeHint(): (r: (nat, Option<nat>))
      reads this
      requires Valid()
      ensures r.1.Some? && r.0 == r.1.value && cursor + r.0 == |input|
    {
      (|input| - cursor, Some(|input| - cursor))
    }
  }

  // ---------------------------------------------------------------------------
  // AssumeSortedStarts

  /**
   * `AssumeSortedStarts`: the inner iterator, passed through unchanged. The
   * `SortedStarts` marker it carries is the caller's promise, `SortedStarts`
   * above, on which `StreamSeparated` and `FusionSortedDisjoint` rely.
   */
  class AssumeSortedStarts {
    const input: seq<Inclusive>
    var cursor: nat

    ghost predicate Valid()
      reads this
    {
      cursor <= |input|
    }

    /** `new` */
    constructor (rs: seq<Inclusive>)
      ensures Valid() && input == rs && cursor == 0
    {
      input, cursor := rs, 0;
    }

    /** `next`: the inner iterator's next range, unchanged. */
    method Next() returns (r: Option<Inclusive>)
      requires Valid()
      modifies this`cursor
      ensures Valid()
      ensures old(cursor) < |input| ==> cursor == old(cursor) + 1 && r == Some(input[old(cursor)])
      ensures old(cursor) == |input| ==> cursor == old(cursor) && r.None?
    {
      if cursor < |input| {
        r := Some(input[cursor]);
        cursor := cursor + 1;
      } else {
        r := None;
      }
    }

    /** `size_hint`: the inner iterator's, exactly the number of ranges still to pass through. */
    function SizeHint(): (r: (nat, Option<nat>))
      reads this
      requires Valid()
      ensures r.1.Some? && r.0 == r.1.value && cursor + r.0 == |input|
    {
      (|input| - cursor, Some(|input| - cursor))
    }
  }
}
