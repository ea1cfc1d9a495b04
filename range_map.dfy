/**
 * The ordered map `BTreeMap<u128, u128>` behind `RangeSetInt`, seen through its
 * in-order iteration: a sequence of entries `start -> end`, each standing for the
 * half-open range [start, end). This module holds what the set means (the covered
 * integers, the slow length), its canonical form, and the map primitives the
 * insertion algorithm uses (predecessor lookup, lower-bound lookup, removal).
 */
module RangeMap {
  import opened Wrappers
  import opened Intervals
  import Seqs

  const U128_MAX: nat := 0xffff_ffff_ffff_ffff_ffff_ffff_ffff_ffff

  /** One map entry: key `start`, value `end`, the half-open range [start, end). */
  datatype Range = Range(start: nat, end: nat)

  /** The integers a sequence of entries covers. */
  function Covered(s: seq<Range>): set<int>
  {
    if s == [] then {} else Span(s[0].start, s[0].end) + Covered(s[1..])
  }

  /** `len_slow`: the sum of `end - start` over the entries. */
  function LenSlow(s: seq<Range>): int
  {
    if s == [] then 0 else (s[0].end - s[0].start) + LenSlow(s[1..])
  }

  /** Every entry is non-empty and fits in a u128. */
  ghost predicate WellFormed(s: seq<Range>)
  {
    forall k :: 0 <= k < |s| ==> s[k].start < s[k].end <= U128_MAX
  }

  /**
   * Entry a ends strictly before entry b starts, so the two neither overlap nor
   * touch. Quantifiers over pairs of entries are stated with this predicate, so
   * that a proof instantiates them for the pairs it names.
   */
  ghost predicate Apart(s: seq<Range>, a: int, b: int)
    requires 0 <= a < |s| && 0 <= b < |s|
  {
    s[a].end < s[b].start
  }

  /** Entry a has a smaller key than entry b. */
  ghost predicate KeyBelow(s: seq<Range>, a: int, b: int)
    requires 0 <= a < |s| && 0 <= b < |s|
  {
    s[a].start < s[b].start
  }

  /**
   * The canonical form: non-empty entries, each ending strictly before the start
   * of every later one, so that entries neither overlap nor touch.
   */
  ghost predicate Canonical(s: seq<Range>)
  {
    && WellFormed(s)
    && forall a, b :: 0 <= a < b < |s| ==> Apart(s, a, b)
  }

  /** The pairwise facts of the canonical form, spelled out. */
  lemma CanonicalPairs(s: seq<Range>)
    requires Canonical(s)
    ensures forall a, b :: 0 <= a < b < |s| ==> s[a].end < s[b].start
    ensures forall a, b :: 0 <= a < b < |s| ==> s[a].start < s[b].start
  {
    forall a, b | 0 <= a < b < |s| ensures s[a].end < s[b].start && s[a].start < s[b].start {
      assert Apart(s, a, b);
    }
  }

  /** The entries after the first of a canonical map are canonical and lie above its end. */
  lemma CanonicalTail(s: seq<Range>)
    requires Canonical(s) && s != []
    ensures Canonical(s[1..])
    ensures forall k :: 0 <= k < |s[1..]| ==> s[0].end + 1 <= s[1..][k].start && s[1..][k].end <= U128_MAX + 1
  {
    var t := s[1..];
    forall a, b | 0 <= a < b < |t| ensures Apart(t, a, b) {
      assert Apart(s, a + 1, b + 1);
    }
    forall k | 0 <= k < |t| ensures s[0].end + 1 <= t[k].start {
      assert Apart(s, 0, k + 1);
    }
  }

  // ---------------------------------------------------------------------------
  // Map primitives

  /**
   * `range(..=key).next_back()`: the index of the last entry whose key is at most
   * `key`, if there is one.
   */
  function Predecessor(s: seq<Range>, key: int): (r: Option<nat>)
    ensures r.Some? ==> r.value < |s| && s[r.value].start <= key
    ensures r.Some? ==> forall k :: r.value < k < |s| ==> s[k].start > key
    ensures r.None? ==> forall k :: 0 <= k < |s| ==> s[k].start > key
  {
    if s == [] then None
    else if s[|s| - 1].start <= key then Some(|s| - 1)
    else Predecessor(s[..|s| - 1], key)
  }

  /**
   * `range(key..).next()`: the index of the first entry whose key is at least
   * `key` (|s| when there is none).
   */
  function LowerBound(s: seq<Range>, key: int): (r: nat)
    ensures r <= |s|
    ensures forall k :: 0 <= k < r ==> s[k].start < key
    ensures r < |s| ==> s[r].start >= key
  {
    if s == [] || s[0].start >= key then 0 else 1 + LowerBound(s[1..], key)
  }

  /** `get(&key)`: the value stored under `key`, if there is one. */
  function Get(s: seq<Range>, key: nat): (r: Option<nat>)
    ensures r.None? <==> forall k :: 0 <= k < |s| ==> s[k].start != key
    ensures r.Some? ==> exists k :: 0 <= k < |s| && s[k] == Range(key, r.value)
  {
    if s == [] then None
    else if s[0].start == key then Some(s[0].end)
    else Get(s[1..], key)
  }

  /**
   * `remove(&key)`: the entries without the one whose key is `key`. A key that
   * is absent leaves the map as it is; a present one drops one entry.
   */
  function Remove(s: seq<Range>, key: nat): (r: seq<Range>)
    ensures Get(s, key).None? ==> r == s
    ensures Get(s, key).Some? ==> |r| == |s| - 1
  {
    if s == [] then []
    else if s[0].start == key then s[1..]
    else [s[0]] + Remove(s[1..], key)
  }

  /** Removing the key of entry k, when no earlier entry has that key, drops exactly entry k. */
  lemma {:induction false} RemoveAt(s: seq<Range>, k: nat)
    requires k < |s|
    requires forall a :: 0 <= a < k ==> s[a].start != s[k].start
    ensures Remove(s, s[k].start) == s[..k] + s[k + 1..]
  {
    if k > 0 {
      RemoveAt(s[1..], k - 1);
      assert s[1..][..k - 1] == s[1..k];
      assert s[1..][k..] == s[k + 1..];
      assert s[..k] == [s[0]] + s[1..k];
    }
  }

  // ---------------------------------------------------------------------------
  // Meaning of a sequence of entries

  /** An integer is covered iff some entry holds it. */
  lemma {:induction false} InCovered(s: seq<Range>, x: int)
    ensures x in Covered(s) <==> exists k :: 0 <= k < |s| && s[k].start <= x < s[k].end
  {
    if s != [] {
      InCovered(s[1..], x);
      if x in Covered(s[1..]) {
        var k :| 0 <= k < |s| - 1 && s[1..][k].start <= x < s[1..][k].end;
        assert s[k + 1] == s[1..][k];
      }
      if exists k :: 0 <= k < |s| && s[k].start <= x < s[k].end {
        var k :| 0 <= k < |s| && s[k].start <= x < s[k].end;
        if k > 0 {
          assert s[1..][k - 1] == s[k];
        }
      }
    }
  }

  /** Entries inside [lo, hi) cover only integers inside [lo, hi). */
  lemma {:induction false} CoveredWithin(s: seq<Range>, lo: int, hi: int)
    requires forall k :: 0 <= k < |s| ==> lo <= s[k].start && s[k].end <= hi
    ensures forall x :: x in Covered(s) ==> lo <= x < hi
  {
    if s != [] {
      CoveredWithin(s[1..], lo, hi);
    }
  }

  lemma {:induction false} CoveredConcat(a: seq<Range>, b: seq<Range>)
    ensures Covered(a + b) == Covered(a) + Covered(b)
  {
    if a == [] {
      assert a + b == b;
    } else {
      assert (a + b)[1..] == a[1..] + b;
      CoveredConcat(a[1..], b);
    }
  }

  lemma {:induction false} LenSlowConcat(a: seq<Range>, b: seq<Range>)
    ensures LenSlow(a + b) == LenSlow(a) + LenSlow(b)
  {
    if a == [] {
      assert a + b == b;
    } else {
      assert (a + b)[1..] == a[1..] + b;
      LenSlowConcat(a[1..], b);
    }
  }

  /** Splitting at entry i splits the covered set and the slow length. */
  lemma Split(s: seq<Range>, i: nat)
    requires i < |s|
    ensures s == s[..i] + [s[i]] + s[i + 1..]
    ensures Covered(s) == Covered(s[..i]) + Span(s[i].start, s[i].end) + Covered(s[i + 1..])
    ensures LenSlow(s) == LenSlow(s[..i]) + (s[i].end - s[i].start) + LenSlow(s[i + 1..])
  {
    Seqs.UpdateParts(s, i, s[i]);
    assert s[..i] + s[i..] == s && s[i..][1..] == s[i + 1..];
    SplitCovered(s[..i], s[i..]);
    SplitLenSlow(s[..i], s[i..]);
  }

  lemma SplitCovered(pre: seq<Range>, post: seq<Range>)
    requires post != []
    ensures Covered(pre + post) == Covered(pre) + Span(post[0].start, post[0].end) + Covered(post[1..])
  {
    CoveredConcat(pre, post);
  }

  lemma SplitLenSlow(pre: seq<Range>, post: seq<Range>)
    requires post != []
    ensures LenSlow(pre + post) == LenSlow(pre) + (post[0].end - post[0].start) + LenSlow(post[1..])
  {
    LenSlowConcat(pre, post);
  }

  /** Every entry of a well-formed map is non-empty, so `len_slow` is at least the number of entries. */
  lemma {:induction false} LenSlowNonNegative(s: seq<Range>)
    requires WellFormed(s)
    ensures LenSlow(s) >= |s|
    ensures LenSlow(s) >= 0
  {
    if s != [] {
      LenSlowNonNegative(s[1..]);
    }
  }

  /** `len_slow` counts the covered integers of a canonical map. */
  lemma {:induction false} CardCovered(s: seq<Range>)
    requires Canonical(s)
    ensures |Covered(s)| == LenSlow(s)
  {
    if s != [] {
      CanonicalTail(s);
      CardCovered(s[1..]);
      SpanCard(s[0].start, s[0].end);
      CoveredWithin(s[1..], s[0].end + 1, U128_MAX + 1);
      assert Span(s[0].start, s[0].end) !! Covered(s[1..]);
    }
  }

  /** A canonical map inside u128 covers at most u128::MAX integers, so its length fits a u128. */
  lemma LenSlowBound(s: seq<Range>)
    requires Canonical(s)
    ensures 0 <= LenSlow(s) <= U128_MAX
  {
    CardCovered(s);
    CoveredWithin(s, 0, U128_MAX);
    SubsetOfSpanCard(Covered(s), 0, U128_MAX);
  }

  /**
   * The canonical form is unique: two canonical maps covering the same integers
   * are the same map. So inserting a covered range changes nothing, and a union
   * does not depend on the order of its operands.
   */
  lemma {:induction false} CanonicalUnique(a: seq<Range>, b: seq<Range>)
    requires Canonical(a) && Canonical(b)
    requires Covered(a) == Covered(b)
    ensures a == b
  {
    assert a != [] ==> a[0].start in Covered(a);
    assert b != [] ==> b[0].start in Covered(b);
    if a != [] && b != [] {
      HeadsAgree(a, b);
      CanonicalUnique(a[1..], b[1..]);
      assert a == [a[0]] + a[1..];
      assert b == [b[0]] + b[1..];
    }
  }

  /** Two canonical maps covering the same integers have the same first entry, and their tails cover the same integers. */
  lemma HeadsAgree(a: seq<Range>, b: seq<Range>)
    requires Canonical(a) && Canonical(b) && a != [] && b != []
    requires Covered(a) == Covered(b)
    ensures a[0] == b[0] && Covered(a[1..]) == Covered(b[1..])
    ensures Canonical(a[1..]) && Canonical(b[1..])
  {
    CanonicalTail(a);
    CanonicalTail(b);
    CoveredWithin(a[1..], a[0].end + 1, U128_MAX + 1);
    CoveredWithin(b[1..], b[0].end + 1, U128_MAX + 1);
    assert Covered(a) == Span(a[0].start, a[0].end) + Covered(a[1..]);
    assert Covered(b) == Span(b[0].start, b[0].end) + Covered(b[1..]);
    StartsAgree(a, b);
    // both first entries end at the first integer above the common start that is not covered
    assert a[0].end !in Covered(b) && b[0].end !in Covered(a);
    assert a[0].end !in Span(b[0].start, b[0].end);
    assert b[0].end !in Span(a[0].start, a[0].end);
    assert Covered(a[1..]) == Covered(a) - Span(a[0].start, a[0].end);
    assert Covered(b[1..]) == Covered(b) - Span(b[0].start, b[0].end);
  }

  /** The first entry of a canonical map starts at its least covered integer. */
  lemma StartsAgree(a: seq<Range>, b: seq<Range>)
    requires Canonical(a) && Canonical(b) && a != [] && b != []
    requires Covered(a) == Covered(b)
    ensures a[0].start == b[0].start
  {
    assert a[0].start in Covered(a) && b[0].start in Covered(b);
    forall k | 0 < k < |a| ensures a[0].start <= a[k].start {
      assert Apart(a, 0, k);
    }
    forall k | 0 < k < |b| ensures b[0].start <= b[k].start {
      assert Apart(b, 0, k);
    }
    CoveredWithin(a, a[0].start, U128_MAX + 1);
    CoveredWithin(b, b[0].start, U128_MAX + 1);
  }

  // ---------------------------------------------------------------------------
  // Element order, for the consuming iterator

  /** The integers of [a, b) in ascending order, as a u128 `Range` yields them. */
  function RangeItems(a: nat, b: nat): (r: seq<nat>)
    ensures |r| == if a < b then b - a else 0
    ensures forall k :: 0 <= k < |r| ==> r[k] == a + k
  {
    if a < b then seq(b - a, k requires 0 <= k < b - a => a + k) else []
  }

  /** The elements of every entry, entry by entry. */
  function Flatten(s: seq<Range>): seq<nat>
  {
    if s == [] then [] else RangeItems(s[0].start, s[0].end) + Flatten(s[1..])
  }

  /** Flattening lists exactly the covered integers. */
  lemma {:induction false} FlattenCovers(s: seq<Range>)
    ensures forall x: nat :: x in Flatten(s) <==> x in Covered(s)
  {
    if s != [] {
      FlattenCovers(s[1..]);
      var items := RangeItems(s[0].start, s[0].end);
      forall x: nat | x in Span(s[0].start, s[0].end) ensures x in items {
        assert items[x - s[0].start] == x;
      }
    }
  }

  /** Flattening a canonical map lists its elements in strictly ascending order. */
  lemma {:induction false} FlattenAscending(s: seq<Range>)
    requires Canonical(s)
    ensures forall i, j :: 0 <= i < j < |Flatten(s)| ==> Flatten(s)[i] < Flatten(s)[j]
  {
    if s != [] {
      CanonicalTail(s);
      FlattenAscending(s[1..]);
      FlattenCovers(s[1..]);
      CoveredWithin(s[1..], s[0].end + 1, U128_MAX + 1);
      var head, tail := RangeItems(s[0].start, s[0].end), Flatten(s[1..]);
      assert Flatten(s) == head + tail;
      forall i, j | 0 <= i < j < |head + tail| ensures (head + tail)[i] < (head + tail)[j] {
        if j >= |head| && i < |head| {
          assert tail[j - |head|] in Covered(s[1..]);
        }
      }
    }
  }
}
