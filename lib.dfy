/**
 * `RangeSetInt` (src/lib.rs): a set of u128 values kept as a canonical map from
 * range start to exclusive range end, together with a cached element count.
 * Every mutation goes through `InternalAdd`, which finds the predecessor entry,
 * extends it or inserts a new entry, and then absorbs the following entries that
 * now overlap or touch it.
 */
module Lib {
  import opened Wrappers
  import opened Intervals
  import opened RangeMap
  import opened Seqs

  /** Rust's u128: arithmetic on it is checked, as in a debug build. */
  newtype u128 = x: int | 0 <= x <= 0xffff_ffff_ffff_ffff_ffff_ffff_ffff_ffff

  /**
   * The map just before `delete_extra` runs: entry i is the new or extended
   * range; the entries up to i are canonical, the entries after i are canonical,
   * keys ascend strictly, but entries after i may overlap or touch entry i.
   */
  ghost predicate ReadyToAbsorb(s: seq<Range>, i: nat)
  {
    && i < |s|
    && WellFormed(s)
    && (forall a, b :: 0 <= a < b < |s| ==> KeyBelow(s, a, b))
    && (forall a, b :: 0 <= a < b < |s| && (b <= i || i < a) ==> Apart(s, a, b))
  }

  /** Inserting a range after every entry that ends before it gives a map ready to absorb. */
  lemma InsertedReady(s: seq<Range>, k: nat, start: nat, end: nat)
    requires Canonical(s) && k <= |s| && start < end <= U128_MAX
    requires forall a :: 0 <= a < k ==> s[a].start < start
    requires k < |s| ==> s[k].start > start
    requires forall a :: 0 <= a < |s| && s[a].start <= start ==> s[a].end < start
    ensures var t := s[..k] + [Range(start, end)] + s[k..];
      && ReadyToAbsorb(t, k) && t[k] == Range(start, end)
      && Covered(t) == Covered(s) + Span(start, end)
      && LenSlow(t) == LenSlow(s) + (end - start)
  {
    var t := s[..k] + [Range(start, end)] + s[k..];
    InsertedOrder(s, k, t, Range(start, end));
    InsertedMeaning(s, k, t, Range(start, end));
  }

  lemma InsertedOrder(s: seq<Range>, k: nat, t: seq<Range>, r: Range)
    requires Canonical(s) && k <= |s| && r.start < r.end <= U128_MAX
    requires forall a :: 0 <= a < k ==> s[a].end < r.start
    requires k < |s| ==> s[k].start > r.start
    requires t == s[..k] + [r] + s[k..]
    ensures ReadyToAbsorb(t, k) && t[k] == r
  {
    assert |t| == |s| + 1;
    assert forall a :: 0 <= a < k ==> t[a] == s[a];
    assert forall a :: k < a < |t| ==> t[a] == s[a - 1];
    assert t[k] == r;
    forall a, b | 0 <= a < b < |t|
      ensures KeyBelow(t, a, b)
      ensures (b <= k || k < a) ==> Apart(t, a, b)
    {
      if b < k {
        assert Apart(s, a, b);
      } else if b == k {
        assert s[a].end < r.start;
      } else if a < k {
        assert Apart(s, a, b - 1);
      } else if a == k {
        assert s[k].start <= s[b - 1].start by {
          if k < b - 1 {
            assert Apart(s, k, b - 1);
          }
        }
      } else {
        assert Apart(s, a - 1, b - 1);
      }
    }
  }

  lemma InsertedMeaning(s: seq<Range>, k: nat, t: seq<Range>, r: Range)
    requires k <= |s| && t == s[..k] + [r] + s[k..]
    ensures Covered(t) == Covered(s) + Span(r.start, r.end)
    ensures LenSlow(t) == LenSlow(s) + (r.end - r.start)
  {
    Split(t, k);
    assert t[..k] == s[..k] && t[k + 1..] == s[k..];
    CoveredConcat(s[..k], s[k..]);
    LenSlowConcat(s[..k], s[k..]);
    assert s == s[..k] + s[k..];
  }

  /** Extending entry i of a canonical map gives a map ready to absorb. */
  lemma ExtendedReady(s: seq<Range>, i: nat, start: nat, end: nat)
    requires Canonical(s) && i < |s| && end <= U128_MAX
    requires s[i].start <= start <= s[i].end < end
    ensures var t := s[i := Range(s[i].start, end)];
      && ReadyToAbsorb(t, i)
      && Covered(t) == Covered(s) + Span(start, end)
      && LenSlow(t) == LenSlow(s) + (end - s[i].end)
  {
    var t := s[i := Range(s[i].start, end)];
    forall a, b | 0 <= a < b < |t|
      ensures KeyBelow(t, a, b)
      ensures (b <= i || i < a) ==> Apart(t, a, b)
    {
      assert Apart(s, a, b);
    }
    ExtendedMeaning(s, i, t, start);
  }

  lemma ExtendedMeaning(s: seq<Range>, i: nat, t: seq<Range>, start: nat)
    requires i < |s| && |t| == |s| && t == s[i := t[i]]
    requires t[i].start == s[i].start <= start <= s[i].end <= t[i].end
    ensures Covered(t) == Covered(s) + Span(start, t[i].end)
    ensures LenSlow(t) == LenSlow(s) + (t[i].end - s[i].end)
  {
    Split(s, i);
    Split(t, i);
    assert t[..i] == s[..i] && t[i + 1..] == s[i + 1..];
    assert Span(s[i].start, t[i].end) == Span(s[i].start, s[i].end) + Span(start, t[i].end);
  }

  /**
   * The state of the scan of `delete_extra` before entry j: entries i+1 .. j-1
   * start inside [start, end] and together with [start, end) cover exactly
   * [start, endNew); every later entry starting beyond `end` also starts beyond
   * `endNew`.
   */
  ghost predicate Scanned(s: seq<Range>, i: nat, j: nat, start: nat, end: nat, endNew: nat)
  {
    && i < j <= |s| && end <= endNew <= U128_MAX
    && (forall b :: j <= b < |s| && end < s[b].start ==> endNew < s[b].start)
    && Span(start, end) + Covered(s[i + 1..j]) == Span(start, endNew)
  }

  /**
   * Before the scan, `len` holds at least the length of the entries after i; the
   * rest of it, `extra`, together with `deficit` is the length up to entry i.
   */
  lemma ScanReady(s: seq<Range>, i: nat, len: int, deficit: nat) returns (extra: nat)
    requires ReadyToAbsorb(s, i) && deficit <= s[i].end - s[i].start
    requires len + deficit == LenSlow(s)
    ensures len == extra + LenSlow(s[i + 1..])
    ensures extra + deficit == LenSlow(s[..i]) + (s[i].end - s[i].start)
  {
    Split(s, i);
    LenSlowNonNegative(s[..i]);
    extra := len - LenSlow(s[i + 1..]);
  }

  /** Before the scan nothing is absorbed. */
  lemma ScanStart(s: seq<Range>, i: nat, start: nat, end: nat)
    requires ReadyToAbsorb(s, i) && s[i] == Range(start, end)
    ensures Scanned(s, i, i + 1, start, end, end)
  {
    assert s[i + 1..i + 1] == [];
  }

  /**
   * What the scan establishes when it stops: replacing entries i .. j-1 by
   * [start, endNew) keeps the covered set and gives a canonical map.
   */
  lemma Absorbed(s: seq<Range>, i: nat, j: nat, start: nat, end: nat, endNew: nat, t: seq<Range>)
    requires ReadyToAbsorb(s, i) && s[i] == Range(start, end) && Scanned(s, i, j, start, end, endNew)
    requires j < |s| ==> s[j].start > end
    requires t == s[..i] + [Range(start, endNew)] + s[j..]
    ensures Canonical(t) && Covered(t) == Covered(s)
    ensures i < |t| && t[..i] == s[..i] && t[i] == Range(start, endNew)
    ensures LenSlow(t) == LenSlow(s[..i]) + (endNew - start) + LenSlow(s[j..])
    ensures 0 <= LenSlow(t) <= U128_MAX
  {
    AbsorbedOrder(s, i, j, t, end, endNew);
    AbsorbedMeaning(s, i, j, t, start, end, endNew);
    assert t[..i] == s[..i];
    LenSlowBound(t);
  }

  lemma AbsorbedOrder(s: seq<Range>, i: nat, j: nat, t: seq<Range>, end: nat, endNew: nat)
    requires ReadyToAbsorb(s, i) && s[i].end == end
    requires i < j <= |s| && end <= endNew <= U128_MAX
    requires j < |s| ==> s[j].start > end
    requires forall b :: j <= b < |s| && end < s[b].start ==> endNew < s[b].start
    requires t == s[..i] + [Range(s[i].start, endNew)] + s[j..]
    ensures Canonical(t)
  {
    var d := j - i - 1;
    assert |t| == |s| - d;
    assert forall a :: 0 <= a < i ==> t[a] == s[a];
    assert forall a :: i < a < |t| ==> t[a] == s[a + d];
    forall a, b | 0 <= a < b < |t| ensures Apart(t, a, b) {
      if b < i {
        assert Apart(s, a, b);
      } else if b == i {
        assert Apart(s, a, i);
      } else if a < i {
        assert Apart(s, a, i) && KeyBelow(s, i, b + d);
      } else if a == i {
        assert s[j].start <= s[b + d].start by {
          if j < b + d {
            assert KeyBelow(s, j, b + d);
          }
        }
      } else {
        assert Apart(s, a + d, b + d);
      }
    }
  }

  lemma AbsorbedMeaning(s: seq<Range>, i: nat, j: nat, t: seq<Range>, start: nat, end: nat, endNew: nat)
    requires i < j <= |s| && s[i] == Range(start, end)
    requires Span(start, end) + Covered(s[i + 1..j]) == Span(start, endNew)
    requires t == s[..i] + [Range(start, endNew)] + s[j..]
    ensures Covered(t) == Covered(s)
    ensures LenSlow(t) == LenSlow(s[..i]) + (endNew - start) + LenSlow(s[j..])
  {
    var p, m, q, r := s[..i], s[i + 1..j], s[j..], Range(start, endNew);
    Regroup(p, [r], q);
    SliceParts(s, i, j);
    ReplacedCovered(p, m, q, s[i], r);
    ReplacedLenSlow(p, q, r);
  }

  /** Replacing an entry a and the entries m after it by one entry r covering the same integers. */
  lemma ReplacedCovered(p: seq<Range>, m: seq<Range>, q: seq<Range>, a: Range, r: Range)
    requires Span(a.start, a.end) + Covered(m) == Span(r.start, r.end)
    ensures Covered(p + ([r] + q)) == Covered(p + ([a] + (m + q)))
  {
    CoveredConcat(p, [r] + q);
    CoveredConcat([r], q);
    CoveredConcat(p, [a] + (m + q));
    CoveredConcat([a], m + q);
    CoveredConcat(m, q);
    assert [r][1..] == [] && [a][1..] == [];
  }

  lemma ReplacedLenSlow(p: seq<Range>, q: seq<Range>, r: Range)
    ensures LenSlow(p + ([r] + q)) == LenSlow(p) + (r.end - r.start) + LenSlow(q)
  {
    LenSlowConcat(p, [r] + q);
    assert ([r] + q)[1..] == q;
  }

  /** Absorbing one more entry that starts inside [start, end] widens the span to its end. */
  lemma AbsorbSpan(start: int, end: int, endNew: int, scanned: seq<Range>, r: Range)
    requires start < r.start <= end <= endNew
    requires Span(start, end) + Covered(scanned) == Span(start, endNew)
    ensures Span(start, end) + Covered(scanned + [r]) == Span(start, if endNew < r.end then r.end else endNew)
  {
    CoveredConcat(scanned, [r]);
    assert Covered([r]) == Span(r.start, r.end);
  }

  /** Removing the first entry after the kept prefix, by its key. */
  lemma RemoveNext(kept: seq<Range>, rest: seq<Range>)
    requires rest != []
    requires forall a :: 0 <= a < |kept| ==> kept[a].start < rest[0].start
    ensures Remove(kept + rest, rest[0].start) == kept + rest[1..]
  {
    var u := kept + rest;
    assert u[|kept|] == rest[0];
    RemoveAt(u, |kept|);
    assert u[..|kept|] == kept && u[|kept| + 1..] == rest[1..];
  }

  /** The keys of a sequence of entries. */
  function Keys(s: seq<Range>): (r: seq<nat>)
    ensures |r| == |s| && forall t :: 0 <= t < |s| ==> r[t] == s[t].start
  {
    if s == [] then [] else [s[0].start] + Keys(s[1..])
  }

  lemma LenSlowStep(s: seq<Range>, j: nat)
    requires j < |s| && WellFormed(s)
    ensures LenSlow(s[j..]) == (s[j].end - s[j].start) + LenSlow(s[j + 1..])
    ensures LenSlow(s[j + 1..]) >= 0
  {
    assert s[j..][1..] == s[j + 1..];
    LenSlowNonNegative(s[j + 1..]);
  }

  /**
   * After the scan, the map is the kept prefix (entries before i and the widened
   * entry i) followed by the entries after i; the collected keys are the first
   * of those, and every kept key lies below them.
   */
  lemma RemovalReady(s: seq<Range>, i: nat, j: nat, endNew: nat, kept: seq<Range>, rest: seq<Range>, keys: seq<nat>, final: seq<Range>)
    requires ReadyToAbsorb(s, i) && i < j <= |s| && rest == s[i + 1..]
    requires kept == s[..i] + [Range(s[i].start, endNew)]
    requires keys == Keys(s[i + 1..j])
    requires final == s[..i] + [Range(s[i].start, endNew)] + s[j..]
    ensures s[i := Range(s[i].start, endNew)] == kept + rest
    ensures endNew == s[i].end ==> s == kept + rest
    ensures |keys| <= |rest| && keys == Keys(rest[..|keys|])
    ensures forall a, b :: 0 <= a < |kept| && 0 <= b < |rest| ==> kept[a].start < rest[b].start
    ensures kept + rest[|keys|..] == final
  {
    forall a, b | 0 <= a < |kept| && 0 <= b < |rest| ensures kept[a].start < rest[b].start {
      assert rest[b] == s[i + 1 + b];
      assert KeyBelow(s, a, i + 1 + b);
      if a < i {
        assert kept[a] == s[a];
      }
    }
    UpdateParts(s, i, Range(s[i].start, endNew));
    SliceOfSuffix(s, i + 1, j);
  }

  /** Entry i is the first entry whose key is at least its own key. */
  lemma FirstAtOrAfter(s: seq<Range>, i: nat, first: nat)
    requires ReadyToAbsorb(s, i) && first == LowerBound(s, s[i].start)
    ensures first == i
  {
    assert first <= i;
    assert first < i ==> KeyBelow(s, first, i);
  }

  /**
   * One step of the scan of `delete_extra`: absorbing entry j, which starts at
   * or before `end`, moves every quantity of the scan to its next value and
   * keeps the scan's invariants.
   */
  lemma ScanStep(s: seq<Range>, i: nat, start: nat, end: nat, extra: int,
                 j: nat, endNew: nat, len: int, keys: seq<nat>,
                 jNext: nat, endNext: nat, lenNext: int, keysNext: seq<nat>)
    requires ReadyToAbsorb(s, i) && s[i] == Range(start, end) && Scanned(s, i, j, start, end, endNew)
    requires len == extra + LenSlow(s[j..]) && keys == Keys(s[i + 1..j])
    requires j < |s| && s[j].start <= end
    requires jNext == j + 1 && endNext == (if endNew < s[j].end then s[j].end else endNew)
    requires lenNext == len - (s[j].end - s[j].start) && keysNext == keys + [s[j].start]
    ensures Scanned(s, i, jNext, start, end, endNext)
    ensures lenNext == extra + LenSlow(s[jNext..])
    ensures keysNext == Keys(s[i + 1..jNext])
  {
    LenSlowStep(s, j);
    SliceSnoc(s, i + 1, j);
    KeysSnoc(s[i + 1..j], s[j]);
    ScanSpan(s, i, j, start, end, endNew, endNext);
  }

  /** Absorbing entry j keeps the covering and the bound on later starts. */
  lemma ScanSpan(s: seq<Range>, i: nat, j: nat, start: nat, end: nat, endNew: nat, endNext: nat)
    requires ReadyToAbsorb(s, i) && s[i] == Range(start, end) && Scanned(s, i, j, start, end, endNew)
    requires j < |s| && s[j].start <= end
    requires endNext == (if endNew < s[j].end then s[j].end else endNew)
    requires s[i + 1..j + 1] == s[i + 1..j] + [s[j]]
    ensures Scanned(s, i, j + 1, start, end, endNext)
  {
    assert KeyBelow(s, i, j);
    forall b | j + 1 <= b < |s| && end < s[b].start ensures endNext < s[b].start {
      assert Apart(s, j, b);
    }
    AbsorbSpan(start, end, endNew, s[i + 1..j], s[j]);
  }

  lemma KeysSnoc(s: seq<Range>, r: Range)
    ensures Keys(s + [r]) == Keys(s) + [r.start]
  {
  }

  /**
   * What `delete_extra` knows before its scan: the lower-bound lookup of
   * `start` finds entry i, nothing is absorbed yet, and `len` holds at least
   * the length of the entries after i; the rest of it, `extra`, together with
   * `deficit` is the length up to and including entry i.
   */
  lemma BeforeScan(s: seq<Range>, i: nat, first: nat, len: int, deficit: nat) returns (extra: nat)
    requires ReadyToAbsorb(s, i) && first == LowerBound(s, s[i].start)
    requires deficit <= s[i].end - s[i].start && len + deficit == LenSlow(s)
    ensures first == i && Scanned(s, i, i + 1, s[i].start, s[i].end, s[i].end)
    ensures len == extra + LenSlow(s[i + 1..])
    ensures extra + deficit == LenSlow(s[..i]) + (s[i].end - s[i].start)
  {
    FirstAtOrAfter(s, i, first);
    extra := ScanReady(s, i, len, deficit);
    ScanStart(s, i, s[i].start, s[i].end);
  }

  /**
   * What `delete_extra` knows after its scan stopped at entry j: widening entry
   * i to `endNew` gives the kept prefix followed by the entries after i; the
   * collected keys are the first of those; removing them leaves the canonical
   * map `final`, which covers what `s` covers and whose length is the scanned
   * count plus `deficit` plus the widening.
   */
  lemma AfterScan(s: seq<Range>, i: nat, j: nat, start: nat, end: nat, endNew: nat, keys: seq<nat>,
                  lenScan: int, deficit: nat, extra: nat)
    returns (kept: seq<Range>, rest: seq<Range>, final: seq<Range>)
    requires ReadyToAbsorb(s, i) && s[i] == Range(start, end) && Scanned(s, i, j, start, end, endNew) && (j < |s| ==> s[j].start > end)
    requires keys == Keys(s[i + 1..j])
    requires lenScan == extra + LenSlow(s[j..]) && extra + deficit == LenSlow(s[..i]) + (end - start)
    ensures s[i := Range(start, endNew)] == kept + rest
    ensures endNew == end ==> s == kept + rest
    ensures |keys| <= |rest| && keys == Keys(rest[..|keys|])
    ensures forall a, b :: 0 <= a < |kept| && 0 <= b < |rest| ==> kept[a].start < rest[b].start
    ensures kept + rest[|keys|..] == final
    ensures Canonical(final) && Covered(final) == Covered(s)
    ensures LenSlow(final) == lenScan + deficit + (endNew - end) <= U128_MAX
  {
    final := s[..i] + [Range(start, endNew)] + s[j..];
    Absorbed(s, i, j, start, end, endNew, final);
    kept, rest := s[..i] + [Range(start, endNew)], s[i + 1..];
    RemovalReady(s, i, j, endNew, kept, rest, keys, final);
  }

  /**
   * The scan of `delete_extra` (the `map_while` over `range_mut(start..)`):
   * walks the entries of `items` after entry `first` while they start at or
   * before `end`, widening `endNew` to the largest end seen, subtracting each
   * entry's length from the count and collecting its key.
   */
  method Scan(items: seq<Range>, lenIn: u128, start: nat, end: nat, first: nat, ghost extra: nat)
    returns (len: u128, endNew: nat, deleteList: seq<nat>, j: nat)
    requires ReadyToAbsorb(items, first) && items[first] == Range(start, end)
    requires Scanned(items, first, first + 1, start, end, end)
    requires lenIn as int == extra + LenSlow(items[first + 1..])
    ensures Scanned(items, first, j, start, end, endNew)
    ensures j < |items| ==> items[j].start > end
    ensures len as int == extra + LenSlow(items[j..])
    ensures deleteList == Keys(items[first + 1..j])
  {
    len, endNew, deleteList := lenIn, end, [];
    j := first + 1;
    while j < |items| && items[j].start <= end
      invariant Scanned(items, first, j, start, end, endNew)
      invariant len as int == extra + LenSlow(items[j..])
      invariant deleteList == Keys(items[first + 1..j])
      decreases |items| - j
    {
      var entry := items[j];
      LenSlowStep(items, j);
      ghost var j0, endNew0, len0, keys0 := j, endNew, len, deleteList;
      endNew := if endNew < entry.end then entry.end else endNew;
      len := len - (entry.end - entry.start) as u128;
      deleteList := deleteList + [entry.start];
      j := j + 1;
      ScanStep(items, first, start, end, extra, j0, endNew0, len0 as int, keys0, j, endNew, len as int, deleteList);
    }
  }

  class RangeSetInt {
    /** The cached number of elements. */
    var len: u128
    /** The `BTreeMap<u128, u128>` in ascending key order. */
    var items: seq<Range>

    ghost predicate Valid()
      reads this
    {
      Canonical(items) && len as int == LenSlow(items)
    }

    /** The set of u128 values this set holds. */
    ghost function Contents(): set<int>
      reads this
    {
      Covered(items)
    }

    /** `RangeSetInt::new`: the empty set. */
    constructor ()
      ensures Valid() && items == [] && len == 0
    {
      len := 0;
      items := [];
    }

    /** `clear`: empties the map and resets the count. */
    method Clear()
      modifies this
      ensures Valid() && items == [] && len == 0 && Contents() == {}
    {
      items := [];
      len := 0;
    }

    /** `len`: the cached count, which is the number of values in the set. */
    function Len(): (r: u128)
      reads this
      requires Valid()
      ensures r as int == |Contents()|
    {
      CardCovered(items);
      len
    }

    /** `contains`: look up the predecessor of `value` and compare with its end. */
    function Contains(value: nat): (r: bool)
      reads this
      requires Valid()
      ensures r <==> value in Contents()
    {
      InCovered(items, value);
      CanonicalPairs(items);
      var p := Predecessor(items, value);
      if p.Some? then value < items[p.value].end else false
    }

    /**
     * `internal_add`: adds [start, end) to the set. It panics unless start < end.
     *
     * The length bookkeeping of the extending branch adds `end - end_before`
     * only after the absorbed successors have been subtracted, so that `len`
     * never exceeds the final count (see `ExtendedLenAsWritten`).
     */
    method InternalAdd(start: nat, end: nat)
      requires Valid()
      requires start < end <= U128_MAX
      modifies this
      ensures Valid()
      ensures Contents() == old(Contents()) + Span(start, end)
      ensures Span(start, end) <= old(Contents()) ==> items == old(items) && len == old(len)
    {
      ghost var before := items;
      var before_ := Predecessor(items, start);
      if before_.Some? {
        var i := before_.value;
        var endBefore := items[i].end;
        if endBefore < start {
          CanonicalPairs(items);
          Insert(start, end);
          LenSlowBound(items);
          len := len + (end - start) as u128;
        } else if endBefore < end {
          var startBefore := items[i].start;
          ExtendedReady(items, i, start, end);
          items := items[i := Range(startBefore, end)];
          DeleteExtra(startBefore, end, i, end - endBefore);
          LenSlowBound(items);
          len := len + (end - endBefore) as u128;
        } else {
          // completely contained, so do nothing
          assert Span(start, end) <= Span(items[i].start, items[i].end);
          InCovered(items, start);
          CanonicalPairs(items);
          CoveredWithin(items[..i], 0, items[i].start);
          Split(items, i);
        }
      } else {
        CanonicalPairs(items);
        Insert(start, end);
        LenSlowBound(items);
        len := len + (end - start) as u128;
      }
      if Span(start, end) <= Covered(before) {
        CanonicalUnique(items, before);
      }
    }

    /**
     * `delete_extra`: entry i is (start, end); fold every following entry that
     * starts at or before `end` into it, subtracting its length from `len`, then
     * remove those entries. `deficit` is what `len` still lacks of `len_slow`.
     */
    method DeleteExtra(start: nat, end: nat, ghost i: nat, ghost deficit: nat)
      requires ReadyToAbsorb(items, i) && items[i] == Range(start, end)
      requires end <= U128_MAX && deficit <= end - start
      requires len as int + deficit == LenSlow(items)
      modifies this
      ensures Canonical(items)
      ensures len as int + deficit == LenSlow(items)
      ensures Covered(items) == old(Covered(items))
    {
      var first := LowerBound(items, start);
      // the first entry at or after `start` is (start, end)
      ghost var extra := BeforeScan(items, i, first, len as int, deficit);
      var endNew, deleteList, j;
      len, endNew, deleteList, j := Scan(items, len, start, end, first, extra);
      ghost var kept, rest, final := AfterScan(items, i, j, start, end, endNew, deleteList, len as int, deficit, extra);
      if endNew > end {
        len := len + (endNew - end) as u128;
        items := items[first := Range(start, endNew)];
      }
      RemoveKeys(deleteList, kept, rest);
    }

    /** The removal loop of `delete_extra`: `for start in delete_list { items.remove(&start); }`. */
    method RemoveKeys(keys: seq<nat>, ghost kept: seq<Range>, ghost rest: seq<Range>)
      requires items == kept + rest && |keys| <= |rest| && keys == Keys(rest[..|keys|])
      requires forall a, b :: 0 <= a < |kept| && 0 <= b < |rest| ==> kept[a].start < rest[b].start
      modifies this`items
      ensures items == kept + rest[|keys|..]
    {
      var t := 0;
      while t < |keys|
        invariant 0 <= t <= |keys|
        invariant items == kept + rest[t..]
      {
        assert keys[t] == rest[t..][0].start;
        RemoveNext(kept, rest[t..]);
        items := Remove(items, keys[t]);
        assert rest[t..][1..] == rest[t + 1..];
        t := t + 1;
      }
    }

    /**
     * `insert`: puts the new entry (start, end) into the map, whose key is not
     * there yet, and absorbs what follows it.
     */
    method Insert(start: nat, end: nat)
      requires Valid()
      requires start < end <= U128_MAX
      requires forall k :: 0 <= k < |items| && items[k].start <= start ==> items[k].end < start
      modifies this
      ensures Canonical(items)
      ensures len as int + (end - start) == LenSlow(items)
      ensures Covered(items) == old(Covered(items)) + Span(start, end)
    {
      var k := LowerBound(items, start);
      var wasThere := Get(items, start);
      assert wasThere.None?;
      InsertedReady(items, k, start, end);
      items := items[..k] + [Range(start, end)] + items[k..];
      DeleteExtra(start, end, k, end - start);
    }

    /** `append`: adds every range of `other`, then empties `other`. */
    method Append(other: RangeSetInt)
      requires Valid() && other.Valid() && other != this
      modifies this, other
      ensures Valid() && other.Valid()
      ensures Contents() == old(Contents()) + old(other.Contents())
      ensures other.items == [] && other.len == 0
    {
      var t := 0;
      while t < |other.items|
        invariant 0 <= t <= |other.items|
        invariant Valid() && other.Valid()
        invariant other.items == old(other.items)
        invariant Contents() == old(Contents()) + Covered(other.items[..t])
      {
        var r := other.items[t];
        InternalAdd(r.start, r.end);
        assert other.items[..t + 1] == other.items[..t] + [r];
        CoveredConcat(other.items[..t], [r]);
        assert Covered([r]) == Span(r.start, r.end);
        t := t + 1;
      }
      assert other.items[..t] == other.items;
      other.Clear();
    }

    /** The derived `clone`. */
    method Clone() returns (c: RangeSetInt)
      ensures fresh(c) && c.items == items && c.len == len
    {
      c := new RangeSetInt();
      c.items := items;
      c.len := len;
    }

    /** `bitor` (`&a | &b`): a new set holding both operands; neither operand changes. */
    method BitOr(rhs: RangeSetInt) returns (result: RangeSetInt)
      requires Valid() && rhs.Valid()
      ensures fresh(result) && result.Valid()
      ensures result.Contents() == Contents() + rhs.Contents()
    {
      result := Clone();
      var t := 0;
      while t < |rhs.items|
        invariant 0 <= t <= |rhs.items|
        invariant fresh(result) && result.Valid()
        invariant result.Contents() == Contents() + Covered(rhs.items[..t])
      {
        var r := rhs.items[t];
        result.InternalAdd(r.start, r.end);
        assert rhs.items[..t + 1] == rhs.items[..t] + [r];
        CoveredConcat(rhs.items[..t], [r]);
        assert Covered([r]) == Span(r.start, r.end);
        t := t + 1;
      }
      assert rhs.items[..t] == rhs.items;
    }

    /** `From<[u128; N]>`: each value v is added as the range [v, v + 1). */
    static method FromValues(values: seq<nat>) returns (result: RangeSetInt)
      requires forall k :: 0 <= k < |values| ==> values[k] < U128_MAX
      ensures fresh(result) && result.Valid()
      ensures forall x :: x in result.Contents() <==> x in values
    {
      result := new RangeSetInt();
      var t := 0;
      while t < |values|
        invariant 0 <= t <= |values|
        invariant fresh(result) && result.Valid()
        invariant forall x :: x in result.Contents() <==> x in values[..t]
      {
        result.InternalAdd(values[t], values[t] + 1);
        assert values[..t + 1] == values[..t] + [values[t]];
        t := t + 1;
      }
      assert values[..t] == values;
    }
  }

  /**
   * `IntoIter`: the consuming iterator over the elements. `item_iter` is the
   * range itemStart..itemEnd still being walked; `range_iter` is the map's
   * entries from `cursor` on.
   */
  class IntoIter {
    var itemStart: nat
    var itemEnd: nat
    var ranges: seq<Range>
    var cursor: nat

    ghost predicate Valid()
      reads this
    {
      cursor <= |ranges|
    }

    /** The elements still to be yielded, in order. */
    ghost function Remaining(): seq<nat>
      reads this
      requires Valid()
    {
      RangeItems(itemStart, itemEnd) + Flatten(ranges[cursor..])
    }

    /** `into_iter`: starts with the empty `item_iter` 0..0 before the first entry. */
    constructor (s: RangeSetInt)
      ensures Valid() && ranges == s.items && Remaining() == Flatten(s.items)
    {
      itemStart, itemEnd := 0, 0;
      ranges := s.items;
      cursor := 0;
      assert s.items[0..] == s.items;
    }

    /** `next`: the next element of the current range, else move to the next entry and retry. */
    method Next() returns (r: Option<nat>)
      requires Valid()
      modifies this
      ensures Valid() && ranges == old(ranges)
      ensures old(Remaining()) == [] ==> r.None? && Remaining() == []
      ensures old(Remaining()) != [] ==> r == Some(old(Remaining())[0]) && Remaining() == old(Remaining())[1..]
      decreases |ranges| - cursor, if itemStart < itemEnd then 0 else 1
    {
      if itemStart < itemEnd {
        r := Some(itemStart);
        RangeItemsTail(itemStart, itemEnd);
        itemStart := itemStart + 1;
        return;
      }
      if cursor < |ranges| {
        var entry := ranges[cursor];
        FlattenStep(ranges, cursor);
        cursor := cursor + 1;
        itemStart, itemEnd := entry.start, entry.end;
        r := Next();
        return;
      }
      r := None;
    }
  }

  lemma RangeItemsTail(a: nat, b: nat)
    requires a < b
    ensures RangeItems(a, b) == [a] + RangeItems(a + 1, b)
  {
    assert RangeItems(a, b)[1..] == RangeItems(a + 1, b);
  }

  lemma FlattenStep(s: seq<Range>, i: nat)
    requires i < |s|
    ensures Flatten(s[i..]) == RangeItems(s[i].start, s[i].end) + Flatten(s[i + 1..])
  {
    assert s[i..][1..] == s[i + 1..];
  }

  /** `IntoIter` yields the values of a set exactly once each, in strictly ascending order. */
  lemma IntoIterOrder(s: RangeSetInt)
    requires s.Valid()
    ensures forall x: nat :: x in Flatten(s.items) <==> x in s.Contents()
    ensures forall i, j :: 0 <= i < j < |Flatten(s.items)| ==> Flatten(s.items)[i] < Flatten(s.items)[j]
  {
    FlattenCovers(s.items);
    FlattenAscending(s.items);
  }

  // ---------------------------------------------------------------------------
  // The examples of the documentation comments

  /** `{1, 2, 3}` contains 1 and not 4. */
  method ContainsExample() returns (has1: bool, has4: bool)
    ensures has1 && !has4
  {
    var rs := RangeSetInt.FromValues([1, 2, 3]);
    has1 := rs.Contains(1);
    has4 := rs.Contains(4);
  }

  /** `1..4` appended with `3..6`: five values 1 to 5, and the other set is empty. */
  method AppendExample() returns (aLen: u128, bLen: u128, covers: bool)
    ensures aLen == 5 && bLen == 0 && covers
  {
    var a := new RangeSetInt();
    a.InternalAdd(1, 4);
    var b := new RangeSetInt();
    b.InternalAdd(3, 6);
    a.Append(b);
    assert a.Contents() == Span(1, 6);
    SpanCard(1, 6);
    aLen := a.Len();
    bLen := b.Len();
    covers := a.Contains(1) && a.Contains(2) && a.Contains(3) && a.Contains(4) && a.Contains(5);
  }

  /** `{1, 2, 3} | {3, 4, 5} == {1, 2, 3, 4, 5}`, as equal maps and counts. */
  method BitOrExample() returns (equal: bool)
    ensures equal
  {
    var a := RangeSetInt.FromValues([1, 2, 3]);
    var b := RangeSetInt.FromValues([3, 4, 5]);
    var result := a.BitOr(b);
    var expected := RangeSetInt.FromValues([1, 2, 3, 4, 5]);
    assert result.Contents() == expected.Contents();
    CanonicalUnique(result.items, expected.items);
    equal := result.items == expected.items && result.len == expected.len;
  }

  /** `collect`: calls `next` until it returns `None`; gathers every element still to come. */
  method Collect(it: IntoIter) returns (v: seq<nat>)
    requires it.Valid()
    modifies it
    ensures v == old(it.Remaining())
  {
    ghost var all := it.Remaining();
    v := [];
    while true
      invariant it.Valid()
      invariant v + it.Remaining() == all
      decreases |it.Remaining()|
    {
      ghost var rest := it.Remaining();
      var x := it.Next();
      if x.None? {
        assert v + [] == v;
        return;
      }
      assert rest == [x.value] + it.Remaining();
      Seqs.Regroup(v, [x.value], it.Remaining());
      v := v + [x.value];
    }
  }

  /** Collecting `{1, 2, 3, 4}` gives [1, 2, 3, 4]. */
  method IntoIterExample() returns (v: seq<nat>)
    ensures v == [1, 2, 3, 4]
  {
    var rs := RangeSetInt.FromValues([1, 2, 3, 4]);
    OneToFour(rs.items);
    var it := new IntoIter(rs);
    v := Collect(it);
  }

  /** The canonical map holding 1, 2, 3 and 4 is the single entry 1..5. */
  lemma OneToFour(s: seq<Range>)
    requires Canonical(s) && forall x :: x in Covered(s) <==> x in [1, 2, 3, 4]
    ensures Flatten(s) == [1, 2, 3, 4]
  {
    var one := [Range(1, 5)];
    assert one[1..] == [];
    assert Covered(one) == Span(1, 5);
    assert Covered(s) == Covered(one);
    CanonicalUnique(s, one);
    assert Flatten(one) == RangeItems(1, 5) + Flatten([]);
  }

  // ---------------------------------------------------------------------------
  // The length bookkeeping of lib.rs as written

  /**
   * The value the extending branch of `internal_add` stores into the u128 `len`
   * before `delete_extra` subtracts the absorbed successors, as written: the old
   * length plus `end - end_before`.
   */
  function ExtendedLenAsWritten(s: seq<Range>, start: nat, end: nat): (r: int)
    ensures r >= LenSlow(s)
  {
    var p := Predecessor(s, start);
    if p.Some? && start <= s[p.value].end < end then LenSlow(s) + (end - s[p.value].end) else LenSlow(s)
  }

  /**
   * With entries 0..1 and 2..n (length n - 1), adding 1..n stores the
   * intermediate value 2n - 2, although the final set [0, n) has n values. For
   * n = u128::MAX the intermediate value overflows and the addition panics in a
   * debug build, while the final length fits.
   */
  lemma ExtendOverflowsAsWritten(n: nat)
    requires 3 <= n <= U128_MAX
    ensures var s := [Range(0, 1), Range(2, n)];
      && Canonical(s) && LenSlow(s) == n - 1
      && ExtendedLenAsWritten(s, 1, n) == 2 * n - 2
      && |Covered(s) + Span(1, n)| == n
      && (n == U128_MAX ==> ExtendedLenAsWritten(s, 1, n) > U128_MAX)
  {
    var s := [Range(0, 1), Range(2, n)];
    WitnessShape(s, n);
    WitnessPredecessor(s, n);
    SpanCard(0, n);
  }

  lemma WitnessPredecessor(s: seq<Range>, n: nat)
    requires 3 <= n <= U128_MAX && s == [Range(0, 1), Range(2, n)]
    ensures Canonical(s) && Predecessor(s, 1) == Some(0)
  {
    assert Apart(s, 0, 1);
  }

  lemma WitnessShape(s: seq<Range>, n: nat)
    requires 3 <= n && s == [Range(0, 1), Range(2, n)]
    ensures Covered(s) + Span(1, n) == Span(0, n)
    ensures LenSlow(s) == n - 1
  {
    var tail := [Range(2, n)];
    assert s[1..] == tail && tail[1..] == [];
    assert Covered(tail[1..]) == {} && LenSlow(tail[1..]) == 0;
    assert Covered(tail) == Span(2, n) && LenSlow(tail) == n - 2;
    assert Covered(s) == Span(0, 1) + Covered(tail) && LenSlow(s) == 1 + LenSlow(tail);
  }
}
