/** Option, as returned by map lookups and iterators. */
module Wrappers {
  datatype Option<+T> = None | Some(value: T)
}

/** Sets of consecutive integers, shared by the range map and the range iterators. */
module Intervals {

  /** The integers x with a <= x < b. */
  function Span(a: int, b: int): (s: set<int>)
    ensures forall x :: x in s <==> a <= x < b
    decreases b - a
  {
    if b <= a then {} else Span(a, b - 1) + {b - 1}
  }

  /** A span holds exactly as many integers as its width. */
  lemma {:induction false} SpanCard(a: int, b: int)
    requires a <= b
    ensures |Span(a, b)| == b - a
    decreases b - a
  {
    if a == b {
      assert Span(a, b) == {};
    } else {
      SpanCard(a, b - 1);
      assert Span(a, b) == Span(a, b - 1) + {b - 1};
    }
  }

  /** A set of integers inside [a, b) has at most b - a members. */
  lemma SubsetOfSpanCard(s: set<int>, a: int, b: int)
    requires a <= b
    requires forall x :: x in s ==> a <= x < b
    ensures |s| <= b - a
  {
    assert s <= Span(a, b);
    SpanCard(a, b);
    SubsetCard(s, Span(a, b));
  }

  lemma SubsetCard<T>(s: set<T>, t: set<T>)
    requires s <= t
    ensures |s| <= |t|
  {
    assert t == s + (t - s);
  }
}

/** Facts about slicing and concatenating sequences. */
module Seqs {

  lemma Regroup<T>(a: seq<T>, b: seq<T>, c: seq<T>)
    ensures a + b + c == a + (b + c)
  {
  }

  lemma SliceParts<T>(s: seq<T>, i: nat, j: nat)
    requires i < j <= |s|
    ensures s == s[..i] + ([s[i]] + (s[i + 1..j] + s[j..]))
  {
    assert s[i..] == [s[i]] + (s[i + 1..j] + s[j..]);
    assert s == s[..i] + s[i..];
  }

  /** Updating element i replaces it between the prefix and the suffix. */
  lemma UpdateParts<T>(s: seq<T>, i: nat, x: T)
    requires i < |s|
    ensures s[i := x] == s[..i] + [x] + s[i + 1..]
    ensures s == s[..i] + [s[i]] + s[i + 1..]
  {
  }

  /** The first j - k elements of the suffix from k are the slice k..j, the rest the suffix from j. */
  lemma SliceOfSuffix<T>(s: seq<T>, k: nat, j: nat)
    requires k <= j <= |s|
    ensures s[k..][..j - k] == s[k..j] && s[k..][j - k..] == s[j..]
  {
  }

  lemma SliceSnoc<T>(s: seq<T>, a: nat, b: nat)
    requires a <= b < |s|
    ensures s[a..b + 1] == s[a..b] + [s[b]]
  {
  }
}
