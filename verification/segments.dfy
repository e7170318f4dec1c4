/**
 * Segment-by-segment comparison of dotted codes, the loop shared by the three
 * comparators: segments are compared as integers from the left, and a segment that
 * one code lacks counts as 0.
 */
module Segments {

  /** The `i`-th segment value, or 0 past the end. */
  function SegmentOr0(xs: seq<int>, i: nat): int {
    if i < |xs| then xs[i] else 0
  }

  function MaxLen(xs: seq<int>, ys: seq<int>): nat {
    if |xs| < |ys| then |ys| else |xs|
  }

  /** Compare from segment `i` on; -1, 0 or 1. */
  function CompareFrom(xs: seq<int>, ys: seq<int>, i: nat): (r: int)
    ensures -1 <= r <= 1
    decreases MaxLen(xs, ys) - i
  {
    if i >= MaxLen(xs, ys) then 0
    else if SegmentOr0(xs, i) < SegmentOr0(ys, i) then -1
    else if SegmentOr0(xs, i) > SegmentOr0(ys, i) then 1
    else CompareFrom(xs, ys, i + 1)
  }

  function CompareSegments(xs: seq<int>, ys: seq<int>): (r: int)
    ensures -1 <= r <= 1
  {
    CompareFrom(xs, ys, 0)
  }

  lemma {:induction false} CompareFromAntisymmetric(xs: seq<int>, ys: seq<int>, i: nat)
    ensures CompareFrom(xs, ys, i) == -CompareFrom(ys, xs, i)
    decreases MaxLen(xs, ys) - i
  {
    if i < MaxLen(xs, ys) && SegmentOr0(xs, i) == SegmentOr0(ys, i) {
      CompareFromAntisymmetric(xs, ys, i + 1);
    }
  }

  /** Swapping the arguments negates the result. */
  lemma CompareAntisymmetric(xs: seq<int>, ys: seq<int>)
    ensures CompareSegments(xs, ys) == -CompareSegments(ys, xs)
  {
    CompareFromAntisymmetric(xs, ys, 0);
  }

  lemma {:induction false} CompareFromZeroIff(xs: seq<int>, ys: seq<int>, i: nat)
    ensures CompareFrom(xs, ys, i) == 0
            <==> forall j: nat :: i <= j ==> SegmentOr0(xs, j) == SegmentOr0(ys, j)
    decreases MaxLen(xs, ys) - i
  {
    if i < MaxLen(xs, ys) && SegmentOr0(xs, i) == SegmentOr0(ys, i) {
      CompareFromZeroIff(xs, ys, i + 1);
      forall j: nat | i <= j && (forall j': nat :: i + 1 <= j' ==> SegmentOr0(xs, j') == SegmentOr0(ys, j'))
        ensures SegmentOr0(xs, j) == SegmentOr0(ys, j)
      {
        if j > i {
          assert i + 1 <= j;
        }
      }
    }
  }

  /** Two segment lists compare equal exactly when they agree once padded with zeros. */
  lemma CompareZeroIff(xs: seq<int>, ys: seq<int>)
    ensures CompareSegments(xs, ys) == 0 <==> forall j: nat :: SegmentOr0(xs, j) == SegmentOr0(ys, j)
  {
    CompareFromZeroIff(xs, ys, 0);
  }

  /** The sign of `u - v`: -1, 0 or 1. */
  function Sign(u: int, v: int): int {
    if u < v then -1 else if u > v then 1 else 0
  }

  lemma {:induction false} CompareFromCommonPrefix(xs: seq<int>, u: int, v: int, i: nat)
    requires i <= |xs|
    ensures CompareFrom(xs + [u], xs + [v], i) == Sign(u, v)
    decreases |xs| - i
  {
    if i < |xs| {
      assert SegmentOr0(xs + [u], i) == xs[i] == SegmentOr0(xs + [v], i);
      CompareFromCommonPrefix(xs, u, v, i + 1);
    } else {
      assert SegmentOr0(xs + [u], i) == u && SegmentOr0(xs + [v], i) == v;
    }
  }

  /** Two lists that differ only in their last segment are ordered by that segment. */
  lemma CompareLastSegment(xs: seq<int>, u: int, v: int)
    ensures CompareSegments(xs + [u], xs + [v]) == Sign(u, v)
  {
    CompareFromCommonPrefix(xs, u, v, 0);
  }

  /** Appending a zero segment does not change a list's place in the order. */
  lemma CompareTrailingZero(xs: seq<int>)
    ensures CompareSegments(xs, xs + [0]) == 0
  {
    forall j: nat
      ensures SegmentOr0(xs, j) == SegmentOr0(xs + [0], j)
    {
    }
    CompareZeroIff(xs, xs + [0]);
  }
}
