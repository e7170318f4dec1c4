/**
 * The `compare_codes` comparison the link scripts share once their own
 * `normalize_code` has run (Matrix/apply_correct_hierarchy.py, Matrix/apply_root_tags.py):
 * equal normal forms compare 0; otherwise the dot-separated segments are compared as
 * integers, a segment that is not all digits or is missing counting as 0.
 * Also the `-root(...)` tag the scripts write on backward links, the link-file entry,
 * and the tagging loop both scripts run over the entries, in place.
 */
module PyCodes {
  import opened Wrappers
  import opened Strings
  import Segments

  /** `int(p) if p.isdigit() else 0`. */
  function SegmentValue(p: string): (n: nat)
    ensures IsAllDigits(p) ==> n == DigitsValue(p)
    ensures !IsAllDigits(p) ==> n == 0
  {
    if IsAllDigits(p) then DigitsValue(p) else 0
  }

  /** The segment values of `code.split('.')`. */
  function SegmentValues(code: string): (vs: seq<int>)
    ensures |vs| == |Split(code, '.')|
    ensures forall k :: 0 <= k < |vs| ==> vs[k] == SegmentValue(Split(code, '.')[k])
  {
    var parts := Split(code, '.');
    seq(|parts|, k requires 0 <= k < |parts| => SegmentValue(parts[k]))
  }

  /** The body of `compare_codes` after both codes are normalised. */
  function CompareNormalized(a: string, b: string): (r: int)
    ensures -1 <= r <= 1
    ensures a == b ==> r == 0
  {
    if a == b then 0 else Segments.CompareSegments(SegmentValues(a), SegmentValues(b))
  }

  /** Swapping the codes negates the comparison. */
  lemma CompareNormalizedAntisymmetric(a: string, b: string)
    ensures CompareNormalized(a, b) == -CompareNormalized(b, a)
  {
    if a != b {
      Segments.CompareAntisymmetric(SegmentValues(a), SegmentValues(b));
    }
  }

  /** Comparison 0 means the codes agree segment by segment, missing segments read as 0. */
  lemma CompareNormalizedZero(a: string, b: string)
    ensures CompareNormalized(a, b) == 0 <==>
              a == b || forall j: nat :: Segments.SegmentOr0(SegmentValues(a), j) == Segments.SegmentOr0(SegmentValues(b), j)
  {
    if a != b {
      Segments.CompareZeroIff(SegmentValues(a), SegmentValues(b));
    }
  }

  const RootMarker := "-root"

  /** `f"{l}-root({l})"`. */
  function Tag(l: string): (t: string)
    ensures l <= t && |t| == 2 * |l| + 7
  {
    l + "-root(" + l + ")"
  }

  /** The first "-root" in a tag is the one the tag adds, when the link itself has none. */
  lemma TagMarkerAt(l: string)
    requires !Contains(l, RootMarker)
    ensures FindFrom(Tag(l), RootMarker, 0) == Some(|l|)
  {
    var t := Tag(l);
    assert OccursAt(t, RootMarker, |l|) by { assert t[|l|..|l| + 5] == RootMarker; }
    forall k | 0 <= k < |l|
      ensures !OccursAt(t, RootMarker, k)
    {
      if k + 5 <= |l| {
        assert !OccursAt(l, RootMarker, k);
        assert t[k..k + 5] == l[k..k + 5];
      } else {
        assert t[|l|] == '-';
        assert t[k..k + 5][|l| - k] == t[|l|];
      }
    }
  }

  /** An entry of a links file; a missing `linked_criteria` is the empty list, a missing `criteria` "". */
  datatype Entry = Entry(criteria: string, linkedCriteria: seq<string>)

  /** One link after tagging: `{l}-root({l})` when it compares below its owner, else itself. */
  function TagOne(cmp: (string, string) -> int, cid: string, l: string): string {
    if cmp(l, cid) < 0 then Tag(l) else l
  }

  /** The links of one entry after tagging. */
  function TaggedLinks(cmp: (string, string) -> int, cid: string, links: seq<string>): (ts: seq<string>)
    ensures |ts| == |links|
  {
    if links == [] then []
    else TaggedLinks(cmp, cid, links[..|links| - 1]) + [TagOne(cmp, cid, links[|links| - 1])]
  }

  /** Tagging rewrites each link on its own. */
  lemma {:induction false} TaggedLinksAt(cmp: (string, string) -> int, cid: string, links: seq<string>, k: nat)
    requires k < |links|
    ensures TaggedLinks(cmp, cid, links)[k] == TagOne(cmp, cid, links[k])
  {
    if k < |links| - 1 {
      TaggedLinksAt(cmp, cid, links[..|links| - 1], k);
    }
  }

  /** The inner tagging loop for one entry, over a comparison `cmp`. */
  method TagBackwardLinks(cmp: (string, string) -> int, cid: string, links: seq<string>) returns (tagged: seq<string>)
    ensures tagged == TaggedLinks(cmp, cid, links)
  {
    tagged := [];
    for i := 0 to |links|
      invariant tagged == TaggedLinks(cmp, cid, links[..i])
    {
      assert links[..i + 1][..i] == links[..i];
      var t := if cmp(links[i], cid) < 0 then Tag(links[i]) else links[i];
      tagged := tagged + [t];
    }
    assert links[..|links|] == links;
  }

  /** The tagging loop over all entries: each entry's links tagged against its own code, in place. */
  method TagPass(cmp: (string, string) -> int, data: array<Entry>)
    modifies data
    ensures forall j :: 0 <= j < data.Length ==>
              data[j] == Entry(old(data[j]).criteria, TaggedLinks(cmp, old(data[j]).criteria, old(data[j]).linkedCriteria))
  {
    for i := 0 to data.Length
      invariant forall j :: 0 <= j < i ==>
                  data[j] == Entry(old(data[j]).criteria, TaggedLinks(cmp, old(data[j]).criteria, old(data[j]).linkedCriteria))
      invariant forall j :: i <= j < data.Length ==> data[j] == old(data[j])
    {
      var tagged := TagBackwardLinks(cmp, data[i].criteria, data[i].linkedCriteria);
      data[i] := data[i].(linkedCriteria := tagged);
    }
  }
}
