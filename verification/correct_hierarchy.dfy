/**
 * Matrix/apply_correct_hierarchy.py: normalise the linked criteria of every entry, break
 * mutual links in favour of the smaller code, then tag the remaining backward links
 * with `-root(...)`. The JSON file is read into, and written from, the array the
 * transformation updates in place.
 */
module CorrectHierarchy {
  import opened Wrappers
  import opened Strings
  import opened Seqs
  import opened PyCodes

  /** The text before the first occurrence of a marker holds no occurrence of it. */
  lemma BeforeFirstClean(code: string, marker: string)
    requires marker != []
    ensures !Contains(BeforeFirst(code, marker), marker)
  {
    var b := BeforeFirst(code, marker);
    forall k | OccursAt(b, marker, k)
      ensures OccursAt(code, marker, k) && k < |b|
    {
      assert code[k..k + |marker|] == b[k..k + |marker|];
    }
  }

  /** normalize_code: the text before the first "-root", stripped; a falsy code gives "". */
  function NormalizeCode(code: string): (r: string)
    ensures code == "" ==> r == ""
    ensures !Contains(r, PyCodes.RootMarker)
    ensures r == [] || (!IsPySpace(r[0]) && !IsPySpace(r[|r| - 1]))
    ensures !Contains(code, PyCodes.RootMarker) ==> r == Trim(Py, code)
  {
    if code == "" then ""
    else
      var b := BeforeFirst(code, PyCodes.RootMarker);
      BeforeFirstClean(code, PyCodes.RootMarker);
      var t := TrimStart(Py, b);
      NotContainsSlice(b, PyCodes.RootMarker, LeadingSpaces(Py, b), |b|);
      assert t == b[LeadingSpaces(Py, b)..|b|];
      NotContainsSlice(t, PyCodes.RootMarker, 0, |t| - TrailingSpaces(Py, t));
      Trim(Py, b)
  }

  /** Everything from the first "-root" on is dropped: `1.1.1.1 -root(1.1.1.1)` gives `1.1.1.1`. */
  lemma NormalizeDropsTail(code: string, tail: string)
    requires !Contains(code, PyCodes.RootMarker)
    ensures NormalizeCode(code + PyCodes.RootMarker + tail) == Trim(Py, code)
  {
    var s := code + PyCodes.RootMarker + tail;
    FindAfterClean(code, PyCodes.RootMarker, tail);
    assert s[..|code|] == code;
  }

  /** Normalising a normal form changes nothing. */
  lemma NormalizeIdempotent(code: string)
    ensures NormalizeCode(NormalizeCode(code)) == NormalizeCode(code)
  {
    var r := NormalizeCode(code);
    if r != "" {
      TrimmedUnchanged(Py, r);
    }
  }

  /** A tagged normal form normalises back to itself: the tag is undone by normalize_code. */
  lemma NormalizeTag(code: string)
    ensures NormalizeCode(PyCodes.Tag(NormalizeCode(code))) == NormalizeCode(code)
  {
    var l := NormalizeCode(code);
    PyCodes.TagMarkerAt(l);
    TrimmedUnchanged(Py, l);
  }

  /** compare_codes. */
  function CompareCodes(codeA: string, codeB: string): (r: int)
    ensures -1 <= r <= 1
    ensures NormalizeCode(codeA) == NormalizeCode(codeB) ==> r == 0
  {
    PyCodes.CompareNormalized(NormalizeCode(codeA), NormalizeCode(codeB))
  }

  lemma CompareAntisymmetric(codeA: string, codeB: string)
    ensures CompareCodes(codeA, codeB) == -CompareCodes(codeB, codeA)
  {
    PyCodes.CompareNormalizedAntisymmetric(NormalizeCode(codeA), NormalizeCode(codeB));
  }

  // ---------------------------------------------------------------- step 1: the link map

  function LinkSet(links: seq<string>): set<string> {
    set l | l in links
  }

  /** `{item['criteria']: set(item.get('linked_criteria', [])) for item in data}`. */
  function LinkMapOf(data: seq<Entry>): (m: map<string, set<string>>)
    ensures forall e :: e in data ==> e.criteria in m
    ensures forall c :: c in m ==> exists e :: e in data && e.criteria == c
  {
    if data == [] then map[]
    else
      var last := data[|data| - 1];
      var m := LinkMapOf(data[..|data| - 1]);
      assert data == data[..|data| - 1] + [last];
      m[last.criteria := LinkSet(last.linkedCriteria)]
  }

  // ---------------------------------------------------------------- step 2: mutual links
  //
  // Steps 2 and 3 are written over a normaliser `norm` and a comparison `cmp`; the script
  // uses `NormalizeCode` and `CompareCodes` (see `FinalLinks` and `TransformLinks`), and
  // the properties that need more than their shape are stated for those two.

  /** `cid` and the cleaned link list each other in the original lists. */
  predicate IsMutual(cid: string, clean: string, linkMap: map<string, set<string>>) {
    clean in linkMap && cid in linkMap[clean]
  }

  /** A cleaned link survives unless it is mutual and `cid` is not the smaller code. */
  predicate Survives(cmp: (string, string) -> int, cid: string, clean: string, linkMap: map<string, set<string>>) {
    !IsMutual(cid, clean, linkMap) || cmp(cid, clean) < 0
  }

  /** The links of one entry after step 2, in normal form. */
  function KeptLinks(norm: string -> string, cmp: (string, string) -> int, cid: string, links: seq<string>,
                     linkMap: map<string, set<string>>): seq<string> {
    if links == [] then []
    else
      var c := norm(links[|links| - 1]);
      KeptLinks(norm, cmp, cid, links[..|links| - 1], linkMap) + (if Survives(cmp, cid, c, linkMap) then [c] else [])
  }

  /** Step 2 filters the cleaned links. */
  lemma {:induction false} KeptLinksIsFilter(norm: string -> string, cmp: (string, string) -> int, cid: string,
                                             links: seq<string>, linkMap: map<string, set<string>>)
    ensures KeptLinks(norm, cmp, cid, links, linkMap) == Select(Map(links, norm), c => Survives(cmp, cid, c, linkMap))
  {
    if links != [] {
      var init := links[..|links| - 1];
      KeptLinksIsFilter(norm, cmp, cid, init, linkMap);
      MapPrefix(links, norm, |links| - 1);
      assert links[..|links| - 1 + 1] == links;
      SelectAppend(Map(init, norm), norm(links[|links| - 1]), c => Survives(cmp, cid, c, linkMap));
    }
  }

  /**
   * The surviving links keep their order; every non-mutual link is kept in normal form,
   * a kept mutual one has `cid` as the smaller code, and every kept link is the normal
   * form of an original one.
   */
  lemma KeptLinksSpec(norm: string -> string, cmp: (string, string) -> int, cid: string, links: seq<string>,
                      linkMap: map<string, set<string>>)
    ensures Subseq(KeptLinks(norm, cmp, cid, links, linkMap), Map(links, norm))
    ensures forall k :: 0 <= k < |links| && !IsMutual(cid, norm(links[k]), linkMap) ==>
              norm(links[k]) in KeptLinks(norm, cmp, cid, links, linkMap)
    ensures forall x :: x in KeptLinks(norm, cmp, cid, links, linkMap) && IsMutual(cid, x, linkMap) ==> cmp(cid, x) < 0
    ensures forall x :: x in KeptLinks(norm, cmp, cid, links, linkMap) ==>
              exists k :: 0 <= k < |links| && x == norm(links[k])
  {
    var cs := Map(links, norm);
    KeptLinksIsFilter(norm, cmp, cid, links, linkMap);
    SelectSpec(cs, c => Survives(cmp, cid, c, linkMap));
    forall k | 0 <= k < |links| && !IsMutual(cid, norm(links[k]), linkMap)
      ensures norm(links[k]) in KeptLinks(norm, cmp, cid, links, linkMap)
    {
      assert cs[k] == norm(links[k]);
    }
  }

  /** Of a mutual pair of normal forms, at most one keeps its link to the other. */
  lemma MutualKeptOnce(a: string, b: string, linksA: seq<string>, linksB: seq<string>,
                       linkMap: map<string, set<string>>)
    requires IsMutual(a, b, linkMap) && IsMutual(b, a, linkMap)
    ensures !(b in KeptLinks(NormalizeCode, CompareCodes, a, linksA, linkMap)
              && a in KeptLinks(NormalizeCode, CompareCodes, b, linksB, linkMap))
  {
    KeptLinksSpec(NormalizeCode, CompareCodes, a, linksA, linkMap);
    KeptLinksSpec(NormalizeCode, CompareCodes, b, linksB, linkMap);
    CompareAntisymmetric(a, b);
  }

  /** The inner loop of step 2 for one entry. */
  method BreakMutualLinks(norm: string -> string, cmp: (string, string) -> int, cid: string, links: seq<string>,
                          linkMap: map<string, set<string>>)
    returns (newLinks: seq<string>)
    ensures newLinks == KeptLinks(norm, cmp, cid, links, linkMap)
  {
    newLinks := [];
    for i := 0 to |links|
      invariant newLinks == KeptLinks(norm, cmp, cid, links[..i], linkMap)
    {
      var lClean := norm(links[i]);
      assert links[..i + 1][..i] == links[..i];
      if lClean in linkMap && cid in linkMap[lClean] {
        if cmp(cid, lClean) < 0 {
          newLinks := newLinks + [lClean];
        }
      } else {
        newLinks := newLinks + [lClean];
      }
    }
    assert links[..|links|] == links;
  }

    // ---------------------------------------------------------------- transform_links

  /** The links an entry ends with, under the script's own normaliser and comparison. */
  function FinalLinks(cid: string, links: seq<string>, linkMap: map<string, set<string>>): seq<string> {
    TaggedLinks(CompareCodes, cid, KeptLinks(NormalizeCode, CompareCodes, cid, links, linkMap))
  }

  /**
   * The shape of a final link: untagged, in normal form and not below its owner, or the
   * tag of a normal form below its owner that normalises back to it.
   */
  predicate FinalShape(cid: string, x: string) {
    || (CompareCodes(x, cid) >= 0 && NormalizeCode(x) == x)
    || (exists l :: x == PyCodes.Tag(l) && NormalizeCode(x) == l && CompareCodes(l, cid) < 0)
  }

  /** Tagging a normal form gives a link of the final shape. */
  lemma TagOneShape(cid: string, code: string)
    ensures FinalShape(cid, TagOne(CompareCodes, cid, NormalizeCode(code)))
  {
    var l := NormalizeCode(code);
    NormalizeIdempotent(code);
    if CompareCodes(l, cid) < 0 {
      NormalizeTag(code);
      assert NormalizeCode(PyCodes.Tag(l)) == l;
    }
  }

  /** After both steps every link of an entry has the final shape. */
  lemma FinalLinksShape(cid: string, links: seq<string>, linkMap: map<string, set<string>>)
    ensures forall x :: x in FinalLinks(cid, links, linkMap) ==> FinalShape(cid, x)
  {
    var kept := KeptLinks(NormalizeCode, CompareCodes, cid, links, linkMap);
    var ts := TaggedLinks(CompareCodes, cid, kept);
    KeptLinksSpec(NormalizeCode, CompareCodes, cid, links, linkMap);
    forall i | 0 <= i < |ts|
      ensures FinalShape(cid, ts[i])
    {
      TaggedLinksAt(CompareCodes, cid, kept, i);
      assert kept[i] in kept;
      var k :| 0 <= k < |links| && kept[i] == NormalizeCode(links[k]);
      TagOneShape(cid, links[k]);
    }
  }

  /** Step 2 over all entries: each entry's links replaced by its kept links. */
  method BreakMutualPass(norm: string -> string, cmp: (string, string) -> int, data: array<Entry>,
                         linkMap: map<string, set<string>>)
    modifies data
    ensures forall j :: 0 <= j < data.Length ==>
              data[j] == Entry(old(data[j]).criteria, KeptLinks(norm, cmp, old(data[j]).criteria, old(data[j]).linkedCriteria, linkMap))
  {
    for i := 0 to data.Length
      invariant forall j :: 0 <= j < i ==>
                  data[j] == Entry(old(data[j]).criteria, KeptLinks(norm, cmp, old(data[j]).criteria, old(data[j]).linkedCriteria, linkMap))
      invariant forall j :: i <= j < data.Length ==> data[j] == old(data[j])
    {
      var newLinks := BreakMutualLinks(norm, cmp, data[i].criteria, data[i].linkedCriteria, linkMap);
      data[i] := data[i].(linkedCriteria := newLinks);
    }
  }

  /** transform_links: the link map of the original lists, then both passes, in place. */
  method TransformLinks(data: array<Entry>)
    modifies data
    ensures forall i :: 0 <= i < data.Length ==> data[i].criteria == old(data[i].criteria)
    ensures forall i :: 0 <= i < data.Length ==>
              data[i].linkedCriteria == FinalLinks(data[i].criteria, old(data[i].linkedCriteria), LinkMapOf(old(data[..])))
  {
    var linkMap := LinkMapOf(data[..]);
    BreakMutualPass(NormalizeCode, CompareCodes, data, linkMap);
    TagPass(CompareCodes, data);
  }
}
