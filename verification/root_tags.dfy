/**
 * Matrix/apply_root_tags.py: with its own `normalize_code` (the text after the last
 * underscore, stripped) and the shared segment comparison, every link of every entry
 * that compares below the entry's own code is rewritten as `{link}-root({link})`.
 * The JSON file is read into, and written from, the array the loop updates in place.
 */
module RootTags {
  import opened Strings
  import opened PyCodes

  /** normalize_code: a falsy code gives ""; otherwise the last `_`-separated part, stripped. */
  function NormalizeCode(code: string): (r: string)
    ensures code == "" ==> r == ""
    ensures '_' !in r
    ensures r == [] || (!IsPySpace(r[0]) && !IsPySpace(r[|r| - 1]))
    ensures '_' !in code ==> r == Trim(Py, code)
  {
    if code == "" then ""
    else
      var parts := Split(code, '_');
      var last := if |parts| > 1 then parts[|parts| - 1] else code;
      TrimKeepsOut(Py, last, '_');
      Trim(Py, last)
  }

  /** Whatever precedes the last underscore is dropped: `EMS_1.1.1.1` normalises as `1.1.1.1`. */
  lemma NormalizeDropsPrefix(prefix: string, code: string)
    requires '_' !in code
    ensures NormalizeCode(prefix + "_" + code) == Trim(Py, code)
  {
    SplitAppend(prefix, code, '_');
    assert prefix + "_" + code == prefix + ['_'] + code;
  }

  /** Normalising a normal form changes nothing. */
  lemma NormalizeIdempotent(code: string)
    ensures NormalizeCode(NormalizeCode(code)) == NormalizeCode(code)
  {
    var r := NormalizeCode(code);
    TrimmedUnchanged(Py, r);
  }

  /** compare_codes. */
  function CompareCodes(codeA: string, codeB: string): (r: int)
    ensures -1 <= r <= 1
    ensures NormalizeCode(codeA) == NormalizeCode(codeB) ==> r == 0
  {
    CompareNormalized(NormalizeCode(codeA), NormalizeCode(codeB))
  }

  lemma CompareAntisymmetric(codeA: string, codeB: string)
    ensures CompareCodes(codeA, codeB) == -CompareCodes(codeB, codeA)
  {
    CompareNormalizedAntisymmetric(NormalizeCode(codeA), NormalizeCode(codeB));
  }

  /**
   * The loop of transform_file: every entry keeps its code, and its links keep their
   * number and order, each tagged exactly when it compares below the entry's code.
   */
  method TransformFile(data: array<Entry>)
    modifies data
    ensures forall j :: 0 <= j < data.Length ==> data[j].criteria == old(data[j].criteria)
    ensures forall j :: 0 <= j < data.Length ==> |data[j].linkedCriteria| == |old(data[j].linkedCriteria)|
    ensures forall j, k :: 0 <= j < data.Length && 0 <= k < |data[j].linkedCriteria| ==>
              data[j].linkedCriteria[k] ==
                (var l := old(data[j].linkedCriteria)[k];
                 if CompareCodes(l, data[j].criteria) < 0 then Tag(l) else l)
  {
    TagPass(CompareCodes, data);
    forall j, k | 0 <= j < data.Length && 0 <= k < |data[j].linkedCriteria|
      ensures data[j].linkedCriteria[k] ==
                (var l := old(data[j].linkedCriteria)[k];
                 if CompareCodes(l, data[j].criteria) < 0 then Tag(l) else l)
    {
      TaggedLinksAt(CompareCodes, data[j].criteria, old(data[j].linkedCriteria), k);
    }
  }
}
