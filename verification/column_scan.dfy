/**
 * The line loop of `parse_pdf_columns`, which Matrix/extract_and_build.py and
 * Matrix/rebuild_column_hierarchy.py share line for line: over the stripped lines of the
 * matrix text, a line opening with a valid criterion code and a description makes that
 * code the current target, and every other valid code met while a target is current is
 * recorded as a (target, source) relationship. The lines are given; reading the PDF or
 * the text file is not part of this model.
 */
module ColumnScan {
  import opened Wrappers
  import opened Strings
  import opened IdTokens

  /** A recorded relationship `(target, source)`: the target pulls from the source. */
  type Pair = (string, string)

  /** Empty lines, page markers and the table header carry nothing. */
  predicate IsSkipped(line: string) {
    line == "" || Contains(line, "--- Page") || Contains(line, "Criteria")
  }

  /** What one line contributes, once stripped. */
  datatype LineKind =
    | Skipped
    | TargetLine(id: string, others: seq<string>)
    | LinkLine(ids: seq<string>)

  /**
   * A line is a target line when it opens with a valid code (followed by a word
   * boundary) and more than 10 further characters that do not open with a code; the
   * codes in that rest are its links. Any other line holding a code lists links.
   */
  function Classify(raw: string, validIds: set<string>): (k: LineKind)
    ensures k.TargetLine? ==> k.id in validIds && k.id <= Trim(Py, raw)
    ensures k.TargetLine? ==> |Trim(Py, Trim(Py, raw)[|k.id|..])| > 10 && !StartsWithId(Trim(Py, Trim(Py, raw)[|k.id|..]))
    ensures IsSkipped(Trim(Py, raw)) || !ContainsId(Trim(Py, raw)) <==> k.Skipped?
  {
    var line := Trim(Py, raw);
    if IsSkipped(line) || !ContainsId(line) then Skipped
    else
      match IdAtStartWithBoundary(line)
      case Some(id) =>
        var remaining := Trim(Py, line[|id|..]);
        if id in validIds && |remaining| > 10 && !StartsWithId(remaining) then TargetLine(id, FindAllIds(remaining, 0))
        else LinkLine(FindAllIds(line, 0))
      case None => LinkLine(FindAllIds(line, 0))
  }

  /** `(target, oid)` for every valid code other than the target. */
  function LinksFrom(target: string, ids: seq<string>, validIds: set<string>): set<Pair> {
    set id | id in ids && id in validIds && id != target :: (target, id)
  }

  /** The loop state: the current target (`None` before the first) and the relationships. */
  datatype ScanState = ScanState(target: Option<string>, rels: set<Pair>)

  function Step(st: ScanState, raw: string, validIds: set<string>): ScanState {
    match Classify(raw, validIds)
    case Skipped => st
    case TargetLine(id, others) => ScanState(Some(id), st.rels + LinksFrom(id, others, validIds))
    case LinkLine(ids) =>
      if st.target.Some? then ScanState(st.target, st.rels + LinksFrom(st.target.value, ids, validIds)) else st
  }

  /** The state after the given lines, from no target and no relationships. */
  function Scan(lines: seq<string>, validIds: set<string>): ScanState {
    if lines == [] then ScanState(None, {})
    else Step(Scan(lines[..|lines| - 1], validIds), lines[|lines| - 1], validIds)
  }

  /** The target is a valid code, and every relationship joins two distinct valid codes. */
  predicate ValidState(st: ScanState, validIds: set<string>) {
    && (st.target.Some? ==> st.target.value in validIds)
    && forall p :: p in st.rels ==> p.0 in validIds && p.1 in validIds && p.0 != p.1
  }

  /**
   * One line keeps the state valid, never drops a relationship, adds only relationships
   * from the target it ends with, and changes the target only to the valid code it opens with.
   */
  lemma StepSpec(st: ScanState, raw: string, validIds: set<string>)
    requires ValidState(st, validIds)
    ensures ValidState(Step(st, raw, validIds), validIds)
    ensures st.rels <= Step(st, raw, validIds).rels
    ensures forall p :: p in Step(st, raw, validIds).rels && p !in st.rels ==> Some(p.0) == Step(st, raw, validIds).target
    ensures Step(st, raw, validIds).target == st.target
            || (Step(st, raw, validIds).target.Some? && Step(st, raw, validIds).target.value in validIds
                && Step(st, raw, validIds).target.value <= Trim(Py, raw))
  {
  }

  /** A blank line, a page marker, a header line or a line with no code changes nothing. */
  lemma SkippedLineUnchanged(st: ScanState, raw: string, validIds: set<string>)
    requires IsSkipped(Trim(Py, raw)) || !ContainsId(Trim(Py, raw))
    ensures Step(st, raw, validIds) == st
  {
  }

  /** Every relationship found in the lines joins two distinct valid codes. */
  lemma {:induction false} ScanValid(lines: seq<string>, validIds: set<string>)
    ensures ValidState(Scan(lines, validIds), validIds)
  {
    if lines != [] {
      ScanValid(lines[..|lines| - 1], validIds);
      StepSpec(Scan(lines[..|lines| - 1], validIds), lines[|lines| - 1], validIds);
    }
  }

  /** `for oid in ids: if oid in valid_ids and oid != target: relationships.add((target, oid))`. */
  method AddLinks(relationships: set<Pair>, target: string, ids: seq<string>, validIds: set<string>)
    returns (rels: set<Pair>)
    ensures rels == relationships + LinksFrom(target, ids, validIds)
  {
    rels := relationships;
    for k := 0 to |ids|
      invariant rels == relationships + LinksFrom(target, ids[..k], validIds)
    {
      assert ids[..k + 1] == ids[..k] + [ids[k]];
      if ids[k] in validIds && ids[k] != target {
        rels := rels + {(target, ids[k])};
      }
    }
    assert ids[..|ids|] == ids;
  }

  /** One more line is one more step. */
  lemma ScanSnoc(lines: seq<string>, i: nat, validIds: set<string>)
    requires i < |lines|
    ensures Scan(lines[..i + 1], validIds) == Step(Scan(lines[..i], validIds), lines[i], validIds)
  {
    assert lines[..i + 1][..i] == lines[..i];
  }

  /** A line that opens a new target. */
  lemma StepTarget(st: ScanState, raw: string, validIds: set<string>, id: string)
    requires !IsSkipped(Trim(Py, raw)) && ContainsId(Trim(Py, raw))
    requires IdAtStartWithBoundary(Trim(Py, raw)) == Some(id)
    requires id in validIds && |Trim(Py, Trim(Py, raw)[|id|..])| > 10 && !StartsWithId(Trim(Py, Trim(Py, raw)[|id|..]))
    ensures Step(st, raw, validIds) == ScanState(Some(id), st.rels + LinksFrom(id, FindAllIds(Trim(Py, Trim(Py, raw)[|id|..]), 0), validIds))
  {
  }

  /** A line that holds codes but opens no target links them to the current target, if any. */
  lemma StepLink(st: ScanState, raw: string, validIds: set<string>)
    requires !IsSkipped(Trim(Py, raw)) && ContainsId(Trim(Py, raw))
    requires match IdAtStartWithBoundary(Trim(Py, raw))
             case None => true
             case Some(id) =>
               !(id in validIds && |Trim(Py, Trim(Py, raw)[|id|..])| > 10 && !StartsWithId(Trim(Py, Trim(Py, raw)[|id|..])))
    ensures Step(st, raw, validIds)
            == if st.target.Some? then ScanState(st.target, st.rels + LinksFrom(st.target.value, FindAllIds(Trim(Py, raw), 0), validIds)) else st
  {
  }

  /** parse_pdf_columns over a given list of lines. */
  method ParseColumns(lines: seq<string>, validIds: set<string>) returns (relationships: set<Pair>)
    ensures relationships == Scan(lines, validIds).rels
    ensures forall p :: p in relationships ==> p.0 in validIds && p.1 in validIds && p.0 != p.1
  {
    relationships := {};
    var currentTarget: Option<string> := None;
    for i := 0 to |lines|
      invariant ScanState(currentTarget, relationships) == Scan(lines[..i], validIds)
    {
      ScanSnoc(lines, i, validIds);
      ghost var st := ScanState(currentTarget, relationships);
      var line := Trim(Py, lines[i]);
      if IsSkipped(line) || !ContainsId(line) {
        SkippedLineUnchanged(st, lines[i], validIds);
        continue;
      }
      var startsWithId := IdAtStartWithBoundary(line);
      if startsWithId.Some? {
        var detectedId := startsWithId.value;
        var remaining := Trim(Py, line[|detectedId|..]);
        if detectedId in validIds && |remaining| > 10 && !StartsWithId(remaining) {
          StepTarget(st, lines[i], validIds, detectedId);
          currentTarget := Some(detectedId);
          relationships := AddLinks(relationships, detectedId, FindAllIds(remaining, 0), validIds);
          continue;
        }
      }
      StepLink(st, lines[i], validIds);
      if currentTarget.Some? {
        relationships := AddLinks(relationships, currentTarget.value, FindAllIds(line, 0), validIds);
      }
    }
    assert lines[..|lines|] == lines;
    ScanValid(lines, validIds);
  }
}
