/**
 * The body of the `useAssessmentScoring` hook (src/hooks/useAssessmentScoring.js):
 * build the normalised criteria map, then aggregate per-criterion graph scores into
 * standard, section and overall results.
 *
 * The graph resolver that turns the criteria map into `globalScores` is not part of
 * this model: its result is a parameter.  The aggregation is written for any code
 * normaliser `norm`; the hook itself uses `Normalization.NormalizeCriterionCode`
 * (see `UseAssessmentScoring`), and every property below holds for any normaliser.
 */
module AssessmentScoring {
  import opened Wrappers
  import Normalization
  import Scoring

  /** A criterion of the assessment tree; a missing `id` or `code` is "". */
  datatype Criterion = Criterion(id: string, code: string)

  /** A missing `criteria` array is the empty sequence (`standard.criteria || []`). */
  datatype Standard = Standard(id: string, criteria: seq<Criterion>)

  datatype Section = Section(id: string, standards: seq<Standard>)

  datatype Assessment = Assessment(sections: seq<Section>)

  /** One entry of `globalScores`; `points` is `None` when it is null. */
  datatype GraphScore = GraphScore(isScored: bool, points: Option<real>, criticalFail: bool)

  datatype StandardResult = StandardResult(
    id: string, totalScore: real, maxScore: real, percent: real, criticalFail: bool,
    criteriaScores: map<string, GraphScore>)

  datatype SectionResult = SectionResult(
    id: string, percent: real, totalScore: real, maxScore: real, criticalFail: bool,
    standards: seq<StandardResult>)

  datatype AssessmentScores = AssessmentScores(overall: Scoring.ScoreResult, sections: seq<SectionResult>)

  /** `criterion.code || criterion.id`. */
  function CodeOf(c: Criterion): string {
    if c.code != "" then c.code else c.id
  }

  // ---------------------------------------------------------------- criteria map

  /** Every criterion of the given standards, in tree order. */
  function StandardsCriteria(stds: seq<Standard>): seq<Criterion> {
    if stds == [] then [] else StandardsCriteria(stds[..|stds| - 1]) + stds[|stds| - 1].criteria
  }

  /** Every criterion of the given sections, in tree order. */
  function SectionsCriteria(secs: seq<Section>): seq<Criterion> {
    if secs == [] then [] else SectionsCriteria(secs[..|secs| - 1]) + StandardsCriteria(secs[|secs| - 1].standards)
  }

  /** `criteriaMap[normalizeCriterionCode(code)] = criterion` for each criterion with a code, in order. */
  function Insert(norm: string -> string, m: map<string, Criterion>, cs: seq<Criterion>): map<string, Criterion> {
    if cs == [] then m
    else
      var m' := Insert(norm, m, cs[..|cs| - 1]);
      var c := cs[|cs| - 1];
      if CodeOf(c) != "" then m'[norm(CodeOf(c)) := c] else m'
  }

  lemma {:induction false} InsertAppend(norm: string -> string, m: map<string, Criterion>, xs: seq<Criterion>, ys: seq<Criterion>)
    ensures Insert(norm, m, xs + ys) == Insert(norm, Insert(norm, m, xs), ys)
    decreases |ys|
  {
    if ys == [] {
      assert xs + ys == xs;
    } else {
      assert (xs + ys)[..|xs + ys| - 1] == xs + ys[..|ys| - 1];
      InsertAppend(norm, m, xs, ys[..|ys| - 1]);
    }
  }

  /**
   * A key is in the map exactly when some criterion with a code normalises to it, and
   * it holds the last such criterion.
   */
  lemma {:induction false} InsertLastWins(norm: string -> string, m: map<string, Criterion>, cs: seq<Criterion>, key: string)
    ensures key in Insert(norm, m, cs) <==>
              key in m || exists i :: 0 <= i < |cs| && CodeOf(cs[i]) != "" && norm(CodeOf(cs[i])) == key
    ensures forall i :: 0 <= i < |cs| && CodeOf(cs[i]) != "" && norm(CodeOf(cs[i])) == key
              && (forall j :: i < j < |cs| ==> CodeOf(cs[j]) == "" || norm(CodeOf(cs[j])) != key)
              ==> Insert(norm, m, cs)[key] == cs[i]
  {
    if cs != [] {
      var init := cs[..|cs| - 1];
      InsertLastWins(norm, m, init, key);
      forall i | 0 <= i < |init|
        ensures init[i] == cs[i]
      {
      }
    }
  }

  /** Adds the criteria of one standard (the innermost `forEach`). */
  method AddCriteria(norm: string -> string, m: map<string, Criterion>, cs: seq<Criterion>) returns (m': map<string, Criterion>)
    ensures m' == Insert(norm, m, cs)
  {
    m' := m;
    for k := 0 to |cs|
      invariant m' == Insert(norm, m, cs[..k])
    {
      assert cs[..k + 1][..k] == cs[..k];
      var code := CodeOf(cs[k]);
      if code != "" {
        var key := norm(code);
        m' := m'[key := cs[k]];
      }
    }
    assert cs[..|cs|] == cs;
  }

  /** Step 1: the full criteria map over every section, standard and criterion. */
  method BuildCriteriaMap(norm: string -> string, a: Assessment) returns (criteriaMap: map<string, Criterion>)
    ensures criteriaMap == Insert(norm, map[], SectionsCriteria(a.sections))
  {
    criteriaMap := map[];
    var secs := a.sections;
    for i := 0 to |secs|
      invariant criteriaMap == Insert(norm, map[], SectionsCriteria(secs[..i]))
    {
      assert secs[..i + 1][..i] == secs[..i];
      var stds := secs[i].standards;
      var before := criteriaMap;
      for j := 0 to |stds|
        invariant criteriaMap == Insert(norm, before, StandardsCriteria(stds[..j]))
      {
        assert stds[..j + 1][..j] == stds[..j];
        criteriaMap := AddCriteria(norm, criteriaMap, stds[j].criteria);
        InsertAppend(norm, before, StandardsCriteria(stds[..j]), stds[j].criteria);
      }
      assert stds[..|stds|] == stds;
      InsertAppend(norm, map[], SectionsCriteria(secs[..i]), StandardsCriteria(stds));
    }
    assert secs[..|secs|] == secs;
  }

  // ---------------------------------------------------------------- standards

  /** `globalScores[normalizeCriterionCode(code)]`, if present. */
  function Lookup(norm: string -> string, c: Criterion, globalScores: map<string, GraphScore>): Option<GraphScore> {
    var key := norm(CodeOf(c));
    if key in globalScores then Some(globalScores[key]) else None
  }

  /** A score that is added to the standard's totals. */
  predicate Counts(s: Option<GraphScore>) {
    s.Some? && s.value.isScored && s.value.points.Some?
  }

  /** Number of criteria whose score counts; each adds 100 to the maximum. */
  function ScoredCount(norm: string -> string, cs: seq<Criterion>, g: map<string, GraphScore>): nat {
    if cs == [] then 0
    else ScoredCount(norm, cs[..|cs| - 1], g) + (if Counts(Lookup(norm, cs[|cs| - 1], g)) then 1 else 0)
  }

  /** Sum of the points of the criteria whose score counts. */
  function ScoredPoints(norm: string -> string, cs: seq<Criterion>, g: map<string, GraphScore>): real {
    if cs == [] then 0.0
    else
      var s := Lookup(norm, cs[|cs| - 1], g);
      ScoredPoints(norm, cs[..|cs| - 1], g) + (if Counts(s) then s.value.points.value else 0.0)
  }

  predicate AnyGraphFailure(norm: string -> string, cs: seq<Criterion>, g: map<string, GraphScore>) {
    cs != [] && (AnyGraphFailure(norm, cs[..|cs| - 1], g) || (var s := Lookup(norm, cs[|cs| - 1], g); s.Some? && s.value.criticalFail))
  }

  /** `criteriaScores[criterion.id] = score` for each criterion that has a score. */
  function ScoresById(norm: string -> string, cs: seq<Criterion>, g: map<string, GraphScore>): map<string, GraphScore> {
    if cs == [] then map[]
    else
      var m := ScoresById(norm, cs[..|cs| - 1], g);
      var c := cs[|cs| - 1];
      match Lookup(norm, c, g)
      case Some(s) => m[c.id := s]
      case None => m
  }

  /** Criteria without an entry in `globalScores` contribute nothing to the standard. */
  lemma {:induction false} UnscoredContributeNothing(norm: string -> string, cs: seq<Criterion>, g: map<string, GraphScore>)
    requires forall i :: 0 <= i < |cs| ==> Lookup(norm, cs[i], g).None?
    ensures ScoredCount(norm, cs, g) == 0 && ScoredPoints(norm, cs, g) == 0.0
    ensures !AnyGraphFailure(norm, cs, g) && ScoresById(norm, cs, g) == map[]
  {
    if cs != [] {
      UnscoredContributeNothing(norm, cs[..|cs| - 1], g);
      assert Lookup(norm, cs[|cs| - 1], g).None?;
    }
  }

  /** A criterion gets an entry in `criteriaScores` exactly when it has a score. */
  lemma {:induction false} ScoresByIdKeys(norm: string -> string, cs: seq<Criterion>, g: map<string, GraphScore>, id: string)
    ensures id in ScoresById(norm, cs, g) <==> exists i :: 0 <= i < |cs| && cs[i].id == id && Lookup(norm, cs[i], g).Some?
  {
    if cs != [] {
      var init := cs[..|cs| - 1];
      ScoresByIdKeys(norm, init, g, id);
      forall i | 0 <= i < |init|
        ensures init[i] == cs[i]
      {
      }
    }
  }

  /** Points within [0, 100] per criterion keep the standard total within [0, maximum]. */
  lemma {:induction false} PointsBounded(norm: string -> string, cs: seq<Criterion>, g: map<string, GraphScore>)
    requires forall k | k in g :: g[k].points.Some? ==> 0.0 <= g[k].points.value <= 100.0
    ensures 0.0 <= ScoredPoints(norm, cs, g) <= 100.0 * ScoredCount(norm, cs, g) as real
  {
    if cs != [] {
      PointsBounded(norm, cs[..|cs| - 1], g);
    }
  }

  /** What the hook computes for one standard. */
  predicate IsStandardResult(norm: string -> string, std: Standard, g: map<string, GraphScore>, r: StandardResult) {
    && r.id == std.id
    && r.maxScore == 100.0 * ScoredCount(norm, std.criteria, g) as real
    && (r.criticalFail <==> AnyGraphFailure(norm, std.criteria, g))
    && r.totalScore == (if r.criticalFail then 0.0 else ScoredPoints(norm, std.criteria, g))
    && r.percent == Scoring.Percent(r.totalScore, r.maxScore)
    && r.criteriaScores == ScoresById(norm, std.criteria, g)
  }

  /** With every graph score's points in [0, 100], a standard's total and percent stay in range. */
  lemma StandardWithinBounds(norm: string -> string, std: Standard, g: map<string, GraphScore>, r: StandardResult)
    requires IsStandardResult(norm, std, g, r)
    requires forall k | k in g :: g[k].points.Some? ==> 0.0 <= g[k].points.value <= 100.0
    ensures 0.0 <= r.totalScore <= r.maxScore
    ensures 0.0 <= r.percent <= 100.0
  {
    PointsBounded(norm, std.criteria, g);
    Scoring.PercentBounds(r.totalScore, r.maxScore);
  }

  /** The per-standard aggregation (the inner `map` callback). */
  method ScoreStandard(norm: string -> string, std: Standard, globalScores: map<string, GraphScore>) returns (r: StandardResult)
    ensures IsStandardResult(norm, std, globalScores, r)
  {
    var cs := std.criteria;
    var totalScore, maxScore, criticalFail := 0.0, 0.0, false;
    var criteriaScores: map<string, GraphScore> := map[];
    for k := 0 to |cs|
      invariant totalScore == ScoredPoints(norm, cs[..k], globalScores)
      invariant maxScore == 100.0 * ScoredCount(norm, cs[..k], globalScores) as real
      invariant criticalFail == AnyGraphFailure(norm, cs[..k], globalScores)
      invariant criteriaScores == ScoresById(norm, cs[..k], globalScores)
    {
      assert cs[..k + 1][..k] == cs[..k];
      var key := norm(CodeOf(cs[k]));
      if key in globalScores {
        var score := globalScores[key];
        criteriaScores := criteriaScores[cs[k].id := score];
        if score.isScored && score.points.Some? {
          totalScore := totalScore + score.points.value;
          maxScore := maxScore + 100.0;
        }
        if score.criticalFail {
          criticalFail := true;
        }
      }
    }
    assert cs[..|cs|] == cs;
    if criticalFail {
      totalScore := 0.0;
    }
    var percent := if maxScore == 0.0 then 0.0 else totalScore / maxScore * 100.0;
    r := StandardResult(std.id, totalScore, maxScore, percent, criticalFail, criteriaScores);
  }

  // ---------------------------------------------------------------- roll-ups

  /** A standard result as the section roll-up reads it (`totalScore || 0`, `maxScore || 0`). */
  function StandardEntry(r: StandardResult): Option<Scoring.RollupEntry> {
    Some(Scoring.RollupEntry(Some(r.totalScore), Some(r.maxScore), r.criticalFail))
  }

  function SectionEntry(r: SectionResult): Option<Scoring.RollupEntry> {
    Some(Scoring.RollupEntry(Some(r.totalScore), Some(r.maxScore), r.criticalFail))
  }

  function StandardEntries(rs: seq<StandardResult>): (es: seq<Option<Scoring.RollupEntry>>)
    ensures |es| == |rs| && forall k :: 0 <= k < |rs| ==> es[k] == StandardEntry(rs[k])
  {
    seq(|rs|, k requires 0 <= k < |rs| => StandardEntry(rs[k]))
  }

  function SectionEntries(rs: seq<SectionResult>): (es: seq<Option<Scoring.RollupEntry>>)
    ensures |es| == |rs| && forall k :: 0 <= k < |rs| ==> es[k] == SectionEntry(rs[k])
  {
    seq(|rs|, k requires 0 <= k < |rs| => SectionEntry(rs[k]))
  }

  /** What the hook computes for one section: its standards in order, then their roll-up. */
  predicate IsSectionResult(norm: string -> string, sec: Section, g: map<string, GraphScore>, r: SectionResult) {
    && r.id == sec.id
    && |r.standards| == |sec.standards|
    && (forall j :: 0 <= j < |sec.standards| ==> IsStandardResult(norm, sec.standards[j], g, r.standards[j]))
    && r.totalScore == Scoring.SumTotals(StandardEntries(r.standards))
    && r.maxScore == Scoring.SumMax(StandardEntries(r.standards))
    && (r.criticalFail <==> Scoring.AnyEntryFailed(StandardEntries(r.standards)))
    && r.percent == Scoring.Percent(r.totalScore, r.maxScore)
  }

  /** The per-section aggregation (the outer `map` callback). */
  method ScoreSection(norm: string -> string, sec: Section, globalScores: map<string, GraphScore>) returns (r: SectionResult)
    ensures IsSectionResult(norm, sec, globalScores, r)
  {
    var stds := sec.standards;
    var standardResults: seq<StandardResult> := [];
    for j := 0 to |stds|
      invariant |standardResults| == j
      invariant forall t :: 0 <= t < j ==> IsStandardResult(norm, stds[t], globalScores, standardResults[t])
    {
      var sr := ScoreStandard(norm, stds[j], globalScores);
      standardResults := standardResults + [sr];
    }
    var sectionResult := Scoring.CalculateSectionScore(Some(StandardEntries(standardResults)));
    r := SectionResult(sec.id, sectionResult.percent, sectionResult.totalScore, sectionResult.maxScore,
                       sectionResult.criticalFail, standardResults);
  }

  /**
   * The hook body for a given normaliser: step 1 builds the criteria map (returned so
   * that it can be handed to the graph resolver), and step 3 aggregates the given
   * `globalScores` into standard, section and overall results.
   */
  method ScoreAssessment(norm: string -> string, a: Assessment, globalScores: map<string, GraphScore>)
    returns (criteriaMap: map<string, Criterion>, result: AssessmentScores)
    ensures criteriaMap == Insert(norm, map[], SectionsCriteria(a.sections))
    ensures |result.sections| == |a.sections|
    ensures forall i :: 0 <= i < |a.sections| ==> IsSectionResult(norm, a.sections[i], globalScores, result.sections[i])
    ensures result.overall.totalScore == Scoring.SumTotals(SectionEntries(result.sections))
    ensures result.overall.maxScore == Scoring.SumMax(SectionEntries(result.sections))
    ensures result.overall.criticalFail <==> Scoring.AnyEntryFailed(SectionEntries(result.sections))
    ensures result.overall.percent == Scoring.Percent(result.overall.totalScore, result.overall.maxScore)
  {
    criteriaMap := BuildCriteriaMap(norm, a);
    var secs := a.sections;
    var sectionResults: seq<SectionResult> := [];
    for i := 0 to |secs|
      invariant |sectionResults| == i
      invariant forall t :: 0 <= t < i ==> IsSectionResult(norm, secs[t], globalScores, sectionResults[t])
    {
      var sr := ScoreSection(norm, secs[i], globalScores);
      sectionResults := sectionResults + [sr];
    }
    var overall := Scoring.CalculateOverallScore(Some(SectionEntries(sectionResults)));
    result := AssessmentScores(overall, sectionResults);
  }

  /** useAssessmentScoring: the hook body with the application's code normaliser. */
  method UseAssessmentScoring(a: Assessment, globalScores: map<string, GraphScore>)
    returns (criteriaMap: map<string, Criterion>, result: AssessmentScores)
    ensures criteriaMap == Insert(Normalization.NormalizeCriterionCode, map[], SectionsCriteria(a.sections))
    ensures |result.sections| == |a.sections|
    ensures forall i :: 0 <= i < |a.sections| ==> IsSectionResult(Normalization.NormalizeCriterionCode, a.sections[i], globalScores, result.sections[i])
    ensures result.overall.totalScore == Scoring.SumTotals(SectionEntries(result.sections))
    ensures result.overall.maxScore == Scoring.SumMax(SectionEntries(result.sections))
    ensures result.overall.criticalFail <==> Scoring.AnyEntryFailed(SectionEntries(result.sections))
    ensures result.overall.percent == Scoring.Percent(result.overall.totalScore, result.overall.maxScore)
  {
    criteriaMap, result := ScoreAssessment(Normalization.NormalizeCriterionCode, a, globalScores);
  }
}
