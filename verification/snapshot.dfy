/**
 * The audit snapshot of a scoring result (src/utils/createAssessmentSnapshot.js).
 * The clock reading for `timestamp` is a parameter.
 */
module Snapshot {
  import opened Wrappers

  /** The overall part of a scoring result; absent, null or zero numbers are `None`. */
  datatype OverallIn = OverallIn(percent: Option<real>, totalScore: Option<real>, maxScore: Option<real>,
                                 criticalFail: bool)

  /** One section of a scoring result; its numbers are copied as they are. */
  datatype SectionIn = SectionIn(id: string, percent: Option<real>, totalScore: Option<real>,
                                 maxScore: Option<real>, criticalFail: bool)

  /** `{ overall, sections }`; a missing `sections` is `None`. */
  datatype ScoringResult = ScoringResult(overall: Option<OverallIn>, sections: Option<seq<SectionIn>>)

  datatype SectionSnapshot = SectionSnapshot(id: string, percent: Option<real>, totalScore: Option<real>,
                                             maxScore: Option<real>, criticalFail: bool)

  datatype AssessmentSnapshot = AssessmentSnapshot(
    overallPercent: real, overallTotalScore: real, overallMaxScore: real, criticalFail: bool,
    sectionBreakdown: seq<SectionSnapshot>, timestamp: string)

  function SectionOf(s: SectionIn): SectionSnapshot {
    SectionSnapshot(s.id, s.percent, s.totalScore, s.maxScore, s.criticalFail)
  }

  /** createAssessmentSnapshot: `None` in gives `None` out. */
  function CreateAssessmentSnapshot(scoringResult: Option<ScoringResult>, now: string): (r: Option<AssessmentSnapshot>)
    ensures r.None? <==> scoringResult.None?
    ensures r.Some? ==>
              var overall := scoringResult.value.overall;
              && r.value.overallPercent == (if overall.Some? then overall.value.percent.GetOr(0.0) else 0.0)
              && r.value.overallTotalScore == (if overall.Some? then overall.value.totalScore.GetOr(0.0) else 0.0)
              && r.value.overallMaxScore == (if overall.Some? then overall.value.maxScore.GetOr(0.0) else 0.0)
              && r.value.criticalFail == (overall.Some? && overall.value.criticalFail)
              && r.value.timestamp == now
    ensures r.Some? ==>
              var sections := scoringResult.value.sections.GetOr([]);
              && |r.value.sectionBreakdown| == |sections|
              && forall k :: 0 <= k < |sections| ==>
                   var out, src := r.value.sectionBreakdown[k], sections[k];
                   out.id == src.id && out.percent == src.percent && out.totalScore == src.totalScore
                   && out.maxScore == src.maxScore && out.criticalFail == src.criticalFail
  {
    match scoringResult
    case None => None
    case Some(res) =>
      var sections := res.sections.GetOr([]);
      Some(AssessmentSnapshot(
        if res.overall.Some? then res.overall.value.percent.GetOr(0.0) else 0.0,
        if res.overall.Some? then res.overall.value.totalScore.GetOr(0.0) else 0.0,
        if res.overall.Some? then res.overall.value.maxScore.GetOr(0.0) else 0.0,
        res.overall.Some? && res.overall.value.criticalFail,
        seq(|sections|, k requires 0 <= k < |sections| => SectionOf(sections[k])),
        now))
  }

  /** Without sections the breakdown is empty, whatever the overall part holds. */
  lemma NoSectionsEmptyBreakdown(overall: Option<OverallIn>, now: string)
    ensures CreateAssessmentSnapshot(Some(ScoringResult(overall, None)), now).value.sectionBreakdown == []
  {
  }

  /** A snapshot of a snapshot-shaped result reproduces its breakdown: nothing is lost or reordered. */
  lemma BreakdownRoundTrip(res: ScoringResult, now: string, later: string)
    ensures var s := CreateAssessmentSnapshot(Some(res), now).value;
            var again := ScoringResult(
              Some(OverallIn(Some(s.overallPercent), Some(s.overallTotalScore), Some(s.overallMaxScore), s.criticalFail)),
              Some(seq(|s.sectionBreakdown|, k requires 0 <= k < |s.sectionBreakdown| =>
                var b := s.sectionBreakdown[k];
                SectionIn(b.id, b.percent, b.totalScore, b.maxScore, b.criticalFail))));
            var t := CreateAssessmentSnapshot(Some(again), later).value;
            t.sectionBreakdown == s.sectionBreakdown && t.overallPercent == s.overallPercent
            && t.overallTotalScore == s.overallTotalScore && t.overallMaxScore == s.overallMaxScore
            && t.criticalFail == s.criticalFail
  {
  }
}
