/**
 * Standard, section and overall score arithmetic (src/utils/scoring.js).
 *
 * Scores are JavaScript numbers; here they are exact reals, and a percentage is the
 * exact ratio `total / max * 100` (the two-decimal rounding is not modelled).
 */
module Scoring {
  import opened Wrappers

  /** One criterion as the standard score sees it: `{ response, isCritical }`. */
  datatype CriterionAnswer = CriterionAnswer(response: string, isCritical: bool)

  /** `{ percent, totalScore, maxScore, criticalFail }`. */
  datatype ScoreResult = ScoreResult(percent: real, totalScore: real, maxScore: real, criticalFail: bool)

  /**
   * One entry of a section or overall roll-up: a missing (or zero) total or maximum
   * is `None`.
   */
  datatype RollupEntry = RollupEntry(totalScore: Option<real>, maxScore: Option<real>, criticalFail: bool)

  const EmptyScore := ScoreResult(0.0, 0.0, 0.0, false)

  /** `max === 0 ? 0 : (total / max) * 100`. */
  function Percent(total: real, max: real): real {
    if max == 0.0 then 0.0 else total / max * 100.0
  }

  /** A percentage of a total between 0 and its maximum lies between 0 and 100. */
  lemma PercentBounds(total: real, max: real)
    requires 0.0 <= total <= max
    ensures 0.0 <= Percent(total, max) <= 100.0
  {
    if max != 0.0 {
      assert total / max <= 1.0 by {
        assert total / max * max == total;
      }
    }
  }

  predicate IsNotApplicable(response: string) {
    response == "NA"
  }

  /** FULL/FC/COMPLIANT earn 2, PARTIAL/PC/SUBSTANTIAL earn 1, any other answer 0. */
  function Points(response: string): (p: nat)
    ensures p <= 2
  {
    if response == "FULL" || response == "FC" || response == "COMPLIANT" then 2
    else if response == "PARTIAL" || response == "PC" || response == "SUBSTANTIAL" then 1
    else 0
  }

  predicate IsNonCompliant(response: string) {
    response == "NON" || response == "NC" || response == "NON-COMPLIANT"
  }

  /** Number of criteria that are not NA. */
  function CountScorable(cs: seq<CriterionAnswer>): nat {
    if cs == [] then 0
    else CountScorable(cs[..|cs| - 1]) + (if IsNotApplicable(cs[|cs| - 1].response) then 0 else 1)
  }

  /** Points earned over the criteria that are not NA. */
  function Earned(cs: seq<CriterionAnswer>): nat {
    if cs == [] then 0
    else
      var c := cs[|cs| - 1];
      Earned(cs[..|cs| - 1]) + (if IsNotApplicable(c.response) then 0 else Points(c.response))
  }

  /** A critical criterion answered NON, NC or NON-COMPLIANT. */
  predicate IsCriticalFailure(c: CriterionAnswer) {
    c.isCritical && IsNonCompliant(c.response)
  }

  predicate AnyCriticalFailure(cs: seq<CriterionAnswer>) {
    cs != [] && (AnyCriticalFailure(cs[..|cs| - 1]) || IsCriticalFailure(cs[|cs| - 1]))
  }

  lemma {:induction false} AnyCriticalFailureIff(cs: seq<CriterionAnswer>)
    ensures AnyCriticalFailure(cs) <==> exists i :: 0 <= i < |cs| && IsCriticalFailure(cs[i])
  {
    if cs != [] {
      var init := cs[..|cs| - 1];
      AnyCriticalFailureIff(init);
      if AnyCriticalFailure(init) {
        var i :| 0 <= i < |init| && IsCriticalFailure(init[i]);
        assert cs[i] == init[i];
      }
      if exists i :: 0 <= i < |cs| && IsCriticalFailure(cs[i]) {
        var i :| 0 <= i < |cs| && IsCriticalFailure(cs[i]);
        if i < |init| {
          assert init[i] == cs[i];
        }
      }
    }
  }

  /** Every scorable criterion earns at most 2, so the total never exceeds the maximum. */
  lemma {:induction false} EarnedBounded(cs: seq<CriterionAnswer>)
    ensures Earned(cs) <= 2 * CountScorable(cs)
  {
    if cs != [] {
      EarnedBounded(cs[..|cs| - 1]);
    }
  }

  /** calculateStandardScore. `None` stands for an argument that is not an array. */
  method CalculateStandardScore(criteria: Option<seq<CriterionAnswer>>) returns (r: ScoreResult)
    ensures criteria.None? ==> r == EmptyScore
    ensures criteria.Some? ==> r.maxScore == (2 * CountScorable(criteria.value)) as real
    ensures criteria.Some? ==> (r.criticalFail <==> AnyCriticalFailure(criteria.value))
    ensures r.criticalFail ==> r.totalScore == 0.0 && r.percent == 0.0
    ensures criteria.Some? && !r.criticalFail ==>
              r.totalScore == Earned(criteria.value) as real && r.percent == Percent(r.totalScore, r.maxScore)
    ensures 0.0 <= r.totalScore <= r.maxScore && 0.0 <= r.percent <= 100.0
  {
    if criteria.None? || criteria.value == [] {
      return EmptyScore;
    }
    var cs := criteria.value;
    var totalScore, maxPossibleScore, criticalFail := 0, 0, false;
    for i := 0 to |cs|
      invariant totalScore == Earned(cs[..i])
      invariant maxPossibleScore == 2 * CountScorable(cs[..i])
      invariant criticalFail == AnyCriticalFailure(cs[..i])
    {
      assert cs[..i + 1][..i] == cs[..i];
      var c := cs[i];
      if c.response == "NA" {
        continue;
      }
      maxPossibleScore := maxPossibleScore + 2;
      totalScore := totalScore + Points(c.response);
      if c.isCritical && IsNonCompliant(c.response) {
        criticalFail := true;
      }
    }
    assert cs[..|cs|] == cs;
    EarnedBounded(cs);
    if criticalFail {
      return ScoreResult(0.0, 0.0, maxPossibleScore as real, true);
    }
    var percent := Percent(totalScore as real, maxPossibleScore as real);
    PercentBounds(totalScore as real, maxPossibleScore as real);
    return ScoreResult(percent, totalScore as real, maxPossibleScore as real, false);
  }

  /** `entry.totalScore || 0`, summed over the entries that are present. */
  function SumTotals(xs: seq<Option<RollupEntry>>): real {
    if xs == [] then 0.0
    else
      var last := xs[|xs| - 1];
      SumTotals(xs[..|xs| - 1]) + (if last.Some? then last.value.totalScore.GetOr(0.0) else 0.0)
  }

  /** `entry.maxScore || 0`, summed over the entries that are present. */
  function SumMax(xs: seq<Option<RollupEntry>>): real {
    if xs == [] then 0.0
    else
      var last := xs[|xs| - 1];
      SumMax(xs[..|xs| - 1]) + (if last.Some? then last.value.maxScore.GetOr(0.0) else 0.0)
  }

  predicate AnyEntryFailed(xs: seq<Option<RollupEntry>>) {
    xs != [] && (AnyEntryFailed(xs[..|xs| - 1]) || (xs[|xs| - 1].Some? && xs[|xs| - 1].value.criticalFail))
  }

  lemma {:induction false} AnyEntryFailedIff(xs: seq<Option<RollupEntry>>)
    ensures AnyEntryFailed(xs) <==> exists i :: 0 <= i < |xs| && xs[i].Some? && xs[i].value.criticalFail
  {
    if xs != [] {
      var init := xs[..|xs| - 1];
      AnyEntryFailedIff(init);
      if AnyEntryFailed(init) {
        var i :| 0 <= i < |init| && init[i].Some? && init[i].value.criticalFail;
        assert xs[i] == init[i];
      }
      if exists i :: 0 <= i < |xs| && xs[i].Some? && xs[i].value.criticalFail {
        var i :| 0 <= i < |xs| && xs[i].Some? && xs[i].value.criticalFail;
        if i < |init| {
          assert init[i] == xs[i];
        }
      }
    }
  }

  /** An entry whose total lies between 0 and its maximum, as every standard result does. */
  predicate WellScored(e: Option<RollupEntry>) {
    e.Some? ==> 0.0 <= e.value.totalScore.GetOr(0.0) <= e.value.maxScore.GetOr(0.0)
  }

  /** Rolling up well-scored entries gives a total between 0 and the summed maximum. */
  lemma {:induction false} RollupBounded(xs: seq<Option<RollupEntry>>)
    requires forall i :: 0 <= i < |xs| ==> WellScored(xs[i])
    ensures 0.0 <= SumTotals(xs) <= SumMax(xs)
  {
    if xs != [] {
      RollupBounded(xs[..|xs| - 1]);
      assert WellScored(xs[|xs| - 1]);
    }
  }

  /** calculateSectionScore: sums over the standards that are present; `None` is a non-array. */
  method CalculateSectionScore(standards: Option<seq<Option<RollupEntry>>>) returns (r: ScoreResult)
    ensures standards.None? ==> r == EmptyScore
    ensures standards.Some? ==> r.totalScore == SumTotals(standards.value) && r.maxScore == SumMax(standards.value)
    ensures standards.Some? ==> (r.criticalFail <==> AnyEntryFailed(standards.value))
    ensures r.percent == Percent(r.totalScore, r.maxScore)
  {
    if standards.None? || standards.value == [] {
      return EmptyScore;
    }
    var xs := standards.value;
    var totalScoreSum, maxScoreSum, criticalFail := 0.0, 0.0, false;
    for i := 0 to |xs|
      invariant totalScoreSum == SumTotals(xs[..i])
      invariant maxScoreSum == SumMax(xs[..i])
      invariant criticalFail == AnyEntryFailed(xs[..i])
    {
      assert xs[..i + 1][..i] == xs[..i];
      if xs[i].None? {
        continue;
      }
      var standard := xs[i].value;
      totalScoreSum := totalScoreSum + standard.totalScore.GetOr(0.0);
      maxScoreSum := maxScoreSum + standard.maxScore.GetOr(0.0);
      if standard.criticalFail {
        criticalFail := true;
      }
    }
    assert xs[..|xs|] == xs;
    return ScoreResult(Percent(totalScoreSum, maxScoreSum), totalScoreSum, maxScoreSum, criticalFail);
  }

  /** calculateOverallScore: the same roll-up, applied to section results. */
  method CalculateOverallScore(sections: Option<seq<Option<RollupEntry>>>) returns (r: ScoreResult)
    ensures sections.None? ==> r == EmptyScore
    ensures sections.Some? ==> r.totalScore == SumTotals(sections.value) && r.maxScore == SumMax(sections.value)
    ensures sections.Some? ==> (r.criticalFail <==> AnyEntryFailed(sections.value))
    ensures r.percent == Percent(r.totalScore, r.maxScore)
  {
    r := CalculateSectionScore(sections);
  }
}
