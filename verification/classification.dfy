/**
 * Compliance classification with a one-level downgrade on critical failure
 * (src/utils/classification.js).
 */
module Classification {
  import opened Wrappers

  datatype Level = Level(name: string, min: real)

  /** The level table, best first. */
  const Levels: seq<Level> := [
    Level("Fully Compliant", 85.0),
    Level("Substantial Compliance", 70.0),
    Level("Partial Compliance", 50.0),
    Level("Non-Compliant", 0.0)
  ]

  const LowestLevel: nat := 3

  /** `{ statusLabel, finalPercent, hasCriticalFailure }`. */
  datatype Classification = Classification(statusLabel: string, finalPercent: real, hasCriticalFailure: bool)

  /** `levels.findIndex(l => percent >= l.min)`, searching from index `from`. */
  function FindLevel(percent: real, from: nat): (r: Option<nat>)
    requires from <= |Levels|
    ensures r.Some? ==> from <= r.value < |Levels| && percent >= Levels[r.value].min
    ensures r.Some? ==> forall k :: from <= k < r.value ==> percent < Levels[k].min
    ensures r.None? ==> forall k :: from <= k < |Levels| ==> percent < Levels[k].min
    decreases |Levels| - from
  {
    if from == |Levels| then None
    else if percent >= Levels[from].min then Some(from)
    else FindLevel(percent, from + 1)
  }

  /** The level index before any downgrade; no match falls back to the last level. */
  function BaseLevel(percent: real): (i: nat)
    ensures i <= LowestLevel
  {
    match FindLevel(percent, 0)
    case Some(i) => i
    case None => LowestLevel
  }

  /** The level index after the critical-failure downgrade, never past the last level. */
  function LevelIndex(percent: real, criticalFail: bool): (i: nat)
    ensures i <= LowestLevel
  {
    var base := BaseLevel(percent);
    if criticalFail then (if base + 1 < LowestLevel then base + 1 else LowestLevel) else base
  }

  /**
   * classifyAssessment. A missing `percent` defaults to 0 and a missing `criticalFail`
   * to false.
   */
  function ClassifyAssessment(percent: Option<real>, criticalFail: Option<bool>): (r: Classification)
    ensures r.finalPercent == percent.GetOr(0.0)
    ensures r.hasCriticalFailure == criticalFail.GetOr(false)
    ensures exists i :: 0 <= i < |Levels| && r.statusLabel == Levels[i].name
  {
    var p := percent.GetOr(0.0);
    var c := criticalFail.GetOr(false);
    var i := LevelIndex(p, c);
    Classification(Levels[i].name, p, c)
  }

  /** Without a critical failure the level follows the four thresholds, in both directions. */
  lemma Thresholds(p: real)
    ensures ClassifyAssessment(Some(p), Some(false)).statusLabel == "Fully Compliant" <==> p >= 85.0
    ensures ClassifyAssessment(Some(p), Some(false)).statusLabel == "Substantial Compliance" <==> 70.0 <= p < 85.0
    ensures ClassifyAssessment(Some(p), Some(false)).statusLabel == "Partial Compliance" <==> 50.0 <= p < 70.0
    ensures ClassifyAssessment(Some(p), Some(false)).statusLabel == "Non-Compliant" <==> p < 50.0
  {
    var i := BaseLevel(p);
    assert Levels[0].min == 85.0 && Levels[1].min == 70.0 && Levels[2].min == 50.0 && Levels[3].min == 0.0;
    if p >= 85.0 {
      assert i == 0;
    } else if p >= 70.0 {
      assert i == 1;
    } else if p >= 50.0 {
      assert i == 2;
    } else {
      assert i == 3;
    }
  }

  /** A percentage below every threshold (a negative one) still classifies as "Non-Compliant". */
  lemma NegativeFallsBack(p: real, criticalFail: bool)
    requires p < 0.0
    ensures FindLevel(p, 0).None?
    ensures ClassifyAssessment(Some(p), Some(criticalFail)).statusLabel == "Non-Compliant"
  {
    assert forall k :: 0 <= k < |Levels| ==> p < Levels[k].min;
  }

  /** A critical failure moves exactly one level down, stopping at the last level. */
  lemma CriticalDowngrade(p: real)
    ensures LevelIndex(p, true) == if BaseLevel(p) < LowestLevel then BaseLevel(p) + 1 else LowestLevel
    ensures BaseLevel(p) == 0 ==> ClassifyAssessment(Some(p), Some(true)).statusLabel == "Substantial Compliance"
  {
  }

  /** A higher percentage never gives a worse level, with the critical flag held fixed. */
  lemma Monotonic(p: real, q: real, criticalFail: bool)
    requires p <= q
    ensures LevelIndex(q, criticalFail) <= LevelIndex(p, criticalFail)
  {
    var i := BaseLevel(p);
    if i < LowestLevel {
      assert FindLevel(p, 0) == Some(i);
      assert q >= Levels[i].min;
    }
  }

  /** The defaults classify as "Non-Compliant". */
  lemma DefaultsAreNonCompliant()
    ensures ClassifyAssessment(None, None).statusLabel == "Non-Compliant"
  {
    Thresholds(0.0);
  }
}
