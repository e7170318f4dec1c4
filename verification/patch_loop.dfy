/**
 * The patch pass that patch_config.cjs and patch_config.js share: every criterion of every
 * standard of every section of every SE that has an id goes through the script's own
 * patch body, in place; `updateCount` counts the criteria the body changed, and
 * `missingCount` those it left alone while no severity was extracted for them.
 * The body is the parameter `step`: a criterion in, the patched criterion and the
 * `updated` flag out. `hasSeverity` says whether the severity map holds an id.
 */
module PatchLoop {
  import opened EmsConfig

  type Step = Criterion -> (Criterion, bool)

  /** A criterion after the pass: one without an id (`if (criterion.id)`) is skipped. */
  function PatchOne(step: Step, c: Criterion): Criterion {
    if c.id == "" then c else step(c).0
  }

  /** The pass counts `c` as updated. */
  predicate Updated(step: Step, c: Criterion) {
    c.id != "" && step(c).1
  }

  /** The pass counts `c` as missing: not updated, and no severity was extracted for it. */
  predicate Missing(step: Step, hasSeverity: string -> bool, c: Criterion) {
    c.id != "" && !step(c).1 && !hasSeverity(c.id)
  }

  function PatchCriteria(step: Step, cs: seq<Criterion>): (r: seq<Criterion>)
    ensures |r| == |cs| && forall l :: 0 <= l < |cs| ==> r[l] == PatchOne(step, cs[l])
  {
    seq(|cs|, l requires 0 <= l < |cs| => PatchOne(step, cs[l]))
  }

  function PatchStandards(step: Step, stds: seq<Standard>): (r: seq<Standard>)
    ensures |r| == |stds|
    ensures forall k :: 0 <= k < |stds| ==> r[k] == stds[k].(criteria := PatchCriteria(step, stds[k].criteria))
  {
    seq(|stds|, k requires 0 <= k < |stds| => stds[k].(criteria := PatchCriteria(step, stds[k].criteria)))
  }

  function PatchSections(step: Step, secs: seq<Section>): (r: seq<Section>)
    ensures |r| == |secs|
    ensures forall j :: 0 <= j < |secs| ==> r[j] == secs[j].(standards := PatchStandards(step, secs[j].standards))
  {
    seq(|secs|, j requires 0 <= j < |secs| => secs[j].(standards := PatchStandards(step, secs[j].standards)))
  }

  /** The configuration after the pass: only criteria change, everything around them stays. */
  function PatchConfig(step: Step, config: Config): (r: Config)
    ensures |r| == |config|
    ensures forall i :: 0 <= i < |config| ==> r[i] == config[i].(sections := PatchSections(step, config[i].sections))
  {
    seq(|config|, i requires 0 <= i < |config| => config[i].(sections := PatchSections(step, config[i].sections)))
  }

  // ---------------------------------------------------------------- the criteria in order

  function FlatStandards(stds: seq<Standard>): seq<Criterion> {
    if stds == [] then [] else FlatStandards(stds[..|stds| - 1]) + stds[|stds| - 1].criteria
  }

  function FlatSections(secs: seq<Section>): seq<Criterion> {
    if secs == [] then [] else FlatSections(secs[..|secs| - 1]) + FlatStandards(secs[|secs| - 1].standards)
  }

  /** Every criterion of the configuration, in the order the pass visits them. */
  function Flat(config: Config): seq<Criterion> {
    if config == [] then [] else Flat(config[..|config| - 1]) + FlatSections(config[|config| - 1].sections)
  }

  function UpdatedCount(step: Step, cs: seq<Criterion>): nat {
    if cs == [] then 0 else UpdatedCount(step, cs[..|cs| - 1]) + (if Updated(step, cs[|cs| - 1]) then 1 else 0)
  }

  function MissingCount(step: Step, hasSeverity: string -> bool, cs: seq<Criterion>): nat {
    if cs == [] then 0
    else MissingCount(step, hasSeverity, cs[..|cs| - 1]) + (if Missing(step, hasSeverity, cs[|cs| - 1]) then 1 else 0)
  }

  /** Both counts add up over consecutive runs of criteria. */
  lemma {:induction false} CountsAppend(step: Step, hasSeverity: string -> bool, a: seq<Criterion>, b: seq<Criterion>)
    ensures UpdatedCount(step, a + b) == UpdatedCount(step, a) + UpdatedCount(step, b)
    ensures MissingCount(step, hasSeverity, a + b) == MissingCount(step, hasSeverity, a) + MissingCount(step, hasSeverity, b)
    decreases |b|
  {
    if b != [] {
      assert (a + b)[..|a + b| - 1] == a + b[..|b| - 1];
      assert (a + b)[|a + b| - 1] == b[|b| - 1];
      CountsAppend(step, hasSeverity, a, b[..|b| - 1]);
    } else {
      assert a + b == a;
    }
  }

  /** An updated criterion is never missing, and the two counts never exceed the criteria. */
  lemma {:induction false} CountsBounded(step: Step, hasSeverity: string -> bool, cs: seq<Criterion>)
    ensures UpdatedCount(step, cs) + MissingCount(step, hasSeverity, cs) <= |cs|
  {
    if cs != [] {
      CountsBounded(step, hasSeverity, cs[..|cs| - 1]);
    }
  }

  // ---------------------------------------------------------------- the loops

  /** The innermost loop, over one standard's criteria. */
  method PatchCriteriaLoop(step: Step, hasSeverity: string -> bool, cs: seq<Criterion>)
    returns (out: seq<Criterion>, updateCount: nat, missingCount: nat)
    ensures out == PatchCriteria(step, cs)
    ensures updateCount == UpdatedCount(step, cs) && missingCount == MissingCount(step, hasSeverity, cs)
  {
    out, updateCount, missingCount := cs, 0, 0;
    for l := 0 to |cs|
      invariant |out| == |cs|
      invariant forall j :: 0 <= j < l ==> out[j] == PatchOne(step, cs[j])
      invariant forall j :: l <= j < |cs| ==> out[j] == cs[j]
      invariant updateCount == UpdatedCount(step, cs[..l]) && missingCount == MissingCount(step, hasSeverity, cs[..l])
    {
      assert cs[..l + 1][..l] == cs[..l];
      var criterion := out[l];
      if criterion.id != "" {
        var (patched, updated) := step(criterion);
        out := out[l := patched];
        if updated {
          updateCount := updateCount + 1;
        } else if !hasSeverity(criterion.id) {
          missingCount := missingCount + 1;
        }
      }
    }
    assert cs[..|cs|] == cs;
  }

  method PatchStandardsLoop(step: Step, hasSeverity: string -> bool, stds: seq<Standard>)
    returns (out: seq<Standard>, updateCount: nat, missingCount: nat)
    ensures out == PatchStandards(step, stds)
    ensures updateCount == UpdatedCount(step, FlatStandards(stds))
    ensures missingCount == MissingCount(step, hasSeverity, FlatStandards(stds))
  {
    out, updateCount, missingCount := stds, 0, 0;
    for k := 0 to |stds|
      invariant |out| == |stds|
      invariant forall j :: 0 <= j < k ==> out[j] == stds[j].(criteria := PatchCriteria(step, stds[j].criteria))
      invariant forall j :: k <= j < |stds| ==> out[j] == stds[j]
      invariant updateCount == UpdatedCount(step, FlatStandards(stds[..k]))
      invariant missingCount == MissingCount(step, hasSeverity, FlatStandards(stds[..k]))
    {
      assert stds[..k + 1][..k] == stds[..k];
      CountsAppend(step, hasSeverity, FlatStandards(stds[..k]), stds[k].criteria);
      var cs, u, m := PatchCriteriaLoop(step, hasSeverity, out[k].criteria);
      out := out[k := out[k].(criteria := cs)];
      updateCount, missingCount := updateCount + u, missingCount + m;
    }
    assert stds[..|stds|] == stds;
  }

  method PatchSectionsLoop(step: Step, hasSeverity: string -> bool, secs: seq<Section>)
    returns (out: seq<Section>, updateCount: nat, missingCount: nat)
    ensures out == PatchSections(step, secs)
    ensures updateCount == UpdatedCount(step, FlatSections(secs))
    ensures missingCount == MissingCount(step, hasSeverity, FlatSections(secs))
  {
    out, updateCount, missingCount := secs, 0, 0;
    for j := 0 to |secs|
      invariant |out| == |secs|
      invariant forall i :: 0 <= i < j ==> out[i] == secs[i].(standards := PatchStandards(step, secs[i].standards))
      invariant forall i :: j <= i < |secs| ==> out[i] == secs[i]
      invariant updateCount == UpdatedCount(step, FlatSections(secs[..j]))
      invariant missingCount == MissingCount(step, hasSeverity, FlatSections(secs[..j]))
    {
      assert secs[..j + 1][..j] == secs[..j];
      CountsAppend(step, hasSeverity, FlatSections(secs[..j]), FlatStandards(secs[j].standards));
      var stds, u, m := PatchStandardsLoop(step, hasSeverity, out[j].standards);
      out := out[j := out[j].(standards := stds)];
      updateCount, missingCount := updateCount + u, missingCount + m;
    }
    assert secs[..|secs|] == secs;
  }

  /**
   * The patch pass over the whole configuration: the result is the configuration with every
   * criterion patched, and the counters count the updated and the missing criteria.
   */
  method PatchPass(step: Step, hasSeverity: string -> bool, config: Config)
    returns (out: Config, updateCount: nat, missingCount: nat)
    ensures out == PatchConfig(step, config)
    ensures updateCount == UpdatedCount(step, Flat(config))
    ensures missingCount == MissingCount(step, hasSeverity, Flat(config))
    ensures updateCount + missingCount <= |Flat(config)|
  {
    out, updateCount, missingCount := config, 0, 0;
    for i := 0 to |config|
      invariant |out| == |config|
      invariant forall h :: 0 <= h < i ==> out[h] == config[h].(sections := PatchSections(step, config[h].sections))
      invariant forall h :: i <= h < |config| ==> out[h] == config[h]
      invariant updateCount == UpdatedCount(step, Flat(config[..i]))
      invariant missingCount == MissingCount(step, hasSeverity, Flat(config[..i]))
    {
      assert config[..i + 1][..i] == config[..i];
      CountsAppend(step, hasSeverity, Flat(config[..i]), FlatSections(config[i].sections));
      var secs, u, m := PatchSectionsLoop(step, hasSeverity, out[i].sections);
      out := out[i := out[i].(sections := secs)];
      updateCount, missingCount := updateCount + u, missingCount + m;
    }
    assert config[..|config|] == config;
    CountsBounded(step, hasSeverity, Flat(config));
  }

  // ---------------------------------------------------------------- a second pass

  /** A body whose output is left alone by a second application: same id, no change, no update. */
  ghost predicate Settled(step: Step) {
    forall c: Criterion :: c.id != "" ==> step(c).0.id == c.id && step(step(c).0) == (step(c).0, false)
  }

  /** The criteria of the patched configuration are the patched criteria, in the same order. */
  lemma {:induction false} FlatStandardsPatched(step: Step, stds: seq<Standard>)
    ensures FlatStandards(PatchStandards(step, stds)) == PatchCriteria(step, FlatStandards(stds))
  {
    if stds != [] {
      var init := stds[..|stds| - 1];
      assert PatchStandards(step, stds)[..|stds| - 1] == PatchStandards(step, init);
      FlatStandardsPatched(step, init);
    }
  }

  lemma {:induction false} FlatSectionsPatched(step: Step, secs: seq<Section>)
    ensures FlatSections(PatchSections(step, secs)) == PatchCriteria(step, FlatSections(secs))
  {
    if secs != [] {
      var init := secs[..|secs| - 1];
      assert PatchSections(step, secs)[..|secs| - 1] == PatchSections(step, init);
      FlatSectionsPatched(step, init);
      FlatStandardsPatched(step, secs[|secs| - 1].standards);
    }
  }

  lemma {:induction false} FlatPatched(step: Step, config: Config)
    ensures Flat(PatchConfig(step, config)) == PatchCriteria(step, Flat(config))
  {
    if config != [] {
      var init := config[..|config| - 1];
      assert PatchConfig(step, config)[..|config| - 1] == PatchConfig(step, init);
      FlatPatched(step, init);
      FlatSectionsPatched(step, config[|config| - 1].sections);
    }
  }

  /** No criterion a settled body has patched counts as updated again. */
  lemma {:induction false} NoneUpdatedAgain(step: Step, cs: seq<Criterion>)
    requires Settled(step)
    ensures UpdatedCount(step, PatchCriteria(step, cs)) == 0
  {
    if cs != [] {
      var init := cs[..|cs| - 1];
      assert PatchCriteria(step, cs)[..|cs| - 1] == PatchCriteria(step, init);
      NoneUpdatedAgain(step, init);
    }
  }

  /** A settled body patches a patched criterion into itself. */
  lemma PatchOneTwice(step: Step, c: Criterion)
    requires Settled(step)
    ensures PatchOne(step, PatchOne(step, c)) == PatchOne(step, c)
  {
  }

  /**
   * With a settled body, a second pass over the patched configuration changes nothing and
   * counts no update.
   */
  lemma PatchPassTwice(step: Step, hasSeverity: string -> bool, config: Config)
    requires Settled(step)
    ensures PatchConfig(step, PatchConfig(step, config)) == PatchConfig(step, config)
    ensures UpdatedCount(step, Flat(PatchConfig(step, config))) == 0
  {
    FlatPatched(step, config);
    NoneUpdatedAgain(step, Flat(config));
    var once := PatchConfig(step, config);
    forall i | 0 <= i < |config|
      ensures PatchSections(step, once[i].sections) == once[i].sections
    {
      var secs := config[i].sections;
      forall j | 0 <= j < |secs|
        ensures PatchStandards(step, once[i].sections[j].standards) == once[i].sections[j].standards
      {
        var stds := secs[j].standards;
        forall k | 0 <= k < |stds|
          ensures PatchCriteria(step, once[i].sections[j].standards[k].criteria) == once[i].sections[j].standards[k].criteria
        {
          forall l | 0 <= l < |stds[k].criteria|
            ensures PatchOne(step, PatchOne(step, stds[k].criteria[l])) == PatchOne(step, stds[k].criteria[l])
          {
            PatchOneTwice(step, stds[k].criteria[l]);
          }
        }
      }
    }
  }
}
