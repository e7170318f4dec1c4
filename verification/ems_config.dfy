/**
 * The EMS standards configuration (`ems_full_configuration`) that the Python scripts
 * build and the patch scripts rewrite: service elements (SEs) hold sections, sections
 * hold standards, standards hold criteria. A JSON key that is absent is `None` where
 * the scripts distinguish absence, and "" where they only test truthiness.
 */
module EmsConfig {
  import opened Wrappers

  datatype Criterion = Criterion(
    id: string,
    description: string,
    isCritical: Option<bool>,
    category: string,
    severity: Option<int>,
    default: Option<string>,
    severityText: Option<string>)

  datatype Standard = Standard(standardId: string, statement: string, intentTooltip: string, criteria: seq<Criterion>)

  datatype Section = Section(sectionPiId: string, title: string, standards: seq<Standard>)

  datatype Se = Se(seId: int, seName: string, sections: seq<Section>)

  type Config = seq<Se>

  const DefaultCategory := "Basic Process + Patient Care"

  /** A criterion as the parsers create it: the fixed category, severity 3, nothing patched yet. */
  function NewCriterion(id: string, description: string, isCritical: bool): (c: Criterion)
    ensures c.id == id && c.description == description && c.isCritical == Some(isCritical)
    ensures c.category == DefaultCategory && c.severity == Some(3)
    ensures c.default.None? && c.severityText.None?
  {
    Criterion(id, description, Some(isCritical), DefaultCategory, Some(3), None, None)
  }

  // ---------------------------------------------------------------- load_valid_ids

  function StandardIds(std: Standard): set<string> {
    set c | c in std.criteria :: c.id
  }

  function StandardsIds(stds: seq<Standard>): set<string> {
    if stds == [] then {} else StandardsIds(stds[..|stds| - 1]) + StandardIds(stds[|stds| - 1])
  }

  function SectionsIds(secs: seq<Section>): set<string> {
    if secs == [] then {} else SectionsIds(secs[..|secs| - 1]) + StandardsIds(secs[|secs| - 1].standards)
  }

  /** Every criterion id anywhere in the configuration. */
  function ConfigIds(config: Config): set<string> {
    if config == [] then {} else ConfigIds(config[..|config| - 1]) + SectionsIds(config[|config| - 1].sections)
  }

  lemma {:induction false} StandardsIdsIff(stds: seq<Standard>, x: string)
    ensures x in StandardsIds(stds) <==> exists k :: 0 <= k < |stds| && x in StandardIds(stds[k])
  {
    if stds != [] {
      StandardsIdsIff(stds[..|stds| - 1], x);
      if x in StandardsIds(stds[..|stds| - 1]) {
        var k :| 0 <= k < |stds| - 1 && x in StandardIds(stds[..|stds| - 1][k]);
        assert stds[..|stds| - 1][k] == stds[k];
      }
      forall k | 0 <= k < |stds| - 1 ensures stds[..|stds| - 1][k] == stds[k] { }
    }
  }

  lemma {:induction false} SectionsIdsIff(secs: seq<Section>, x: string)
    ensures x in SectionsIds(secs) <==> exists j :: 0 <= j < |secs| && x in StandardsIds(secs[j].standards)
  {
    if secs != [] {
      SectionsIdsIff(secs[..|secs| - 1], x);
      if x in SectionsIds(secs[..|secs| - 1]) {
        var j :| 0 <= j < |secs| - 1 && x in StandardsIds(secs[..|secs| - 1][j].standards);
        assert secs[..|secs| - 1][j] == secs[j];
      }
      forall j | 0 <= j < |secs| - 1 ensures secs[..|secs| - 1][j] == secs[j] { }
    }
  }

  lemma {:induction false} ConfigIdsIff(config: Config, x: string)
    ensures x in ConfigIds(config) <==> exists i :: 0 <= i < |config| && x in SectionsIds(config[i].sections)
  {
    if config != [] {
      ConfigIdsIff(config[..|config| - 1], x);
      if x in ConfigIds(config[..|config| - 1]) {
        var i :| 0 <= i < |config| - 1 && x in SectionsIds(config[..|config| - 1][i].sections);
        assert config[..|config| - 1][i] == config[i];
      }
      forall i | 0 <= i < |config| - 1 ensures config[..|config| - 1][i] == config[i] { }
    }
  }

  /** Every criterion's code, at any depth, is collected. */
  lemma IdCollected(config: Config, i: nat, j: nat, k: nat, l: nat)
    requires i < |config| && j < |config[i].sections| && k < |config[i].sections[j].standards|
    requires l < |config[i].sections[j].standards[k].criteria|
    ensures config[i].sections[j].standards[k].criteria[l].id in ConfigIds(config)
  {
    var x := config[i].sections[j].standards[k].criteria[l].id;
    StandardsIdsIff(config[i].sections[j].standards, x);
    SectionsIdsIff(config[i].sections, x);
    ConfigIdsIff(config, x);
  }

  /** Only criteria's codes are collected: each comes from some criterion of some standard of some section of some SE. */
  lemma IdFound(config: Config, x: string)
    requires x in ConfigIds(config)
    ensures exists i, j, k, l :: 0 <= i < |config| && 0 <= j < |config[i].sections|
              && 0 <= k < |config[i].sections[j].standards| && 0 <= l < |config[i].sections[j].standards[k].criteria|
              && config[i].sections[j].standards[k].criteria[l].id == x
  {
    ConfigIdsIff(config, x);
    var i :| 0 <= i < |config| && x in SectionsIds(config[i].sections);
    SectionsIdsIff(config[i].sections, x);
    var j :| 0 <= j < |config[i].sections| && x in StandardsIds(config[i].sections[j].standards);
    StandardsIdsIff(config[i].sections[j].standards, x);
    var k :| 0 <= k < |config[i].sections[j].standards| && x in StandardIds(config[i].sections[j].standards[k]);
    var l :| 0 <= l < |config[i].sections[j].standards[k].criteria| && config[i].sections[j].standards[k].criteria[l].id == x;
  }

  method StandardsValidIds(stds: seq<Standard>) returns (ids: set<string>)
    ensures ids == StandardsIds(stds)
  {
    ids := {};
    for k := 0 to |stds|
      invariant ids == StandardsIds(stds[..k])
    {
      assert stds[..k + 1][..k] == stds[..k];
      for l := 0 to |stds[k].criteria|
        invariant ids == StandardsIds(stds[..k]) + set c | c in stds[k].criteria[..l] :: c.id
      {
        assert stds[k].criteria[..l + 1] == stds[k].criteria[..l] + [stds[k].criteria[l]];
        ids := ids + {stds[k].criteria[l].id};
      }
      assert stds[k].criteria[..|stds[k].criteria|] == stds[k].criteria;
    }
    assert stds[..|stds|] == stds;
  }

  method SectionsValidIds(secs: seq<Section>) returns (ids: set<string>)
    ensures ids == SectionsIds(secs)
  {
    ids := {};
    for j := 0 to |secs|
      invariant ids == SectionsIds(secs[..j])
    {
      assert secs[..j + 1][..j] == secs[..j];
      var more := StandardsValidIds(secs[j].standards);
      ids := ids + more;
    }
    assert secs[..|secs|] == secs;
  }

  /** load_valid_ids over an already loaded configuration. */
  method LoadValidIds(config: Config) returns (validIds: set<string>)
    ensures validIds == ConfigIds(config)
  {
    validIds := {};
    for i := 0 to |config|
      invariant validIds == ConfigIds(config[..i])
    {
      assert config[..i + 1][..i] == config[..i];
      var more := SectionsValidIds(config[i].sections);
      validIds := validIds + more;
    }
    assert config[..|config|] == config;
  }
}
