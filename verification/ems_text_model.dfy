/**
 * The state `parse_text` (parse_ems_text.py) builds: the list of service elements with
 * their sections, standards and criteria. The Python code holds references to the
 * current SE, section and standard and appends through them; here those references are
 * paths of indices into the list, and each append or update is a function on values.
 *
 * `ConfigOk` is the well-formedness every accepted line keeps: SE ids 1..10, unique,
 * names upper-case and longer than five characters; section ids prefixed by
 * "<se_id>." and unique within their SE; standard ids of three dotted parts, prefixed
 * by their section id and unique within it; criterion ids prefixed by their standard id
 * and unique within it, with severity 3 and the fixed category. `Grows` says that
 * nothing recorded is ever lost or rewritten, except that an empty intent text may be
 * filled in.
 */
module EmsTextModel {
  import opened Wrappers
  import opened Strings
  import opened EmsConfig

  // ---------------------------------------------------------------- paths

  /** A section: the index of its SE in the list and its index in that SE. */
  datatype SecPath = SecPath(se: nat, sec: nat)

  /** A standard: its section's path and its index in that section. */
  datatype StdPath = StdPath(se: nat, sec: nat, std: nat)

  predicate ValidSec(config: Config, p: SecPath) {
    p.se < |config| && p.sec < |config[p.se].sections|
  }

  predicate ValidStd(config: Config, p: StdPath) {
    p.se < |config| && p.sec < |config[p.se].sections| && p.std < |config[p.se].sections[p.sec].standards|
  }

  function SectionAt(config: Config, p: SecPath): Section
    requires ValidSec(config, p)
  {
    config[p.se].sections[p.sec]
  }

  function StandardAt(config: Config, p: StdPath): Standard
    requires ValidStd(config, p)
  {
    config[p.se].sections[p.sec].standards[p.std]
  }

  /** The section a standard path lies in. */
  function Parent(p: StdPath): SecPath {
    SecPath(p.se, p.sec)
  }

  /** `current_se`, `current_section`, `current_standard`, each absent (`None`) or a path. */
  datatype Cursor = Cursor(se: Option<nat>, section: Option<SecPath>, standard: Option<StdPath>)

  predicate CursorOk(config: Config, cur: Cursor) {
    (cur.se.Some? ==> cur.se.value < |config|)
    && (cur.section.Some? ==> ValidSec(config, cur.section.value))
    && (cur.standard.Some? ==> ValidStd(config, cur.standard.value))
  }

  // ---------------------------------------------------------------- well-formedness

  predicate CriterionOk(stdId: string, c: Criterion) {
    stdId <= c.id && c.severity == Some(3) && c.category == DefaultCategory
    && c.isCritical.Some? && c.default.None? && c.severityText.None?
  }

  predicate CriteriaUnique(cs: seq<Criterion>) {
    forall a, b :: 0 <= a < b < |cs| ==> cs[a].id != cs[b].id
  }

  predicate StandardOk(secId: string, std: Standard) {
    secId <= std.standardId && |Split(std.standardId, '.')| == 3
    && CriteriaUnique(std.criteria)
    && forall l :: 0 <= l < |std.criteria| ==> CriterionOk(std.standardId, std.criteria[l])
  }

  predicate StandardsUnique(ss: seq<Standard>) {
    forall a, b :: 0 <= a < b < |ss| ==> ss[a].standardId != ss[b].standardId
  }

  predicate SectionOk(seId: nat, sec: Section) {
    DecimalText(seId) + "." <= sec.sectionPiId
    && StandardsUnique(sec.standards)
    && forall k :: 0 <= k < |sec.standards| ==> StandardOk(sec.sectionPiId, sec.standards[k])
  }

  predicate SectionsUnique(ss: seq<Section>) {
    forall a, b :: 0 <= a < b < |ss| ==> ss[a].sectionPiId != ss[b].sectionPiId
  }

  predicate SeOk(se: Se) {
    1 <= se.seId <= 10 && |se.seName| > 5 && ToUpper(se.seName) == se.seName
    && SectionsUnique(se.sections)
    && forall j :: 0 <= j < |se.sections| ==> SectionOk(se.seId, se.sections[j])
  }

  predicate SeIdsUnique(config: Config) {
    forall a, b :: 0 <= a < b < |config| ==> config[a].seId != config[b].seId
  }

  predicate ConfigOk(config: Config) {
    SeIdsUnique(config) && forall i :: 0 <= i < |config| ==> SeOk(config[i])
  }

  /** `se_ids_seen` as the list determines it. */
  function SeIds(config: Config): set<int> {
    set i | 0 <= i < |config| :: config[i].seId
  }

  // ---------------------------------------------------------------- growth

  predicate StdGrows(a: Standard, b: Standard) {
    b.standardId == a.standardId && b.statement == a.statement
    && (a.intentTooltip != [] ==> b.intentTooltip == a.intentTooltip)
    && a.criteria <= b.criteria
  }

  predicate SecGrows(a: Section, b: Section) {
    b.sectionPiId == a.sectionPiId && b.title == a.title && |a.standards| <= |b.standards|
    && forall k :: 0 <= k < |a.standards| ==> StdGrows(a.standards[k], b.standards[k])
  }

  predicate SeGrows(a: Se, b: Se) {
    b.seId == a.seId && b.seName == a.seName && |a.sections| <= |b.sections|
    && forall j :: 0 <= j < |a.sections| ==> SecGrows(a.sections[j], b.sections[j])
  }

  /** `b` extends `a`: every SE, section, standard and criterion of `a` is still there, unchanged but for a filled-in empty intent. */
  predicate Grows(a: Config, b: Config) {
    |a| <= |b| && forall i :: 0 <= i < |a| ==> SeGrows(a[i], b[i])
  }

  lemma StdGrowsTrans(a: Standard, b: Standard, c: Standard)
    requires StdGrows(a, b) && StdGrows(b, c)
    ensures StdGrows(a, c)
  {
  }

  lemma SecGrowsTrans(a: Section, b: Section, c: Section)
    requires SecGrows(a, b) && SecGrows(b, c)
    ensures SecGrows(a, c)
  {
    forall k | 0 <= k < |a.standards| ensures StdGrows(a.standards[k], c.standards[k]) {
      StdGrowsTrans(a.standards[k], b.standards[k], c.standards[k]);
    }
  }

  lemma SeGrowsTrans(a: Se, b: Se, c: Se)
    requires SeGrows(a, b) && SeGrows(b, c)
    ensures SeGrows(a, c)
  {
    forall j | 0 <= j < |a.sections| ensures SecGrows(a.sections[j], c.sections[j]) {
      SecGrowsTrans(a.sections[j], b.sections[j], c.sections[j]);
    }
  }

  /** Growth composes: a run of accepted lines only ever extends what it found. */
  lemma GrowsTrans(a: Config, b: Config, c: Config)
    requires Grows(a, b) && Grows(b, c)
    ensures Grows(a, c)
  {
    forall i | 0 <= i < |a| ensures SeGrows(a[i], c[i]) {
      SeGrowsTrans(a[i], b[i], c[i]);
    }
  }

  lemma SecGrowsRefl(a: Section)
    ensures SecGrows(a, a)
  {
    forall k | 0 <= k < |a.standards| ensures StdGrows(a.standards[k], a.standards[k]) { }
  }

  lemma SeGrowsRefl(a: Se)
    ensures SeGrows(a, a)
  {
    forall j | 0 <= j < |a.sections| ensures SecGrows(a.sections[j], a.sections[j]) {
      SecGrowsRefl(a.sections[j]);
    }
  }

  lemma GrowsRefl(a: Config)
    ensures Grows(a, a)
  {
    forall i | 0 <= i < |a| ensures SeGrows(a[i], a[i]) {
      SeGrowsRefl(a[i]);
    }
  }

  /** Paths into a configuration stay valid in any extension of it. */
  lemma CursorGrows(a: Config, b: Config, cur: Cursor)
    requires Grows(a, b) && CursorOk(a, cur)
    ensures CursorOk(b, cur)
  {
    if cur.section.Some? {
      var p := cur.section.value;
      assert SeGrows(a[p.se], b[p.se]);
    }
    if cur.standard.Some? {
      var p := cur.standard.value;
      assert SeGrows(a[p.se], b[p.se]);
      assert SecGrows(a[p.se].sections[p.sec], b[p.se].sections[p.sec]);
    }
  }

  // ---------------------------------------------------------------- updates

  /** The list with the SE at `i` replaced by `se`, which keeps its id. */
  function WithSe(config: Config, i: nat, se: Se): (r: Config)
    requires i < |config| && se.seId == config[i].seId
    ensures |r| == |config| && r[i] == se && forall x :: 0 <= x < |r| && x != i ==> r[x] == config[x]
  {
    config[i := se]
  }

  function WithSection(se: Se, j: nat, sec: Section): Se
    requires j < |se.sections|
  {
    se.(sections := se.sections[j := sec])
  }

  function WithStandardIn(sec: Section, k: nat, std: Standard): Section
    requires k < |sec.standards|
  {
    sec.(standards := sec.standards[k := std])
  }

  /** The list with the standard at `p` replaced by `std`. */
  function WithStandard(config: Config, p: StdPath, std: Standard): (r: Config)
    requires ValidStd(config, p) && std.standardId == StandardAt(config, p).standardId
    ensures ValidStd(r, p) && StandardAt(r, p) == std
  {
    var se := config[p.se];
    var sec := se.sections[p.sec];
    WithSe(config, p.se, WithSection(se, p.sec, WithStandardIn(sec, p.std, std)))
  }

  /** The list with `c` appended to the criteria of the standard at `p`. */
  function AddCriterion(config: Config, p: StdPath, c: Criterion): (r: Config)
    requires ValidStd(config, p)
    ensures ValidStd(r, p) && StandardAt(r, p).criteria == StandardAt(config, p).criteria + [c]
  {
    var std := StandardAt(config, p);
    WithStandard(config, p, std.(criteria := std.criteria + [c]))
  }

  /** The list with `std` appended to the standards of the section at `p`; its path is returned with it. */
  function AddStandard(config: Config, p: SecPath, std: Standard): (r: (Config, StdPath))
    requires ValidSec(config, p)
    ensures r.1 == StdPath(p.se, p.sec, |SectionAt(config, p).standards|)
    ensures ValidStd(r.0, r.1) && StandardAt(r.0, r.1) == std
  {
    var se := config[p.se];
    var sec := se.sections[p.sec];
    (WithSe(config, p.se, WithSection(se, p.sec, sec.(standards := sec.standards + [std]))),
     StdPath(p.se, p.sec, |sec.standards|))
  }

  /** The list with `sec` appended to the sections of the SE at `i`; its path is returned with it. */
  function AddSection(config: Config, i: nat, sec: Section): (r: (Config, SecPath))
    requires i < |config|
    ensures r.1 == SecPath(i, |config[i].sections|)
    ensures ValidSec(r.0, r.1) && SectionAt(r.0, r.1) == sec
  {
    var se := config[i];
    (WithSe(config, i, se.(sections := se.sections + [sec])), SecPath(i, |se.sections|))
  }

  // ---------------------------------------------------------------- level lemmas

  /** Replacing a standard by a well-formed one with the same id keeps its section well-formed, and grows it if the standard grows. */
  lemma StandardReplaced(seId: nat, sec: Section, k: nat, std: Standard)
    requires k < |sec.standards| && SectionOk(seId, sec)
    requires StandardOk(sec.sectionPiId, std) && std.standardId == sec.standards[k].standardId
    ensures SectionOk(seId, WithStandardIn(sec, k, std))
    ensures StdGrows(sec.standards[k], std) ==> SecGrows(sec, WithStandardIn(sec, k, std))
  {
    var r := WithStandardIn(sec, k, std);
    assert forall x :: 0 <= x < |r.standards| ==> r.standards[x].standardId == sec.standards[x].standardId;
    if StdGrows(sec.standards[k], std) {
      forall x | 0 <= x < |sec.standards| ensures StdGrows(sec.standards[x], r.standards[x]) {
        if x != k {
          assert r.standards[x] == sec.standards[x];
        }
      }
    }
  }

  lemma SectionReplaced(se: Se, j: nat, sec: Section)
    requires j < |se.sections| && SeOk(se)
    requires SectionOk(se.seId, sec) && sec.sectionPiId == se.sections[j].sectionPiId
    ensures SeOk(WithSection(se, j, sec))
    ensures SecGrows(se.sections[j], sec) ==> SeGrows(se, WithSection(se, j, sec))
  {
    var r := WithSection(se, j, sec);
    assert forall x :: 0 <= x < |r.sections| ==> r.sections[x].sectionPiId == se.sections[x].sectionPiId;
    if SecGrows(se.sections[j], sec) {
      forall x | 0 <= x < |se.sections| ensures SecGrows(se.sections[x], r.sections[x]) {
        if x != j {
          SecGrowsRefl(se.sections[x]);
        }
      }
    }
  }

  lemma SeReplaced(config: Config, i: nat, se: Se)
    requires i < |config| && ConfigOk(config)
    requires SeOk(se) && se.seId == config[i].seId
    ensures ConfigOk(WithSe(config, i, se)) && SeIds(WithSe(config, i, se)) == SeIds(config)
    ensures SeGrows(config[i], se) ==> Grows(config, WithSe(config, i, se))
  {
    var r := WithSe(config, i, se);
    assert forall x :: 0 <= x < |r| ==> r[x].seId == config[x].seId;
    assert SeIds(r) == SeIds(config) by {
      forall v ensures v in SeIds(r) <==> v in SeIds(config) {
        if v in SeIds(config) {
          var x :| 0 <= x < |config| && config[x].seId == v;
          assert r[x].seId == v;
        }
      }
    }
    if SeGrows(config[i], se) {
      forall x | 0 <= x < |config| ensures SeGrows(config[x], r[x]) {
        if x != i {
          SeGrowsRefl(config[x]);
        }
      }
    }
  }

  /** Replacing the standard at `p` by a well-formed one with the same id keeps the list well-formed; a growing standard grows the list. */
  lemma WithStandardOk(config: Config, p: StdPath, std: Standard)
    requires ConfigOk(config) && ValidStd(config, p)
    requires StandardOk(SectionAt(config, Parent(p)).sectionPiId, std)
    requires std.standardId == StandardAt(config, p).standardId
    ensures ConfigOk(WithStandard(config, p, std)) && SeIds(WithStandard(config, p, std)) == SeIds(config)
    ensures StdGrows(StandardAt(config, p), std) ==> Grows(config, WithStandard(config, p, std))
  {
    var se := config[p.se];
    var sec := se.sections[p.sec];
    assert SeOk(se);
    StandardReplaced(se.seId, sec, p.std, std);
    var sec' := WithStandardIn(sec, p.std, std);
    SectionReplaced(se, p.sec, sec');
    SeReplaced(config, p.se, WithSection(se, p.sec, sec'));
  }

  lemma SectionExtended(seId: nat, sec: Section, std: Standard)
    requires SectionOk(seId, sec) && StandardOk(sec.sectionPiId, std)
    requires forall k :: 0 <= k < |sec.standards| ==> sec.standards[k].standardId != std.standardId
    ensures SectionOk(seId, sec.(standards := sec.standards + [std]))
    ensures SecGrows(sec, sec.(standards := sec.standards + [std]))
  {
    var r := sec.(standards := sec.standards + [std]);
    forall k | 0 <= k < |sec.standards| ensures StdGrows(sec.standards[k], r.standards[k]) {
      assert r.standards[k] == sec.standards[k];
    }
  }

  /** Appending a well-formed standard whose id is new in its section keeps the list well-formed and grows it. */
  lemma AddStandardOk(config: Config, p: SecPath, std: Standard)
    requires ConfigOk(config) && ValidSec(config, p)
    requires StandardOk(SectionAt(config, p).sectionPiId, std)
    requires forall k :: 0 <= k < |SectionAt(config, p).standards| ==> SectionAt(config, p).standards[k].standardId != std.standardId
    ensures ConfigOk(AddStandard(config, p, std).0) && SeIds(AddStandard(config, p, std).0) == SeIds(config)
    ensures Grows(config, AddStandard(config, p, std).0)
  {
    var se := config[p.se];
    var sec := se.sections[p.sec];
    assert SeOk(se);
    SectionExtended(se.seId, sec, std);
    var sec' := sec.(standards := sec.standards + [std]);
    SectionReplaced(se, p.sec, sec');
    SeReplaced(config, p.se, WithSection(se, p.sec, sec'));
  }

  lemma SeExtended(se: Se, sec: Section)
    requires SeOk(se) && SectionOk(se.seId, sec)
    requires forall j :: 0 <= j < |se.sections| ==> se.sections[j].sectionPiId != sec.sectionPiId
    ensures SeOk(se.(sections := se.sections + [sec]))
    ensures SeGrows(se, se.(sections := se.sections + [sec]))
  {
    var r := se.(sections := se.sections + [sec]);
    forall j | 0 <= j < |se.sections| ensures SecGrows(se.sections[j], r.sections[j]) {
      assert r.sections[j] == se.sections[j];
      SecGrowsRefl(se.sections[j]);
    }
  }

  /** Appending a well-formed section whose id is new in its SE keeps the list well-formed and grows it. */
  lemma AddSectionOk(config: Config, i: nat, sec: Section)
    requires ConfigOk(config) && i < |config|
    requires 1 <= config[i].seId && SectionOk(config[i].seId, sec)
    requires forall j :: 0 <= j < |config[i].sections| ==> config[i].sections[j].sectionPiId != sec.sectionPiId
    ensures ConfigOk(AddSection(config, i, sec).0) && SeIds(AddSection(config, i, sec).0) == SeIds(config)
    ensures Grows(config, AddSection(config, i, sec).0)
  {
    assert SeOk(config[i]);
    SeExtended(config[i], sec);
    SeReplaced(config, i, config[i].(sections := config[i].sections + [sec]));
  }

  /** Appending a well-formed SE with an unseen id keeps the list well-formed, grows it and records the id. */
  lemma AddSeOk(config: Config, se: Se)
    requires ConfigOk(config) && SeOk(se) && se.seId !in SeIds(config)
    ensures ConfigOk(config + [se]) && SeIds(config + [se]) == SeIds(config) + {se.seId}
    ensures Grows(config, config + [se])
  {
    var r := config + [se];
    forall a, b | 0 <= a < b < |r| ensures r[a].seId != r[b].seId {
      if b == |config| {
        assert r[a] == config[a];
      }
    }
    assert SeIds(r) == SeIds(config) + {se.seId} by {
      forall v ensures v in SeIds(r) <==> v in SeIds(config) + {se.seId} {
        if v in SeIds(r) {
          var x :| 0 <= x < |r| && r[x].seId == v;
          if x < |config| {
            assert config[x].seId == v;
          }
        }
        if v in SeIds(config) {
          var x :| 0 <= x < |config| && config[x].seId == v;
          assert r[x].seId == v;
        }
        if v == se.seId {
          assert r[|config|].seId == v;
        }
      }
    }
    forall x | 0 <= x < |config| ensures SeGrows(config[x], r[x]) {
      assert r[x] == config[x];
      SeGrowsRefl(config[x]);
    }
  }

  /** Adding a fresh well-formed criterion keeps its standard well-formed and grows it. */
  lemma CriterionAdded(std: Standard, secId: string, c: Criterion)
    requires StandardOk(secId, std) && CriterionOk(std.standardId, c)
    requires forall l :: 0 <= l < |std.criteria| ==> std.criteria[l].id != c.id
    ensures StandardOk(secId, std.(criteria := std.criteria + [c]))
    ensures StdGrows(std, std.(criteria := std.criteria + [c]))
  {
  }

  /** Appending a fresh well-formed criterion to the standard at `p` keeps the list well-formed and grows it. */
  lemma AddCriterionOk(config: Config, p: StdPath, c: Criterion)
    requires ConfigOk(config) && ValidStd(config, p)
    requires CriterionOk(StandardAt(config, p).standardId, c)
    requires forall l :: 0 <= l < |StandardAt(config, p).criteria| ==> StandardAt(config, p).criteria[l].id != c.id
    ensures ConfigOk(AddCriterion(config, p, c)) && SeIds(AddCriterion(config, p, c)) == SeIds(config)
    ensures Grows(config, AddCriterion(config, p, c))
  {
    var std := StandardAt(config, p);
    var secId := SectionAt(config, Parent(p)).sectionPiId;
    assert SeOk(config[p.se]) && SectionOk(config[p.se].seId, SectionAt(config, Parent(p)));
    CriterionAdded(std, secId, c);
    WithStandardOk(config, p, std.(criteria := std.criteria + [c]));
  }

  /** Filling an empty intent text keeps the list well-formed and grows it. */
  lemma SetIntentOk(config: Config, p: StdPath, text: string)
    requires ConfigOk(config) && ValidStd(config, p) && StandardAt(config, p).intentTooltip == []
    ensures ConfigOk(WithStandard(config, p, StandardAt(config, p).(intentTooltip := text)))
    ensures SeIds(WithStandard(config, p, StandardAt(config, p).(intentTooltip := text))) == SeIds(config)
    ensures Grows(config, WithStandard(config, p, StandardAt(config, p).(intentTooltip := text)))
  {
    assert SeOk(config[p.se]) && SectionOk(config[p.se].seId, SectionAt(config, Parent(p)));
    WithStandardOk(config, p, StandardAt(config, p).(intentTooltip := text));
  }
}
