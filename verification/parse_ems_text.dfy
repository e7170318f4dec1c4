/**
 * parse_ems_text.py, `parse_text`: each text file is read line by line; a stripped line
 * that is not blank, not a page marker and not a bare page number is tried, in order, as
 * an SE heading, a section heading, a standard, a criterion and an "Intent of" marker.
 * The first branch that accepts the line ends its turn (`continue`); a branch whose match
 * is rejected lets the line fall through to the next one. Standards and intents pull in
 * the continuation lines after them and mark those lines as consumed (`skip_to`).
 * Finally the SE list is sorted by id.
 */
module ParseEmsText {
  import opened Wrappers
  import opened Strings
  import opened EmsConfig
  import opened KeySort
  import opened EmsTextLines
  import opened EmsTextModel

  // ---------------------------------------------------------------- values the branches compute

  /** `s.replace(a, b)` for single characters. */
  function ReplaceChar(s: string, a: char, b: char): (r: string)
    ensures |r| == |s|
    ensures forall k :: 0 <= k < |s| ==> r[k] == (if s[k] == a then b else s[k])
  {
    seq(|s|, k requires 0 <= k < |s| => if s[k] == a then b else s[k])
  }

  /** The stored SE name, `se_name.replace('\n', ' ').strip().upper()` of a stripped name: as long as the name, and upper-case. */
  function StoredName(name: string): (r: string)
    requires name == [] || (!IsSpace(Py, name[0]) && !IsSpace(Py, name[|name| - 1]))
    ensures |r| == |name| && ToUpper(r) == r
  {
    var replaced := ReplaceChar(name, '\n', ' ');
    TrimmedUnchanged(Py, replaced);
    ToUpperIdempotent(Trim(Py, replaced));
    ToUpper(Trim(Py, replaced))
  }

  /** An SE heading `parse_text` accepts: the id (`int(group(1))`) and the stripped name, for ids 1..10 and names longer than five characters. */
  function SeCandidate(line: string): (r: Option<(nat, string)>)
    ensures r.Some? ==> 1 <= r.value.0 <= 10 && |r.value.1| > 5
    ensures r.Some? ==> !IsSpace(Py, r.value.1[0]) && !IsSpace(Py, r.value.1[|r.value.1| - 1])
    ensures r.Some? <==> SeMatch(line).Some? && 1 <= DigitsValue(SeMatch(line).value.digits) <= 10
                         && |Trim(Py, SeMatch(line).value.name)| > 5
  {
    match SeMatch(line)
    case None => None
    case Some(h) =>
      var seId := DigitsValue(h.digits);
      var name := Trim(Py, h.name);
      if 1 <= seId <= 10 && |name| > 5 then Some((seId, name)) else None
  }

  /** `str(se_id) + "."`, the prefix every section id of that SE must have. */
  function SectionPrefix(seId: nat): string {
    DecimalText(seId) + "."
  }

  /** No whitespace at either end, as `str.strip()` leaves a string. */
  predicate Stripped(s: string) {
    s == [] || (!IsSpace(Py, s[0]) && !IsSpace(Py, s[|s| - 1]))
  }

  /** Two stripped non-empty texts joined by one space need no further strip. */
  lemma SpacedStripped(a: string, b: string)
    requires a != [] && b != [] && Stripped(a) && Stripped(b)
    ensures Trim(Py, a + " " + b) == a + " " + b
  {
    TrimmedUnchanged(Py, a + " " + b);
  }

  /**
   * The statement after a standard's continuation lines are added (parse_ems_text.py:166-167):
   * the continuation alone when the statement is empty, otherwise both joined by one space
   * and stripped, which for stripped texts is the plain join.
   */
  function WithContinuation(statement: string, extra: string): (r: string)
    ensures extra == [] ==> r == statement
    ensures extra != [] && statement == [] ==> r == extra
    ensures extra != [] && statement != [] ==> r == Trim(Py, statement + " " + extra)
    ensures extra != [] && statement != [] && Stripped(statement) && Stripped(extra) ==> r == statement + " " + extra
  {
    if extra == [] then statement
    else if statement != [] then
      (if Stripped(statement) && Stripped(extra) then SpacedStripped(statement, extra); Trim(Py, statement + " " + extra)
       else Trim(Py, statement + " " + extra))
    else extra
  }

  /** The text of the continuation lines from `j`, joined with spaces. */
  function ExtraText(lines: seq<string>, j: nat): string {
    Join(Following(lines, j).0, " ")
  }

  /** A new standard: its statement and inline intent are split out of the combined text. */
  function NewStandard(code: string, statement: string): (std: Standard)
    ensures std.standardId == code && std.criteria == []
    ensures (std.statement, std.intentTooltip) == SplitStandardAndIntent(statement)
    ensures !ContainsIgnoreCase(std.statement, IntentLabel)
    ensures !ContainsIgnoreCase(statement, IntentLabel) ==> std.statement == Trim(Py, statement) && std.intentTooltip == []
  {
    StatementHasNoLabel(statement);
    var (pure, intent) := SplitStandardAndIntent(statement);
    Standard(code, pure, intent, [])
  }

  /** A criterion's description: its own text, or the next line stripped when that is empty. */
  function Description(rest: Option<string>, lines: seq<string>, i: nat): string
    requires i < |lines|
  {
    var desc := if rest.Some? then Trim(Py, rest.value) else "";
    if desc == [] && i + 1 < |lines| then Trim(Py, lines[i + 1]) else desc
  }

  /** `"CRITICAL" in line.upper()` on this line or the next. */
  predicate IsCriticalAt(line: string, lines: seq<string>, i: nat) {
    Contains(ToUpper(line), "CRITICAL") || (i + 1 < |lines| && Contains(ToUpper(lines[i + 1]), "CRITICAL"))
  }

  /**
   * `" ".join(t for t in [a, b] if t).strip()`: the non-empty texts joined by one space,
   * then stripped; for stripped texts nothing more is removed.
   */
  function JoinPresent(a: string, b: string): (r: string)
    ensures a == [] && b == [] ==> r == []
    ensures a != [] && b != [] ==> r == Trim(Py, a + " " + b)
    ensures a != [] && b == [] ==> r == Trim(Py, a)
    ensures a == [] ==> r == Trim(Py, b)
    ensures Stripped(a) && Stripped(b) ==> r == (if a == [] then b else if b == [] then a else a + " " + b)
  {
    if a != [] && b != [] then
      (if Stripped(a) && Stripped(b) then SpacedStripped(a, b); Trim(Py, a + " " + b) else Trim(Py, a + " " + b))
    else if a != [] then
      (if Stripped(a) then TrimmedUnchanged(Py, a); Trim(Py, a) else Trim(Py, a))
    else
      (if Stripped(b) then TrimmedUnchanged(Py, b); Trim(Py, b) else Trim(Py, b))
  }

  predicate HasSection(se: Se, code: string) {
    exists j :: 0 <= j < |se.sections| && se.sections[j].sectionPiId == code
  }

  predicate HasStandard(sec: Section, code: string) {
    exists k :: 0 <= k < |sec.standards| && sec.standards[k].standardId == code
  }

  predicate HasCriterion(std: Standard, code: string) {
    exists l :: 0 <= l < |std.criteria| && std.criteria[l].id == code
  }

  /** `max(skip_to, new_i - 1)`. */
  function SkipPast(skipTo: int, newI: nat): (r: int)
    ensures r >= skipTo && r >= newI - 1
  {
    if skipTo >= newI - 1 then skipTo else newI - 1
  }

  /** The position of the SE with id `seId`, the first the `for existing in …` lookup meets. */
  function SeIndex(config: Config, seId: int): (r: Option<nat>)
    ensures r.Some? ==> r.value < |config| && config[r.value].seId == seId
    ensures r.Some? ==> forall k :: 0 <= k < r.value ==> config[k].seId != seId
    ensures r.None? ==> forall k :: 0 <= k < |config| ==> config[k].seId != seId
  {
    if config == [] then None
    else if config[0].seId == seId then Some(0)
    else match SeIndex(config[1..], seId)
      case None => None
      case Some(k) => Some(k + 1)
  }

  // ---------------------------------------------------------------- what each branch accepts and does

  /** The SE branch accepts an SE heading whose id is not yet seen. */
  predicate SeAccepts(seen: set<int>, line: string) {
    SeCandidate(line).Some? && SeCandidate(line).value.0 !in seen
  }

  /** A new SE is appended, the cursor points at it and nothing below it. */
  predicate SeDone(config: Config, seen: set<int>, line: string, config': Config, seen': set<int>, cur': Cursor)
    requires SeAccepts(seen, line)
  {
    var (seId, name) := SeCandidate(line).value;
    config' == config + [Se(seId, StoredName(name), [])] && seen' == seen + {seId}
    && cur' == Cursor(Some(|config|), None, None)
  }

  /** The cursor an SE heading of a seen id leaves behind: `current_se` moves to that SE, the rest stays. */
  function SeCursor(config: Config, cur: Cursor, line: string): (c: Cursor)
    requires CursorOk(config, cur)
    ensures CursorOk(config, c) && c.section == cur.section && c.standard == cur.standard
  {
    match SeCandidate(line)
    case None => cur
    case Some(h) => if SeIndex(config, h.0).Some? then cur.(se := SeIndex(config, h.0)) else cur
  }

  /** The section branch accepts a section heading under the current SE whose id starts with `<se_id>.`. */
  predicate SectionAccepts(config: Config, cur: Cursor, line: string)
    requires ConfigOk(config) && CursorOk(config, cur)
  {
    SectionMatch(line).Some? && cur.se.Some? && SeOk(config[cur.se.value]) && SectionPrefix(config[cur.se.value].seId) <= SectionMatch(line).value.code
  }

  /** The section is found or appended, the cursor points at it and at no standard. */
  predicate SectionDone(config: Config, cur: Cursor, line: string, config': Config, cur': Cursor)
    requires ConfigOk(config) && CursorOk(config, cur) && SectionAccepts(config, cur, line)
  {
    var code := SectionMatch(line).value.code;
    var se := cur.se.value;
    && cur'.se == cur.se && cur'.standard.None? && cur'.section.Some? && cur'.section.value.se == se
    && ValidSec(config', cur'.section.value) && SectionAt(config', cur'.section.value).sectionPiId == code
    && (HasSection(config[se], code) ==> config' == config)
    && (!HasSection(config[se], code) ==>
          config' == AddSection(config, se, Section(code, Trim(Py, SectionMatch(line).value.text.value), [])).0)
  }

  /** The standard branch accepts a three-part standard id under the current section's id. */
  predicate StandardAccepts(config: Config, cur: Cursor, line: string)
    requires CursorOk(config, cur)
  {
    StandardMatch(line).Some? && cur.section.Some?
    && SectionAt(config, cur.section.value).sectionPiId <= StandardMatch(line).value.code
    && |Split(StandardMatch(line).value.code, '.')| == 3
  }

  /**
   * The standard is found, or appended with its continuation lines and its inline intent split
   * out, those lines then being consumed; the cursor points at it.
   */
  predicate StandardDone(config: Config, cur: Cursor, skipTo: int, lines: seq<string>, i: nat, line: string,
                         config': Config, cur': Cursor, skipTo': int)
    requires CursorOk(config, cur) && StandardAccepts(config, cur, line)
  {
    var code := StandardMatch(line).value.code;
    var sec := SectionAt(config, cur.section.value);
    && cur'.se == cur.se && cur'.section == cur.section && cur'.standard.Some?
    && Parent(cur'.standard.value) == cur.section.value
    && ValidStd(config', cur'.standard.value) && StandardAt(config', cur'.standard.value).standardId == code
    && (HasStandard(sec, code) ==> config' == config && skipTo' == skipTo)
    && (!HasStandard(sec, code) ==>
          var rest := StandardMatch(line).value.text;
          var statement := if rest.Some? then Trim(Py, rest.value) else "";
          var extra := ExtraText(lines, i + 1);
          config' == AddStandard(config, cur.section.value, NewStandard(code, WithContinuation(statement, extra))).0
          && skipTo' == (if extra == [] then skipTo else SkipPast(skipTo, Following(lines, i + 1).1)))
  }

  /** The criterion branch accepts a criterion id found anywhere in the line, under the current standard's id. */
  predicate CriterionAccepts(config: Config, cur: Cursor, line: string)
    requires CursorOk(config, cur)
  {
    CriterionSearch(line).Some? && cur.standard.Some?
    && StandardAt(config, cur.standard.value).standardId <= CriterionSearch(line).value.code
  }

  /** A criterion new to the current standard is appended to it. */
  predicate CriterionDone(config: Config, cur: Cursor, lines: seq<string>, i: nat, line: string, config': Config)
    requires i < |lines| && CursorOk(config, cur) && CriterionAccepts(config, cur, line)
  {
    var code := CriterionSearch(line).value.code;
    var std := StandardAt(config, cur.standard.value);
    && (HasCriterion(std, code) ==> config' == config)
    && (!HasCriterion(std, code) ==>
          config' == AddCriterion(config, cur.standard.value,
                                  NewCriterion(code, Description(CriterionSearch(line).value.text, lines, i),
                                               IsCriticalAt(line, lines, i))))
  }

  /** The intent branch fills an empty intent of the current standard named by "Intent of <id>" and consumes its continuation lines. */
  predicate IntentDone(config: Config, cur: Cursor, skipTo: int, lines: seq<string>, i: nat, line: string,
                       config': Config, skipTo': int)
    requires CursorOk(config, cur)
  {
    if IntentSearch(line).Some? && cur.standard.Some?
       && IntentSearch(line).value.code == StandardAt(config, cur.standard.value).standardId
    then
      var std := StandardAt(config, cur.standard.value);
      var combined := JoinPresent(Trim(Py, AfterLastSplit(line, IntentSearch(line).value.matched)), ExtraText(lines, i + 1));
      skipTo' == SkipPast(skipTo, Following(lines, i + 1).1)
      && config' == (if combined != [] && std.intentTooltip == [] then WithStandard(config, cur.standard.value, std.(intentTooltip := combined))
                     else config)
    else
      config' == config && skipTo' == skipTo
  }

  /** Standard, then criterion, then intent: the first branch that accepts the line acts, the later ones do not run. */
  predicate LaterDone(config: Config, cur: Cursor, skipTo: int, lines: seq<string>, i: nat, line: string,
                      config': Config, cur': Cursor, skipTo': int)
    requires i < |lines| && CursorOk(config, cur)
  {
    if StandardAccepts(config, cur, line) then StandardDone(config, cur, skipTo, lines, i, line, config', cur', skipTo')
    else if CriterionAccepts(config, cur, line) then cur' == cur && skipTo' == skipTo && CriterionDone(config, cur, lines, i, line, config')
    else cur' == cur && IntentDone(config, cur, skipTo, lines, i, line, config', skipTo')
  }

  /**
   * One line through the five branches: a new SE heading ends the turn; otherwise the cursor
   * may have moved to a seen SE, then a section heading ends the turn, and otherwise the
   * later branches run on the unchanged list.
   */
  predicate LineDone(config: Config, seen: set<int>, cur: Cursor, skipTo: int, lines: seq<string>, i: nat, line: string,
                     config': Config, seen': set<int>, cur': Cursor, skipTo': int)
    requires i < |lines| && ConfigOk(config) && CursorOk(config, cur)
  {
    if SeAccepts(seen, line) then skipTo' == skipTo && SeDone(config, seen, line, config', seen', cur')
    else
      var c := SeCursor(config, cur, line);
      seen' == seen
      && if SectionAccepts(config, c, line) then skipTo' == skipTo && SectionDone(config, c, line, config', cur')
         else LaterDone(config, c, skipTo, lines, i, line, config', cur', skipTo')
  }

  // ---------------------------------------------------------------- search

  /** The first element satisfying `p`, as the `for … if …: … break` lookups do. */
  method FindFirst<T>(xs: seq<T>, p: T -> bool) returns (r: Option<nat>)
    ensures r.Some? ==> r.value < |xs| && p(xs[r.value])
    ensures r.Some? ==> forall k :: 0 <= k < r.value ==> !p(xs[k])
    ensures r.None? ==> forall k :: 0 <= k < |xs| ==> !p(xs[k])
  {
    for k := 0 to |xs|
      invariant forall j :: 0 <= j < k ==> !p(xs[j])
    {
      if p(xs[k]) {
        return Some(k);
      }
    }
    return None;
  }

  // ---------------------------------------------------------------- the five branches

  /** 1. Service element (parse_ems_text.py:112-133). */
  method SeBranch(config: Config, seen: set<int>, cur: Cursor, line: string)
      returns (config': Config, seen': set<int>, cur': Cursor, handled: bool)
    requires ConfigOk(config) && seen == SeIds(config) && CursorOk(config, cur)
    ensures ConfigOk(config') && seen' == SeIds(config') && CursorOk(config', cur') && Grows(config, config')
    ensures handled <==> SeAccepts(seen, line)
    ensures handled ==> SeDone(config, seen, line, config', seen', cur')
    ensures !handled ==> config' == config && seen' == seen && cur' == SeCursor(config, cur, line)
    ensures !handled && SeCandidate(line).Some? ==> cur'.se.Some? && config[cur'.se.value].seId == SeCandidate(line).value.0
    ensures SeCandidate(line).None? ==> cur' == cur
  {
    config', seen', cur', handled := config, seen, cur, false;
    GrowsRefl(config);
    var candidate := SeCandidate(line);
    if candidate.Some? {
      var (seId, seName) := candidate.value;
      if seId !in seen {
        var se := Se(seId, StoredName(seName), []);
        AddSeOk(config, se);
        config' := config + [se];
        seen' := seen + {seId};
        cur' := Cursor(Some(|config|), None, None);
        handled := true;
      } else {
        ghost var x :| 0 <= x < |config| && config[x].seId == seId;
        var k := FindFirst(config, (s: Se) => s.seId == seId);
        assert k == SeIndex(config, seId);
        if k.Some? {
          cur' := cur.(se := k);
        }
      }
    }
  }

  /** 2. Section (parse_ems_text.py:135-154). */
  method SectionBranch(config: Config, cur: Cursor, line: string) returns (config': Config, cur': Cursor, handled: bool)
    requires ConfigOk(config) && CursorOk(config, cur)
    ensures ConfigOk(config') && SeIds(config') == SeIds(config) && CursorOk(config', cur') && Grows(config, config')
    ensures handled <==> SectionAccepts(config, cur, line)
    ensures !handled ==> config' == config && cur' == cur
    ensures handled ==> SectionDone(config, cur, line, config', cur')
  {
    config', cur', handled := config, cur, false;
    GrowsRefl(config);
    var m := SectionMatch(line);
    if m.Some? && cur.se.Some? {
      var i := cur.se.value;
      assert SeOk(config[i]);
      var piId := m.value.code;
      var title := Trim(Py, m.value.text.value);
      if SectionPrefix(config[i].seId) <= piId {
        var p: SecPath;
        config', p := EnterSection(config, i, piId, title);
        CursorGrows(config, config', cur);
        cur' := cur.(section := Some(p), standard := None);
        handled := true;
      }
    }
  }

  /** The section with id `piId` in the SE at `i`: the first one found, or a new one appended (parse_ems_text.py:141-152). */
  method EnterSection(config: Config, i: nat, piId: string, title: string) returns (config': Config, p: SecPath)
    requires ConfigOk(config) && i < |config| && SectionPrefix(config[i].seId) <= piId
    ensures ConfigOk(config') && SeIds(config') == SeIds(config) && Grows(config, config')
    ensures p.se == i && ValidSec(config', p) && SectionAt(config', p).sectionPiId == piId
    ensures HasSection(config[i], piId) ==> config' == config
    ensures !HasSection(config[i], piId) ==> config' == AddSection(config, i, Section(piId, title, [])).0
  {
    config' := config;
    GrowsRefl(config);
    var j := FindFirst(config[i].sections, (s: Section) => s.sectionPiId == piId);
    if j.None? {
      var sec := Section(piId, title, []);
      AddSectionOk(config, i, sec);
      config', p := AddSection(config, i, sec).0, AddSection(config, i, sec).1;
    } else {
      p := SecPath(i, j.value);
    }
  }

  /** 3. Standard (parse_ems_text.py:156-185). */
  method StandardBranch(config: Config, cur: Cursor, skipTo: int, lines: seq<string>, i: nat, line: string)
      returns (config': Config, cur': Cursor, skipTo': int, handled: bool)
    requires i < |lines| && ConfigOk(config) && CursorOk(config, cur)
    ensures ConfigOk(config') && SeIds(config') == SeIds(config) && CursorOk(config', cur') && Grows(config, config')
    ensures skipTo' >= skipTo
    ensures handled <==> StandardAccepts(config, cur, line)
    ensures !handled ==> config' == config && cur' == cur && skipTo' == skipTo
    ensures handled ==> StandardDone(config, cur, skipTo, lines, i, line, config', cur', skipTo')
  {
    config', cur', skipTo', handled := config, cur, skipTo, false;
    GrowsRefl(config);
    var m := StandardMatch(line);
    if m.Some? && cur.section.Some? {
      var p := cur.section.value;
      var stdId := m.value.code;
      var statement := if m.value.text.Some? then Trim(Py, m.value.text.value) else "";
      if SectionAt(config, p).sectionPiId <= stdId && |Split(stdId, '.')| == 3 {
        var q: StdPath;
        config', q, skipTo' := EnterStandard(config, p, stdId, statement, skipTo, lines, i);
        CursorGrows(config, config', cur);
        cur' := cur.(standard := Some(q));
        handled := true;
      }
    }
  }

  /** The standard with id `stdId` in the section at `p`: the first one found, or a new one appended (parse_ems_text.py:163-184). */
  method EnterStandard(config: Config, p: SecPath, stdId: string, statement: string, skipTo: int, lines: seq<string>, i: nat)
      returns (config': Config, q: StdPath, skipTo': int)
    requires i < |lines| && ConfigOk(config) && ValidSec(config, p)
    requires SectionAt(config, p).sectionPiId <= stdId && |Split(stdId, '.')| == 3
    ensures ConfigOk(config') && SeIds(config') == SeIds(config) && Grows(config, config')
    ensures Parent(q) == p && ValidStd(config', q) && StandardAt(config', q).standardId == stdId
    ensures HasStandard(SectionAt(config, p), stdId) ==> config' == config && skipTo' == skipTo
    ensures !HasStandard(SectionAt(config, p), stdId) ==>
              var extra := ExtraText(lines, i + 1);
              config' == AddStandard(config, p, NewStandard(stdId, WithContinuation(statement, extra))).0
              && skipTo' == (if extra == [] then skipTo else SkipPast(skipTo, Following(lines, i + 1).1))
  {
    var k := FindFirst(SectionAt(config, p).standards, (s: Standard) => s.standardId == stdId);
    if k.None? {
      config', q, skipTo' := AppendStandard(config, p, stdId, statement, skipTo, lines, i);
    } else {
      config', q, skipTo' := config, StdPath(p.se, p.sec, k.value), skipTo;
      GrowsRefl(config);
    }
  }

  /** A standard new in its section: its continuation lines are collected, then it is appended (parse_ems_text.py:164-179). */
  method AppendStandard(config: Config, p: SecPath, stdId: string, statement: string, skipTo: int, lines: seq<string>, i: nat)
      returns (config': Config, q: StdPath, skipTo': int)
    requires i < |lines| && ConfigOk(config) && ValidSec(config, p)
    requires SectionAt(config, p).sectionPiId <= stdId && |Split(stdId, '.')| == 3
    requires !HasStandard(SectionAt(config, p), stdId)
    ensures ConfigOk(config') && SeIds(config') == SeIds(config) && Grows(config, config')
    ensures var extra := ExtraText(lines, i + 1);
            (config', q) == AddStandard(config, p, NewStandard(stdId, WithContinuation(statement, extra)))
            && skipTo' == (if extra == [] then skipTo else SkipPast(skipTo, Following(lines, i + 1).1))
  {
    var extra, newI := CollectFollowingLines(i + 1, lines);
    var text := statement;
    skipTo' := skipTo;
    if extra != [] {
      text := WithContinuation(statement, extra);
      skipTo' := SkipPast(skipTo, newI);
    }
    var std := NewStandard(stdId, text);
    AddStandardOk(config, p, std);
    config', q := AddStandard(config, p, std).0, AddStandard(config, p, std).1;
  }

  /** 4. Criterion (parse_ems_text.py:187-206). */
  method CriterionBranch(config: Config, cur: Cursor, lines: seq<string>, i: nat, line: string)
      returns (config': Config, handled: bool)
    requires i < |lines| && ConfigOk(config) && CursorOk(config, cur)
    ensures ConfigOk(config') && SeIds(config') == SeIds(config) && Grows(config, config')
    ensures handled <==> CriterionAccepts(config, cur, line)
    ensures !handled ==> config' == config
    ensures handled ==> CriterionDone(config, cur, lines, i, line, config')
  {
    config', handled := config, false;
    GrowsRefl(config);
    var m := CriterionSearch(line);
    if m.Some? && cur.standard.Some? {
      var p := cur.standard.value;
      var critId := m.value.code;
      if StandardAt(config, p).standardId <= critId {
        var c := NewCriterion(critId, Description(m.value.text, lines, i), IsCriticalAt(line, lines, i));
        config' := AddCriterionIfNew(config, p, c);
        handled := true;
      }
    }
  }

  /** The criterion is appended to the standard at `p` unless one with its id is already there (parse_ems_text.py:193-205). */
  method AddCriterionIfNew(config: Config, p: StdPath, c: Criterion) returns (config': Config)
    requires ConfigOk(config) && ValidStd(config, p) && CriterionOk(StandardAt(config, p).standardId, c)
    ensures ConfigOk(config') && SeIds(config') == SeIds(config) && Grows(config, config')
    ensures HasCriterion(StandardAt(config, p), c.id) ==> config' == config
    ensures !HasCriterion(StandardAt(config, p), c.id) ==> config' == AddCriterion(config, p, c)
  {
    config' := config;
    GrowsRefl(config);
    var l := FindFirst(StandardAt(config, p).criteria, (x: Criterion) => x.id == c.id);
    if l.None? {
      AddCriterionOk(config, p, c);
      config' := AddCriterion(config, p, c);
    }
  }

  /** 5. "Intent of" marker (parse_ems_text.py:208-220): fills an empty intent text of the current standard. */
  method IntentBranch(config: Config, cur: Cursor, skipTo: int, lines: seq<string>, i: nat, line: string)
      returns (config': Config, skipTo': int)
    requires i < |lines| && ConfigOk(config) && CursorOk(config, cur)
    ensures ConfigOk(config') && SeIds(config') == SeIds(config) && Grows(config, config')
    ensures skipTo' >= skipTo
    ensures IntentDone(config, cur, skipTo, lines, i, line, config', skipTo')
  {
    config', skipTo' := config, skipTo;
    GrowsRefl(config);
    var m := IntentSearch(line);
    if m.Some? && cur.standard.Some? {
      var p := cur.standard.value;
      if m.value.code == StandardAt(config, p).standardId {
        var intentText := Trim(Py, AfterLastSplit(line, m.value.matched));
        var extraIntent, newI := CollectFollowingLines(i + 1, lines);
        var combined := JoinPresent(intentText, extraIntent);
        if combined != [] && StandardAt(config, p).intentTooltip == [] {
          SetIntentOk(config, p, combined);
          config' := WithStandard(config, p, StandardAt(config, p).(intentTooltip := combined));
        }
        skipTo' := SkipPast(skipTo, newI);
      }
    }
  }

  // ---------------------------------------------------------------- one line, one file, all files

  /** The standard, criterion and intent branches, tried in that order on a line that is neither an SE nor a section heading. */
  method LaterBranches(config: Config, cur: Cursor, skipTo: int, lines: seq<string>, i: nat, line: string)
      returns (config': Config, cur': Cursor, skipTo': int)
    requires i < |lines| && ConfigOk(config) && CursorOk(config, cur)
    ensures ConfigOk(config') && SeIds(config') == SeIds(config) && CursorOk(config', cur') && Grows(config, config')
    ensures skipTo' >= skipTo
    ensures LaterDone(config, cur, skipTo, lines, i, line, config', cur', skipTo')
  {
    var handled: bool;
    config', cur', skipTo', handled := StandardBranch(config, cur, skipTo, lines, i, line);
    if handled {
      return;
    }
    var c3 := config';
    config', handled := CriterionBranch(c3, cur', lines, i, line);
    GrowsTrans(config, c3, config');
    if handled {
      return;
    }
    var c4 := config';
    config', skipTo' := IntentBranch(c4, cur', skipTo', lines, i, line);
    GrowsTrans(config, c4, config');
  }

  /** One accepted line: the branches in order, the first that handles the line ending its turn. */
  method LineStep(config: Config, seen: set<int>, cur: Cursor, skipTo: int, lines: seq<string>, i: nat, line: string)
      returns (config': Config, seen': set<int>, cur': Cursor, skipTo': int)
    requires i < |lines| && ConfigOk(config) && seen == SeIds(config) && CursorOk(config, cur)
    ensures ConfigOk(config') && seen' == SeIds(config') && CursorOk(config', cur') && Grows(config, config')
    ensures skipTo' >= skipTo
    ensures LineDone(config, seen, cur, skipTo, lines, i, line, config', seen', cur', skipTo')
  {
    var handled: bool;
    skipTo' := skipTo;
    config', seen', cur', handled := SeBranch(config, seen, cur, line);
    if handled {
      return;
    }
    var c1 := config';
    config', cur', handled := SectionBranch(c1, cur', line);
    GrowsTrans(config, c1, config');
    if handled {
      return;
    }
    var c2 := config';
    config', cur', skipTo' := LaterBranches(c2, cur', skipTo, lines, i, line);
    GrowsTrans(config, c2, config');
  }

  /** The state `parse_text` carries from line to line within one file. */
  datatype ParseState = ParseState(config: Config, seen: set<int>, cur: Cursor, skipTo: int)

  predicate StateOk(st: ParseState) {
    ConfigOk(st.config) && st.seen == SeIds(st.config) && CursorOk(st.config, st.cur)
  }

  /** A line passed over without trying any branch: already consumed, blank, a page marker or a bare page number. */
  predicate PassedOver(lines: seq<string>, i: nat, skipTo: int)
    requires i < |lines|
  {
    i <= skipTo
    || var line := Trim(Py, lines[i]);
       line == [] || "--- Page" <= line || IsAllDigits(line)
  }

  /** Line `i` takes the state from `st` to `st'`: unchanged when passed over, otherwise through the five branches. */
  predicate StepDone(lines: seq<string>, i: nat, st: ParseState, st': ParseState)
    requires i < |lines| && StateOk(st)
  {
    if PassedOver(lines, i, st.skipTo) then st' == st
    else LineDone(st.config, st.seen, st.cur, st.skipTo, lines, i, Trim(Py, lines[i]),
                  st'.config, st'.seen, st'.cur, st'.skipTo)
  }

  /** Line `i` exists, `st` is well formed and the line takes `st` to `st'`. */
  predicate StepOk(lines: seq<string>, i: nat, st: ParseState, st': ParseState) {
    i < |lines| && StateOk(st) && StepDone(lines, i, st, st')
  }

  /** Each of the first `n` lines takes the state before it to the state after it by one `StepDone`. */
  predicate Traced(lines: seq<string>, trace: seq<ParseState>, n: nat)
    requires n < |trace|
  {
    forall i :: 0 <= i < n ==> StepOk(lines, i, trace[i], trace[i + 1])
  }

  lemma TraceExtended(lines: seq<string>, trace: seq<ParseState>, n: nat, st: ParseState)
    requires n < |lines| && |trace| == n + 1 && Traced(lines, trace, n)
    requires StateOk(trace[n]) && StepDone(lines, n, trace[n], st)
    ensures Traced(lines, trace + [st], n + 1)
  {
    var t := trace + [st];
    assert forall i :: 0 <= i <= n ==> t[i] == trace[i];
    assert t[n + 1] == st;
  }

  /** Lines that are all blank, page markers or bare page numbers leave the state as it was. */
  lemma {:induction false} PassedOverUnchanged(lines: seq<string>, trace: seq<ParseState>, n: nat)
    requires n <= |lines| && n < |trace| && Traced(lines, trace, n)
    requires forall i :: 0 <= i < n ==> var line := Trim(Py, lines[i]); line == [] || "--- Page" <= line || IsAllDigits(line)
    ensures trace[n] == trace[0]
  {
    if n > 0 {
      assert Traced(lines, trace, n - 1);
      PassedOverUnchanged(lines, trace, n - 1);
      assert StepOk(lines, n - 1, trace[n - 1], trace[n]);
      assert PassedOver(lines, n - 1, trace[n - 1].skipTo);
    }
  }

  /**
   * The lines of one file (parse_ems_text.py:93-220). The ghost `trace` holds the state before
   * each line and after the last: it starts with no cursor and nothing consumed, and each line
   * moves it by one `StepDone`.
   */
  method ParseFile(config: Config, seen: set<int>, lines: seq<string>)
      returns (config': Config, seen': set<int>, ghost trace: seq<ParseState>)
    requires ConfigOk(config) && seen == SeIds(config)
    ensures ConfigOk(config') && seen' == SeIds(config') && Grows(config, config')
    ensures |trace| == |lines| + 1 && trace[0] == ParseState(config, seen, Cursor(None, None, None), -1)
    ensures Traced(lines, trace, |lines|)
    ensures config' == trace[|lines|].config && seen' == trace[|lines|].seen
  {
    config', seen' := config, seen;
    GrowsRefl(config);
    var cur := Cursor(None, None, None);
    var skipTo: int := -1;
    trace := [ParseState(config, seen, cur, skipTo)];
    for i := 0 to |lines|
      invariant ConfigOk(config') && seen' == SeIds(config') && Grows(config, config') && CursorOk(config', cur)
      invariant |trace| == i + 1 && trace[0] == ParseState(config, seen, Cursor(None, None, None), -1)
      invariant trace[i] == ParseState(config', seen', cur, skipTo)
      invariant Traced(lines, trace, i)
    {
      var before := config';
      config', seen', cur, skipTo := FileStep(config', seen', cur, skipTo, lines, i);
      GrowsTrans(config, before, config');
      TraceExtended(lines, trace, i, ParseState(config', seen', cur, skipTo));
      trace := trace + [ParseState(config', seen', cur, skipTo)];
    }
  }

  /** One line of a file: passed over (parse_ems_text.py:99-110), or handed to the branches. */
  method FileStep(config: Config, seen: set<int>, cur: Cursor, skipTo: int, lines: seq<string>, i: nat)
      returns (config': Config, seen': set<int>, cur': Cursor, skipTo': int)
    requires i < |lines| && StateOk(ParseState(config, seen, cur, skipTo))
    ensures StateOk(ParseState(config', seen', cur', skipTo')) && Grows(config, config')
    ensures StepDone(lines, i, ParseState(config, seen, cur, skipTo), ParseState(config', seen', cur', skipTo'))
  {
    config', seen', cur', skipTo' := config, seen, cur, skipTo;
    GrowsRefl(config);
    if i <= skipTo {
      return;
    }
    var line := Trim(Py, lines[i]);
    if line == [] || "--- Page" <= line || IsAllDigits(line) {
      return;
    }
    config', seen', cur', skipTo' := LineStep(config, seen, cur, skipTo, lines, i, line);
  }

  function SeKey(se: Se): seq<int> {
    [se.seId]
  }

  /** An element of a list's multiset sits at some position of the list. */
  lemma PositionOf<T>(a: seq<T>, e: T) returns (u: nat)
    requires e in multiset(a)
    ensures u < |a| && a[u] == e
  {
    assert e in a;
    u :| 0 <= u < |a| && a[u] == e;
  }

  /** Two positions holding the same element make it occur twice. */
  lemma TwiceCounted<T>(b: seq<T>, x: nat, y: nat)
    requires x < y < |b| && b[x] == b[y]
    ensures multiset(b)[b[x]] >= 2
  {
    assert b == b[..y] + [b[y]] + b[y + 1..];
    assert multiset(b) == multiset(b[..y]) + multiset{b[y]} + multiset(b[y + 1..]);
    assert b[..y][x] == b[x];
  }

  /** An element occurring twice in a list's multiset sits at a second position besides `u`. */
  lemma MultisetTwice<T>(a: seq<T>, u: nat) returns (w: nat)
    requires u < |a| && multiset(a)[a[u]] >= 2
    ensures w < |a| && w != u && a[w] == a[u]
  {
    assert a == a[..u] + [a[u]] + a[u + 1..];
    assert multiset(a) == multiset(a[..u]) + multiset{a[u]} + multiset(a[u + 1..]);
    if a[u] in multiset(a[..u]) {
      var k :| 0 <= k < u && a[..u][k] == a[u];
      w := k;
    } else {
      assert a[u] in multiset(a[u + 1..]);
      var k :| 0 <= k < |a| - u - 1 && a[u + 1..][k] == a[u];
      w := u + 1 + k;
    }
  }

  /** A permutation of a well-formed list is well-formed: the same SEs, and still no id twice. */
  lemma PermutationOk(a: Config, b: Config)
    requires ConfigOk(a) && multiset(a) == multiset(b)
    ensures ConfigOk(b)
  {
    forall x | 0 <= x < |b| ensures SeOk(b[x]) {
      var u := PositionOf(a, b[x]);
    }
    forall x, y | 0 <= x < y < |b| ensures b[x].seId != b[y].seId {
      var u := PositionOf(a, b[x]);
      var v := PositionOf(a, b[y]);
      if u == v {
        TwiceCounted(b, x, y);
        var w := MultisetTwice(a, u);
      }
    }
  }

  /** `parse_text(file_paths)` over the files' lines: well-formed, and sorted by strictly increasing SE id. */
  method ParseText(files: seq<seq<string>>) returns (config: Config)
    ensures ConfigOk(config)
    ensures forall x :: 0 <= x < |config| - 1 ==> config[x].seId < config[x + 1].seId
  {
    var built: Config := [];
    var seen: set<int> := {};
    for f := 0 to |files|
      invariant ConfigOk(built) && seen == SeIds(built)
    {
      ghost var trace;
      built, seen, trace := ParseFile(built, seen, files[f]);
    }
    config := SortBy(built, SeKey);
    SortBySorted(built, SeKey);
    PermutationOk(built, config);
    forall x | 0 <= x < |config| - 1 ensures config[x].seId < config[x + 1].seId {
      assert TupleLessEq(SeKey(config[x]), SeKey(config[x + 1]));
      assert config[x].seId != config[x + 1].seId;
    }
  }
}
