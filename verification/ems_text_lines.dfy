/**
 * The line-level recognisers of parse_ems_text.py: the five patterns that classify a
 * stripped line (SE heading, section, standard, criterion, "Intent of" marker), the
 * boundary test built from them, `split_standard_and_intent` and
 * `collect_following_lines`. Each pattern is written out as the scan that finds the
 * match Python's `re` finds; where a greedy run could give characters back, the comment
 * says why giving back cannot help.
 */
module EmsTextLines {
  import opened Wrappers
  import opened Strings
  import opened IdTokens
  import opened BlockText

  /** Number of characters from `i` on that satisfy `p` (a greedy run of a character class). */
  function Run(s: string, i: nat, p: char -> bool): (n: nat)
    requires i <= |s|
    ensures i + n <= |s|
    ensures forall k :: i <= k < i + n ==> p(s[k])
    ensures i + n == |s| || !p(s[i + n])
    decreases |s| - i
  {
    if i == |s| || !p(s[i]) then 0 else 1 + Run(s, i + 1, p)
  }

  predicate NotNewline(c: char) {
    c != '\n'
  }

  /** The class `[A-Za-z0-9\s,&\-\(\)]` of an SE name. */
  predicate IsNameChar(c: char) {
    IsAsciiLetter(c) || IsDigit(c) || IsPySpace(c) || c == ',' || c == '&' || c == '-' || c == '(' || c == ')'
  }

  // ---------------------------------------------------------------- se_pattern

  /** The two groups of an SE heading: the number's digits and the name. */
  datatype SeHeading = SeHeading(digits: string, name: string)

  /** `([A-Za-z][A-Za-z0-9\s,&\-\(\)]{5,})` at `t`: a letter and at least five name characters, greedily. */
  function SeName(line: string, t: nat): (r: Option<string>)
    requires t <= |line|
    ensures r.Some? ==> |r.value| >= 6 && IsAsciiLetter(r.value[0])
    ensures r.Some? ==> forall k :: 0 <= k < |r.value| ==> IsNameChar(r.value[k])
  {
    if t < |line| && IsAsciiLetter(line[t]) then
      var m := Run(line, t + 1, IsNameChar);
      if m >= 5 then Some(line[t..t + 1 + m]) else None
    else None
  }

  /**
   * `(\d+)(?:\.|\s+)` and the name from `q`. The digit run is taken whole (a digit is neither
   * a dot nor whitespace); after the digits a dot is tried first, then a whitespace run,
   * taken whole too (a name starts with a letter).
   */
  function SeAfterPrefix(line: string, q: nat): (r: Option<SeHeading>)
    requires q <= |line|
    ensures r.Some? ==> IsAllDigits(r.value.digits) && |r.value.name| >= 6
  {
    var n := DigitRun(line, q);
    if n == 0 then None
    else
      var e := q + n;
      var name :=
        if e < |line| && line[e] == '.' then SeName(line, e + 1)
        else
          var sp := Run(line, e, IsPySpace);
          if sp == 0 then None else SeName(line, e + sp);
      match name
      case None => None
      case Some(nm) => Some(SeHeading(line[q..e], nm))
  }

  /** `se_pattern.match(line)`: leading whitespace, an optional `SE` and whitespace, then the heading. */
  function SeMatch(line: string): (r: Option<SeHeading>)
    ensures r.Some? ==> IsAllDigits(r.value.digits) && |r.value.name| >= 6
  {
    var p := Run(line, 0, IsPySpace);
    if OccursAt(line, "SE", p) && Run(line, p + 2, IsPySpace) > 0 then SeAfterPrefix(line, p + 2 + Run(line, p + 2, IsPySpace))
    else SeAfterPrefix(line, p)
  }

  // ---------------------------------------------------------------- section, standard, criterion

  /** A matched heading: the code and, when present, the text group. */
  datatype Heading = Heading(code: string, text: Option<string>)

  /** Where the code starts after an optional `word\s+` at the start (ignoring case). */
  function PrefixEnd(line: string, word: string): (q: nat)
    ensures q <= |line|
  {
    if OccursAtIgnoreCase(line, word, 0) && Run(line, |word|, IsPySpace) > 0 then |word| + Run(line, |word|, IsPySpace) else 0
  }

  /** `\s*(.+)?` after a code ending at `e`: the rest of the line after whitespace, if any. */
  function RestOfLine(line: string, e: nat): (r: Option<string>)
    requires e <= |line|
    ensures r.Some? ==> r.value != [] && !IsPySpace(r.value[0])
  {
    var t := e + Run(line, e, IsPySpace);
    if t < |line| then Some(line[t..t + Run(line, t, NotNewline)]) else None
  }

  /** `section_pattern.match(line)`: `(?:Section\s+)?(\d+\.\d+)\s+([A-Za-z].+)`, ignoring case. */
  function SectionMatch(line: string): (r: Option<Heading>)
    ensures r.Some? ==> r.value.text.Some? && |r.value.text.value| >= 2
  {
    var q := PrefixEnd(line, "Section");
    match DottedEnd(line, q, 2)
    case None => None
    case Some(e) =>
      var sp := Run(line, e, IsPySpace);
      var t := e + sp;
      if sp > 0 && t + 1 < |line| && IsAsciiLetter(line[t]) && line[t + 1] != '\n' then
        Some(Heading(line[q..e], Some(line[t..t + 1 + Run(line, t + 1, NotNewline)])))
      else None
  }

  /** `standard_pattern.match(line)`: `(?:Standard\s+)?(\d+\.\d+\.\d+)\s*(.+)?`, ignoring case. */
  function StandardMatch(line: string): (r: Option<Heading>)
    ensures r.Some? ==> r.value.code != []
  {
    var q := PrefixEnd(line, "Standard");
    match DottedEnd(line, q, 3)
    case None => None
    case Some(e) => Some(Heading(line[q..e], RestOfLine(line, e)))
  }

  /** Where the code starts for a criterion match that starts at `k`, if one does. */
  function CriterionAt(line: string, k: nat): (r: Option<nat>)
    requires k <= |line|
    ensures r.Some? ==> r.value <= |line| && DottedEnd(line, r.value, 4).Some?
  {
    if OccursAtIgnoreCase(line, "Criterion", k) && Run(line, k + 9, IsPySpace) > 0
       && DottedEnd(line, k + 9 + Run(line, k + 9, IsPySpace), 4).Some?
    then Some(k + 9 + Run(line, k + 9, IsPySpace))
    else if DottedEnd(line, k, 4).Some? then Some(k)
    else None
  }

  /** `criterion_pattern.search(line)`: `(?:Criterion\s+)?(\d+\.\d+\.\d+\.\d+)\s*(.+)?` at the leftmost start. */
  function CriterionSearch(line: string): (r: Option<Heading>)
    ensures r.Some? ==> r.value.code != []
    ensures r.None? ==> forall k :: 0 <= k < |line| ==> CriterionAt(line, k).None?
  {
    var hit := (k: nat) => k <= |line| && CriterionAt(line, k).Some?;
    match Leftmost(hit, 0, |line|)
    case None =>
      assert forall k :: 0 <= k < |line| ==> CriterionAt(line, k).None? by {
        forall k | 0 <= k < |line| ensures CriterionAt(line, k).None? {
          assert !hit(k);
        }
      }
      None
    case Some(k) =>
      var q := CriterionAt(line, k).value;
      var e := DottedEnd(line, q, 4).value;
      Some(Heading(line[q..e], RestOfLine(line, e)))
  }

  /** A code of more dotted parts starts with one of fewer. */
  lemma {:induction false} DottedEndFewer(s: string, i: nat, parts: nat)
    requires i <= |s| && parts >= 2 && DottedEnd(s, i, parts).Some?
    ensures DottedEnd(s, i, parts - 1).Some?
    decreases parts
  {
    var n := DigitRun(s, i);
    if parts > 2 {
      DottedEndFewer(s, i + n + 1, parts - 1);
    }
  }

  /**
   * A line that starts with a four-part criterion code also matches the standard pattern
   * (as its first three parts), which parse_text tries first.
   */
  lemma CriterionLineMatchesStandard(line: string)
    requires DottedEnd(line, 0, 4).Some?
    ensures CriterionSearch(line).Some? && StandardMatch(line).Some?
    ensures StandardMatch(line).value.code == line[..DottedEnd(line, 0, 3).value]
  {
    DottedEndFewer(line, 0, 4);
    DottedEndFewer(line, 0, 3);
    assert LowerChar(line[0]) != LowerChar("Standard"[0]);
    assert !OccursAtIgnoreCase(line, "Standard", 0);
    assert CriterionAt(line, 0).Some?;
  }

  // ---------------------------------------------------------------- intent marker

  /** An "Intent of" match: the whole matched text and the standard code it names. */
  datatype IntentRef = IntentRef(matched: string, code: string)

  function IntentAt(line: string, k: nat): (r: Option<IntentRef>)
    requires k <= |line|
    ensures r.Some? ==> r.value.matched != [] && r.value.code != []
  {
    if OccursAtIgnoreCase(line, "Intent of", k) && Run(line, k + 9, IsPySpace) > 0 then
      var q := k + 9 + Run(line, k + 9, IsPySpace);
      match DottedEnd(line, q, 3)
      case None => None
      case Some(e) => Some(IntentRef(line[k..e], line[q..e]))
    else None
  }

  /** `intent_marker.search(line)`: `Intent of\s+(\d+\.\d+\.\d+)` at the leftmost start, ignoring case. */
  function IntentSearch(line: string): (r: Option<IntentRef>)
    ensures r.Some? ==> r.value.matched != [] && r.value.code != []
  {
    match Leftmost((k: nat) => k <= |line| && IntentAt(line, k).Some?, 0, |line|)
    case None => None
    case Some(k) => IntentAt(line, k)
  }

  // ---------------------------------------------------------------- line classes

  /** `is_boundary`: the line starts a new element of the hierarchy. */
  predicate IsBoundary(line: string) {
    SeMatch(line).Some? || SectionMatch(line).Some? || StandardMatch(line).Some?
    || CriterionSearch(line).Some? || IntentSearch(line).Some?
  }

  /** A page marker or a page number: `text.startswith('--- Page') or re.match(r'^\d+$', text)`. */
  predicate IsPageMarker(text: string) {
    "--- Page" <= text || IsAllDigits(text)
  }

  // ---------------------------------------------------------------- split_standard_and_intent

  const IntentLabel := "Standard Intent:"
  const CommentsMarker := "Criterion Comments Recommendations"

  predicate ContainsIgnoreCase(s: string, pattern: string) {
    exists k :: 0 <= k <= |s| && OccursAtIgnoreCase(s, pattern, k)
  }

  /** Where `$` can match for a `.*$`: the end, or just before a final newline. */
  function LastLineEnd(t: string): (e: nat)
    ensures e <= |t|
  {
    if t != [] && t[|t| - 1] == '\n' then |t| - 1 else |t|
  }

  /** `CommentsMarker.*$` can match at `k`: the marker, then no newline before `$`. */
  predicate MarkerAt(t: string, k: nat) {
    OccursAtIgnoreCase(t, CommentsMarker, k) && k + |CommentsMarker| <= LastLineEnd(t)
    && forall j :: k + |CommentsMarker| <= j < LastLineEnd(t) ==> t[j] != '\n'
  }

  /** The leftmost start at which `CommentsMarker.*$` matches. */
  function FirstMarker(t: string): (r: Option<nat>)
    ensures r.Some? ==> r.value < |t| && MarkerAt(t, r.value)
    ensures r.Some? ==> forall j :: 0 <= j < r.value ==> !MarkerAt(t, j)
    ensures r.None? ==> forall j :: 0 <= j < |t| ==> !MarkerAt(t, j)
  {
    var hit := (k: nat) => MarkerAt(t, k);
    var r := Leftmost(hit, 0, |t|);
    assert r.Some? ==> forall j :: 0 <= j < r.value ==> !MarkerAt(t, j) by {
      if r.Some? {
        forall j | 0 <= j < r.value ensures !MarkerAt(t, j) {
          assert !hit(j);
        }
      }
    }
    assert r.None? ==> forall j :: 0 <= j < |t| ==> !MarkerAt(t, j) by {
      if r.None? {
        forall j | 0 <= j < |t| ensures !MarkerAt(t, j) {
          assert !hit(j);
        }
      }
    }
    r
  }

  /** `re.sub(r"Criterion Comments Recommendations.*$", "", t, flags=re.IGNORECASE)`: at most one match, the leftmost. */
  function CutMarker(t: string): (r: string)
    ensures |r| <= |t|
    ensures FirstMarker(t).None? ==> r == t
    ensures FirstMarker(t).Some? ==> r == t[..FirstMarker(t).value] + t[LastLineEnd(t)..]
  {
    match FirstMarker(t)
    case None => t
    case Some(k) => t[..k] + t[LastLineEnd(t)..]
  }

  /** An ignore-case occurrence inside a copy `u` of `t[off..]` is an occurrence in `t`. */
  lemma OccursShift(u: string, t: string, off: nat, pattern: string, j: nat)
    requires off + |u| <= |t|
    requires forall x :: 0 <= x < |u| ==> u[x] == t[off + x]
    requires OccursAtIgnoreCase(u, pattern, j)
    ensures OccursAtIgnoreCase(t, pattern, off + j)
  {
    forall x | 0 <= x < |pattern|
      ensures LowerChar(t[off + j..off + j + |pattern|][x]) == LowerChar(pattern[x])
    {
      assert u[j..j + |pattern|][x] == u[j + x];
    }
  }

  /**
   * `split_standard_and_intent`: the statement before the first "Standard Intent:" (any
   * case) and the intent after it, both stripped, the intent without a trailing comments
   * marker.
   */
  function SplitStandardAndIntent(statement: string): (r: (string, string))
    ensures statement == [] ==> r == ([], [])
    ensures statement != [] && !ContainsIgnoreCase(statement, IntentLabel) ==> r == (Trim(Py, statement), [])
    ensures r.0 == [] || (!IsSpace(Py, r.0[0]) && !IsSpace(Py, r.0[|r.0| - 1]))
    ensures r.1 == [] || (!IsSpace(Py, r.1[0]) && !IsSpace(Py, r.1[|r.1| - 1]))
  {
    if statement == [] then ([], [])
    else
      match FindFromIgnoreCase(statement, IntentLabel, 0)
      case None => (Trim(Py, statement), [])
      case Some(k) => (Trim(Py, statement[..k]), IntentPart(statement[LabelEnd(statement, k)..]))
  }

  /**
   * With the label present, first at `k`: the statement is the text before it, stripped, and
   * the intent is the text after the label and the whitespace that follows it, stripped, with a
   * trailing comments marker cut off.
   */
  lemma SplitAtLabel(statement: string, k: nat)
    requires FindFromIgnoreCase(statement, IntentLabel, 0) == Some(k)
    ensures k + |IntentLabel| <= |statement|
    ensures SplitStandardAndIntent(statement) == (Trim(Py, statement[..k]), IntentPart(statement[LabelEnd(statement, k)..]))
  {
    assert statement != [];
  }

  /** Where `Standard Intent:\s*` found at `k` ends. */
  function LabelEnd(statement: string, k: nat): (e: nat)
    requires k + |IntentLabel| <= |statement|
    ensures k + |IntentLabel| <= e <= |statement|
    ensures forall j :: k + |IntentLabel| <= j < e ==> IsPySpace(statement[j])
    ensures e == |statement| || !IsPySpace(statement[e])
  {
    k + |IntentLabel| + Run(statement, k + |IntentLabel|, IsPySpace)
  }

  /** The intent text after the label: stripped, marker cut, stripped again. */
  function IntentPart(rest: string): (r: string)
    ensures r == [] || (!IsSpace(Py, r[0]) && !IsSpace(Py, r[|r| - 1]))
    ensures FirstMarker(Trim(Py, rest)).None? ==> r == Trim(Py, rest)
    ensures FirstMarker(Trim(Py, rest)).Some? ==>
              r == Trim(Py, Trim(Py, rest)[..FirstMarker(Trim(Py, rest)).value])
  {
    var t := Trim(Py, rest);
    TrimIdempotent(Py, rest);
    assert LastLineEnd(t) == |t| by {
      assert t != [] ==> IsSpace(Py, '\n') && t[|t| - 1] != '\n';
    }
    assert FirstMarker(t).Some? ==> CutMarker(t) == t[..FirstMarker(t).value] by {
      assert t[|t|..] == [];
    }
    Trim(Py, CutMarker(t))
  }

  /** If `pattern` does not start before `k` in `s`, the stripped prefix `s[..k]` does not contain it. */
  lemma {:induction false} TrimmedPrefixClean(s: string, pattern: string, k: nat)
    requires k <= |s| && pattern != []
    requires forall j :: 0 <= j < k ==> !OccursAtIgnoreCase(s, pattern, j)
    ensures !ContainsIgnoreCase(Trim(Py, s[..k]), pattern)
  {
    var u := s[..k];
    var v := Trim(Py, u);
    if ContainsIgnoreCase(v, pattern) {
      var j :| 0 <= j <= |v| && OccursAtIgnoreCase(v, pattern, j);
      TrimIsSlice(Py, u);
      OccursShift(v, u, LeadingSpaces(Py, u), pattern, j);
      assert LeadingSpaces(Py, u) + j < k;
      OccursShift(u, s, 0, pattern, LeadingSpaces(Py, u) + j);
    }
  }

  /** The statement part never holds the "Standard Intent:" label: the split is at its first occurrence. */
  lemma StatementHasNoLabel(statement: string)
    ensures !ContainsIgnoreCase(SplitStandardAndIntent(statement).0, IntentLabel)
  {
    match FindFromIgnoreCase(statement, IntentLabel, 0)
    case None =>
      TrimmedPrefixClean(statement, IntentLabel, |statement|);
      assert statement[..|statement|] == statement;
    case Some(k) =>
      TrimmedPrefixClean(statement, IntentLabel, k);
  }

  /** On one line, cutting the marker and stripping leaves no marker. */
  lemma {:induction false} CutMarkerClean(t: string)
    requires '\n' !in t
    ensures !ContainsIgnoreCase(Trim(Py, CutMarker(t)), CommentsMarker)
  {
    assert LastLineEnd(t) == |t|;
    var cut := if FirstMarker(t).Some? then FirstMarker(t).value else |t|;
    assert CutMarker(t) == t[..cut];
    forall j | 0 <= j < cut ensures !OccursAtIgnoreCase(t, CommentsMarker, j) {
      if OccursAtIgnoreCase(t, CommentsMarker, j) {
        assert MarkerAt(t, j);
      }
    }
    TrimmedPrefixClean(t, CommentsMarker, cut);
  }

  /**
   * On a single line (no newline in the statement) the intent part never holds the
   * comments marker: everything from its first occurrence on is cut.
   */
  lemma IntentHasNoMarker(statement: string)
    requires '\n' !in statement
    ensures !ContainsIgnoreCase(SplitStandardAndIntent(statement).1, CommentsMarker)
  {
    match FindFromIgnoreCase(statement, IntentLabel, 0)
    case None =>
    case Some(k) =>
      var rest := statement[LabelEnd(statement, k)..];
      assert '\n' !in rest;
      TrimKeepsOut(Py, rest, '\n');
      CutMarkerClean(Trim(Py, rest));
  }

  // ---------------------------------------------------------------- collect_following_lines

  /** A line at which the collection stops: blank, or a boundary that is not a page marker. */
  predicate Stops(raw: string) {
    var text := Trim(Py, raw);
    text == [] || (!IsPageMarker(text) && IsBoundary(text))
  }

  /** A line the collection steps over: a page marker. */
  predicate Skipped(raw: string) {
    IsPageMarker(Trim(Py, raw))
  }

  /** The stripped lines of `lines[from..to]` that are not page markers, in order. */
  function Texts(lines: seq<string>, from: nat, to: nat): seq<string>
    requires from <= to <= |lines|
    decreases (to as int) - (from as int)
  {
    if from == to then []
    else (if Skipped(lines[from]) then [] else [Trim(Py, lines[from])]) + Texts(lines, from + 1, to)
  }

  /**
   * The continuation lines from `j`: the first stopping line at or after `j` (or the end)
   * and the stripped texts of the lines before it, page markers left out.
   */
  function Following(lines: seq<string>, j: nat): (r: (seq<string>, nat))
    ensures j <= r.1 && (j <= |lines| ==> r.1 <= |lines|)
    decreases |lines| - j
  {
    if j >= |lines| || Stops(lines[j]) then ([], j)
    else if Skipped(lines[j]) then Following(lines, j + 1)
    else
      var rest := Following(lines, j + 1);
      ([Trim(Py, lines[j])] + rest.0, rest.1)
  }

  /** A line that stops the collection ends it there, with nothing collected. */
  lemma FollowingStop(lines: seq<string>, j: nat)
    requires j < |lines| && Stops(lines[j])
    ensures Following(lines, j) == ([], j)
  {
  }

  /** A page marker is stepped over. */
  lemma FollowingSkip(lines: seq<string>, j: nat)
    requires j < |lines| && !Stops(lines[j]) && Skipped(lines[j])
    ensures Following(lines, j) == Following(lines, j + 1)
  {
  }

  /** Any other line contributes its stripped text. */
  lemma FollowingTake(lines: seq<string>, j: nat)
    requires j < |lines| && !Stops(lines[j]) && !Skipped(lines[j])
    ensures Following(lines, j) == ([Trim(Py, lines[j])] + Following(lines, j + 1).0, Following(lines, j + 1).1)
  {
  }

  /** Past a line that does not stop it, the collection stops where it stops from the next line. */
  lemma FollowingNext(lines: seq<string>, j: nat)
    requires j < |lines| && !Stops(lines[j])
    ensures Following(lines, j).1 == Following(lines, j + 1).1
  {
    if Skipped(lines[j]) {
      FollowingSkip(lines, j);
    } else {
      FollowingTake(lines, j);
    }
  }

  /** The collection ends at the end of the lines or at a line that stops it. */
  lemma {:induction false} FollowingEnds(lines: seq<string>, j: nat)
    requires j < |lines|
    ensures Following(lines, j).1 == |lines| || Stops(lines[Following(lines, j).1])
    decreases |lines| - j
  {
    if Stops(lines[j]) {
      FollowingStop(lines, j);
    } else {
      FollowingNext(lines, j);
      if j + 1 < |lines| {
        FollowingEnds(lines, j + 1);
      }
    }
  }

  /** No line from `j` up to the stopping line stops the collection. */
  lemma {:induction false} FollowingSpan(lines: seq<string>, j: nat, t: nat)
    requires j <= t < Following(lines, j).1 && t < |lines|
    ensures !Stops(lines[t])
    decreases t - j
  {
    if Stops(lines[j]) {
      FollowingStop(lines, j);
    } else if t > j {
      FollowingNext(lines, j);
      FollowingSpan(lines, j + 1, t);
    }
  }

  /** The collected parts are the non-page-marker texts of the lines before the stop. */
  lemma {:induction false} FollowingTexts(lines: seq<string>, j: nat)
    requires j <= |lines|
    ensures Following(lines, j).0 == Texts(lines, j, Following(lines, j).1)
    decreases |lines| - j
  {
    if j < |lines| && !Stops(lines[j]) {
      FollowingTexts(lines, j + 1);
    }
  }

  /** Every collected text is non-blank, not a page marker and not a boundary. */
  lemma {:induction false} FollowingParts(lines: seq<string>, j: nat)
    ensures forall k :: 0 <= k < |Following(lines, j).0| ==>
      Following(lines, j).0[k] != [] && !IsPageMarker(Following(lines, j).0[k]) && !IsBoundary(Following(lines, j).0[k])
    decreases |lines| - j
  {
    if j < |lines| && !Stops(lines[j]) {
      FollowingParts(lines, j + 1);
    }
  }

  /** Keeping line `j` moves its text from the pending part of `Following` to the collected parts. */
  lemma FollowingKeep(lines: seq<string>, start: nat, j: nat, parts: seq<string>)
    requires j < |lines|
    requires Following(lines, start) == (parts + Following(lines, j).0, Following(lines, j).1)
    requires !Stops(lines[j]) && !Skipped(lines[j])
    ensures Following(lines, start) == ((parts + [Trim(Py, lines[j])]) + Following(lines, j + 1).0, Following(lines, j + 1).1)
  {
    FollowingTake(lines, j);
    assert parts + ([Trim(Py, lines[j])] + Following(lines, j + 1).0) == (parts + [Trim(Py, lines[j])]) + Following(lines, j + 1).0;
  }

  /** `collect_following_lines(start_index, lines)`: the continuation text joined with spaces, and where it stopped. */
  method CollectFollowingLines(start: nat, lines: seq<string>) returns (text: string, j: nat)
    ensures text == Join(Following(lines, start).0, " ") && j == Following(lines, start).1
    ensures start <= j && (start <= |lines| ==> j <= |lines|)
  {
    var parts: seq<string> := [];
    j := start;
    assert parts + Following(lines, j).0 == Following(lines, start).0;
    while j < |lines|
      invariant start <= j && (start <= |lines| ==> j <= |lines|)
      invariant Following(lines, start) == (parts + Following(lines, j).0, Following(lines, j).1)
      decreases |lines| - j
    {
      var t := Trim(Py, lines[j]);
      if t == [] {
        FollowingStop(lines, j);
        break;
      }
      if IsPageMarker(t) {
        FollowingSkip(lines, j);
        j := j + 1;
        continue;
      }
      if IsBoundary(t) {
        FollowingStop(lines, j);
        break;
      }
      FollowingKeep(lines, start, j, parts);
      parts := parts + [t];
      j := j + 1;
    }
    assert Following(lines, j).0 == [];
    assert parts == Following(lines, start).0;
    text := Join(parts, " ");
  }
}
