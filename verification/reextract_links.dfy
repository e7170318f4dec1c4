/**
 * Matrix/reextract_links.py: re-reading the links table from the extracted PDF text.
 * A line that starts with a valid criterion code followed by a description opens a
 * new item; codes at the end of a line are its links; later lines add description
 * text or links to the open item. The items are then deduplicated by code (the first
 * wins), their links sorted and their descriptions cleaned.
 */
module ReextractLinks {
  import opened Wrappers
  import opened Strings
  import opened Seqs
  import opened IdTokens
  import opened SortedStrings

  /** `{"criteria", "description", "linked_criteria"}`. */
  datatype Item = Item(criteria: string, description: string, linkedCriteria: seq<string>)

  /** `list(reversed(xs))`. */
  function Reversed<T>(xs: seq<T>): (r: seq<T>)
    ensures |r| == |xs|
    ensures forall k :: 0 <= k < |xs| ==> r[k] == xs[|xs| - 1 - k]
  {
    seq(|xs|, k requires 0 <= k < |xs| => xs[|xs| - 1 - k])
  }

  /** `line.replace('\n', ' ').strip()`. */
  function CleanLine(raw: string): (line: string)
    ensures '\n' !in line
    ensures line == [] || (!IsPySpace(line[0]) && !IsPySpace(line[|line| - 1]))
  {
    var spaced := seq(|raw|, k requires 0 <= k < |raw| => if raw[k] == '\n' then ' ' else raw[k]);
    TrimKeepsOut(Py, spaced, '\n');
    Trim(Py, spaced)
  }

  /** `re.match(r'^Page \d+ of \d+', line)`. */
  predicate PageCounter(line: string) {
    "Page " <= line
    && var n := DigitRun(line, 5);
       n > 0 && OccursAt(line, " of ", 5 + n) && DigitRun(line, 9 + n) > 0
  }

  /** A page marker, the table header or a page counter: skipped. */
  predicate IsNoise(line: string) {
    "--- Page" <= line || (Contains(line, "Criteria") && Contains(line, "Description")) || PageCounter(line)
  }

  /** Number of non-whitespace characters at the end of `s`. */
  function TrailingWord(s: string): (n: nat)
    ensures n <= |s|
    ensures forall k :: |s| - n <= k < |s| ==> !IsPySpace(s[k])
    ensures n == |s| || IsPySpace(s[|s| - n - 1])
  {
    if s == [] || IsPySpace(s[|s| - 1]) then 0 else 1 + TrailingWord(s[..|s| - 1])
  }

  /**
   * `w` is `parts` runs of digits separated by single dots and nothing else, read left
   * to right; `digits` says whether the current run has a digit yet.
   */
  predicate DottedWord(w: string, parts: nat, digits: bool) {
    if w == [] then parts == 1 && digits
    else if IsDigit(w[0]) then DottedWord(w[1..], parts, true)
    else w[0] == '.' && digits && parts > 1 && DottedWord(w[1..], parts - 1, false)
  }

  /** `w` is a whole criterion code `\d+\.\d+\.\d+\.\d+`. */
  predicate IsWholeCode(w: string) {
    DottedWord(w, 4, false)
  }

  /**
   * `re.search(rf'\s+({id})\s*$', s)`: the last word of `s` when it is a whole code and
   * whitespace precedes it. The match starts where that whitespace starts, which is
   * returned with the code.
   */
  function TrailingCode(s: string): (r: Option<(nat, string)>)
    ensures r.Some? ==> r.value.0 < |s| && IsWholeCode(r.value.1)
  {
    var e := |s| - TrailingSpaces(Py, s);
    var b := e - TrailingWord(s[..e]);
    if b > 0 && IsWholeCode(s[b..e]) then Some((b - TrailingSpaces(Py, s[..b]), s[b..e])) else None
  }

  /** The match starts on whitespace. */
  lemma TrailingCodeAtSpace(s: string)
    requires TrailingCode(s).Some?
    ensures IsPySpace(s[TrailingCode(s).value.0])
  {
    var e := |s| - TrailingSpaces(Py, s);
    var b := e - TrailingWord(s[..e]);
    assert IsPySpace(s[..e][b - 1]);
    var a := b - TrailingSpaces(Py, s[..b]);
    assert s[..b][a] == s[a];
  }

  /** Trimming a text that starts with a non-space keeps a non-empty prefix of it. */
  lemma TrimFromStart(t: string)
    ensures t != [] && !IsPySpace(t[0]) ==> Trim(Py, t) <= t && Trim(Py, t) != [] && !IsPySpace(Trim(Py, t)[0])
  {
    if t != [] && !IsPySpace(t[0]) {
      assert LeadingSpaces(Py, t) == 0;
      TrimIsSlice(Py, t);
    }
  }

  /** A search for a trailing code whose match starts inside the text. */
  ghost predicate MatchesInside(find: string -> Option<(nat, string)>) {
    forall x :: find(x).Some? ==> find(x).value.0 < |x|
  }

  /** ... and on whitespace. */
  ghost predicate MatchesAtSpace(find: string -> Option<(nat, string)>) {
    forall x :: find(x).Some? ==> find(x).value.0 < |x| && IsPySpace(x[find(x).value.0])
  }

  lemma TrailingCodeMatchesAtSpace()
    ensures MatchesAtSpace(TrailingCode)
  {
    forall x | TrailingCode(x).Some?
      ensures IsPySpace(x[TrailingCode(x).value.0])
    {
      TrailingCodeAtSpace(x);
    }
  }

  /**
   * The `while True` loop that takes codes off the end of a text, searching with `find`
   * (which is `TrailingCode`): the text that is left and `acc` followed by the valid codes
   * taken, rightmost first. Nothing `find` matches is left, and only valid codes are kept.
   */
  function Peel(find: string -> Option<(nat, string)>, s: string, validIds: set<string>, acc: seq<string>): (r: (string, seq<string>))
    requires MatchesInside(find)
    ensures find(r.0).None?
    ensures acc <= r.1
    ensures (forall k :: 0 <= k < |acc| ==> acc[k] in validIds) ==> forall k :: 0 <= k < |r.1| ==> r.1[k] in validIds
    decreases |s|
  {
    match find(s)
    case None => (s, acc)
    case Some((a, code)) =>
      Peel(find, Trim(Py, s[..a]), validIds, if code in validIds then acc + [code] else acc)
  }

  /** A text that starts with a non-space keeps a non-empty start: what is left is a prefix of it. */
  lemma {:induction false} PeelKeepsStart(find: string -> Option<(nat, string)>, s: string, validIds: set<string>, acc: seq<string>)
    requires MatchesAtSpace(find)
    requires s != [] && !IsPySpace(s[0])
    ensures Peel(find, s, validIds, acc).0 <= s && Peel(find, s, validIds, acc).0 != []
    decreases |s|
  {
    var m := find(s);
    if m.Some? {
      var a, code := m.value.0, m.value.1;
      var t := Trim(Py, s[..a]);
      TrimFromStart(s[..a]);
      PeelKeepsStart(find, t, validIds, if code in validIds then acc + [code] else acc);
    }
  }

  /** One iteration of the loop: take the trailing code found, keep it if valid, strip the text before it. */
  method PeelOne(find: string -> Option<(nat, string)>, rest: string, linksAtEnd: seq<string>, validIds: set<string>)
    returns (rest': string, linksAtEnd': seq<string>)
    requires MatchesInside(find) && find(rest).Some?
    ensures |rest'| < |rest|
    ensures Peel(find, rest', validIds, linksAtEnd') == Peel(find, rest, validIds, linksAtEnd)
  {
    var a, code := find(rest).value.0, find(rest).value.1;
    rest' := Trim(Py, rest[..a]);
    linksAtEnd' := if code in validIds then linksAtEnd + [code] else linksAtEnd;
  }

  /** The loop itself, taking one trailing code per iteration. */
  method PeelLinks(find: string -> Option<(nat, string)>, s: string, validIds: set<string>)
    returns (rest: string, linksAtEnd: seq<string>)
    requires MatchesInside(find)
    ensures (rest, linksAtEnd) == Peel(find, s, validIds, [])
  {
    rest, linksAtEnd := s, [];
    while true
      invariant Peel(find, rest, validIds, linksAtEnd) == Peel(find, s, validIds, [])
      decreases |rest|
    {
      if find(rest).None? {
        break;
      }
      rest, linksAtEnd := PeelOne(find, rest, linksAtEnd, validIds);
    }
  }

  /** `re.match(rf'^({id})(\s+{id})*\s*$', s[i..])`: codes separated by whitespace and nothing else. */
  predicate OnlyCodesFrom(s: string, i: nat)
    requires i <= |s|
    decreases |s| - i
  {
    match IdEndAt(s, i)
    case None => false
    case Some(e) =>
      var w := LeadingSpaces(Py, s[e..]);
      e + w == |s| || (w > 0 && OnlyCodesFrom(s, e + w))
  }

  /**
   * The header of a new item: a code at the start (followed by a word boundary) that is
   * valid, then more than ten characters of text that do not start with another code.
   * Returns the code and that text.
   */
  function MainLine(line: string, validIds: set<string>): (r: Option<(string, string)>)
    ensures r.Some? ==> r.value.0 in validIds && r.value.0 <= line
    ensures r.Some? ==> |r.value.1| > 10 && !StartsWithId(r.value.1)
  {
    match IdAtStartWithBoundary(line)
    case None => None
    case Some(code) =>
      var remaining := Trim(Py, line[|code|..]);
      if code in validIds && |remaining| > 10 && !StartsWithId(remaining) then Some((code, remaining)) else None
  }

  function IsValid(validIds: set<string>): string -> bool {
    l => l in validIds
  }

  /** What a line that does not open an item adds to the open item. */
  function Continue(find: string -> Option<(nat, string)>, cur: Item, line: string, validIds: set<string>): (it: Item)
    requires MatchesInside(find)
    ensures it.criteria == cur.criteria
    ensures cur.linkedCriteria <= it.linkedCriteria
    ensures forall k :: |cur.linkedCriteria| <= k < |it.linkedCriteria| ==> it.linkedCriteria[k] in validIds
  {
    if OnlyCodesFrom(line, 0) then
      cur.(linkedCriteria := cur.linkedCriteria + Select(FindAllIds(line, 0), IsValid(validIds)))
    else
      var (rest, found) := Peel(find, line, validIds, []);
      var description :=
        if rest != "" && !(Contains(rest, "Page") && Contains(rest, "of")) then
          (if cur.description != "" then cur.description + " " + rest else rest)
        else cur.description;
      Item(cur.criteria, description, cur.linkedCriteria + Reversed(found))
  }

  /** The items collected so far and the open item. */
  datatype ParseState = ParseState(results: seq<Item>, current: Option<Item>)

  /** The collected items with the open one appended. */
  function Flushed(st: ParseState): (r: seq<Item>)
    ensures st.results <= r
  {
    st.results + (if st.current.Some? then [st.current.value] else [])
  }

  /** An item whose own code and every link are valid codes. */
  predicate ItemValid(it: Item, validIds: set<string>) {
    it.criteria in validIds && forall k :: 0 <= k < |it.linkedCriteria| ==> it.linkedCriteria[k] in validIds
  }

  predicate StateValid(st: ParseState, validIds: set<string>) {
    (forall k :: 0 <= k < |st.results| ==> ItemValid(st.results[k], validIds))
    && (st.current.Some? ==> ItemValid(st.current.value, validIds))
  }

  /** One raw line of the text file. */
  function Step(find: string -> Option<(nat, string)>, st: ParseState, raw: string, validIds: set<string>): ParseState
    requires MatchesInside(find)
  {
    var line := CleanLine(raw);
    if line == "" || IsNoise(line) then st
    else
      match MainLine(line, validIds)
      case Some((code, remaining)) =>
        var (rest, found) := Peel(find, remaining, validIds, []);
        ParseState(Flushed(st), Some(Item(code, rest, Reversed(found))))
      case None =>
        if st.current.None? then st
        else ParseState(st.results, Some(Continue(find, st.current.value, line, validIds)))
  }

  /** A blank or noise line changes nothing, nor does a line that is not a header while no item is open. */
  lemma StepSkips(find: string -> Option<(nat, string)>, st: ParseState, raw: string, validIds: set<string>)
    requires MatchesInside(find)
    ensures CleanLine(raw) == "" || IsNoise(CleanLine(raw)) ==> Step(find, st, raw, validIds) == st
    ensures st.current.None? && MainLine(CleanLine(raw), validIds).None? ==> Step(find, st, raw, validIds) == st
  {
  }

  /** A header line closes the open item and opens a new one with the header's code. */
  lemma StepOpens(find: string -> Option<(nat, string)>, st: ParseState, raw: string, validIds: set<string>)
    requires MatchesInside(find)
    requires CleanLine(raw) != "" && !IsNoise(CleanLine(raw)) && MainLine(CleanLine(raw), validIds).Some?
    ensures Step(find, st, raw, validIds).results == Flushed(st)
    ensures Step(find, st, raw, validIds).current.Some?
    ensures Step(find, st, raw, validIds).current.value.criteria == MainLine(CleanLine(raw), validIds).value.0
    ensures Step(find, st, raw, validIds).current.value.linkedCriteria
            == Reversed(Peel(find, MainLine(CleanLine(raw), validIds).value.1, validIds, []).1)
  {
  }

  /** Any other line, while an item is open, continues that item. */
  lemma StepContinues(find: string -> Option<(nat, string)>, st: ParseState, raw: string, validIds: set<string>)
    requires MatchesInside(find)
    requires CleanLine(raw) != "" && !IsNoise(CleanLine(raw)) && MainLine(CleanLine(raw), validIds).None?
    requires st.current.Some?
    ensures Step(find, st, raw, validIds) == ParseState(st.results, Some(Continue(find, st.current.value, CleanLine(raw), validIds)))
  {
  }

  /** Items once collected stay collected. */
  lemma StepKeepsResults(find: string -> Option<(nat, string)>, st: ParseState, raw: string, validIds: set<string>)
    requires MatchesInside(find)
    ensures st.results <= Step(find, st, raw, validIds).results
  {
  }

  /** A line keeps the state valid. */
  lemma StepValid(find: string -> Option<(nat, string)>, st: ParseState, raw: string, validIds: set<string>)
    requires MatchesInside(find)
    requires StateValid(st, validIds)
    ensures StateValid(Step(find, st, raw, validIds), validIds)
  {
    var line := CleanLine(raw);
    if line == "" || IsNoise(line) {
      StepSkips(find, st, raw, validIds);
    } else if MainLine(line, validIds).Some? {
      StepOpens(find, st, raw, validIds);
      FlushedValid(st, validIds);
    } else if st.current.Some? {
      StepContinues(find, st, raw, validIds);
      ContinueValid(find, st.current.value, line, validIds);
    }
  }

  lemma FlushedValid(st: ParseState, validIds: set<string>)
    requires StateValid(st, validIds)
    ensures forall k :: 0 <= k < |Flushed(st)| ==> ItemValid(Flushed(st)[k], validIds)
  {
  }

  /** Continuing a valid item keeps it valid. */
  lemma ContinueValid(find: string -> Option<(nat, string)>, cur: Item, line: string, validIds: set<string>)
    requires MatchesInside(find) && ItemValid(cur, validIds)
    ensures ItemValid(Continue(find, cur, line, validIds), validIds)
  {
    var it := Continue(find, cur, line, validIds);
    forall k | 0 <= k < |it.linkedCriteria| ensures it.linkedCriteria[k] in validIds {
      if k < |cur.linkedCriteria| {
        assert it.linkedCriteria[k] == cur.linkedCriteria[k];
      }
    }
  }

  function ParseLines(find: string -> Option<(nat, string)>, lines: seq<string>, validIds: set<string>): ParseState
    requires MatchesInside(find)
  {
    if lines == [] then ParseState([], None)
    else Step(find, ParseLines(find, lines[..|lines| - 1], validIds), lines[|lines| - 1], validIds)
  }

  /** `results` after the final append: every item, in the order they were opened. */
  function Collected(find: string -> Option<(nat, string)>, lines: seq<string>, validIds: set<string>): seq<Item>
    requires MatchesInside(find)
  {
    Flushed(ParseLines(find, lines, validIds))
  }

  /** Only valid codes ever become items or links. */
  lemma {:induction false} ParseValid(find: string -> Option<(nat, string)>, lines: seq<string>, validIds: set<string>)
    requires MatchesInside(find)
    ensures StateValid(ParseLines(find, lines, validIds), validIds)
    ensures forall k :: 0 <= k < |Collected(find, lines, validIds)| ==> ItemValid(Collected(find, lines, validIds)[k], validIds)
  {
    if lines != [] {
      ParseValid(find, lines[..|lines| - 1], validIds);
      StepValid(find, ParseLines(find, lines[..|lines| - 1], validIds), lines[|lines| - 1], validIds);
    }
  }

  // ---------------------------------------------------------------- dedup and clean

  /** `re.sub(r'\s+', ' ', s)`: every whitespace run becomes one space. */
  function Collapse(s: string): (r: string)
    ensures |r| <= |s|
    ensures r == [] <==> s == []
    ensures r != [] ==> (r[|r| - 1] == ' ' <==> IsPySpace(s[|s| - 1]))
    ensures forall k :: 0 <= k < |r| && IsPySpace(r[k]) ==> r[k] == ' '
    ensures forall k :: 0 <= k < |r| - 1 ==> !(r[k] == ' ' && r[k + 1] == ' ')
  {
    if s == [] then []
    else
      var init, c := s[..|s| - 1], s[|s| - 1];
      var r := Collapse(init);
      if !IsPySpace(c) then r + [c]
      else if init != [] && IsPySpace(init[|init| - 1]) then r
      else r + [' ']
  }

  const TrailingPunctuation: set<char> := {' ', '.', ';', ','}

  /** A cleaned description: single spaces only, none at the start, no trailing space or punctuation. */
  predicate IsCleanText(d: string) {
    (d == [] || (!IsPySpace(d[0]) && d[|d| - 1] !in TrailingPunctuation))
    && (forall k :: 0 <= k < |d| && IsPySpace(d[k]) ==> d[k] == ' ')
    && (forall k :: 0 <= k < |d| - 1 ==> !(d[k] == ' ' && d[k + 1] == ' '))
  }

  /** Collapse whitespace, strip, then `rstrip(' .;,')`. */
  function CleanDescription(d: string): string {
    RStripChars(Trim(Py, Collapse(d)), TrailingPunctuation)
  }

  /** A cleaned description is clean text. */
  lemma CleanDescriptionIsClean(d: string)
    ensures IsCleanText(CleanDescription(d))
  {
    var c := Collapse(d);
    var t := Trim(Py, c);
    TrimIsSlice(Py, c);
    var r := RStripChars(t, TrailingPunctuation);
    assert forall k :: 0 <= k < |r| ==> r[k] == t[k] == c[LeadingSpaces(Py, c) + k];
  }

  /** An item survives the cleaning when its cleaned description is not empty. */
  predicate Survives(d: string) {
    CleanDescription(d) != ""
  }

  function CriteriaSet(items: seq<Item>): set<string> {
    set it | it in items :: it.criteria
  }

  /**
   * The items the cleaning keeps, before cleaning: the first item for each code,
   * when its cleaned description is not empty.
   */
  function Kept(items: seq<Item>, keep: string -> bool): (r: seq<Item>)
    ensures forall x :: x in r ==> x in items
  {
    if items == [] then []
    else
      var init, last := items[..|items| - 1], items[|items| - 1];
      assert forall x :: x in init ==> x in items;
      if last.criteria in CriteriaSet(init) || !keep(last.description) then Kept(init, keep)
      else Kept(init, keep) + [last]
  }

  predicate DistinctCodes(items: seq<Item>) {
    forall i, j :: 0 <= i < j < |items| ==> items[i].criteria != items[j].criteria
  }

  /** No code is kept twice. */
  lemma {:induction false} KeptDistinct(items: seq<Item>, keep: string -> bool)
    ensures DistinctCodes(Kept(items, keep))
  {
    if items != [] {
      var init := items[..|items| - 1];
      KeptDistinct(init, keep);
      var r := Kept(init, keep);
      forall i | 0 <= i < |r| ensures r[i].criteria in CriteriaSet(init) {
        assert r[i] in init;
      }
    }
  }

  /** The first item with a code is kept exactly when its cleaned description is not empty. */
  lemma {:induction false} FirstOccurrenceKept(items: seq<Item>, keep: string -> bool, i: nat)
    requires i < |items| && items[i].criteria !in CriteriaSet(items[..i])
    ensures items[i] in Kept(items, keep) <==> keep(items[i].description)
  {
    var init, last := items[..|items| - 1], items[|items| - 1];
    assert items == init + [last];
    if i == |items| - 1 {
      assert init == items[..i];
      assert forall x :: x in init ==> x.criteria in CriteriaSet(init);
    } else {
      assert init[..i] == items[..i];
      FirstOccurrenceKept(init, keep, i);
      assert items[i].criteria in CriteriaSet(init) by { assert init[i] in init; }
      if last == items[i] {
        assert last.criteria in CriteriaSet(init);
      }
    }
  }

  /** Every kept item is the first item with its code. */
  lemma {:induction false} KeptIsFirst(items: seq<Item>, keep: string -> bool, x: Item)
    requires x in Kept(items, keep)
    ensures exists i :: 0 <= i < |items| && items[i] == x && x.criteria !in CriteriaSet(items[..i])
    ensures keep(x.description)
  {
    var init, last := items[..|items| - 1], items[|items| - 1];
    assert items == init + [last];
    if x in Kept(init, keep) {
      KeptIsFirst(init, keep, x);
      var i :| 0 <= i < |init| && init[i] == x && x.criteria !in CriteriaSet(init[..i]);
      assert init[..i] == items[..i];
    } else {
      assert items[..|items| - 1] == init;
    }
  }

  /** `it` is `src` cleaned: same code, cleaned description, `sorted(set(links))`. */
  predicate CleanedFrom(it: Item, src: Item) {
    it.criteria == src.criteria && it.description == CleanDescription(src.description)
    && StrictlySorted(it.linkedCriteria) && Members(it.linkedCriteria) == Members(src.linkedCriteria)
  }

  /** The state of the dedup-and-clean loop after the first `i` items. */
  ghost predicate Cleaning(results: seq<Item>, i: nat, seen: set<string>, cleaned: seq<Item>) {
    i <= |results| && seen == CriteriaSet(results[..i])
    && |cleaned| == |Kept(results[..i], Survives)|
    && forall k :: 0 <= k < |cleaned| ==> CleanedFrom(cleaned[k], Kept(results[..i], Survives)[k])
  }

  /** One iteration: skip a code already seen, else clean the item and keep it if its description survives. */
  method CleanOne(results: seq<Item>, i: nat, seen: set<string>, cleaned: seq<Item>)
    returns (seen': set<string>, cleaned': seq<Item>)
    requires i < |results| && Cleaning(results, i, seen, cleaned)
    ensures Cleaning(results, i + 1, seen', cleaned')
  {
    var item := results[i];
    if item.criteria in seen {
      CleaningSkip(results, i, seen, cleaned);
      return seen, cleaned;
    }
    seen' := seen + {item.criteria};
    var linked := SortSet(Members(item.linkedCriteria));
    var description := CleanDescription(item.description);
    if description != "" {
      var x := Item(item.criteria, description, linked);
      CleaningKeep(results, i, seen, cleaned, x);
      cleaned' := cleaned + [x];
    } else {
      CleaningSkip(results, i, seen, cleaned);
      cleaned' := cleaned;
    }
  }

  /** The loop state after an item that is not kept. */
  lemma CleaningSkip(results: seq<Item>, i: nat, seen: set<string>, cleaned: seq<Item>)
    requires i < |results| && Cleaning(results, i, seen, cleaned)
    requires results[i].criteria in seen || !Survives(results[i].description)
    ensures Cleaning(results, i + 1, seen + {results[i].criteria}, cleaned)
  {
    var item, prefix := results[i], results[..i];
    assert results[..i + 1] == prefix + [item];
    CriteriaSnoc(prefix, item);
    KeptSnocSkip(prefix, Survives, item);
  }

  /** The loop state after an item that is kept, cleaned into `x`. */
  lemma CleaningKeep(results: seq<Item>, i: nat, seen: set<string>, cleaned: seq<Item>, x: Item)
    requires i < |results| && Cleaning(results, i, seen, cleaned)
    requires results[i].criteria !in seen && Survives(results[i].description)
    requires CleanedFrom(x, results[i])
    ensures Cleaning(results, i + 1, seen + {results[i].criteria}, cleaned + [x])
  {
    var item, prefix := results[i], results[..i];
    assert results[..i + 1] == prefix + [item];
    CriteriaSnoc(prefix, item);
    KeptSnocKeep(prefix, Survives, item);
  }

  lemma CriteriaSnoc(items: seq<Item>, x: Item)
    ensures CriteriaSet(items + [x]) == CriteriaSet(items) + {x.criteria}
  {
    var both := items + [x];
    forall c | c in CriteriaSet(both) ensures c in CriteriaSet(items) + {x.criteria} {
      var it :| it in both && it.criteria == c;
      if it != x {
        assert it in items;
      }
    }
    assert x in both;
    forall c | c in CriteriaSet(items) ensures c in CriteriaSet(both) {
      var it :| it in items && it.criteria == c;
      assert it in both;
    }
  }

  /** An item whose code was seen, or whose description does not survive, is not kept. */
  lemma KeptSnocSkip(items: seq<Item>, keep: string -> bool, x: Item)
    requires x.criteria in CriteriaSet(items) || !keep(x.description)
    ensures Kept(items + [x], keep) == Kept(items, keep)
  {
    assert (items + [x])[..|items|] == items;
  }

  /** A first occurrence whose description survives is kept. */
  lemma KeptSnocKeep(items: seq<Item>, keep: string -> bool, x: Item)
    requires x.criteria !in CriteriaSet(items) && keep(x.description)
    ensures Kept(items + [x], keep) == Kept(items, keep) + [x]
  {
    assert (items + [x])[..|items|] == items;
  }

  /** The dedup-and-clean loop. */
  method DedupAndClean(results: seq<Item>) returns (cleaned: seq<Item>)
    ensures |cleaned| == |Kept(results, Survives)|
    ensures forall k :: 0 <= k < |cleaned| ==> CleanedFrom(cleaned[k], Kept(results, Survives)[k])
  {
    var seen: set<string> := {};
    cleaned := [];
    for i := 0 to |results|
      invariant Cleaning(results, i, seen, cleaned)
    {
      seen, cleaned := CleanOne(results, i, seen, cleaned);
    }
    assert results[..|results|] == results;
  }

  /** The body of the line loop. */
  method StepLine(find: string -> Option<(nat, string)>, results: seq<Item>, current: Option<Item>, raw: string, validIds: set<string>)
    returns (results': seq<Item>, current': Option<Item>)
    requires MatchesInside(find)
    ensures ParseState(results', current') == Step(find, ParseState(results, current), raw, validIds)
  {
    results', current' := results, current;
    var line := CleanLine(raw);
    if line == "" || IsNoise(line) {
      return;
    }
    var main := MainLine(line, validIds);
    if main.Some? {
      var code, remaining := main.value.0, main.value.1;
      if current.Some? {
        results' := results + [current.value];
      }
      var rest, linksAtEnd := PeelLinks(find, remaining, validIds);
      current' := Some(Item(code, rest, Reversed(linksAtEnd)));
      return;
    }
    if current.Some? {
      var item := current.value;
      if OnlyCodesFrom(line, 0) {
        var links := FindAllIds(line, 0);
        current' := Some(item.(linkedCriteria := item.linkedCriteria + Select(links, IsValid(validIds))));
      } else {
        var rest, linksAtEnd := PeelLinks(find, line, validIds);
        var description := item.description;
        if rest != "" && !(Contains(rest, "Page") && Contains(rest, "of")) {
          description := if description != "" then description + " " + rest else rest;
        }
        current' := Some(Item(item.criteria, description, item.linkedCriteria + Reversed(linksAtEnd)));
      }
    }
  }

  /** The line loop and the final append: every item opened, in order. */
  method CollectItems(find: string -> Option<(nat, string)>, lines: seq<string>, validIds: set<string>) returns (results: seq<Item>)
    requires MatchesInside(find)
    ensures results == Collected(find, lines, validIds)
  {
    results := [];
    var current: Option<Item> := None;
    for i := 0 to |lines|
      invariant ParseState(results, current) == ParseLines(find, lines[..i], validIds)
    {
      assert lines[..i + 1][..i] == lines[..i];
      results, current := StepLine(find, results, current, lines[i], validIds);
    }
    assert lines[..|lines|] == lines;
    if current.Some? {
      results := results + [current.value];
    }
  }

  /** What the cleaning keeps of valid items is valid, non-empty and clean. */
  lemma CleanedValid(results: seq<Item>, items: seq<Item>, validIds: set<string>)
    requires forall k :: 0 <= k < |results| ==> ItemValid(results[k], validIds)
    requires |items| == |Kept(results, Survives)|
    requires forall k :: 0 <= k < |items| ==> CleanedFrom(items[k], Kept(results, Survives)[k])
    ensures DistinctCodes(items)
    ensures forall k :: 0 <= k < |items| ==>
              ItemValid(items[k], validIds) && items[k].description != "" && IsCleanText(items[k].description)
  {
    KeptDistinct(results, Survives);
    forall k | 0 <= k < |items|
      ensures ItemValid(items[k], validIds) && items[k].description != "" && IsCleanText(items[k].description)
    {
      var x := Kept(results, Survives)[k];
      assert x in Kept(results, Survives);
      KeptIsFirst(results, Survives, x);
      var i :| 0 <= i < |results| && results[i] == x;
      assert ItemValid(x, validIds);
      CleanDescriptionIsClean(x.description);
      forall t | 0 <= t < |items[k].linkedCriteria| ensures items[k].linkedCriteria[t] in validIds {
        assert items[k].linkedCriteria[t] in Members(x.linkedCriteria);
      }
    }
  }

  /**
   * parse_links over the lines of the text file: the cleaned items, one per code, each
   * with a valid code, a non-empty clean description and its valid links sorted once each.
   */
  method ParseLinks(lines: seq<string>, validIds: set<string>) returns (items: seq<Item>)
    ensures |items| == |Kept(Collected(TrailingCode, lines, validIds), Survives)|
    ensures forall k :: 0 <= k < |items| ==> CleanedFrom(items[k], Kept(Collected(TrailingCode, lines, validIds), Survives)[k])
    ensures DistinctCodes(items)
    ensures forall k :: 0 <= k < |items| ==>
              ItemValid(items[k], validIds) && items[k].description != "" && IsCleanText(items[k].description)
  {
    TrailingCodeMatchesAtSpace();
    var results := CollectItems(TrailingCode, lines, validIds);
    items := DedupAndClean(results);
    ParseValid(TrailingCode, lines, validIds);
    CleanedValid(results, items, validIds);
  }
}
