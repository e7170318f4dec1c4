/**
 * scripts/generate_ems_config_from_csv.py: the rows of the standards import file are
 * filtered by their `code`, grouped SE -> section -> standard (Python `setdefault` on
 * dictionaries that keep insertion order), and then normalised: SEs by ascending id,
 * sections and standards by the integer tuple of their dotted id.
 */
module CsvConfig {
  import opened Wrappers
  import opened Strings
  import opened Seqs
  import opened EmsConfig
  import opened KeySort
  import PyCodes

  // ---------------------------------------------------------------- parse_section_title

  /** `parts.index(x)`, or None where Python raises ValueError. */
  function IndexOf(parts: seq<string>, x: string): (r: Option<nat>)
    ensures r.Some? ==> r.value < |parts| && parts[r.value] == x && x !in parts[..r.value]
    ensures r.None? ==> x !in parts
  {
    if parts == [] then None
    else if parts[0] == x then Some(0)
    else
      match IndexOf(parts[1..], x)
      case None => None
      case Some(i) =>
        assert parts[..i + 1] == [parts[0]] + parts[1..][..i];
        Some(i + 1)
  }

  /**
   * The title in one part: stripped, with everything up to its first space dropped and
   * the remainder stripped again; a part without a space is its own title; nothing when empty.
   */
  function TitleOfPart(part: string): (r: Option<string>)
    ensures r.Some? ==> r.value != [] && !IsSpace(Py, r.value[0]) && !IsSpace(Py, r.value[|r.value| - 1])
    ensures Trim(Py, part) == [] ==> r.None?
  {
    var sp := Trim(Py, part);
    if ' ' in sp then
      var i := IndexOfChar(sp, ' ');
      TextAfterSpace(sp, i);
      Some(Trim(Py, sp[i + 1..]))
    else if sp == [] then None
    else Some(sp)
  }

  /** In a string that does not end in a space, something follows any space. */
  lemma TextAfterSpace(sp: string, i: nat)
    requires i < |sp| && sp[i] == ' ' && !IsSpace(Py, sp[|sp| - 1])
    ensures i + 1 < |sp| && Trim(Py, sp[i + 1..]) != []
  {
    assert !IsSpace(Py, sp[i + 1..][|sp| - i - 2]);
  }

  /** The title in the part two after the first `seToken`, when there is one. */
  function TitleOfParts(parts: seq<string>, seToken: string): (r: Option<string>)
    ensures seToken !in parts ==> r.None?
    ensures r.Some? ==> r.value != [] && !IsSpace(Py, r.value[0]) && !IsSpace(Py, r.value[|r.value| - 1])
  {
    match IndexOf(parts, seToken)
    case None => None
    case Some(idx) =>
      if idx + 2 >= |parts| then None else TitleOfPart(parts[idx + 2])
  }

  /** `parse_section_title`: the title in the `name` column, read from its "-"-separated parts. */
  function ParseSectionTitle(name: string, seToken: string): (r: Option<string>)
    ensures name == [] || seToken !in Split(name, '-') ==> r.None?
    ensures r.Some? ==> r.value != [] && !IsSpace(Py, r.value[0]) && !IsSpace(Py, r.value[|r.value| - 1])
  {
    if name == [] then None else TitleOfParts(Split(name, '-'), seToken)
  }

  /**
   * With the name laid out as the script expects, "-"-joined parts
   * `<before...>, SE<n>, <SE name>, "<section id> <title>", <rest>`, the title comes back.
   */
  lemma ParseSectionTitleOf(before: seq<string>, seToken: string, seName: string, sectionId: string, title: string, rest: string)
    requires seToken !in before && forall k :: 0 <= k < |before| ==> '-' !in before[k]
    requires '-' !in seToken && '-' !in seName && '-' !in sectionId && '-' !in title && '-' !in rest
    requires sectionId != [] && HasNoSpace(Py, sectionId)
    requires title != [] && !IsSpace(Py, title[0]) && !IsSpace(Py, title[|title| - 1])
    ensures ParseSectionTitle(Join(before + [seToken, seName, sectionId + " " + title, rest], "-"), seToken) == Some(title)
  {
    var part := sectionId + " " + title;
    SectionPartTitle(sectionId, title);
    var parts := before + [seToken, seName, part, rest];
    DashFreeParts(before, seToken, seName, part, rest);
    NameParts(parts);
    assert parts[..|before|] == before;
    TitleFromSplit(Join(parts, "-"), seToken, parts, |before|, title);
  }

  /** The title is read from the part two after the first `seToken` of the split name. */
  lemma TitleFromSplit(name: string, seToken: string, parts: seq<string>, i: nat, title: string)
    requires name != [] && Split(name, '-') == parts
    requires i + 2 < |parts| && parts[i] == seToken && seToken !in parts[..i]
    requires TitleOfPart(parts[i + 2]) == Some(title)
    ensures ParseSectionTitle(name, seToken) == Some(title)
  {
    TitleOfPartsAt(parts, seToken, i);
  }

  /** A name joined from two or more parts without "-" is non-empty and splits back into them. */
  lemma NameParts(parts: seq<string>)
    requires |parts| >= 2 && forall k :: 0 <= k < |parts| ==> '-' !in parts[k]
    ensures Join(parts, "-") != []
    ensures Split(Join(parts, "-"), '-') == parts
  {
    SplitJoin(parts, '-');
    assert |Split(Join(parts, "-"), '-')| > 1;
  }

  /** Parts without "-" followed by four more without "-". */
  lemma DashFreeParts(before: seq<string>, p0: string, p1: string, p2: string, p3: string)
    requires forall k :: 0 <= k < |before| ==> '-' !in before[k]
    requires '-' !in p0 && '-' !in p1 && '-' !in p2 && '-' !in p3
    ensures forall k :: 0 <= k < |before + [p0, p1, p2, p3]| ==> '-' !in (before + [p0, p1, p2, p3])[k]
  {
    var parts := before + [p0, p1, p2, p3];
    assert forall k :: |before| <= k < |parts| ==> parts[k] in [p0, p1, p2, p3];
  }

  /** The title is read from the part two after the first `seToken`. */
  lemma TitleOfPartsAt(parts: seq<string>, seToken: string, i: nat)
    requires i + 2 < |parts| && parts[i] == seToken && seToken !in parts[..i]
    ensures TitleOfParts(parts, seToken) == TitleOfPart(parts[i + 2])
  {
    IndexOfIs(parts, seToken, i);
  }

  /** `parts.index(x)` is the position of the first `x`. */
  lemma IndexOfIs(parts: seq<string>, x: string, i: nat)
    requires i < |parts| && parts[i] == x && x !in parts[..i]
    ensures IndexOf(parts, x) == Some(i)
  {
  }

  /** The `"<section id> <title>"` part gives the title back, and holds no "-". */
  lemma SectionPartTitle(sectionId: string, title: string)
    requires '-' !in sectionId && '-' !in title
    requires sectionId != [] && HasNoSpace(Py, sectionId)
    requires title != [] && !IsSpace(Py, title[0]) && !IsSpace(Py, title[|title| - 1])
    ensures '-' !in sectionId + " " + title
    ensures Trim(Py, sectionId + " " + title) == sectionId + " " + title
    ensures ' ' in sectionId + " " + title
    ensures TitleOfPart(sectionId + " " + title) == Some(title)
  {
    var part := sectionId + " " + title;
    assert forall k :: 0 <= k < |part| ==> part[k] == (if k < |sectionId| then sectionId[k] else if k == |sectionId| then ' ' else title[k - |sectionId| - 1]);
    TrimmedUnchanged(Py, part);
    assert ' ' !in sectionId by {
      assert forall k :: 0 <= k < |sectionId| ==> !IsSpace(Py, sectionId[k]);
    }
    assert part[..|sectionId|] == sectionId;
    IndexOfCharUnique(part, ' ', |sectionId|);
    assert part[|sectionId| + 1..] == title;
    TrimmedUnchanged(Py, title);
  }

  // ---------------------------------------------------------------- row codes

  /** One CSV row; a missing column reads as "". */
  datatype CsvRow = CsvRow(code: string, name: string, description: string)

  /** What an accepted `code` yields: the SE id, its `SE<n>` token, the SE name and the four numbers. */
  datatype RowKey = RowKey(seId: nat, seToken: string, seName: string, a: string, b: string, c: string, d: string)

  const CodePrefix := "CLINIC-Standards-SE"

  /** All four numbers are non-empty runs of digits. */
  predicate AllDigits4(nums: seq<string>)
    requires |nums| == 4
  {
    IsAllDigits(nums[0]) && IsAllDigits(nums[1]) && IsAllDigits(nums[2]) && IsAllDigits(nums[3])
  }

  /** The leading `\d+` of `SE(\d+)` matched at the start of the token, or 0 when it does not match. */
  function SeDigits(token: string): (n: nat)
    ensures n > 0 ==> 2 + n <= |token| && token[..2] == "SE" && IsAllDigits(token[2..2 + n])
  {
    if |token| >= 2 && token[..2] == "SE" then
      var n := DigitRun(token, 2);
      var w := token[2..2 + n];
      assert forall k :: 0 <= k < n ==> w[k] == token[2 + k];
      n
    else 0
  }

  /** The `SE<n>` number of a token (`int(m.group(1))`), None when `SE(\d+)` does not match. */
  function SeNumber(token: string): (r: Option<nat>)
    ensures r.Some? <==> SeDigits(token) > 0
    ensures r.Some? ==> r.value == DigitsValue(token[2..2 + SeDigits(token)])
  {
    var n := SeDigits(token);
    if n == 0 then None else Some(DigitsValue(token[2..2 + n]))
  }

  /** The four numbers of `numeric.split(".")`, None unless there are four and all are digits. */
  function ParseNumber(numeric: string): (r: Option<seq<string>>)
    ensures r.Some? ==> Split(numeric, '.') == r.value && |r.value| == 4 && AllDigits4(r.value)
    ensures r.None? ==> |Split(numeric, '.')| != 4 || !AllDigits4(Split(numeric, '.'))
  {
    var nums := Split(numeric, '.');
    if |nums| != 4 || !AllDigits4(nums) then None else Some(nums)
  }

  /** Lines 50-63 on the "-" parts of a code: at least five, an SE token third, a number fifth. */
  function ParseParts(parts: seq<string>): (r: Option<RowKey>)
    ensures r.Some? ==> |parts| >= 5 && r.value.seToken == parts[2] && SeNumber(parts[2]) == Some(r.value.seId)
    ensures r.Some? ==> r.value.seName == Trim(Py, parts[3])
    ensures r.Some? ==> Split(Trim(Py, parts[4]), '.') == [r.value.a, r.value.b, r.value.c, r.value.d]
    ensures r.Some? ==> IsAllDigits(r.value.a) && IsAllDigits(r.value.b) && IsAllDigits(r.value.c) && IsAllDigits(r.value.d)
  {
    if |parts| < 5 then None
    else
      match SeNumber(parts[2])
      case None => None
      case Some(id) =>
        match ParseNumber(Trim(Py, parts[4]))
        case None => None
        case Some(nums) => Some(RowKey(id, parts[2], Trim(Py, parts[3]), nums[0], nums[1], nums[2], nums[3]))
  }

  /**
   * The filter and the id parts of one stripped code: it must start with
   * "CLINIC-Standards-SE", split into at least five "-" parts, carry `SE<digits>` as its
   * third part and a four-part all-digit number as its fifth.
   */
  function ParseCode(code: string): (r: Option<RowKey>)
    ensures r.Some? ==> CodePrefix <= code
  {
    if !(CodePrefix <= code) then None else ParseParts(Split(code, '-'))
  }

  /** `f"{a}.{b}"`, `f"{a}.{b}.{c}"` and `f"{a}.{b}.{c}.{d}"`. */
  function SectionId(k: RowKey): string {
    k.a + "." + k.b
  }

  function StandardId(k: RowKey): string {
    SectionId(k) + "." + k.c
  }

  function CriterionId(k: RowKey): string {
    StandardId(k) + "." + k.d
  }

  /** Each id extends the one above it, and the criterion id splits back into the four numbers. */
  lemma IdsNest(k: RowKey)
    requires IsAllDigits(k.a) && IsAllDigits(k.b) && IsAllDigits(k.c) && IsAllDigits(k.d)
    ensures SectionId(k) + "." <= StandardId(k) && StandardId(k) + "." <= CriterionId(k)
    ensures Split(CriterionId(k), '.') == [k.a, k.b, k.c, k.d]
    ensures Split(StandardId(k), '.') == [k.a, k.b, k.c]
    ensures Split(SectionId(k), '.') == [k.a, k.b]
  {
    NoDotInDigits(k.a);
    NoDotInDigits(k.b);
    NoDotInDigits(k.c);
    NoDotInDigits(k.d);
    assert SectionId(k) == k.a + ['.'] + k.b;
    assert StandardId(k) == SectionId(k) + ['.'] + k.c;
    assert CriterionId(k) == StandardId(k) + ['.'] + k.d;
    assert Split(k.a, '.') == [k.a];
    SplitAppend(k.a, k.b, '.');
    Snoc(k.a, k.b);
    SplitAppend(SectionId(k), k.c, '.');
    Snoc3(k.a, k.b, k.c);
    SplitAppend(StandardId(k), k.d, '.');
    Snoc4(k.a, k.b, k.c, k.d);
  }

  lemma Snoc<T>(a: T, b: T)
    ensures [a] + [b] == [a, b]
  {
  }

  lemma Snoc3<T>(a: T, b: T, c: T)
    ensures [a, b] + [c] == [a, b, c]
  {
  }

  lemma Snoc4<T>(a: T, b: T, c: T, d: T)
    ensures [a, b, c] + [d] == [a, b, c, d]
  {
  }

  lemma NoDotInDigits(s: string)
    requires IsAllDigits(s)
    ensures '.' !in s && HasNoSpace(Py, s)
  {
    assert forall k :: 0 <= k < |s| ==> IsDigit(s[k]);
  }

  /**
   * A code written the way the import file writes it,
   * `CLINIC-Standards-SE<n>-<SE name>-<a>.<b>.<c>.<d>`, is accepted, with its parts read back.
   */
  lemma ParseCodeOf(n: string, seName: string, a: string, b: string, c: string, d: string)
    requires IsAllDigits(n) && IsAllDigits(a) && IsAllDigits(b) && IsAllDigits(c) && IsAllDigits(d)
    requires '-' !in seName
    ensures ParseCode(Join(["CLINIC", "Standards", "SE" + n, seName, Join([a, b, c, d], ".")], "-"))
            == Some(RowKey(DigitsValue(n), "SE" + n, Trim(Py, seName), a, b, c, d))
  {
    var nums := [a, b, c, d];
    var num := Join(nums, ".");
    NumberPart(nums);
    SeToken(n);
    CodeSplit("SE" + n, seName, num);
    CodeHead(n, seName, num);
    ParsePartsOf("SE" + n, seName, num, DigitsValue(n), nums);
  }

  /** The five "-" parts of a code are read as the SE token, the SE name and the number. */
  lemma ParsePartsOf(token: string, seName: string, num: string, id: nat, nums: seq<string>)
    requires SeNumber(token) == Some(id)
    requires Trim(Py, num) == num && |nums| == 4 && Split(num, '.') == nums && AllDigits4(nums)
    ensures ParseParts(["CLINIC", "Standards", token, seName, num])
            == Some(RowKey(id, token, Trim(Py, seName), nums[0], nums[1], nums[2], nums[3]))
  {
    assert ParseNumber(num) == Some(nums);
  }

  /** Parts without "-" come back from splitting their join. */
  lemma CodeSplit(token: string, seName: string, num: string)
    requires '-' !in token && '-' !in seName && '-' !in num
    ensures Split(Join(["CLINIC", "Standards", token, seName, num], "-"), '-') == ["CLINIC", "Standards", token, seName, num]
  {
    var parts := ["CLINIC", "Standards", token, seName, num];
    assert forall k :: 0 <= k < |parts| ==> '-' !in parts[k];
    SplitJoin(parts, '-');
  }

  /** The number part `a.b.c.d` of a code: no "-", nothing to strip, and its "." parts. */
  lemma NumberPart(nums: seq<string>)
    requires |nums| == 4 && AllDigits4(nums)
    ensures '-' !in Join(nums, ".")
    ensures Trim(Py, Join(nums, ".")) == Join(nums, ".")
    ensures Split(Join(nums, "."), '.') == nums
    ensures AllDigits4(nums)
  {
    NumberChars(nums);
    forall k | 0 <= k < 4 ensures '.' !in nums[k] {
      NoDotInDigits(nums[k]);
    }
    SplitJoin(nums, '.');
  }

  /** `a.b.c.d` is made of digits and dots only. */
  lemma NumberChars(nums: seq<string>)
    requires |nums| == 4 && AllDigits4(nums)
    ensures '-' !in Join(nums, ".") && HasNoSpace(Py, Join(nums, "."))
  {
    var p := (ch: char) => ch == '.' || IsDigit(ch);
    forall k, j | 0 <= k < 4 && 0 <= j < |nums[k]| ensures p(nums[k][j]) {
      assert IsAllDigits(nums[k]);
    }
    JoinChars(nums, ".", p);
  }

  /** A code that starts "CLINIC-Standards-SE" passes the prefix test. */
  lemma CodeHead(n: string, seName: string, num: string)
    ensures CodePrefix <= Join(["CLINIC", "Standards", "SE" + n, seName, num], "-")
  {
    var parts := ["CLINIC", "Standards", "SE" + n, seName, num];
    JoinPrefix(parts, "-", 3);
    assert parts[..3] == ["CLINIC", "Standards", "SE" + n];
    HeadPrefix(n);
  }

  lemma HeadPrefix(n: string)
    ensures CodePrefix <= Join(["CLINIC", "Standards", "SE" + n], "-")
  {
    assert ["CLINIC", "Standards", "SE" + n][..2] == ["CLINIC", "Standards"];
    assert ["CLINIC", "Standards"][..1] == ["CLINIC"];
    assert Join(["CLINIC"], "-") == "CLINIC";
    assert Join(["CLINIC", "Standards"], "-") == "CLINIC" + "-" + "Standards";
    var head := Join(["CLINIC", "Standards", "SE" + n], "-");
    assert head == "CLINIC" + "-" + "Standards" + "-" + ("SE" + n);
    forall j | 0 <= j < 19 ensures head[j] == CodePrefix[j] {
    }
  }

  /** `"SE" + n` holds no "-" and its `SE(\d+)` match reads `n` back. */
  lemma SeToken(n: string)
    requires IsAllDigits(n)
    ensures '-' !in "SE" + n
    ensures SeDigits("SE" + n) == |n| && ("SE" + n)[2..] == n
    ensures SeNumber("SE" + n) == Some(DigitsValue(n))
    ensures |"SE" + n| >= 2 && ("SE" + n)[..2] == "SE"
  {
    var token := "SE" + n;
    assert forall j :: 2 <= j < |token| ==> token[j] == n[j - 2];
    assert token[..2] == "SE";
    assert token[2..] == n;
    assert token[2..2 + |n|] == n;
  }

  // ---------------------------------------------------------------- grouping

  /** A row that passed the filter: its key and its stripped `name` and `Description`. */
  datatype Accepted = Accepted(key: RowKey, name: string, desc: string)

  /** Lines 43-63: strip the three columns and filter on the code. */
  function Accept(row: CsvRow): (r: Option<Accepted>)
    ensures r.Some? <==> ParseCode(Trim(Py, row.code)).Some?
    ensures r.Some? ==> r.value.key == ParseCode(Trim(Py, row.code)).value
    ensures r.Some? ==> r.value.name == Trim(Py, row.name) && r.value.desc == Trim(Py, row.description)
  {
    match ParseCode(Trim(Py, row.code))
    case None => None
    case Some(k) => Some(Accepted(k, Trim(Py, row.name), Trim(Py, row.description)))
  }

  /** The accepted rows, in file order. */
  function AcceptedRows(rows: seq<CsvRow>): (r: seq<Accepted>)
    ensures |r| <= |rows|
  {
    if rows == [] then []
    else
      var init := AcceptedRows(rows[..|rows| - 1]);
      match Accept(rows[|rows| - 1])
      case None => init
      case Some(a) => init + [a]
  }

  /** A section while rows are still coming in: its title is None until a row yields one. */
  datatype SectionDraft = SectionDraft(sectionPiId: string, title: Option<string>, standards: seq<Standard>)

  datatype SeDraft = SeDraft(seId: nat, seName: string, sections: seq<SectionDraft>)

  /** `se_map`: SE id to SE. */
  type SeMap = map<nat, SeDraft>

  /**
   * A dictionary with string keys that keeps insertion order, as a sequence: the
   * position of the entry whose key is `k`.
   */
  function FindBy<T>(xs: seq<T>, key: T -> string, k: string): (r: Option<nat>)
    ensures r.Some? ==> r.value < |xs| && key(xs[r.value]) == k
    ensures r.Some? ==> forall j :: 0 <= j < r.value ==> key(xs[j]) != k
    ensures r.None? ==> forall j :: 0 <= j < |xs| ==> key(xs[j]) != k
  {
    if xs == [] then None
    else if key(xs[0]) == k then Some(0)
    else
      match FindBy(xs[1..], key, k)
      case None => None
      case Some(i) => Some(i + 1)
  }

  /** `d.get(k)` on such a dictionary. */
  function Lookup<T>(xs: seq<T>, key: T -> string, k: string): (r: Option<T>)
    ensures r.Some? ==> key(r.value) == k
  {
    match FindBy(xs, key, k)
    case None => None
    case Some(i) => Some(xs[i])
  }

  /** `d[k] = x`: overwrite the entry in place, or append a new one. */
  function PutAt<T>(xs: seq<T>, i: Option<nat>, x: T): (r: seq<T>)
    requires i.Some? ==> i.value < |xs|
  {
    if i.Some? then xs[i.value := x] else xs + [x]
  }

  /** Storing under `k` changes the entry for `k` and no other. */
  lemma LookupPut<T>(xs: seq<T>, key: T -> string, k: string, x: T, k': string)
    requires key(x) == k
    ensures Lookup(PutAt(xs, FindBy(xs, key, k), x), key, k') == if k' == k then Some(x) else Lookup(xs, key, k')
  {
    var i := FindBy(xs, key, k);
    var ys := PutAt(xs, i, x);
    assert forall j :: 0 <= j < |xs| ==> key(ys[j]) == key(xs[j]);
    if i.None? {
      assert key(ys[|xs|]) == k;
    }
    var f, g := FindBy(ys, key, k'), FindBy(xs, key, k');
    if k' == k {
      assert f == i || i.None?;
    } else if g.Some? {
      assert f == g;
    } else {
      assert f.None?;
    }
  }

  function SectionKey(s: SectionDraft): string {
    s.sectionPiId
  }

  function StandardKey(t: Standard): string {
    t.standardId
  }

  /** `CriterionId` with the row's description: `is_critical` False, severity 3. */
  function CriterionOf(a: Accepted): Criterion {
    NewCriterion(CriterionId(a.key), a.desc, false)
  }

  /**
   * Lines 101-123 for one row: `setdefault` the standard (statement = the description),
   * backfill an empty statement with a non-empty description, append the criterion.
   */
  function AddToStandard(std: Option<Standard>, a: Accepted): (r: Standard)
    ensures r.standardId == (if std.Some? then std.value.standardId else StandardId(a.key))
    ensures r.statement == (if std.Some? && std.value.statement != [] then std.value.statement else a.desc)
    ensures r.intentTooltip == (if std.Some? then std.value.intentTooltip else "")
    ensures r.criteria == (if std.Some? then std.value.criteria else []) + [CriterionOf(a)]
  {
    var base := if std.Some? then std.value else Standard(StandardId(a.key), a.desc, "", []);
    var filled := if base.statement == [] && a.desc != [] then base.(statement := a.desc) else base;
    filled.(criteria := filled.criteria + [CriterionOf(a)])
  }

  /** The title this row's `name` yields. */
  function TitleOf(a: Accepted): Option<string> {
    ParseSectionTitle(a.name, a.key.seToken)
  }

  /**
   * Lines 86-113 for one row: `setdefault` the section (no title), set its title if it
   * has none and the row yields one, then update the standard.
   */
  function AddToSection(sec: Option<SectionDraft>, a: Accepted): (r: SectionDraft)
    ensures r.sectionPiId == (if sec.Some? then sec.value.sectionPiId else SectionId(a.key))
    ensures r.title == (if sec.Some? && sec.value.title.Some? then sec.value.title else TitleOf(a))
  {
    var base := if sec.Some? then sec.value else SectionDraft(SectionId(a.key), None, []);
    var titled := if base.title.None? && TitleOf(a).Some? then base.(title := TitleOf(a)) else base;
    var i := FindBy(titled.standards, StandardKey, StandardId(a.key));
    var std := AddToStandard(Lookup(titled.standards, StandardKey, StandardId(a.key)), a);
    titled.(standards := PutAt(titled.standards, i, std))
  }

  /** Lines 71-98 for one row: `setdefault` the SE (this row's name), then update the section. */
  function AddToSe(se: Option<SeDraft>, a: Accepted): (r: SeDraft)
    ensures r.seId == (if se.Some? then se.value.seId else a.key.seId)
    ensures r.seName == (if se.Some? then se.value.seName else a.key.seName)
  {
    var base := if se.Some? then se.value else SeDraft(a.key.seId, a.key.seName, []);
    var i := FindBy(base.sections, SectionKey, SectionId(a.key));
    var sec := AddToSection(Lookup(base.sections, SectionKey, SectionId(a.key)), a);
    base.(sections := PutAt(base.sections, i, sec))
  }

  function SeOf(m: SeMap, id: nat): Option<SeDraft> {
    if id in m then Some(m[id]) else None
  }

  /** One accepted row folded into `se_map`. */
  function AddRow(m: SeMap, a: Accepted): (r: SeMap)
    ensures r.Keys == m.Keys + {a.key.seId}
  {
    m[a.key.seId := AddToSe(SeOf(m, a.key.seId), a)]
  }

  /** `se_map` after the accepted rows, in order. */
  function GroupAll(rows: seq<Accepted>): SeMap {
    if rows == [] then map[] else AddRow(GroupAll(rows[..|rows| - 1]), rows[|rows| - 1])
  }

  function SectionOf(m: SeMap, id: nat, s: string): Option<SectionDraft> {
    match SeOf(m, id)
    case None => None
    case Some(se) => Lookup(se.sections, SectionKey, s)
  }

  function StandardOf(m: SeMap, id: nat, s: string, t: string): Option<Standard> {
    match SectionOf(m, id, s)
    case None => None
    case Some(sec) => Lookup(sec.standards, StandardKey, t)
  }

  /** A row touches exactly the section `(SE id, section id)` its code names. */
  lemma AddRowSection(m: SeMap, a: Accepted, id: nat, s: string)
    ensures SectionOf(AddRow(m, a), id, s)
            == if id == a.key.seId && s == SectionId(a.key) then Some(AddToSection(SectionOf(m, id, s), a))
               else SectionOf(m, id, s)
  {
    if id == a.key.seId {
      var se := SeOf(m, id);
      var base := if se.Some? then se.value else SeDraft(a.key.seId, a.key.seName, []);
      var sec := AddToSection(Lookup(base.sections, SectionKey, SectionId(a.key)), a);
      LookupPut(base.sections, SectionKey, SectionId(a.key), sec, s);
    }
  }

  /** A row touches exactly the standard its code names. */
  lemma AddRowStandard(m: SeMap, a: Accepted, id: nat, s: string, t: string)
    ensures StandardOf(AddRow(m, a), id, s, t)
            == if id == a.key.seId && s == SectionId(a.key) && t == StandardId(a.key)
               then Some(AddToStandard(StandardOf(m, id, s, t), a))
               else StandardOf(m, id, s, t)
  {
    AddRowSection(m, a, id, s);
    if id == a.key.seId && s == SectionId(a.key) {
      var sec := SectionOf(m, id, s);
      var base := if sec.Some? then sec.value else SectionDraft(SectionId(a.key), None, []);
      var titled := if base.title.None? && TitleOf(a).Some? then base.(title := TitleOf(a)) else base;
      var std := AddToStandard(Lookup(titled.standards, StandardKey, StandardId(a.key)), a);
      LookupPut(titled.standards, StandardKey, StandardId(a.key), std, t);
    }
  }

  // ---------------------------------------------------------------- what the grouping keeps

  /** The accepted rows of one SE, of one section and of one standard, in file order. */
  function SeRows(rows: seq<Accepted>, id: nat): (r: seq<Accepted>)
    ensures |r| <= |rows|
  {
    if rows == [] then []
    else
      var last := rows[|rows| - 1];
      SeRows(rows[..|rows| - 1], id) + (if last.key.seId == id then [last] else [])
  }

  function SectionRows(rows: seq<Accepted>, id: nat, s: string): (r: seq<Accepted>)
    ensures |r| <= |rows|
  {
    if rows == [] then []
    else
      var last := rows[|rows| - 1];
      SectionRows(rows[..|rows| - 1], id, s) + (if last.key.seId == id && SectionId(last.key) == s then [last] else [])
  }

  function StandardRows(rows: seq<Accepted>, id: nat, s: string, t: string): (r: seq<Accepted>)
    ensures |r| <= |rows|
  {
    if rows == [] then []
    else
      var last := rows[|rows| - 1];
      StandardRows(rows[..|rows| - 1], id, s, t)
        + (if last.key.seId == id && SectionId(last.key) == s && StandardId(last.key) == t then [last] else [])
  }

  predicate HasTitle(a: Accepted) {
    TitleOf(a).Some?
  }

  predicate HasDescription(a: Accepted) {
    a.desc != []
  }

  /** The title of the first row that yields one. */
  function FirstTitle(rows: seq<Accepted>): Option<string> {
    var titled := Select(rows, HasTitle);
    if titled == [] then None else TitleOf(titled[0])
  }

  /** The first non-empty description, or "" when there is none. */
  function FirstDescription(rows: seq<Accepted>): string {
    var described := Select(rows, HasDescription);
    if described == [] then "" else described[0].desc
  }

  lemma FirstTitleAppend(rows: seq<Accepted>, a: Accepted)
    ensures FirstTitle(rows + [a]) == if FirstTitle(rows).Some? then FirstTitle(rows) else TitleOf(a)
  {
    SelectAppend(rows, a, HasTitle);
  }

  lemma FirstDescriptionAppend(rows: seq<Accepted>, a: Accepted)
    ensures FirstDescription(rows + [a]) == if FirstDescription(rows) != [] then FirstDescription(rows) else a.desc
  {
    SelectAppend(rows, a, HasDescription);
  }

  lemma MapAppend<T, U>(xs: seq<T>, x: T, f: T -> U)
    ensures Map(xs + [x], f) == Map(xs, f) + [f(x)]
  {
    var l, r := Map(xs + [x], f), Map(xs, f) + [f(x)];
    forall k | 0 <= k < |l| ensures l[k] == r[k] {
      if k < |xs| {
        assert (xs + [x])[k] == xs[k];
      }
    }
  }

  /**
   * An SE exists exactly when some accepted row names it, under its own id, with the
   * SE name of the first such row (later names are ignored).
   */
  lemma {:induction false} GroupSe(rows: seq<Accepted>, id: nat)
    ensures id in GroupAll(rows) <==> SeRows(rows, id) != []
    ensures id in GroupAll(rows) ==> GroupAll(rows)[id].seId == id && GroupAll(rows)[id].seName == SeRows(rows, id)[0].key.seName
  {
    if rows != [] {
      var init, a := rows[..|rows| - 1], rows[|rows| - 1];
      GroupSe(init, id);
      var before := SeRows(init, id);
      if a.key.seId == id && before != [] {
        assert (before + [a])[0] == before[0];
      }
    }
  }

  /**
   * A section exists exactly when some accepted row of its SE names it; its title is the
   * first title a row of it yields, None while no row has yielded one.
   */
  lemma {:induction false} GroupSection(rows: seq<Accepted>, id: nat, s: string)
    ensures SectionOf(GroupAll(rows), id, s).Some? <==> SectionRows(rows, id, s) != []
    ensures SectionOf(GroupAll(rows), id, s).Some? ==> SectionOf(GroupAll(rows), id, s).value.title == FirstTitle(SectionRows(rows, id, s))
  {
    if rows != [] {
      var init, a := rows[..|rows| - 1], rows[|rows| - 1];
      GroupSection(init, id, s);
      var m0 := GroupAll(init);
      assert GroupAll(rows) == AddRow(m0, a);
      AddRowSection(m0, a, id, s);
      var before := SectionRows(init, id, s);
      if a.key.seId == id && SectionId(a.key) == s {
        assert SectionRows(rows, id, s) == before + [a];
        var prev := SectionOf(m0, id, s);
        var next := AddToSection(prev, a);
        assert SectionOf(GroupAll(rows), id, s) == Some(next);
        FirstTitleAppend(before, a);
        if before == [] {
          assert FirstTitle(before) == None;
        }
        assert next.title == FirstTitle(before + [a]);
      } else {
        assert SectionRows(rows, id, s) == before;
        assert SectionOf(GroupAll(rows), id, s) == SectionOf(m0, id, s);
      }
    }
  }

  /**
   * A standard exists exactly when some accepted row names it; its statement is the
   * first non-empty description among its rows ("" if none), its intent is "", and it
   * holds one criterion per row, in file order.
   */
  lemma {:induction false} GroupStandard(rows: seq<Accepted>, id: nat, s: string, t: string)
    ensures StandardOf(GroupAll(rows), id, s, t).Some? <==> StandardRows(rows, id, s, t) != []
    ensures StandardOf(GroupAll(rows), id, s, t).Some? ==>
              var std := StandardOf(GroupAll(rows), id, s, t).value;
              std.statement == FirstDescription(StandardRows(rows, id, s, t)) && std.intentTooltip == "" &&
              std.criteria == Map(StandardRows(rows, id, s, t), CriterionOf)
  {
    if rows != [] {
      var init, a := rows[..|rows| - 1], rows[|rows| - 1];
      GroupStandard(init, id, s, t);
      var m0 := GroupAll(init);
      assert GroupAll(rows) == AddRow(m0, a);
      AddRowStandard(m0, a, id, s, t);
      var before := StandardRows(init, id, s, t);
      if a.key.seId == id && SectionId(a.key) == s && StandardId(a.key) == t {
        assert StandardRows(rows, id, s, t) == before + [a];
        var prev := StandardOf(m0, id, s, t);
        var next := AddToStandard(prev, a);
        assert StandardOf(GroupAll(rows), id, s, t) == Some(next);
        FirstDescriptionAppend(before, a);
        MapAppend(before, a, CriterionOf);
        if before == [] {
          assert FirstDescription(before) == "";
        }
        assert next.statement == FirstDescription(before + [a]);
        assert next.criteria == Map(before + [a], CriterionOf);
      } else {
        assert StandardRows(rows, id, s, t) == before;
        assert StandardOf(GroupAll(rows), id, s, t) == StandardOf(m0, id, s, t);
      }
    }
  }

  // ---------------------------------------------------------------- normalisation

  /** `tuple(int(p) for p in x.split("."))` for a section and a standard id. */
  function SectionOrder(sec: SectionDraft): seq<int> {
    PyCodes.SegmentValues(sec.sectionPiId)
  }

  function StandardOrder(std: Standard): seq<int> {
    PyCodes.SegmentValues(std.standardId)
  }

  function SectionIdOrder(sec: Section): seq<int> {
    PyCodes.SegmentValues(sec.sectionPiId)
  }

  /** Lines 133-143: standards in numeric order, a title never set becomes "". */
  function FinishSection(sec: SectionDraft): (r: Section)
    ensures r.sectionPiId == sec.sectionPiId
    ensures sec.title.None? ==> r.title == ""
    ensures sec.title.Some? ==> r.title == sec.title.value
    ensures multiset(r.standards) == multiset(sec.standards)
    ensures SortedBy(r.standards, StandardOrder)
  {
    SortBySorted(sec.standards, StandardOrder);
    Section(sec.sectionPiId, sec.title.GetOr(""), SortBy(sec.standards, StandardOrder))
  }

  /** Lines 129-151: one SE of the output, its sections in numeric order. */
  function FinishSe(se: SeDraft): (r: Se)
    ensures r.seId == se.seId && r.seName == se.seName
    ensures |r.sections| == |se.sections|
    ensures SortedBy(r.sections, SectionIdOrder)
  {
    var sorted := SortBy(se.sections, SectionOrder);
    SortBySorted(se.sections, SectionOrder);
    var out := Map(sorted, FinishSection);
    assert forall k :: 0 <= k < |out| ==> SectionIdOrder(out[k]) == SectionOrder(sorted[k]);
    Se(se.seId, se.seName, out)
  }

  /** The finished sections are the finished drafts, each once: sorting only reorders them. */
  lemma FinishSeSections(se: SeDraft)
    ensures multiset(FinishSe(se).sections) == multiset(Map(se.sections, FinishSection))
  {
    var sorted := SortBy(se.sections, SectionOrder);
    MapPermutation(sorted, se.sections, FinishSection);
  }

  /** Mapping a permutation gives a permutation of the mapped sequence. */
  lemma {:induction false} MapPermutation<T, U>(xs: seq<T>, ys: seq<T>, f: T -> U)
    requires multiset(xs) == multiset(ys)
    ensures multiset(Map(xs, f)) == multiset(Map(ys, f))
    decreases |xs|
  {
    if xs != [] {
      var x := xs[0];
      assert x in multiset(ys);
      var j :| 0 <= j < |ys| && ys[j] == x;
      var rest := ys[..j] + ys[j + 1..];
      RemoveAt(xs, ys, j);
      MapPermutation(xs[1..], rest, f);
      MapRemoveAt(ys, j, f);
      MapConcat([x], xs[1..], f);
      assert Map([x], f) == [f(x)];
      assert Map(xs, f) == [f(x)] + Map(xs[1..], f) by {
        assert xs == [x] + xs[1..];
      }
    }
  }

  lemma RemoveAt<T>(xs: seq<T>, ys: seq<T>, j: nat)
    requires xs != [] && j < |ys| && ys[j] == xs[0] && multiset(xs) == multiset(ys)
    ensures multiset(xs[1..]) == multiset(ys[..j] + ys[j + 1..])
  {
    var x := xs[0];
    assert ys == ys[..j] + [x] + ys[j + 1..];
    assert xs == [x] + xs[1..];
    calc {
      multiset(xs[1..]);
      multiset(xs) - multiset{x};
      multiset(ys) - multiset{x};
      multiset(ys[..j] + [x] + ys[j + 1..]) - multiset{x};
      multiset(ys[..j]) + multiset(ys[j + 1..]);
    }
  }

  lemma MapRemoveAt<T, U>(ys: seq<T>, j: nat, f: T -> U)
    requires j < |ys|
    ensures multiset(Map(ys, f)) == multiset{f(ys[j])} + multiset(Map(ys[..j] + ys[j + 1..], f))
  {
    var pre, x, post := ys[..j], ys[j], ys[j + 1..];
    assert ys == pre + [x] + post;
    var fx, fpre, fpost := Map([x], f), Map(pre, f), Map(post, f);
    assert fx == [f(x)];
    MapConcat(pre, [x], f);
    MapConcat(pre + [x], post, f);
    assert Map(ys, f) == fpre + fx + fpost;
    MapConcat(pre, post, f);
    assert Map(pre + post, f) == fpre + fpost;
  }

  lemma MapConcat<T, U>(xs: seq<T>, ys: seq<T>, f: T -> U)
    ensures Map(xs + ys, f) == Map(xs, f) + Map(ys, f)
  {
    var l, r := Map(xs + ys, f), Map(xs, f) + Map(ys, f);
    forall k | 0 <= k < |l| ensures l[k] == r[k] {
      if k < |xs| {
        assert (xs + ys)[k] == xs[k];
      } else {
        assert (xs + ys)[k] == ys[k - |xs|];
      }
    }
  }

  /** The SE ids of a configuration, in order. */
  function SeIds(config: Config): (ids: seq<int>)
    ensures |ids| == |config|
    ensures forall k :: 0 <= k < |config| ==> ids[k] == config[k].seId
  {
    seq(|config|, k requires 0 <= k < |config| => config[k].seId)
  }

  lemma AcceptedRowsSnoc(rows: seq<CsvRow>, i: nat)
    requires i < |rows|
    ensures AcceptedRows(rows[..i + 1]) == AcceptedRows(rows[..i]) + (if Accept(rows[i]).Some? then [Accept(rows[i]).value] else [])
  {
    assert rows[..i + 1][..i] == rows[..i];
  }

  lemma GroupAllSnoc(prefix: seq<Accepted>, a: Accepted)
    ensures GroupAll(prefix + [a]) == AddRow(GroupAll(prefix), a)
  {
    assert (prefix + [a])[..|prefix|] == prefix;
  }

  /** Lines 42-123: fold every row into `se_map`. */
  method GroupRows(rows: seq<CsvRow>) returns (seMap: SeMap)
    ensures seMap == GroupAll(AcceptedRows(rows))
  {
    seMap := map[];
    for i := 0 to |rows|
      invariant seMap == GroupAll(AcceptedRows(rows[..i]))
    {
      AcceptedRowsSnoc(rows, i);
      ghost var prefix := AcceptedRows(rows[..i]);
      var accepted := Accept(rows[i]);
      if accepted.Some? {
        GroupAllSnoc(prefix, accepted.value);
        assert AcceptedRows(rows[..i + 1]) == prefix + [accepted.value];
        seMap := AddRow(seMap, accepted.value);
      } else {
        assert AcceptedRows(rows[..i + 1]) == prefix;
      }
    }
    assert rows[..|rows|] == rows;
  }

  /** Lines 126-151: the SEs by ascending id, each finished. */
  method Normalise(seMap: SeMap) returns (config: Config)
    requires forall id :: id in seMap ==> seMap[id].seId == id
    ensures StrictlyAscending(SeIds(config))
    ensures forall id: int :: id in SeIds(config) <==> id >= 0 && id in seMap
    ensures forall k :: 0 <= k < |config| ==> config[k].seId in seMap && config[k] == FinishSe(seMap[config[k].seId])
  {
    var keys := set id | id in seMap :: id as int;
    var ids := SortInts(keys);
    config := [];
    for i := 0 to |ids|
      invariant |config| == i
      invariant forall k :: 0 <= k < i ==> ids[k] >= 0 && ids[k] in seMap && config[k] == FinishSe(seMap[ids[k]])
    {
      assert ids[i] in ids;
      config := config + [FinishSe(seMap[ids[i]])];
    }
    assert SeIds(config) == ids;
  }

  /**
   * build_config_from_csv: the SEs of the accepted rows by ascending id, each the
   * finished form of what the grouping collected for it.
   */
  method BuildConfigFromCsv(rows: seq<CsvRow>) returns (config: Config)
    ensures StrictlyAscending(SeIds(config))
    ensures forall id: nat :: id in SeIds(config) <==> SeRows(AcceptedRows(rows), id) != []
    ensures forall k :: 0 <= k < |config| ==>
              var m := GroupAll(AcceptedRows(rows));
              config[k].seId in m && config[k] == FinishSe(m[config[k].seId])
  {
    var seMap := GroupRows(rows);
    forall id | id in seMap
      ensures seMap[id].seId == id
    {
      GroupSe(AcceptedRows(rows), id);
    }
    config := Normalise(seMap);
    forall id: nat
      ensures id in SeIds(config) <==> SeRows(AcceptedRows(rows), id) != []
    {
      GroupSe(AcceptedRows(rows), id);
    }
  }
}
