/**
 * patch_config.cjs: reads the severity (a digit), its wording on the next line and the
 * critical mark of every criterion block in the extracted text, then patches
 * `severity`, `default` ("NC or PC = <digit> <wording>"), `severity_text` (removed) and
 * `is_critical` of every matching criterion of the configuration.
 */
module PatchCjs {
  import opened Wrappers
  import opened Strings
  import opened EmsConfig
  import opened BlockText
  import opened Extraction
  import opened PatchLoop

  // ---------------------------------------------------------------- the severity pattern

  /** The alternatives of `(Very Serious|Minor|Moderate|Serious|Extreme)`, in the order they are tried. */
  const SeverityWords: seq<string> := ["Very Serious", "Minor", "Moderate", "Serious", "Extreme"]

  /** The first alternative that matches at `w` ignoring case (alternation tries them in order). */
  function WordAt(s: string, w: nat): (r: Option<nat>)
    ensures r.Some? ==> r.value < |SeverityWords| && OccursAtIgnoreCase(s, SeverityWords[r.value], w)
    ensures r.Some? ==> forall a :: 0 <= a < r.value ==> !OccursAtIgnoreCase(s, SeverityWords[a], w)
    ensures r.None? ==> forall a :: 0 <= a < |SeverityWords| ==> !OccursAtIgnoreCase(s, SeverityWords[a], w)
  {
    var hit := (a: nat) => a < |SeverityWords| && OccursAtIgnoreCase(s, SeverityWords[a], w);
    var r := Leftmost(hit, 0, |SeverityWords|);
    assert r.Some? ==> forall a :: 0 <= a < r.value ==> !OccursAtIgnoreCase(s, SeverityWords[a], w) by {
      if r.Some? {
        forall a | 0 <= a < r.value ensures !OccursAtIgnoreCase(s, SeverityWords[a], w) {
          assert !hit(a);
        }
      }
    }
    assert r.None? ==> forall a :: 0 <= a < |SeverityWords| ==> !OccursAtIgnoreCase(s, SeverityWords[a], w) by {
      if r.None? {
        forall a | 0 <= a < |SeverityWords| ensures !OccursAtIgnoreCase(s, SeverityWords[a], w) {
          assert !hit(a);
        }
      }
    }
    r
  }

  /**
   * `\s*(\d)\s*\n(Very Serious|…)` from `i`: the digit's value and the wording as it appears.
   * The greedy `\s*` before the digit cannot give anything back (a digit is not whitespace);
   * the one before the newline can only end on the run's last character, since the wording
   * starts with a letter.
   */
  function DigitThenWord(s: string, i: nat): (r: Option<(nat, string)>)
    ensures r.Some? ==> r.value.0 < 10
  {
    if i > |s| then None
    else
      var j := i + SpaceRun(s, i);
      if j == |s| || !IsDigit(s[j]) then None
      else
        var e := j + 1 + SpaceRun(s, j + 1);
        if e == j + 1 || s[e - 1] != '\n' then None
        else
          match WordAt(s, e)
          case None => None
          case Some(a) => Some((DigitValue(s[j]), s[e..e + |SeverityWords[a]|]))
  }

  /** The part of the pattern after the `=`, as a matcher from a position of `block`. */
  function Tail(block: string): nat -> Option<(nat, string)> {
    (i: nat) => DigitThenWord(block, i)
  }

  /** `block.match(/Default Severity.*?=\s*(\d)\s*\n(Very Serious|…)/i)`: both captures. */
  function SeverityFound(block: string): (r: Option<(nat, string)>)
    ensures r.Some? ==> r.value.0 < 10
  {
    match SeverityMatch(block, true, Tail(block))
    case None => None
    case Some(f) => Some(f.value)
  }

  /** What the block puts in `severityMap`: `parseInt` of the digit. */
  function SeverityOf(block: string): (r: Option<nat>)
    ensures r.Some? <==> SeverityFound(block).Some?
    ensures r.Some? ==> r.value < 10
  {
    match SeverityFound(block)
    case None => None
    case Some(p) => Some(p.0)
  }

  /** What the block puts in `severityTextMap`: the wording, trimmed. */
  function SeverityTextOf(block: string): (r: Option<string>)
    ensures r.Some? <==> SeverityFound(block).Some?
  {
    match SeverityFound(block)
    case None => None
    case Some(p) => Some(Trim(Js, p.1))
  }

  /**
   * A block whose first "Default Severity" (in any case) is at `start`, followed on its line,
   * without an `=`, by `= <spaces><digit><spaces>` and a newline, then by one of the
   * wordings: the block yields that digit and that wording.
   */
  lemma SeverityOfLines(block: string, start: nat, mid: string, sp1: string, d: char, sp2: string, a: nat, rest: string)
    requires a < |SeverityWords|
    requires start <= |block|
    requires block[start..] == SeverityLabel + mid + "=" + (sp1 + ([d] + (sp2 + ("\n" + (SeverityWords[a] + rest)))))
    requires forall k :: 0 <= k < start ==> !LabelAt(block, k, true)
    requires forall k :: 0 <= k < |mid| ==> mid[k] != '=' && !IsLineTerminator(mid[k])
    requires forall k :: 0 <= k < |sp1| ==> IsJsSpace(sp1[k])
    requires IsDigit(d)
    requires forall k :: 0 <= k < |sp2| ==> IsJsSpace(sp2[k])
    ensures SeverityFound(block) == Some((DigitValue(d), SeverityWords[a]))
  {
    var after := sp1 + ([d] + (sp2 + ("\n" + (SeverityWords[a] + rest))));
    var q := start + 16 + |mid| + 1;
    LabelLine(block, start, mid, after, true);
    DigitThenWordOf(block, q, sp1, d, sp2, a, rest);
    assert Tail(block)(q) == DigitThenWord(block, q);
    SeverityMatchOnLine(block, true, Tail(block), start, mid, after);
  }

  /** The tail of the pattern, on text that has the digit, the newline and a wording where it expects them. */
  lemma DigitThenWordOf(s: string, q: nat, sp1: string, d: char, sp2: string, a: nat, rest: string)
    requires a < |SeverityWords|
    requires q <= |s| && s[q..] == sp1 + ([d] + (sp2 + ("\n" + (SeverityWords[a] + rest))))
    requires forall k :: 0 <= k < |sp1| ==> IsJsSpace(sp1[k])
    requires IsDigit(d)
    requires forall k :: 0 <= k < |sp2| ==> IsJsSpace(sp2[k])
    ensures DigitThenWord(s, q) == Some((DigitValue(d), SeverityWords[a]))
  {
    var word := SeverityWords[a];
    TailLayout(s, q, sp1, d, sp2, word, rest);
    DigitThenWordAt(s, q, q + |sp1|, q + |sp1| + 1 + |sp2| + 1, a);
  }

  /** Where the digit, the newline and the wording sit once the text is laid out as the pattern expects. */
  lemma TailLayout(s: string, q: nat, sp1: string, d: char, sp2: string, word: string, rest: string)
    requires q <= |s| && s[q..] == sp1 + ([d] + (sp2 + ("\n" + (word + rest))))
    requires forall k :: 0 <= k < |sp1| ==> IsJsSpace(sp1[k])
    requires forall k :: 0 <= k < |sp2| ==> IsJsSpace(sp2[k])
    ensures var j := q + |sp1|; var e := j + 1 + |sp2| + 1;
            && j < |s| && s[j] == d && (forall k :: q <= k < j ==> IsJsSpace(s[k]))
            && e <= |s| && s[e - 1] == '\n' && (forall k :: j + 1 <= k < e ==> IsJsSpace(s[k]))
            && e + |word| <= |s| && s[e..e + |word|] == word
  {
    var j := q + |sp1|;
    SpacesThenHead(s, q, sp1, d, sp2 + ("\n" + (word + rest)));
    SpacesThenHead(s, j + 1, sp2, '\n', word + rest);
    WordThen(s, j + 1 + |sp2| + 1, word, rest);
  }

  /** Whitespace `sp` laid out from `q`, then the character `c`, then `rest`. */
  lemma SpacesThenHead(s: string, q: nat, sp: string, c: char, rest: string)
    requires q <= |s| && s[q..] == sp + ([c] + rest)
    requires forall k :: 0 <= k < |sp| ==> IsJsSpace(sp[k])
    ensures q + |sp| < |s| && s[q + |sp|] == c && s[q + |sp| + 1..] == rest
    ensures forall k :: q <= k < q + |sp| ==> IsJsSpace(s[k])
  {
    SpacesThen(s, q, sp, [c] + rest);
    HeadThen(s, q + |sp|, c, rest);
  }

  /** The same, by positions: spaces from `q`, the digit at `j`, spaces ending in a newline, the wording at `e`. */
  lemma DigitThenWordAt(s: string, q: nat, j: nat, e: nat, a: nat)
    requires q <= j < |s| && IsDigit(s[j]) && forall k :: q <= k < j ==> IsJsSpace(s[k])
    requires j + 1 < e <= |s| && s[e - 1] == '\n' && forall k :: j + 1 <= k < e ==> IsJsSpace(s[k])
    requires a < |SeverityWords| && e + |SeverityWords[a]| <= |s|
    requires s[e..e + |SeverityWords[a]|] == SeverityWords[a]
    ensures DigitThenWord(s, q) == Some((DigitValue(s[j]), SeverityWords[a]))
  {
    var word := SeverityWords[a];
    SpaceRunOf(s, q, j - q);
    WordStartsWithLetter(a);
    assert s[e] == word[0];
    SpaceRunOf(s, j + 1, e - j - 1);
    WordFirst(s, e, a);
    assert q + SpaceRun(s, q) == j && j + 1 + SpaceRun(s, j + 1) == e;
  }

  /** Every wording starts with a letter, which is not whitespace. */
  lemma WordStartsWithLetter(a: nat)
    requires a < |SeverityWords|
    ensures |SeverityWords[a]| > 0 && !IsJsSpace(SeverityWords[a][0])
  {
  }

  /** The wordings differ in their first two letters, so the one written is the one taken. */
  lemma WordFirst(s: string, w: nat, a: nat)
    requires a < |SeverityWords| && w + |SeverityWords[a]| <= |s| && s[w..w + |SeverityWords[a]|] == SeverityWords[a]
    ensures WordAt(s, w) == Some(a)
  {
    assert s[w] == SeverityWords[a][0] && s[w + 1] == SeverityWords[a][1];
    forall b | 0 <= b < a ensures !OccursAtIgnoreCase(s, SeverityWords[b], w) {
      assert LowerChar(s[w]) != LowerChar(SeverityWords[b][0]) || LowerChar(s[w + 1]) != LowerChar(SeverityWords[b][1]);
    }
    assert OccursAtIgnoreCase(s, SeverityWords[a], w) by {
      assert EqualsIgnoreCase(SeverityWords[a], SeverityWords[a]);
    }
    LeftmostIs((b: nat) => b < |SeverityWords| && OccursAtIgnoreCase(s, SeverityWords[b], w), 0, |SeverityWords|, a);
  }

  // ---------------------------------------------------------------- extraction

  /** The three maps the extraction pass fills. */
  datatype Extracted = Extracted(severity: map<string, nat>, severityText: map<string, string>, critical: map<string, bool>)

  /** The maps after every block of every `.txt` file, in listing order. */
  function ExtractedFrom(files: seq<TextFile>): (x: Extracted)
    ensures x.severity.Keys == x.severityText.Keys
  {
    var blocks := FilesBlocks(files);
    SameKeys(SeverityOf, SeverityTextOf, map[], map[], blocks);
    Extracted(MapFold(SeverityOf, map[], blocks), MapFold(SeverityTextOf, map[], blocks), MapFold(CriticalFlag, map[], blocks))
  }

  /** A block with a code and a severity match sets both severity entries; any other leaves them. */
  lemma PutSeverity(block: string, severityMap: map<string, nat>, severityTextMap: map<string, string>)
    ensures var found := BlockCode(block).Some? && SeverityFound(block).Some?;
            && Put(SeverityOf, severityMap, block)
               == (if found then severityMap[BlockCode(block).value := SeverityFound(block).value.0] else severityMap)
            && Put(SeverityTextOf, severityTextMap, block)
               == (if found then severityTextMap[BlockCode(block).value := Trim(Js, SeverityFound(block).value.1)] else severityTextMap)
  {
  }

  /** The body of the inner loop: one block's code, mark and severity go into the maps. */
  method ReadBlock(block: string, severityMap: map<string, nat>, severityTextMap: map<string, string>, criticalMap: map<string, bool>)
      returns (severityMap': map<string, nat>, severityTextMap': map<string, string>, criticalMap': map<string, bool>)
    ensures severityMap' == Put(SeverityOf, severityMap, block)
    ensures severityTextMap' == Put(SeverityTextOf, severityTextMap, block)
    ensures criticalMap' == Put(CriticalFlag, criticalMap, block)
  {
    severityMap', severityTextMap', criticalMap' := severityMap, severityTextMap, criticalMap;
    PutSeverity(block, severityMap, severityTextMap);
    var idMatch := BlockCode(block);
    if idMatch.None? {
      return;
    }
    var criterionId := idMatch.value;
    var isCriticalMatch := CriticalFlag(block);
    if isCriticalMatch.Some? {
      criticalMap' := criticalMap[criterionId := isCriticalMatch.value];
    }
    var severityMatch := SeverityFound(block);
    if severityMatch.Some? {
      severityMap' := severityMap[criterionId := severityMatch.value.0];
      severityTextMap' := severityTextMap[criterionId := Trim(Js, severityMatch.value.1)];
    }
  }

  /** The extraction loop: every `.txt` file, every block with a code. */
  method Extract(files: seq<TextFile>) returns (severityMap: map<string, nat>, severityTextMap: map<string, string>, criticalMap: map<string, bool>)
    ensures Extracted(severityMap, severityTextMap, criticalMap) == ExtractedFrom(files)
  {
    severityMap, severityTextMap, criticalMap := map[], map[], map[];
    for i := 0 to |files|
      invariant severityMap == MapFold(SeverityOf, map[], FilesBlocks(files[..i]))
      invariant severityTextMap == MapFold(SeverityTextOf, map[], FilesBlocks(files[..i]))
      invariant criticalMap == MapFold(CriticalFlag, map[], FilesBlocks(files[..i]))
    {
      FilesBlocksSnoc(files, i);
      var file := files[i];
      ghost var done := FilesBlocks(files[..i]);
      if IsTextFile(file) {
        var blocks := SplitBlocks(file.content);
        assert done + blocks[..0] == done;
        for j := 0 to |blocks|
          invariant severityMap == MapFold(SeverityOf, map[], done + blocks[..j])
          invariant severityTextMap == MapFold(SeverityTextOf, map[], done + blocks[..j])
          invariant criticalMap == MapFold(CriticalFlag, map[], done + blocks[..j])
        {
          FoldSnoc(SeverityOf, map[], done, blocks, j);
          FoldSnoc(SeverityTextOf, map[], done, blocks, j);
          FoldSnoc(CriticalFlag, map[], done, blocks, j);
          severityMap, severityTextMap, criticalMap := ReadBlock(blocks[j], severityMap, severityTextMap, criticalMap);
        }
        assert done + blocks[..|blocks|] == FilesBlocks(files[..i + 1]);
      } else {
        assert FilesBlocks(files[..i + 1]) == done;
      }
    }
    assert files[..|files|] == files;
  }

  // ---------------------------------------------------------------- patching

  /** The `default` text: "NC or PC = <severity> <wording>". */
  function DefaultText(severity: nat, text: string): string {
    "NC or PC = " + DecimalText(severity) + " " + text
  }

  /**
   * The body of the patch loop for one criterion with an id: a mapped severity replaces
   * the old one; a mapped severity with its wording sets `default` and drops
   * `severity_text`; a mapped mark sets `is_critical`. `updated` says the criterion changed.
   */
  function Patch(x: Extracted, c: Criterion): (r: (Criterion, bool))
    ensures r.0.id == c.id && r.0.description == c.description && r.0.category == c.category
    ensures c.id in x.severity ==> r.0.severity == Some(x.severity[c.id])
    ensures c.id !in x.severity ==> r.0.severity == c.severity
    ensures c.id in x.severity && c.id in x.severityText ==>
              r.0.default == Some(DefaultText(x.severity[c.id], x.severityText[c.id])) && r.0.severityText.None?
    ensures !(c.id in x.severity && c.id in x.severityText) ==> r.0.default == c.default && r.0.severityText == c.severityText
    ensures c.id in x.critical ==> r.0.isCritical == Some(x.critical[c.id])
    ensures c.id !in x.critical ==> r.0.isCritical == c.isCritical
    ensures r.1 <==> r.0 != c
  {
    var id := c.id;
    var (c1, u1) :=
      if id in x.severity && c.severity != Some(x.severity[id]) then (c.(severity := Some(x.severity[id])), true)
      else (c, false);
    var (c2, u2) :=
      if id in x.severity && id in x.severityText then
        var text := DefaultText(x.severity[id], x.severityText[id]);
        var (ca, ua) := if c1.default != Some(text) then (c1.(default := Some(text)), true) else (c1, false);
        if ca.severityText.Some? then (ca.(severityText := None), true) else (ca, ua)
      else (c1, false);
    var (c3, u3) :=
      if id in x.critical && c2.isCritical != Some(x.critical[id]) then (c2.(isCritical := Some(x.critical[id])), true)
      else (c2, false);
    (c3, u1 || u2 || u3)
  }

  function PatchStep(x: Extracted): Step {
    c => Patch(x, c)
  }

  function HasSeverity(x: Extracted): string -> bool {
    id => id in x.severity
  }

  /** A patched criterion is patched into itself, without counting as updated. */
  lemma PatchSettled(x: Extracted)
    ensures Settled(PatchStep(x))
  {
    forall c: Criterion | c.id != ""
      ensures PatchStep(x)(c).0.id == c.id && PatchStep(x)(PatchStep(x)(c).0) == (PatchStep(x)(c).0, false)
    {
      PatchIdempotent(x, c);
    }
  }

  /** Patching a patched criterion again changes nothing. */
  lemma PatchIdempotent(x: Extracted, c: Criterion)
    ensures Patch(x, Patch(x, c).0) == (Patch(x, c).0, false)
  {
    var p := Patch(x, c).0;
    var q := Patch(x, p).0;
    assert q.severity == p.severity && q.default == p.default && q.severityText == p.severityText && q.isCritical == p.isCritical;
    assert q == p;
  }

  /** A missing criterion is one left exactly as it was while the text gave it no severity. */
  lemma MissingIsUntouched(x: Extracted, c: Criterion)
    ensures Missing(PatchStep(x), HasSeverity(x), c) <==> c.id != "" && PatchOne(PatchStep(x), c) == c && c.id !in x.severity
  {
    var r := Patch(x, c);
    assert PatchStep(x)(c) == r;
  }

  /**
   * The script: extraction, then the patch pass. The configuration comes back patched with
   * what the text says, the counters count the changed and the missing criteria.
   */
  method PatchScript(files: seq<TextFile>, config: Config) returns (patched: Config, updateCount: nat, missingCount: nat)
    ensures patched == PatchConfig(PatchStep(ExtractedFrom(files)), config)
    ensures updateCount == UpdatedCount(PatchStep(ExtractedFrom(files)), Flat(config))
    ensures missingCount == MissingCount(PatchStep(ExtractedFrom(files)), HasSeverity(ExtractedFrom(files)), Flat(config))
  {
    var severityMap, severityTextMap, criticalMap := Extract(files);
    var x := Extracted(severityMap, severityTextMap, criticalMap);
    patched, updateCount, missingCount := PatchPass(PatchStep(x), HasSeverity(x), config);
  }

  /** Running the script a second time on the same text changes nothing and updates nothing. */
  lemma PatchScriptTwice(files: seq<TextFile>, config: Config)
    ensures var step := PatchStep(ExtractedFrom(files));
            PatchConfig(step, PatchConfig(step, config)) == PatchConfig(step, config) &&
            UpdatedCount(step, Flat(PatchConfig(step, config))) == 0
  {
    var x := ExtractedFrom(files);
    PatchSettled(x);
    PatchPassTwice(PatchStep(x), HasSeverity(x), config);
  }
}
