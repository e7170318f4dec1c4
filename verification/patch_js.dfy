/**
 * patch_config.js: the earlier patch script. It reads only the severity digit and the
 * critical mark of every criterion block (the label "Default Severity" in this exact
 * case, no wording), and patches `severity` and `is_critical`.
 */
module PatchJs {
  import opened Wrappers
  import opened Strings
  import opened EmsConfig
  import opened BlockText
  import opened Extraction
  import opened PatchLoop

  /** `\s*(\d)` from `i`: the greedy `\s*` cannot give anything back before a digit. */
  function DigitAfterSpaces(s: string, i: nat): (r: Option<nat>)
    ensures r.Some? <==> i <= |s| && i + SpaceRun(s, i) < |s| && IsDigit(s[i + SpaceRun(s, i)])
    ensures r.Some? ==> r.value == DigitValue(s[i + SpaceRun(s, i)])
  {
    if i > |s| then None
    else
      var j := i + SpaceRun(s, i);
      if j < |s| && IsDigit(s[j]) then Some(DigitValue(s[j])) else None
  }

  function Tail(block: string): nat -> Option<nat> {
    (i: nat) => DigitAfterSpaces(block, i)
  }

  /** `block.match(/Default Severity.*?=\s*(\d)/)` and `parseInt` of the digit. */
  function SeverityOf(block: string): (r: Option<nat>)
    ensures r.Some? ==> r.value < 10
    ensures r.None? ==> forall k :: 0 <= k < |block| ==> !MatchAt(block, false, Tail(block), k)
  {
    match SeverityMatch(block, false, Tail(block))
    case None => None
    case Some(f) => Some(f.value)
  }

  /**
   * A block whose first "Default Severity" is at `start`, followed on its line, without an
   * `=`, by `=`, spaces and a digit: the block yields that digit, whatever follows it.
   */
  lemma SeverityOfLine(block: string, start: nat, mid: string, sp: string, d: char, rest: string)
    requires start <= |block| && block[start..] == SeverityLabel + mid + "=" + (sp + [d] + rest)
    requires forall k :: 0 <= k < start ==> !LabelAt(block, k, false)
    requires forall k :: 0 <= k < |mid| ==> mid[k] != '=' && !IsLineTerminator(mid[k])
    requires forall k :: 0 <= k < |sp| ==> IsJsSpace(sp[k])
    requires IsDigit(d)
    ensures SeverityOf(block) == Some(DigitValue(d))
  {
    var q := start + 16 + |mid| + 1;
    LabelLine(block, start, mid, sp + [d] + rest, false);
    SpacesDigitAt(block, q, sp, d, rest);
    SeverityMatchOnLine(block, false, Tail(block), start, mid, sp + [d] + rest);
  }

  /** Spaces `sp`, then the digit `d`, laid out from `q`: the tail reads `d`. */
  lemma SpacesDigitAt(s: string, q: nat, sp: string, d: char, rest: string)
    requires q <= |s| && s[q..] == sp + [d] + rest
    requires forall k :: 0 <= k < |sp| ==> IsJsSpace(sp[k])
    requires IsDigit(d)
    ensures Tail(s)(q) == Some(DigitValue(d))
  {
    assert sp + [d] + rest == sp + ([d] + rest);
    SpacesThen(s, q, sp, [d] + rest);
    HeadThen(s, q + |sp|, d, rest);
    DigitAfterSpacesAt(s, q, |sp|);
  }

  /** Spaces from `q` up to a digit: the tail reads that digit. */
  lemma DigitAfterSpacesAt(s: string, q: nat, n: nat)
    requires q + n < |s| && IsDigit(s[q + n])
    requires forall k :: q <= k < q + n ==> IsJsSpace(s[k])
    ensures Tail(s)(q) == Some(DigitValue(s[q + n]))
  {
    SpaceRunOf(s, q, n);
  }

  // ---------------------------------------------------------------- extraction

  /** The two maps the extraction pass fills. */
  datatype Extracted = Extracted(severity: map<string, nat>, critical: map<string, bool>)

  /** The maps after every block of every `.txt` file, in listing order. */
  function ExtractedFrom(files: seq<TextFile>): Extracted {
    var blocks := FilesBlocks(files);
    Extracted(MapFold(SeverityOf, map[], blocks), MapFold(CriticalFlag, map[], blocks))
  }

  /** The body of the inner loop: one block's code, mark and severity go into the maps. */
  method ReadBlock(block: string, severityMap: map<string, nat>, criticalMap: map<string, bool>)
      returns (severityMap': map<string, nat>, criticalMap': map<string, bool>)
    ensures severityMap' == Put(SeverityOf, severityMap, block)
    ensures criticalMap' == Put(CriticalFlag, criticalMap, block)
  {
    severityMap', criticalMap' := severityMap, criticalMap;
    var idMatch := BlockCode(block);
    if idMatch.None? {
      return;
    }
    var criterionId := idMatch.value;
    var isCriticalMatch := CriticalFlag(block);
    if isCriticalMatch.Some? {
      criticalMap' := criticalMap[criterionId := isCriticalMatch.value];
    }
    var severityMatch := SeverityOf(block);
    if severityMatch.Some? {
      severityMap' := severityMap[criterionId := severityMatch.value];
    }
  }

  /** The extraction loop: every `.txt` file, every block with a code. */
  method Extract(files: seq<TextFile>) returns (severityMap: map<string, nat>, criticalMap: map<string, bool>)
    ensures Extracted(severityMap, criticalMap) == ExtractedFrom(files)
  {
    severityMap, criticalMap := map[], map[];
    for i := 0 to |files|
      invariant severityMap == MapFold(SeverityOf, map[], FilesBlocks(files[..i]))
      invariant criticalMap == MapFold(CriticalFlag, map[], FilesBlocks(files[..i]))
    {
      FilesBlocksSnoc(files, i);
      var file := files[i];
      ghost var done := FilesBlocks(files[..i]);
      if IsTextFile(file) {
        var blocks := SplitBlocks(file.content);
        assert done + blocks[..0] == done;
        for j := 0 to |blocks|
          invariant severityMap == MapFold(SeverityOf, map[], done + blocks[..j])
          invariant criticalMap == MapFold(CriticalFlag, map[], done + blocks[..j])
        {
          FoldSnoc(SeverityOf, map[], done, blocks, j);
          FoldSnoc(CriticalFlag, map[], done, blocks, j);
          severityMap, criticalMap := ReadBlock(blocks[j], severityMap, criticalMap);
        }
        assert done + blocks[..|blocks|] == FilesBlocks(files[..i + 1]);
      } else {
        assert FilesBlocks(files[..i + 1]) == done;
      }
    }
    assert files[..|files|] == files;
  }

  // ---------------------------------------------------------------- patching

  /**
   * The body of the patch loop for one criterion with an id: a mapped severity and a
   * mapped mark replace the old values; `updated` says the criterion changed.
   */
  function Patch(x: Extracted, c: Criterion): (r: (Criterion, bool))
    ensures r.0 == c.(severity := r.0.severity, isCritical := r.0.isCritical)
    ensures r.0.severity == if c.id in x.severity then Some(x.severity[c.id]) else c.severity
    ensures r.0.isCritical == if c.id in x.critical then Some(x.critical[c.id]) else c.isCritical
    ensures r.1 <==> r.0 != c
  {
    var id := c.id;
    var (c1, u1) :=
      if id in x.severity && c.severity != Some(x.severity[id]) then (c.(severity := Some(x.severity[id])), true)
      else (c, false);
    var (c2, u2) :=
      if id in x.critical && c1.isCritical != Some(x.critical[id]) then (c1.(isCritical := Some(x.critical[id])), true)
      else (c1, false);
    (c2, u1 || u2)
  }

  function PatchStep(x: Extracted): Step {
    c => Patch(x, c)
  }

  function HasSeverity(x: Extracted): string -> bool {
    id => id in x.severity
  }

  /** A patched criterion is patched into itself, without counting as updated. */
  lemma PatchSettled(x: Extracted)
    ensures Settled(PatchStep(x))
  {
    forall c: Criterion | c.id != ""
      ensures PatchStep(x)(c).0.id == c.id && PatchStep(x)(PatchStep(x)(c).0) == (PatchStep(x)(c).0, false)
    {
      var p := Patch(x, c).0;
      assert Patch(x, p).0 == p;
    }
  }

  /** The script: extraction, then the patch pass. */
  method PatchScript(files: seq<TextFile>, config: Config) returns (patched: Config, updateCount: nat, missingCount: nat)
    ensures patched == PatchConfig(PatchStep(ExtractedFrom(files)), config)
    ensures updateCount == UpdatedCount(PatchStep(ExtractedFrom(files)), Flat(config))
    ensures missingCount == MissingCount(PatchStep(ExtractedFrom(files)), HasSeverity(ExtractedFrom(files)), Flat(config))
  {
    var severityMap, criticalMap := Extract(files);
    var x := Extracted(severityMap, criticalMap);
    patched, updateCount, missingCount := PatchPass(PatchStep(x), HasSeverity(x), config);
  }

  /** Running the script a second time on the same text changes nothing and updates nothing. */
  lemma PatchScriptTwice(files: seq<TextFile>, config: Config)
    ensures var step := PatchStep(ExtractedFrom(files));
            PatchConfig(step, PatchConfig(step, config)) == PatchConfig(step, config) &&
            UpdatedCount(step, Flat(PatchConfig(step, config))) == 0
  {
    var x := ExtractedFrom(files);
    PatchSettled(x);
    PatchPassTwice(PatchStep(x), HasSeverity(x), config);
  }
}
