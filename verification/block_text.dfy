/**
 * The text analysis shared by patch_config.cjs and patch_config.js: the extracted text
 * is split into criterion blocks, and each block yields its leading code, its
 * "Critical:" mark and its "Default Severity ... =" digit. Each regular expression is
 * written out as a scan that finds the match the JavaScript engine finds: the leftmost
 * start, a greedy `\s*`, a lazy `.*?` that stops at a line terminator.
 */
module BlockText {
  import opened Wrappers
  import opened Strings
  import opened IdTokens

  /** The least position `k` with `from <= k < n` where `hit` holds: how a search picks its match. */
  function Leftmost(hit: nat -> bool, from: nat, n: nat): (r: Option<nat>)
    ensures r.Some? ==> from <= r.value < n && hit(r.value)
    ensures r.Some? ==> forall k :: from <= k < r.value ==> !hit(k)
    ensures r.None? ==> forall k :: from <= k < n ==> !hit(k)
    decreases n - from
  {
    if from >= n then None
    else if hit(from) then Some(from)
    else Leftmost(hit, from + 1, n)
  }

  /** A position where `hit` holds, with none before it from `from` on, is the leftmost. */
  lemma LeftmostIs(hit: nat -> bool, from: nat, n: nat, k: nat)
    requires from <= k < n && hit(k)
    requires forall j :: from <= j < k ==> !hit(j)
    ensures Leftmost(hit, from, n) == Some(k)
  {
    var r := Leftmost(hit, from, n);
    assert r.Some?;
  }

  /** Number of JavaScript whitespace characters from `i` on (a greedy `\s*`). */
  function SpaceRun(s: string, i: nat): (n: nat)
    requires i <= |s|
    ensures i + n <= |s|
    ensures forall k :: i <= k < i + n ==> IsJsSpace(s[k])
    ensures i + n == |s| || !IsJsSpace(s[i + n])
    decreases |s| - i
  {
    if i == |s| || !IsJsSpace(s[i]) then 0 else 1 + SpaceRun(s, i + 1)
  }

  /** A run of whitespace followed by a character that is not whitespace is all of the run. */
  lemma {:induction false} SpaceRunOf(s: string, i: nat, n: nat)
    requires i + n < |s|
    requires forall k :: i <= k < i + n ==> IsJsSpace(s[k])
    requires !IsJsSpace(s[i + n])
    ensures SpaceRun(s, i) == n
    decreases n
  {
    if n > 0 {
      SpaceRunOf(s, i + 1, n - 1);
    }
  }

  // ---------------------------------------------------------------- blocks

  const CriterionWord := "Criterion"

  /** End of a match of `Criterion\s+(?=\d+\.\d+\.\d+\.\d+)` that starts at `k`. */
  function SeparatorAt(s: string, k: nat): (r: Option<nat>)
    ensures r.Some? ==> OccursAt(s, CriterionWord, k) && k + |CriterionWord| < r.value < |s|
    ensures r.Some? ==> IsDigit(s[r.value])
  {
    if !OccursAt(s, CriterionWord, k) then None
    else
      var n := SpaceRun(s, k + 9);
      match IdEndAt(s, k + 9 + n)
      case None => None
      case Some(_) => if n > 0 then Some(k + 9 + n) else None
  }

  /** `SeparatorAt` at every position of `s`. */
  function Separators(s: string): (seps: seq<Option<nat>>)
    ensures |seps| == |s| && forall k :: 0 <= k < |s| ==> seps[k] == SeparatorAt(s, k)
  {
    seq(|s|, k requires 0 <= k < |s| => SeparatorAt(s, k))
  }

  /**
   * What splitting needs of the separator ends `seps` of `s`: a separator does not start at
   * a digit, ends past its start, and the text after it starts with a digit.
   */
  predicate SeparatorShape(s: string, seps: seq<Option<nat>>) {
    && |seps| == |s|
    && forall k :: 0 <= k < |seps| && seps[k].Some? ==>
         !IsDigit(s[k]) && k < seps[k].value < |s| && IsDigit(s[seps[k].value])
  }

  lemma SeparatorsShape(s: string)
    ensures SeparatorShape(s, Separators(s))
  {
    var seps := Separators(s);
    forall k | 0 <= k < |seps| && seps[k].Some?
      ensures !IsDigit(s[k]) && k < seps[k].value < |s| && IsDigit(s[seps[k].value])
    {
      assert s[k] == s[k..k + 9][0] == CriterionWord[0];
    }
  }

  /**
   * `text.split(separator)` scanning from `q`, the current block starting at `p`: a block
   * ends where a separator starts, and the next one starts where that separator ends.
   * The first block runs from `p` up to the first separator at or after `q`.
   */
  function SplitFrom(s: string, seps: seq<Option<nat>>, p: nat, q: nat): (blocks: seq<string>)
    requires p <= q <= |s| && SeparatorShape(s, seps)
    ensures |blocks| >= 1
    ensures q <= p + |blocks[0]| <= |s| && (|blocks[0]| > 0 ==> blocks[0][0] == s[p])
    ensures p + |blocks[0]| == |s| || seps[p + |blocks[0]|].Some?
    decreases |s| - q
  {
    if q == |s| then [s[p..]]
    else
      match seps[q]
      case Some(e) => [s[p..q]] + SplitFrom(s, seps, e, e)
      case None => SplitFrom(s, seps, p, q + 1)
  }

  /** A block that starts where a separator ends is not empty: no separator starts at its digit. */
  lemma BlockAfterSeparator(s: string, seps: seq<Option<nat>>, e: nat)
    requires e < |s| && IsDigit(s[e]) && SeparatorShape(s, seps)
    ensures SplitFrom(s, seps, e, e)[0] != [] && SplitFrom(s, seps, e, e)[0][0] == s[e]
  {
    assert seps[e].None?;
  }

  /** Every block after the first starts with a digit, since the separator's lookahead demands a code there. */
  lemma {:induction false} LaterBlocksStartWithDigit(s: string, seps: seq<Option<nat>>, p: nat, q: nat)
    requires p <= q <= |s| && SeparatorShape(s, seps)
    ensures forall k :: 1 <= k < |SplitFrom(s, seps, p, q)| ==>
      SplitFrom(s, seps, p, q)[k] != [] && IsDigit(SplitFrom(s, seps, p, q)[k][0])
    decreases |s| - q
  {
    if q < |s| {
      match seps[q]
      case Some(e) =>
        LaterBlocksStartWithDigit(s, seps, e, e);
        BlockAfterSeparator(s, seps, e);
      case None =>
        LaterBlocksStartWithDigit(s, seps, p, q + 1);
    }
  }

  /** The criterion blocks of one text file. */
  function SplitBlocks(text: string): (blocks: seq<string>)
    ensures |blocks| >= 1
    ensures forall k :: 1 <= k < |blocks| ==> blocks[k] != [] && IsDigit(blocks[k][0])
  {
    SeparatorsShape(text);
    LaterBlocksStartWithDigit(text, Separators(text), 0, 0);
    SplitFrom(text, Separators(text), 0, 0)
  }

  /** A text without a separator from `q` on is one block. */
  lemma {:induction false} NoSeparatorOneBlock(s: string, seps: seq<Option<nat>>, p: nat, q: nat)
    requires p <= q <= |s| && SeparatorShape(s, seps)
    requires forall k :: q <= k < |s| ==> seps[k].None?
    ensures SplitFrom(s, seps, p, q) == [s[p..]]
    decreases |s| - q
  {
    if q < |s| {
      NoSeparatorOneBlock(s, seps, p, q + 1);
    }
  }

  /** Text without "Criterion" is a single block. */
  lemma SingleBlock(text: string)
    requires !Contains(text, CriterionWord)
    ensures SplitBlocks(text) == [text]
  {
    SeparatorsShape(text);
    NoSeparatorOneBlock(text, Separators(text), 0, 0);
  }

  // ---------------------------------------------------------------- block code

  /** A character of the class `[\d\.]`. */
  predicate IsCodeChar(c: char) {
    IsDigit(c) || c == '.'
  }

  function CodeCharRun(s: string, i: nat): (n: nat)
    requires i <= |s|
    ensures i + n <= |s|
    ensures forall k :: i <= k < i + n ==> IsCodeChar(s[k])
    ensures i + n == |s| || !IsCodeChar(s[i + n])
    decreases |s| - i
  {
    if i == |s| || !IsCodeChar(s[i]) then 0 else 1 + CodeCharRun(s, i + 1)
  }

  /**
   * `block.match(/^([\d\.]+)/)`: the leading run of digits and dots, present exactly when
   * the block opens with a digit or a dot.
   */
  function BlockCode(block: string): (r: Option<string>)
    ensures r.Some? <==> block != [] && IsCodeChar(block[0])
    ensures r.Some? ==> r.value != [] && r.value <= block
    ensures r.Some? ==> forall k :: 0 <= k < |r.value| ==> IsCodeChar(r.value[k])
    ensures r.Some? ==> |r.value| == |block| || !IsCodeChar(block[|r.value|])
  {
    var n := CodeCharRun(block, 0);
    if n == 0 then None else Some(block[..n])
  }

  /** Every block after the first has a code: the split leaves a digit at its start. */
  lemma LaterBlocksHaveCodes(text: string, k: nat)
    requires 1 <= k < |SplitBlocks(text)|
    ensures BlockCode(SplitBlocks(text)[k]).Some?
  {
  }

  // ---------------------------------------------------------------- Critical: mark

  const CriticalLabel := "Critical:"
  /** U+00FE LATIN SMALL LETTER THORN, the checked box of the extracted text. */
  const Thorn := '\U{00FE}'
  /** U+00A8 DIAERESIS, the unchecked box. */
  const Diaeresis := '\U{00A8}'

  /** The box character of a `Critical:\s*([þ¨])` match that starts at `k`, if one does. */
  function MarkAt(s: string, k: nat): (r: Option<char>)
    ensures r.Some? ==> r.value == Thorn || r.value == Diaeresis
  {
    if !OccursAt(s, CriticalLabel, k) then None
    else
      var j := k + 9 + SpaceRun(s, k + 9);
      if j < |s| && (s[j] == Thorn || s[j] == Diaeresis) then Some(s[j]) else None
  }

  /**
   * `block.match(/Critical:\s*([þ¨])/)` read as a flag: the leftmost match's box is
   * checked (þ, true) or not (¨, false); no match, no flag.
   */
  function CriticalFlag(block: string): (r: Option<bool>)
    ensures r.None? <==> forall k :: 0 <= k < |block| ==> MarkAt(block, k).None?
  {
    var hit := (k: nat) => MarkAt(block, k).Some?;
    match Leftmost(hit, 0, |block|)
    case None =>
      assert forall k :: 0 <= k < |block| ==> MarkAt(block, k).None? by {
        forall k | 0 <= k < |block| ensures MarkAt(block, k).None? {
          assert !hit(k);
        }
      }
      None
    case Some(k) => Some(MarkAt(block, k).value == Thorn)
  }

  /** The flag comes from the leftmost mark: þ reads as true, ¨ as false. */
  lemma CriticalFlagAt(block: string, k: nat, m: char)
    requires k < |block| && MarkAt(block, k) == Some(m)
    requires forall j :: 0 <= j < k ==> MarkAt(block, j).None?
    ensures CriticalFlag(block) == Some(m == Thorn)
  {
    LeftmostIs((j: nat) => MarkAt(block, j).Some?, 0, |block|, k);
  }

  /** `Critical:`, some whitespace and a box at the start of a block: þ means critical, ¨ not. */
  lemma CriticalOf(spaces: string, m: char, rest: string)
    requires forall k :: 0 <= k < |spaces| ==> IsJsSpace(spaces[k])
    requires m == Thorn || m == Diaeresis
    ensures CriticalFlag(CriticalLabel + spaces + [m] + rest) == Some(m == Thorn)
  {
    var block := CriticalLabel + spaces + [m] + rest;
    assert block[..9] == CriticalLabel;
    assert block[9 + |spaces|] == m;
    assert forall k :: 9 <= k < 9 + |spaces| ==> block[k] == spaces[k - 9];
    SpaceRunOf(block, 9, |spaces|);
    assert MarkAt(block, 0) == Some(m);
    CriticalFlagAt(block, 0, m);
  }

  // ---------------------------------------------------------------- Default Severity

  const SeverityLabel := "Default Severity"

  /** The characters `.` does not match. */
  predicate IsLineTerminator(c: char) {
    c == '\n' || c == '\r' || c == '\U{2028}' || c == '\U{2029}'
  }

  /** Position of the first line terminator at or after `i`, or the end of `s`. */
  function LineEnd(s: string, i: nat): (e: nat)
    requires i <= |s|
    ensures i <= e <= |s|
    ensures forall k :: i <= k < e ==> !IsLineTerminator(s[k])
    ensures e == |s| || IsLineTerminator(s[e])
    decreases |s| - i
  {
    if i == |s| || IsLineTerminator(s[i]) then i else LineEnd(s, i + 1)
  }

  /** `Default Severity` at `k`, exactly, or ignoring ASCII case under the `i` flag. */
  predicate LabelAt(s: string, k: nat, caseless: bool) {
    if caseless then OccursAtIgnoreCase(s, SeverityLabel, k) else OccursAt(s, SeverityLabel, k)
  }

  /** An `=` at `e` after which the rest of the pattern matches. */
  predicate EqualsAt<T>(s: string, tail: nat -> Option<T>, e: nat) {
    e < |s| && s[e] == '=' && tail(e + 1).Some?
  }

  /** A match of `Default Severity.*?=` + tail can start at `k`: an `=` on the label's line. */
  predicate MatchAt<T>(s: string, caseless: bool, tail: nat -> Option<T>, k: nat) {
    LabelAt(s, k, caseless) && exists e :: k + 16 <= e < LineEnd(s, k + 16) && EqualsAt(s, tail, e)
  }

  /** The first `=` on the label's line, from `k + 16` on, after which the tail matches (the lazy `.*?=`). */
  function FirstEquals<T>(s: string, tail: nat -> Option<T>, k: nat): (r: Option<nat>)
    requires k + 16 <= |s|
    ensures r.Some? ==> k + 16 <= r.value < LineEnd(s, k + 16) && EqualsAt(s, tail, r.value)
    ensures r.Some? ==> forall e :: k + 16 <= e < r.value ==> !EqualsAt(s, tail, e)
    ensures r.None? ==> forall e :: k + 16 <= e < LineEnd(s, k + 16) ==> !EqualsAt(s, tail, e)
  {
    var hit := (e: nat) => EqualsAt(s, tail, e);
    var r := Leftmost(hit, k + 16, LineEnd(s, k + 16));
    assert r.None? ==> forall e :: k + 16 <= e < LineEnd(s, k + 16) ==> !EqualsAt(s, tail, e) by {
      if r.None? {
        forall e | k + 16 <= e < LineEnd(s, k + 16) ensures !EqualsAt(s, tail, e) {
          assert !hit(e);
        }
      }
    }
    assert r.Some? ==> forall e :: k + 16 <= e < r.value ==> !EqualsAt(s, tail, e) by {
      if r.Some? {
        forall e | k + 16 <= e < r.value ensures !EqualsAt(s, tail, e) {
          assert !hit(e);
        }
      }
    }
    r
  }

  /** Where a severity match was found: the label, the `=` and what the tail captured. */
  datatype Found<T> = Found(start: nat, eq: nat, value: T)

  /**
   * `block.match(/Default Severity.*?=<tail>/)`: the leftmost label that has an `=` on its
   * line followed by the tail, and of those `=` the first (the lazy `.*?`).
   */
  function SeverityMatch<T>(s: string, caseless: bool, tail: nat -> Option<T>): (r: Option<Found<T>>)
    ensures r.Some? ==> LabelAt(s, r.value.start, caseless)
    ensures r.Some? ==> r.value.start + 16 <= r.value.eq < LineEnd(s, r.value.start + 16)
    ensures r.Some? ==> s[r.value.eq] == '=' && tail(r.value.eq + 1) == Some(r.value.value)
    ensures r.Some? ==> forall e :: r.value.start + 16 <= e < r.value.eq ==> !EqualsAt(s, tail, e)
    ensures r.Some? ==> forall k :: 0 <= k < r.value.start ==> !MatchAt(s, caseless, tail, k)
    ensures r.None? ==> forall k :: 0 <= k < |s| ==> !MatchAt(s, caseless, tail, k)
  {
    match FirstLabel(s, caseless, tail, 0)
    case None =>
      NoMatchBefore(s, caseless, tail, |s|);
      None
    case Some(k) =>
      NoMatchBefore(s, caseless, tail, k);
      var e := FirstEquals(s, tail, k).value;
      Some(Found(k, e, tail(e + 1).value))
  }

  /** A label at `k` with an `=` on its line after which the tail matches. */
  predicate FirstHit<T>(s: string, caseless: bool, tail: nat -> Option<T>, k: nat) {
    LabelAt(s, k, caseless) && FirstEquals(s, tail, k).Some?
  }

  /** The leftmost position from `from` on where `FirstHit` holds. */
  function FirstLabel<T>(s: string, caseless: bool, tail: nat -> Option<T>, from: nat): (r: Option<nat>)
    ensures r.Some? ==> from <= r.value < |s| && FirstHit(s, caseless, tail, r.value)
    ensures forall k :: from <= k < (if r.Some? then r.value else |s|) ==> !FirstHit(s, caseless, tail, k)
    decreases |s| - from
  {
    if from >= |s| then None
    else if FirstHit(s, caseless, tail, from) then Some(from)
    else FirstLabel(s, caseless, tail, from + 1)
  }

  /** Where no label before `n` has a usable `=`, no match starts before `n`. */
  lemma NoMatchBefore<T>(s: string, caseless: bool, tail: nat -> Option<T>, n: nat)
    requires forall k :: 0 <= k < n ==> !FirstHit(s, caseless, tail, k)
    ensures forall k :: 0 <= k < n ==> !MatchAt(s, caseless, tail, k)
  {
    forall k | 0 <= k < n && LabelAt(s, k, caseless)
      ensures !MatchAt(s, caseless, tail, k)
    {
      assert !FirstHit(s, caseless, tail, k);
    }
  }

  /**
   * The match when the first label in `s` is at `start` and its line runs on, without an
   * `=`, to an `=` at `eq` after which the tail matches.
   */
  lemma SeverityMatchAt<T>(s: string, caseless: bool, tail: nat -> Option<T>, start: nat, eq: nat)
    requires LabelAt(s, start, caseless)
    requires forall k :: 0 <= k < start ==> !LabelAt(s, k, caseless)
    requires start + 16 <= eq < |s| && s[eq] == '=' && tail(eq + 1).Some?
    requires forall e :: start + 16 <= e < eq ==> s[e] != '=' && !IsLineTerminator(s[e])
    ensures SeverityMatch(s, caseless, tail) == Some(Found(start, eq, tail(eq + 1).value))
  {
    FirstEqualsIs(s, tail, start, eq);
    FirstLabelIs(s, caseless, tail, 0, start);
  }

  /** The lazy `.*?=` stops at the first `=` on the line, here at `eq`. */
  lemma FirstEqualsIs<T>(s: string, tail: nat -> Option<T>, k: nat, eq: nat)
    requires k + 16 <= eq < |s| && s[eq] == '=' && tail(eq + 1).Some?
    requires forall e :: k + 16 <= e < eq ==> s[e] != '=' && !IsLineTerminator(s[e])
    ensures FirstEquals(s, tail, k) == Some(eq)
  {
    LineEndPast(s, k + 16, eq);
    assert EqualsAt(s, tail, eq);
  }

  /** `LineEnd` from `i` lies past every position up to `e` that holds no line terminator. */
  lemma {:induction false} LineEndPast(s: string, i: nat, e: nat)
    requires i <= e < |s|
    requires forall k :: i <= k < e ==> !IsLineTerminator(s[k])
    ensures e <= LineEnd(s, i)
    decreases e - i
  {
    if i < e {
      LineEndPast(s, i + 1, e);
    }
  }

  /** The search for a label stops at the first label, here at `k`, when it has a usable `=`. */
  lemma {:induction false} FirstLabelIs<T>(s: string, caseless: bool, tail: nat -> Option<T>, from: nat, k: nat)
    requires from <= k < |s| && FirstHit(s, caseless, tail, k)
    requires forall j :: from <= j < k ==> !LabelAt(s, j, caseless)
    ensures FirstLabel(s, caseless, tail, from) == Some(k)
    decreases k - from
  {
    if from < k {
      FirstLabelIs(s, caseless, tail, from + 1, k);
    }
  }

  // ---------------------------------------------------------------- reading text laid out in pieces

  /** A line that starts with the label at `start` and runs, without an `=`, through `mid` to an `=`. */
  lemma LabelLine(s: string, start: nat, mid: string, after: string, caseless: bool)
    requires start <= |s| && s[start..] == SeverityLabel + mid + "=" + after
    requires forall k :: 0 <= k < |mid| ==> mid[k] != '=' && !IsLineTerminator(mid[k])
    ensures LabelAt(s, start, caseless)
    ensures start + 16 + |mid| < |s| && s[start + 16 + |mid|] == '='
    ensures forall e :: start + 16 <= e < start + 16 + |mid| ==> s[e] != '=' && !IsLineTerminator(s[e])
    ensures s[start + 16 + |mid| + 1..] == after
  {
    var t := s[start..];
    assert t == SeverityLabel + (mid + ("=" + after));
    assert s[start..start + 16] == t[..16] == SeverityLabel;
    assert EqualsIgnoreCase(SeverityLabel, SeverityLabel);
    forall e | start + 16 <= e < start + 16 + |mid|
      ensures s[e] != '=' && !IsLineTerminator(s[e])
    {
      assert s[e] == t[e - start] == mid[e - start - 16];
    }
    assert s[start + 16 + |mid|] == t[16 + |mid|];
    assert s[start + 16 + |mid| + 1..] == t[16 + |mid| + 1..];
  }

  /**
   * The first label at `start`, its line running without an `=` through `mid` to an `=`
   * after which the tail matches: that is the match.
   */
  lemma SeverityMatchOnLine<T>(s: string, caseless: bool, tail: nat -> Option<T>, start: nat, mid: string, after: string)
    requires start <= |s| && s[start..] == SeverityLabel + mid + "=" + after
    requires forall k :: 0 <= k < start ==> !LabelAt(s, k, caseless)
    requires forall k :: 0 <= k < |mid| ==> mid[k] != '=' && !IsLineTerminator(mid[k])
    requires tail(start + 16 + |mid| + 1).Some?
    ensures SeverityMatch(s, caseless, tail) == Some(Found(start, start + 16 + |mid|, tail(start + 16 + |mid| + 1).value))
  {
    LabelLine(s, start, mid, after, caseless);
    SeverityMatchAt(s, caseless, tail, start, start + 16 + |mid|);
  }

  /** Whitespace `sp` laid out from `q`, then `rest`. */
  lemma SpacesThen(s: string, q: nat, sp: string, rest: string)
    requires q <= |s| && s[q..] == sp + rest
    requires forall k :: 0 <= k < |sp| ==> IsJsSpace(sp[k])
    ensures q + |sp| <= |s| && s[q + |sp|..] == rest
    ensures forall k :: q <= k < q + |sp| ==> IsJsSpace(s[k])
  {
    var t := s[q..];
    forall k | q <= k < q + |sp| ensures IsJsSpace(s[k]) {
      assert s[k] == t[k - q] == sp[k - q];
    }
    assert s[q + |sp|..] == t[|sp|..];
  }

  /** The character `c` at `q`, then `rest`. */
  lemma HeadThen(s: string, q: nat, c: char, rest: string)
    requires q <= |s| && s[q..] == [c] + rest
    ensures q < |s| && s[q] == c && s[q + 1..] == rest
  {
    assert s[q] == s[q..][0];
    assert s[q + 1..] == s[q..][1..];
  }

  /** The text `w` at `q`, then `rest`. */
  lemma WordThen(s: string, q: nat, w: string, rest: string)
    requires q <= |s| && s[q..] == w + rest
    ensures q + |w| <= |s| && s[q..q + |w|] == w
  {
    assert s[q..q + |w|] == s[q..][..|w|];
  }
}
