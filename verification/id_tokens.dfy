/**
 * A hand-written recogniser for the dotted numeric codes that the scripts find with
 * regular expressions: `\d+\.\d+` (section), `\d+\.\d+\.\d+` (standard) and
 * `\d+\.\d+\.\d+\.\d+` (criterion).  Every `\d+` is greedy and is followed either by a
 * literal dot or by the end of the pattern, so a match starting at a given position is
 * unique and no backtracking is needed.
 */
module IdTokens {
  import opened Wrappers
  import opened Strings

  /** End of the match of `parts` dot-separated digit runs that starts at `i`, if any. */
  function DottedEnd(s: string, i: nat, parts: nat): (r: Option<nat>)
    requires i <= |s| && parts >= 1
    ensures r.Some? ==> i < r.value <= |s| && IsDigit(s[r.value - 1])
    ensures r.Some? ==> r.value == |s| || !IsDigit(s[r.value])
    ensures r.Some? ==> i + DigitRun(s, i) <= r.value
    decreases parts
  {
    var n := DigitRun(s, i);
    if n == 0 then None
    else if parts == 1 then Some(i + n)
    else if i + n < |s| && s[i + n] == '.' then DottedEnd(s, i + n + 1, parts - 1)
    else None
  }

  /** End of a criterion code `\d+\.\d+\.\d+\.\d+` starting at `i`. */
  function IdEndAt(s: string, i: nat): Option<nat>
    requires i <= |s|
  {
    DottedEnd(s, i, 4)
  }

  /** `re.match(rf'^({id})\b', s)`: a code at the very start, not followed by a word character. */
  function IdAtStartWithBoundary(s: string): (r: Option<string>)
    ensures r.Some? ==> r.value <= s && IdEndAt(s, 0) == Some(|r.value|)
  {
    match IdEndAt(s, 0)
    case None => None
    case Some(e) =>
      if e == |s| || !IsWordChar(s[e]) then Some(s[..e]) else None
  }

  /** `re.match(id, s)`: a code at the very start (no boundary required). */
  predicate StartsWithId(s: string) {
    IdEndAt(s, 0).Some?
  }

  /** Leftmost position at or after `from` where `parts` dotted digit runs match (`re.search`). */
  function SearchDotted(s: string, from: nat, parts: nat): (r: Option<nat>)
    requires from <= |s| && parts >= 1
    ensures r.Some? ==> from <= r.value <= |s| && DottedEnd(s, r.value, parts).Some?
    ensures r.Some? ==> forall k :: from <= k < r.value ==> DottedEnd(s, k, parts).None?
    ensures r.None? ==> forall k :: from <= k <= |s| ==> DottedEnd(s, k, parts).None?
    decreases |s| - from
  {
    if DottedEnd(s, from, parts).Some? then Some(from)
    else if from == |s| then None
    else SearchDotted(s, from + 1, parts)
  }

  /** `re.search(id, s) is not None`. */
  predicate ContainsId(s: string) {
    SearchDotted(s, 0, 4).Some?
  }

  /** `re.findall(id, s[from..])`: successive non-overlapping leftmost codes. */
  function FindAllIds(s: string, from: nat): (ids: seq<string>)
    requires from <= |s|
    decreases |s| - from
  {
    if from == |s| then []
    else
      match IdEndAt(s, from)
      case Some(e) => [s[from..e]] + FindAllIds(s, e)
      case None => FindAllIds(s, from + 1)
  }

  /** A string without any code has no code to find. */
  lemma {:induction false} FindAllNone(s: string, from: nat)
    requires from <= |s|
    requires forall k :: from <= k <= |s| ==> IdEndAt(s, k).None?
    ensures FindAllIds(s, from) == []
    decreases |s| - from
  {
    if from < |s| {
      FindAllNone(s, from + 1);
    }
  }
}
