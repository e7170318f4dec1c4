/**
 * Character classes and string operations shared by the JavaScript and Python code:
 * whitespace trimming in both dialects, prefixes, suffixes, substring search,
 * splitting, digit runs and code-point order.
 */
module Strings {
  import opened Wrappers

  /** Which language's notion of whitespace applies. */
  datatype Dialect = Js | Py

  predicate IsDigit(c: char) {
    '0' <= c <= '9'
  }

  predicate IsAsciiLetter(c: char) {
    ('a' <= c <= 'z') || ('A' <= c <= 'Z')
  }

  /** A character of the regular-expression class `\w` (ASCII part). */
  predicate IsWordChar(c: char) {
    IsDigit(c) || IsAsciiLetter(c) || c == '_'
  }

  /**
   * JavaScript's WhiteSpace and LineTerminator characters (what `trim` and `\s` match):
   * tab to carriage return, space, no-break space, the Unicode space separators, the line
   * and paragraph separators and the byte-order mark.
   */
  predicate IsJsSpace(c: char) {
    c == ' ' || c == '\t' || c == '\n' || c == '\r' || c == '\U{000B}' || c == '\U{000C}'
    || c == '\U{00A0}' || c == '\U{1680}' || ('\U{2000}' <= c <= '\U{200A}')
    || c == '\U{2028}' || c == '\U{2029}' || c == '\U{202F}' || c == '\U{205F}'
    || c == '\U{3000}' || c == '\U{FEFF}'
  }

  /**
   * Python's whitespace characters (what `str.strip` and `\s` match): as JavaScript's,
   * plus the file, group, record and unit separators and U+0085, without the byte-order mark.
   */
  predicate IsPySpace(c: char) {
    c == ' ' || c == '\t' || c == '\n' || c == '\r' || c == '\U{000B}' || c == '\U{000C}'
    || ('\U{001C}' <= c <= '\U{001F}') || c == '\U{0085}' || c == '\U{00A0}' || c == '\U{1680}'
    || ('\U{2000}' <= c <= '\U{200A}') || c == '\U{2028}' || c == '\U{2029}'
    || c == '\U{202F}' || c == '\U{205F}' || c == '\U{3000}'
  }

  predicate IsSpace(d: Dialect, c: char) {
    match d
    case Js => IsJsSpace(c)
    case Py => IsPySpace(c)
  }

  predicate HasNoSpace(d: Dialect, s: string) {
    forall k :: 0 <= k < |s| ==> !IsSpace(d, s[k])
  }

  /** Number of whitespace characters at the start of `s`. */
  function LeadingSpaces(d: Dialect, s: string): (n: nat)
    ensures n <= |s|
    ensures forall k :: 0 <= k < n ==> IsSpace(d, s[k])
    ensures n == |s| || !IsSpace(d, s[n])
  {
    if s == [] || !IsSpace(d, s[0]) then 0 else 1 + LeadingSpaces(d, s[1..])
  }

  /** Number of whitespace characters at the end of `s`. */
  function TrailingSpaces(d: Dialect, s: string): (n: nat)
    ensures n <= |s|
    ensures forall k :: |s| - n <= k < |s| ==> IsSpace(d, s[k])
    ensures n == |s| || !IsSpace(d, s[|s| - n - 1])
  {
    if s == [] || !IsSpace(d, s[|s| - 1]) then 0 else 1 + TrailingSpaces(d, s[..|s| - 1])
  }

  function TrimStart(d: Dialect, s: string): (r: string)
    ensures r == s[LeadingSpaces(d, s)..]
    ensures r == [] || !IsSpace(d, r[0])
  {
    s[LeadingSpaces(d, s)..]
  }

  function TrimEnd(d: Dialect, s: string): (r: string)
    ensures r == s[..|s| - TrailingSpaces(d, s)]
    ensures r == [] || !IsSpace(d, r[|r| - 1])
  {
    s[..|s| - TrailingSpaces(d, s)]
  }

  /** JavaScript `trim()` / Python `strip()`: drop whitespace at both ends. */
  function Trim(d: Dialect, s: string): (r: string)
    ensures |r| <= |s|
    ensures r == [] || (!IsSpace(d, r[0]) && !IsSpace(d, r[|r| - 1]))
    ensures r == [] ==> forall k :: 0 <= k < |s| ==> IsSpace(d, s[k])
    ensures HasNoSpace(d, s) ==> r == s
  {
    var t := TrimStart(d, s);
    assert HasNoSpace(d, s) ==> LeadingSpaces(d, s) == 0;
    TrimEnd(d, t)
  }

  /** A string with no whitespace at either end is its own trim. */
  lemma TrimmedUnchanged(d: Dialect, t: string)
    requires t == [] || (!IsSpace(d, t[0]) && !IsSpace(d, t[|t| - 1]))
    ensures Trim(d, t) == t
  {
    assert LeadingSpaces(d, t) == 0;
    assert TrailingSpaces(d, t) == 0;
  }

  /** Trimming twice is trimming once. */
  lemma TrimIdempotent(d: Dialect, s: string)
    ensures Trim(d, Trim(d, s)) == Trim(d, s)
  {
    TrimmedUnchanged(d, Trim(d, s));
  }

  /** Trimming only removes characters: a character absent from `s` is absent from its trim. */
  lemma TrimKeepsOut(d: Dialect, s: string, c: char)
    requires c !in s
    ensures c !in Trim(d, s)
  {
    var t := TrimStart(d, s);
    forall k | 0 <= k < |Trim(d, s)|
      ensures Trim(d, s)[k] != c
    {
      assert Trim(d, s)[k] == t[k] == s[LeadingSpaces(d, s) + k];
    }
  }

  /** The trim of `s` is the slice of `s` that starts after its leading whitespace. */
  lemma TrimIsSlice(d: Dialect, s: string)
    ensures LeadingSpaces(d, s) + |Trim(d, s)| <= |s|
    ensures forall k :: 0 <= k < |Trim(d, s)| ==> Trim(d, s)[k] == s[LeadingSpaces(d, s) + k]
  {
    var n := LeadingSpaces(d, s);
    var t := TrimStart(d, s);
    assert |Trim(d, s)| <= |t| == |s| - n;
    forall k | 0 <= k < |Trim(d, s)|
      ensures Trim(d, s)[k] == s[n + k]
    {
      assert Trim(d, s)[k] == t[k] == s[n + k];
    }
  }

  /** Python `s.rstrip(chars)`: drop trailing characters that belong to `chars`. */
  function RStripChars(s: string, chars: set<char>): (r: string)
    ensures r <= s
    ensures r == [] || r[|r| - 1] !in chars
    ensures forall k :: |r| <= k < |s| ==> s[k] in chars
  {
    if s == [] || s[|s| - 1] !in chars then s else RStripChars(s[..|s| - 1], chars)
  }

  predicate EndsWith(s: string, suffix: string) {
    |suffix| <= |s| && s[|s| - |suffix|..] == suffix
  }

  /** `pattern` occurs in `s` starting at index `k`. */
  predicate OccursAt(s: string, pattern: string, k: int) {
    0 <= k && k + |pattern| <= |s| && s[k..k + |pattern|] == pattern
  }

  /** Index of the leftmost occurrence of `pattern` in `s` at or after `from`. */
  function FindFrom(s: string, pattern: string, from: nat): (r: Option<nat>)
    ensures r.Some? ==> from <= r.value && OccursAt(s, pattern, r.value)
    ensures r.Some? ==> forall k :: from <= k < r.value ==> !OccursAt(s, pattern, k)
    ensures r.None? ==> forall k :: from <= k ==> !OccursAt(s, pattern, k)
    decreases |s| - from
  {
    if from + |pattern| > |s| then None
    else if s[from..from + |pattern|] == pattern then Some(from)
    else FindFrom(s, pattern, from + 1)
  }

  /** JavaScript `includes` / Python `in` on strings. */
  predicate Contains(s: string, pattern: string) {
    FindFrom(s, pattern, 0).Some?
  }

  lemma ContainsIff(s: string, pattern: string)
    ensures Contains(s, pattern) <==> exists k :: OccursAt(s, pattern, k)
  {
  }

  /** A slice of a string without `pattern` has none either. */
  lemma NotContainsSlice(s: string, pattern: string, i: nat, j: nat)
    requires i <= j <= |s| && !Contains(s, pattern)
    ensures !Contains(s[i..j], pattern)
  {
    forall k | OccursAt(s[i..j], pattern, k)
      ensures OccursAt(s, pattern, i + k)
    {
      var a, b := s[i..j][k..k + |pattern|], s[i + k..i + k + |pattern|];
      forall t | 0 <= t < |pattern| ensures a[t] == b[t] {
        assert s[i..j][k + t] == s[i + k + t];
      }
      assert a == b;
    }
  }

  /**
   * A pattern whose first character does not recur in it is found first right after a
   * text that does not hold it: no occurrence can straddle the join.
   */
  lemma FindAfterClean(a: string, pattern: string, b: string)
    requires pattern != [] && !Contains(a, pattern)
    requires forall t :: 1 <= t < |pattern| ==> pattern[t] != pattern[0]
    ensures FindFrom(a + pattern + b, pattern, 0) == Some(|a|)
  {
    var s := a + pattern + b;
    var n := |pattern|;
    assert OccursAt(s, pattern, |a|) by { assert s[|a|..|a| + n] == pattern; }
    forall k | 0 <= k < |a|
      ensures !OccursAt(s, pattern, k)
    {
      if k + n <= |a| {
        assert s[k..k + n] == a[k..k + n];
        assert !OccursAt(a, pattern, k);
      } else {
        var t := |a| - k;
        assert s[k..k + n][t] == pattern[0] && pattern[t] != pattern[0];
      }
    }
  }

  /** The text before the first occurrence of `sep` (all of `s` when there is none): `s.split(sep)[0]`. */
  function BeforeFirst(s: string, sep: string): (r: string)
    ensures r <= s
    ensures forall k :: 0 <= k < |r| ==> !OccursAt(s, sep, k)
    ensures sep != [] ==> (!Contains(s, sep) <==> r == s)
  {
    match FindFrom(s, sep, 0)
    case None => s
    case Some(i) => s[..i]
  }

  /**
   * `s.replace(/pattern/g, '')`: the non-overlapping occurrences found from left to
   * right are deleted; the text is not rescanned afterwards.
   */
  function RemoveAll(s: string, pattern: string): (r: string)
    requires pattern != []
    ensures |r| <= |s|
    ensures !Contains(s, pattern) ==> r == s
    decreases |s|
  {
    match FindFrom(s, pattern, 0)
    case None => s
    case Some(i) => s[..i] + RemoveAll(s[i + |pattern|..], pattern)
  }

  /**
   * The last piece of Python's `s.split(sep)`: the text after the last of the
   * non-overlapping occurrences found from left to right.
   */
  function AfterLastSplit(s: string, sep: string): (r: string)
    requires sep != []
    ensures |r| <= |s|
    decreases |s|
  {
    match FindFrom(s, sep, 0)
    case None => s
    case Some(i) => AfterLastSplit(s[i + |sep|..], sep)
  }

  /** `s.split(c)` for a one-character separator (Python and JavaScript agree). */
  function Split(s: string, c: char): (parts: seq<string>)
    ensures |parts| >= 1
    ensures forall k :: 0 <= k < |parts| ==> c !in parts[k]
    decreases |s|
  {
    if c !in s then [s]
    else
      var i := IndexOfChar(s, c);
      [s[..i]] + Split(s[i + 1..], c)
  }

  /** Index of the first `c` in `s`. */
  function IndexOfChar(s: string, c: char): (i: nat)
    requires c in s
    ensures i < |s| && s[i] == c && c !in s[..i]
  {
    if s[0] == c then 0 else 1 + IndexOfChar(s[1..], c)
  }

  /** The first `c` is the one with no `c` before it. */
  lemma IndexOfCharUnique(s: string, c: char, i: nat)
    requires i < |s| && s[i] == c && c !in s[..i]
    ensures IndexOfChar(s, c) == i
  {
    var j := IndexOfChar(s, c);
    forall k | 0 <= k < i
      ensures s[k] != c
    {
      assert s[..i][k] == s[k];
    }
    forall k | 0 <= k < j
      ensures s[k] != c
    {
      assert s[..j][k] == s[k];
    }
  }

  /** Splitting `a + [c] + b` where `b` holds no `c` adds `b` as a last piece. */
  lemma {:induction false} SplitAppend(a: string, b: string, c: char)
    requires c !in b
    ensures Split(a + [c] + b, c) == Split(a, c) + [b]
    decreases |a|
  {
    var s := a + [c] + b;
    if c !in a {
      assert s[..|a|] == a;
      IndexOfCharUnique(s, c, |a|);
      assert s[|a| + 1..] == b;
    } else {
      var i := IndexOfChar(a, c);
      assert s[..i] == a[..i];
      IndexOfCharUnique(s, c, i);
      assert s[i + 1..] == a[i + 1..] + [c] + b;
      SplitAppend(a[i + 1..], b, c);
    }
  }

  /** `sep.join(parts)`. */
  function Join(parts: seq<string>, sep: string): string {
    if parts == [] then ""
    else if |parts| == 1 then parts[0]
    else Join(parts[..|parts| - 1], sep) + sep + parts[|parts| - 1]
  }

  /** Splitting on `c` undoes joining with `c` when no part holds a `c`. */
  lemma {:induction false} SplitJoin(parts: seq<string>, c: char)
    requires parts != []
    requires forall k :: 0 <= k < |parts| ==> c !in parts[k]
    ensures Split(Join(parts, [c]), c) == parts
  {
    if |parts| > 1 {
      var init := parts[..|parts| - 1];
      SplitJoin(init, c);
      SplitAppend(Join(init, [c]), parts[|parts| - 1], c);
      assert init + [parts[|parts| - 1]] == parts;
    }
  }

  /** Joining a prefix of the parts gives a prefix of the whole join. */
  lemma {:induction false} JoinPrefix(parts: seq<string>, sep: string, i: nat)
    requires 1 <= i <= |parts|
    ensures Join(parts[..i], sep) <= Join(parts, sep)
  {
    if i < |parts| {
      var init := parts[..|parts| - 1];
      JoinPrefix(init, sep, i);
      assert init[..i] == parts[..i];
    } else {
      assert parts[..i] == parts;
    }
  }

  /** Every character of a join comes from a part or from the separator. */
  lemma {:induction false} JoinChars(parts: seq<string>, sep: string, p: char -> bool)
    requires forall k, j :: 0 <= k < |parts| && 0 <= j < |parts[k]| ==> p(parts[k][j])
    requires forall j :: 0 <= j < |sep| ==> p(sep[j])
    ensures forall j :: 0 <= j < |Join(parts, sep)| ==> p(Join(parts, sep)[j])
  {
    if |parts| > 1 {
      var init, last := parts[..|parts| - 1], parts[|parts| - 1];
      JoinChars(init, sep, p);
      var left := Join(init, sep);
      assert forall j :: 0 <= j < |last| ==> p(last[j]) by {
        assert forall j :: 0 <= j < |last| ==> last[j] == parts[|parts| - 1][j];
      }
      var whole := left + sep + last;
      forall j | 0 <= j < |whole| ensures p(whole[j]) {
        if j < |left| {
          assert whole[j] == left[j];
        } else if j < |left| + |sep| {
          assert whole[j] == sep[j - |left|];
        } else {
          assert whole[j] == last[j - |left| - |sep|];
        }
      }
    }
  }

  /** Python `str.isdigit()` restricted to ASCII digits: non-empty and all digits. */
  predicate IsAllDigits(s: string) {
    s != [] && forall k :: 0 <= k < |s| ==> IsDigit(s[k])
  }

  /** Decimal value of a run of ASCII digits (`int(s)`). */
  function DigitsValue(s: string): (n: nat)
    requires forall k :: 0 <= k < |s| ==> IsDigit(s[k])
  {
    if s == [] then 0
    else
      assert IsDigit(s[|s| - 1]);
      10 * DigitsValue(s[..|s| - 1]) + (s[|s| - 1] as int - '0' as int)
  }

  /** Length of the run of ASCII digits that starts at `i`. */
  function DigitRun(s: string, i: nat): (n: nat)
    requires i <= |s|
    ensures i + n <= |s|
    ensures forall k :: i <= k < i + n ==> IsDigit(s[k])
    ensures i + n == |s| || !IsDigit(s[i + n])
    decreases |s| - i
  {
    if i < |s| && IsDigit(s[i]) then 1 + DigitRun(s, i + 1) else 0
  }

  /** The decimal text of `n` (`${n}` / `String(n)` on a non-negative integer); reads back as `n`. */
  function DecimalText(n: nat): (r: string)
    ensures r != [] && forall k :: 0 <= k < |r| ==> IsDigit(r[k])
    ensures DigitsValue(r) == n
    ensures n < 10 ==> r == [('0' as int + n) as char]
  {
    var d := [('0' as int + n % 10) as char];
    if n < 10 then d
    else
      var r := DecimalText(n / 10) + d;
      assert r[..|r| - 1] == DecimalText(n / 10);
      r
  }

  /** `parseInt` of one digit: the inverse of `DecimalText` below ten. */
  function DigitValue(c: char): (n: nat)
    requires IsDigit(c)
    ensures n < 10 && DecimalText(n) == [c]
  {
    c as int - '0' as int
  }

  function UpperChar(c: char): char {
    if 'a' <= c <= 'z' then (c as int - 32) as char else c
  }

  function LowerChar(c: char): char {
    if 'A' <= c <= 'Z' then (c as int + 32) as char else c
  }

  /** `s.upper()` / `s.toUpperCase()` on ASCII letters. */
  function ToUpper(s: string): (r: string)
    ensures |r| == |s|
    ensures forall k :: 0 <= k < |s| ==> r[k] == UpperChar(s[k])
  {
    seq(|s|, k requires 0 <= k < |s| => UpperChar(s[k]))
  }

  lemma ToUpperIdempotent(s: string)
    ensures ToUpper(ToUpper(s)) == ToUpper(s)
  {
  }

  /** Case-insensitive (ASCII) equality, as under a regular expression's ignore-case flag. */
  predicate EqualsIgnoreCase(a: string, b: string) {
    |a| == |b| && forall k :: 0 <= k < |a| ==> LowerChar(a[k]) == LowerChar(b[k])
  }

  /** `pattern` occurs at `k` ignoring ASCII case. */
  predicate OccursAtIgnoreCase(s: string, pattern: string, k: int) {
    0 <= k && k + |pattern| <= |s| && EqualsIgnoreCase(s[k..k + |pattern|], pattern)
  }

  function FindFromIgnoreCase(s: string, pattern: string, from: nat): (r: Option<nat>)
    ensures r.Some? ==> from <= r.value && OccursAtIgnoreCase(s, pattern, r.value)
    ensures r.Some? ==> forall k :: from <= k < r.value ==> !OccursAtIgnoreCase(s, pattern, k)
    ensures r.None? ==> forall k :: from <= k ==> !OccursAtIgnoreCase(s, pattern, k)
    decreases |s| - from
  {
    if from + |pattern| > |s| then None
    else if EqualsIgnoreCase(s[from..from + |pattern|], pattern) then Some(from)
    else FindFromIgnoreCase(s, pattern, from + 1)
  }

  /** Code-point lexicographic order: Python's `<` on `str`, JavaScript's on strings of BMP text. */
  predicate LexLess(a: string, b: string)
    decreases |a|
  {
    if a == [] then b != []
    else if b == [] then false
    else if a[0] != b[0] then a[0] < b[0]
    else LexLess(a[1..], b[1..])
  }

  predicate LexLessEq(a: string, b: string) {
    a == b || LexLess(a, b)
  }

  lemma {:induction false} LexLessIrreflexive(a: string)
    ensures !LexLess(a, a)
  {
    if a != [] {
      LexLessIrreflexive(a[1..]);
    }
  }

  lemma {:induction false} LexLessAsymmetric(a: string, b: string)
    ensures !(LexLess(a, b) && LexLess(b, a))
    decreases |a|
  {
    if a != [] && b != [] && a[0] == b[0] {
      LexLessAsymmetric(a[1..], b[1..]);
    }
  }

  lemma {:induction false} LexLessTransitive(a: string, b: string, c: string)
    requires LexLess(a, b) && LexLess(b, c)
    ensures LexLess(a, c)
    decreases |a|
  {
    if a != [] && b != [] && c != [] && a[0] == b[0] && b[0] == c[0] {
      LexLessTransitive(a[1..], b[1..], c[1..]);
    }
  }

  lemma {:induction false} LexLessTotal(a: string, b: string)
    ensures a == b || LexLess(a, b) || LexLess(b, a)
    decreases |a|
  {
    if a != [] && b != [] && a[0] == b[0] {
      LexLessTotal(a[1..], b[1..]);
      if a[1..] == b[1..] {
        assert a == [a[0]] + a[1..] && b == [b[0]] + b[1..];
      }
    }
  }
}
