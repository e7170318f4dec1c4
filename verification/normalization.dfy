/**
 * Criterion-code normalisation and ordering used by the scoring hook
 * (src/utils/normalization.js).
 */
module Normalization {
  import opened Wrappers
  import opened Strings
  import Segments

  /** The characters JavaScript's `.` refuses to match. */
  predicate IsLineTerminator(c: char) {
    c == '\n' || c == '\r' || c == '\U{2028}' || c == '\U{2029}'
  }

  /** The pattern `-root\(.*\)$` matches when started at index `i` of `s`. */
  predicate RootTagAt(s: string, i: nat) {
    OccursAt(s, "-root(", i) && i + 6 < |s| && s[|s| - 1] == ')'
    && forall k :: i + 6 <= k < |s| - 1 ==> !IsLineTerminator(s[k])
  }

  /** Leftmost index at or after `from` where the root-tag pattern matches. */
  function RootTagFrom(s: string, from: nat): (r: Option<nat>)
    ensures r.Some? ==> from <= r.value && RootTagAt(s, r.value)
    ensures r.Some? ==> forall k :: from <= k < r.value ==> !RootTagAt(s, k)
    ensures r.None? ==> forall k :: from <= k ==> !RootTagAt(s, k)
    decreases |s| - from
  {
    if from + 7 > |s| then None
    else if RootTagAt(s, from) then Some(from)
    else RootTagFrom(s, from + 1)
  }

  /** `s.replace(/-root\(.*\)$/, '')`. */
  function StripRootTag(s: string): (r: string)
    ensures r <= s
  {
    match RootTagFrom(s, 0)
    case None => s
    case Some(i) => s[..i]
  }

  /** `s.split(/\s+/)[0]`: everything before the first whitespace character. */
  function FirstToken(s: string): (r: string)
    ensures r <= s && HasNoSpace(Js, r)
    ensures |r| < |s| ==> IsJsSpace(s[|r|])
  {
    if s == [] || IsJsSpace(s[0]) then "" else [s[0]] + FirstToken(s[1..])
  }

  /** Drop one leading "EMS_". */
  function DropEmsPrefix(s: string): (r: string)
    ensures "EMS_" <= s ==> s == "EMS_" + r
    ensures !("EMS_" <= s) ==> r == s
  {
    if "EMS_" <= s then s[4..] else s
  }

  /** Drop one leading "SE " and the whitespace after it. */
  function DropSePrefix(s: string): (r: string)
    ensures !("SE " <= s) ==> r == s
  {
    if "SE " <= s then Trim(Js, s[3..]) else s
  }

  /**
   * normalizeCriterionCode: trim, drop a leading "EMS_", drop a leading "SE " (and trim
   * again), drop a trailing "-root(...)" tag, keep the first whitespace-separated token.
   * A missing code is the empty string.
   */
  function NormalizeCriterionCode(raw: string): (r: string)
    ensures raw == "" ==> r == ""
    ensures HasNoSpace(Js, r)
    ensures |r| <= |raw|
  {
    if raw == "" then ""
    else FirstToken(StripRootTag(DropSePrefix(DropEmsPrefix(Trim(Js, raw)))))
  }

  /** A bare dotted code such as "1.2.1.6": non-empty, digits and dots only. */
  predicate IsDottedCode(x: string) {
    x != [] && forall k :: 0 <= k < |x| ==> IsDigit(x[k]) || x[k] == '.'
  }

  lemma CodeHasNoSpace(x: string)
    requires IsDottedCode(x)
    ensures HasNoSpace(Js, x)
  {
    forall k | 0 <= k < |x|
      ensures !IsSpace(Js, x[k])
    {
      assert IsDigit(x[k]) || x[k] == '.';
    }
  }

  lemma TrimUnchanged(s: string)
    requires s != [] && !IsJsSpace(s[0]) && !IsJsSpace(s[|s| - 1])
    ensures Trim(Js, s) == s
  {
    assert LeadingSpaces(Js, s) == 0;
    assert TrailingSpaces(Js, s) == 0;
  }

  lemma {:induction false} FirstTokenOfCode(x: string, rest: string)
    requires HasNoSpace(Js, x)
    requires rest == [] || IsJsSpace(rest[0])
    ensures FirstToken(x + rest) == x
    decreases |x|
  {
    if x == [] {
      assert x + rest == rest;
    } else {
      assert !IsSpace(Js, x[0]);
      assert (x + rest)[1..] == x[1..] + rest;
      FirstTokenOfCode(x[1..], rest);
    }
  }

  /** A bare code has no root tag to strip. */
  lemma NoRootTagInCode(s: string, x: string)
    requires IsDottedCode(x) && x <= s
    ensures forall k :: 0 <= k < |x| ==> !RootTagAt(s, k)
  {
    forall k | 0 <= k < |x|
      ensures !RootTagAt(s, k)
    {
      assert s[k] == x[k] != '-';
      if k + 6 <= |s| {
        assert s[k..k + 6][0] == s[k];
      }
    }
  }

  /** The last two steps leave a bare code alone. */
  lemma CodeFinish(x: string)
    requires IsDottedCode(x)
    ensures FirstToken(StripRootTag(x)) == x
  {
    NoRootTagInCode(x, x);
    assert StripRootTag(x) == x;
    CodeHasNoSpace(x);
    FirstTokenOfCode(x, "");
    assert x + "" == x;
  }

  /** A bare code is its own normal form. */
  lemma NormalizeCode(x: string)
    requires IsDottedCode(x)
    ensures NormalizeCriterionCode(x) == x
  {
    TrimUnchanged(x);
    assert DropEmsPrefix(x) == x by { assert x[0] != 'E'; }
    assert DropSePrefix(x) == x by { assert x[0] != 'S'; }
    CodeFinish(x);
  }

  /** "EMS_1.1.1.1" normalises to "1.1.1.1". */
  lemma NormalizeEmsPrefix(x: string)
    requires IsDottedCode(x)
    ensures NormalizeCriterionCode("EMS_" + x) == x
  {
    var s := "EMS_" + x;
    TrimUnchanged(s);
    assert DropEmsPrefix(s) == x by { assert "EMS_" <= s && s[4..] == x; }
    assert DropSePrefix(x) == x by { assert x[0] != 'S'; }
    CodeFinish(x);
  }

  /** "SE 1.1.1.1" normalises to "1.1.1.1". */
  lemma NormalizeSePrefix(x: string)
    requires IsDottedCode(x)
    ensures NormalizeCriterionCode("SE " + x) == x
  {
    var s := "SE " + x;
    TrimUnchanged(s);
    assert DropEmsPrefix(s) == s by { assert s[0] == 'S'; }
    assert DropSePrefix(s) == x by {
      assert "SE " <= s && s[3..] == x;
      TrimUnchanged(x);
    }
    CodeFinish(x);
  }

  /** "1.2.1.6-root(1.2.1.6)" normalises to "1.2.1.6": the back-reference tag is dropped. */
  lemma NormalizeRootTag(x: string, y: string)
    requires IsDottedCode(x)
    requires forall k :: 0 <= k < |y| ==> !IsLineTerminator(y[k])
    ensures NormalizeCriterionCode(x + "-root(" + y + ")") == x
  {
    var s := x + "-root(" + y + ")";
    TrimUnchanged(s);
    assert DropEmsPrefix(s) == s by { assert s[0] == x[0] != 'E'; }
    assert DropSePrefix(s) == s by { assert s[0] == x[0] != 'S'; }
    NoRootTagInCode(s, x);
    assert s[|x|..|x| + 6] == "-root(";
    forall k | |x| + 6 <= k < |s| - 1
      ensures !IsLineTerminator(s[k])
    {
      assert s[k] == y[k - |x| - 6];
    }
    assert RootTagAt(s, |x|);
    assert StripRootTag(s) == s[..|x|] == x;
    assert FirstToken(x) == x by {
      CodeHasNoSpace(x);
      FirstTokenOfCode(x, "");
      assert x + "" == x;
    }
  }

  /** "1.1.1.1 extra text" normalises to "1.1.1.1": trailing free text is dropped. */
  lemma NormalizeTrailingText(x: string, extra: string)
    requires IsDottedCode(x)
    requires extra != [] && !IsJsSpace(extra[|extra| - 1])
    ensures NormalizeCriterionCode(x + " " + extra) == x
  {
    var s := x + " " + extra;
    TrimUnchanged(s);
    assert DropEmsPrefix(s) == s by { assert s[0] == x[0] != 'E'; }
    assert DropSePrefix(s) == s by { assert s[0] == x[0] != 'S'; }
    NoRootTagInCode(s, x);
    assert !RootTagAt(s, |x|) by { assert s[|x|] == ' '; }
    var t := StripRootTag(s);
    assert |t| > |x| by {
      match RootTagFrom(s, 0)
      case None =>
      case Some(i) => assert i > |x|;
    }
    assert t == x + t[|x|..] by { assert t <= s; }
    assert t[|x|] == ' ';
    CodeHasNoSpace(x);
    FirstTokenOfCode(x, t[|x|..]);
  }

  /** parseInt(seg, 10) || 0: optional sign, then the leading digits; no digits reads as 0. */
  function ParseIntOr0(seg: string): (n: int)
    ensures IsAllDigits(seg) ==> n == DigitsValue(seg)
  {
    var t := TrimStart(Js, seg);
    var negative := t != [] && t[0] == '-';
    var unsigned := if t != [] && (t[0] == '-' || t[0] == '+') then t[1..] else t;
    var run := DigitRun(unsigned, 0);
    if run == 0 then 0
    else if negative then -(DigitsValue(unsigned[..run]) as int)
    else
      assert IsAllDigits(seg) ==> LeadingSpaces(Js, seg) == 0 && unsigned == seg && unsigned[..run] == seg;
      DigitsValue(unsigned[..run])
  }

  /** `code.split('.').map(n => parseInt(n, 10))`, each missing value read as 0. */
  function SegmentValues(code: string): (vs: seq<int>)
    ensures |vs| == |Split(code, '.')|
  {
    var parts := Split(code, '.');
    seq(|parts|, k requires 0 <= k < |parts| => ParseIntOr0(parts[k]))
  }

  /** compareCriterionCodes: -1, 0 or 1 by segment-wise numeric comparison of the normal forms. */
  function CompareCriterionCodes(codeA: string, codeB: string): (r: int)
    ensures -1 <= r <= 1
    ensures NormalizeCriterionCode(codeA) == NormalizeCriterionCode(codeB) ==> r == 0
  {
    var a := NormalizeCriterionCode(codeA);
    var b := NormalizeCriterionCode(codeB);
    if a == b then 0
    else Segments.CompareSegments(SegmentValues(a), SegmentValues(b))
  }

  /** Swapping the two codes negates the comparison. */
  lemma CompareAntisymmetric(codeA: string, codeB: string)
    ensures CompareCriterionCodes(codeA, codeB) == -CompareCriterionCodes(codeB, codeA)
  {
    var a := NormalizeCriterionCode(codeA);
    var b := NormalizeCriterionCode(codeB);
    if a != b {
      Segments.CompareAntisymmetric(SegmentValues(a), SegmentValues(b));
    }
  }

  /** Appending a digit segment to a code appends its value to the segment values. */
  lemma SegmentValuesAppend(p: string, u: string)
    requires IsAllDigits(u)
    ensures SegmentValues(p + "." + u) == SegmentValues(p) + [DigitsValue(u)]
  {
    assert '.' !in u by {
      forall k | 0 <= k < |u| ensures u[k] != '.' { assert IsDigit(u[k]); }
    }
    SplitAppend(p, u, '.');
    assert p + "." + u == p + ['.'] + u;
  }

  lemma AppendSegmentIsCode(p: string, u: string)
    requires IsDottedCode(p) && IsAllDigits(u)
    ensures IsDottedCode(p + "." + u)
  {
    var s := p + "." + u;
    forall k | 0 <= k < |s|
      ensures IsDigit(s[k]) || s[k] == '.'
    {
      if k < |p| {
        assert s[k] == p[k];
      } else if k > |p| {
        assert s[k] == u[k - |p| - 1];
      }
    }
  }

  /**
   * Codes that differ only in their last segment are ordered by that segment's
   * integer value: "1.2.1.4" sorts after "1.2.1.1", and "1.10" after "1.9".
   */
  lemma CompareLastSegment(p: string, u: string, v: string)
    requires IsDottedCode(p) && IsAllDigits(u) && IsAllDigits(v)
    ensures CompareCriterionCodes(p + "." + u, p + "." + v)
            == Segments.Sign(DigitsValue(u), DigitsValue(v))
  {
    var a, b := p + "." + u, p + "." + v;
    AppendSegmentIsCode(p, u);
    AppendSegmentIsCode(p, v);
    NormalizeCode(a);
    NormalizeCode(b);
    SegmentValuesAppend(p, u);
    SegmentValuesAppend(p, v);
    Segments.CompareLastSegment(SegmentValues(p), DigitsValue(u), DigitsValue(v));
    if a == b {
      assert u == a[|p| + 1..] == b[|p| + 1..] == v;
    }
  }

  /** A missing trailing segment counts as 0: "1.2", "1.2.0" and "1.2.00" compare equal. */
  lemma CompareMissingSegmentIsZero(p: string, z: string)
    requires IsDottedCode(p) && IsAllDigits(z) && DigitsValue(z) == 0
    ensures CompareCriterionCodes(p, p + "." + z) == 0
  {
    var b := p + "." + z;
    AppendSegmentIsCode(p, z);
    NormalizeCode(p);
    NormalizeCode(b);
    SegmentValuesAppend(p, z);
    Segments.CompareTrailingZero(SegmentValues(p));
    assert p != b by { assert |p| < |b|; }
  }
}
