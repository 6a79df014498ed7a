/**
  The pieces of `java.lang.String`, `java.lang.Character` and `java.util.regex`
  that the catalog engine relies on, written out character by character.
  Strings are sequences of Unicode scalar values; case folding beyond ASCII
  and surrogate pairs are not modelled.
*/
module JavaText {

  /** `Character.isWhitespace` as of Java 17: the ASCII controls U+0009..U+000D and
      U+001C..U+001F, the space, and the Unicode space, line and paragraph
      separators except the three non-breaking spaces (U+00A0, U+2007, U+202F). */
  predicate IsWhitespace(c: char) {
    || ('\t' <= c <= '\r')
    || ('\U{1C}' <= c <= ' ')
    || c == '\U{1680}'
    || ('\U{2000}' <= c <= '\U{2006}')
    || ('\U{2008}' <= c <= '\U{200A}')
    || c == '\U{2028}' || c == '\U{2029}' || c == '\U{205F}' || c == '\U{3000}'
  }

  /** `String.isBlank`: empty, or whitespace only. */
  predicate IsBlank(s: string) {
    forall i :: 0 <= i < |s| ==> IsWhitespace(s[i])
  }

  /** The characters `String.trim` removes from both ends: every code point up to U+0020. */
  predicate IsTrimmable(c: char) {
    c <= ' '
  }

  /** The regular-expression class `\s` (without UNICODE_CHARACTER_CLASS): `[ \t\n\x0B\f\r]`. */
  predicate IsRegexSpace(c: char) {
    c == ' ' || ('\t' <= c <= '\r')
  }

  /** The regular-expression class `\d`: `[0-9]`. */
  predicate IsDigit(c: char) {
    '0' <= c <= '9'
  }

  /** The line terminators that the regular-expression `.` does not match. */
  predicate IsDotExcluded(c: char) {
    c == '\n' || c == '\r' || c == '\U{85}' || c == '\U{2028}' || c == '\U{2029}'
  }

  /** The single characters matched by `\R` (besides the two-character `\r\n`). */
  predicate IsLineBreak(c: char) {
    ('\n' <= c <= '\r') || c == '\U{85}' || c == '\U{2028}' || c == '\U{2029}'
  }

  /** Leading part of `String.trim`. */
  function TrimStart(s: string): (r: string)
    ensures |r| <= |s| && r == s[|s| - |r|..]
    ensures forall i :: 0 <= i < |s| - |r| ==> IsTrimmable(s[i])
    ensures r != [] ==> !IsTrimmable(r[0])
    decreases |s|
  {
    if s != [] && IsTrimmable(s[0]) then TrimStart(s[1..]) else s
  }

  /** Trailing part of `String.trim`. */
  function TrimEnd(s: string): (r: string)
    ensures |r| <= |s| && r == s[..|r|]
    ensures forall i :: |r| <= i < |s| ==> IsTrimmable(s[i])
    ensures r != [] ==> !IsTrimmable(r[|r| - 1])
    decreases |s|
  {
    if s != [] && IsTrimmable(s[|s| - 1]) then TrimEnd(s[..|s| - 1]) else s
  }

  /** `String.trim`: drops every code point up to U+0020 from both ends. */
  function Trim(s: string): (r: string)
    ensures |r| <= |s|
    ensures r != [] ==> !IsTrimmable(r[0]) && !IsTrimmable(r[|r| - 1])
    ensures (s == [] || (!IsTrimmable(s[0]) && !IsTrimmable(s[|s| - 1]))) ==> r == s
  {
    TrimEnd(TrimStart(s))
  }

  /** `String.contains`: `t` occurs in `s` as a contiguous substring. */
  predicate Contains(s: string, t: string)
    decreases |s|
  {
    StartsWith(s, t) || (s != [] && Contains(s[1..], t))
  }

  /** `s.startsWith(p)`. */
  predicate StartsWith(s: string, p: string) {
    |p| <= |s| && s[..|p|] == p
  }

  /** The first index at or after `i` where `pred` fails, for a regular-expression `X*` scan. */
  function SkipRegexSpaces(s: string, i: nat): (j: nat)
    requires i <= |s|
    ensures i <= j <= |s|
    ensures forall k :: i <= k < j ==> IsRegexSpace(s[k])
    ensures j < |s| ==> !IsRegexSpace(s[j])
    decreases |s| - i
  {
    if i < |s| && IsRegexSpace(s[i]) then SkipRegexSpaces(s, i + 1) else i
  }

  /** The end of the run of non-`\s` characters starting at `i`. */
  function SkipNonSpaces(s: string, i: nat): (j: nat)
    requires i <= |s|
    ensures i <= j <= |s|
    ensures forall k :: i <= k < j ==> !IsRegexSpace(s[k])
    ensures j < |s| ==> IsRegexSpace(s[j])
    decreases |s| - i
  {
    if i < |s| && !IsRegexSpace(s[i]) then SkipNonSpaces(s, i + 1) else i
  }

  /** The end of the run of `\d` characters starting at `i`. */
  function SkipDigits(s: string, i: nat): (j: nat)
    requires i <= |s|
    ensures i <= j <= |s|
    ensures forall k :: i <= k < j ==> IsDigit(s[k])
    ensures j < |s| ==> !IsDigit(s[j])
    decreases |s| - i
  {
    if i < |s| && IsDigit(s[i]) then SkipDigits(s, i + 1) else i
  }

  /** `Integer.parseInt` of a run of decimal digits (no overflow: integers are unbounded here). */
  function DecimalValue(ds: string): nat
    requires forall k :: 0 <= k < |ds| ==> IsDigit(ds[k])
    decreases |ds|
  {
    if ds == [] then 0
    else
      assert IsDigit(ds[|ds| - 1]);
      DecimalValue(ds[..|ds| - 1]) * 10 + (ds[|ds| - 1] as int - '0' as int)
  }

  /** The pieces of `s.split("\\s+")`, less the empty strings: the maximal runs of non-`\s` characters. */
  function Words(s: string): seq<string>
    decreases |s|
  {
    var i := SkipRegexSpaces(s, 0);
    if i == |s| then []
    else
      var j := SkipNonSpaces(s, i);
      [s[i..j]] + Words(s[j..])
  }

  /** Every token is non-empty and free of `\s` characters. */
  lemma {:induction false} WordsAreTokens(s: string)
    ensures forall w :: w in Words(s) ==> w != [] && forall k :: 0 <= k < |w| ==> !IsRegexSpace(w[k])
    decreases |s|
  {
    var i := SkipRegexSpaces(s, 0);
    if i < |s| {
      var j := SkipNonSpaces(s, i);
      WordsAreTokens(s[j..]);
    }
  }

  /** `s[i..j]` is a maximal run of non-`\s` characters: non-empty, with `\s` or an end of `s` on each side. */
  ghost predicate IsMaximalRun(s: string, i: int, j: int) {
    && 0 <= i < j <= |s|
    && (forall k :: i <= k < j ==> !IsRegexSpace(s[k]))
    && (i == 0 || IsRegexSpace(s[i - 1]))
    && (j == |s| || IsRegexSpace(s[j]))
  }

  lemma SliceOfSuffix(s: string, m: nat, a: nat, b: nat)
    requires m <= |s| && a <= b <= |s| - m
    ensures s[m..][a..b] == s[m + a..m + b]
  {
  }

  lemma SplitInThree(s: string, i: nat, k: nat)
    requires i <= k <= |s|
    ensures s == s[..i] + s[i..k] + s[k..]
  {
  }

  /** A maximal run of what follows the first word is one of `s` too, shifted by the word's end. */
  lemma RunOfRestIsRun(s: string, i0: nat, j0: nat, i: nat, j: nat)
    requires i0 == SkipRegexSpaces(s, 0) && i0 < |s| && j0 == SkipNonSpaces(s, i0)
    requires IsMaximalRun(s[j0..], i, j)
    ensures IsMaximalRun(s, j0 + i, j0 + j) && s[j0..][i..j] == s[j0 + i..j0 + j]
  {
    SliceOfSuffix(s, j0, i, j);
  }

  /** A maximal run of `s` is its first word or lies wholly after it. */
  lemma RunIsFirstOrInRest(s: string, i0: nat, j0: nat, i: nat, j: nat)
    requires i0 == SkipRegexSpaces(s, 0) && i0 < |s| && j0 == SkipNonSpaces(s, i0)
    requires IsMaximalRun(s, i, j)
    ensures (i == i0 && j == j0) || (j0 < i && IsMaximalRun(s[j0..], i - j0, j - j0) && s[j0..][i - j0..j - j0] == s[i..j])
  {
    assert !IsRegexSpace(s[i]);
    if i != i0 {
      assert j0 < i;
      SliceOfSuffix(s, j0, i - j0, j - j0);
    }
  }

  /** Every word of `s` is one of its maximal runs of non-`\s` characters. */
  lemma {:induction false} WordsAreMaximalRuns(s: string)
    ensures forall w :: w in Words(s) ==> exists i, j :: IsMaximalRun(s, i, j) && w == s[i..j]
    decreases |s|
  {
    var i0 := SkipRegexSpaces(s, 0);
    if i0 < |s| {
      var j0 := SkipNonSpaces(s, i0);
      var rest := s[j0..];
      WordsAreMaximalRuns(rest);
      assert Words(s) == [s[i0..j0]] + Words(rest);
      assert IsMaximalRun(s, i0, j0);
      forall w | w in Words(rest)
        ensures exists i, j :: IsMaximalRun(s, i, j) && w == s[i..j]
      {
        var i', j' :| IsMaximalRun(rest, i', j') && w == rest[i'..j'];
        RunOfRestIsRun(s, i0, j0, i', j');
      }
    }
  }

  /** Every maximal run of non-`\s` characters of `s` is one of its words. */
  lemma {:induction false} MaximalRunsAreWords(s: string)
    ensures forall i, j :: IsMaximalRun(s, i, j) ==> s[i..j] in Words(s)
    decreases |s|
  {
    var i0 := SkipRegexSpaces(s, 0);
    assert forall i, j :: IsMaximalRun(s, i, j) ==> !IsRegexSpace(s[i]) && i0 <= i;
    if i0 < |s| {
      var j0 := SkipNonSpaces(s, i0);
      var rest := s[j0..];
      MaximalRunsAreWords(rest);
      assert Words(s) == [s[i0..j0]] + Words(rest);
      forall i, j | IsMaximalRun(s, i, j)
        ensures s[i..j] in Words(s)
      {
        RunIsFirstOrInRest(s, i0, j0, i, j);
      }
    }
  }

  /** `new HashSet<>(Arrays.asList(s.split("\\s+")))` with `""` removed. */
  function Tokens(s: string): set<string> {
    set w | w in Words(s)
  }

  /** The first index at or after `i` that holds a `\R` line-break character. */
  function FirstLineBreak(s: string, i: nat): (j: nat)
    requires i <= |s|
    ensures i <= j <= |s|
    ensures forall k :: i <= k < j ==> !IsLineBreak(s[k])
    ensures j < |s| ==> IsLineBreak(s[j])
    decreases |s| - i
  {
    if i == |s| || IsLineBreak(s[i]) then i else FirstLineBreak(s, i + 1)
  }

  /** How many characters the `\R` match at `i` consumes: two for `\r\n`, else one. */
  function BreakWidth(s: string, i: nat): nat
    requires i < |s|
  {
    if s[i] == '\r' && i + 1 < |s| && s[i + 1] == '\n' then 2 else 1
  }

  /** Every piece between `\R` matches (`\r\n` counts as one break), trailing empty pieces included. */
  function SplitAtLineBreaks(s: string): (r: seq<string>)
    ensures |r| >= 1
    ensures forall p :: p in r ==> forall k :: 0 <= k < |p| ==> !IsLineBreak(p[k])
    ensures |r| == 1 <==> forall k :: 0 <= k < |s| ==> !IsLineBreak(s[k])
    decreases |s|
  {
    var i := FirstLineBreak(s, 0);
    if i == |s| then [s]
    else [s[..i]] + SplitAtLineBreaks(s[i + BreakWidth(s, i)..])
  }

  /** The `\R` matches of `s` in order, each `"\r\n"` or a single line-break character. */
  function LineBreaksOf(s: string): (r: seq<string>)
    ensures forall b :: b in r ==> b == "\r\n" || (|b| == 1 && IsLineBreak(b[0]))
    decreases |s|
  {
    var i := FirstLineBreak(s, 0);
    if i == |s| then []
    else [s[i..i + BreakWidth(s, i)]] + LineBreaksOf(s[i + BreakWidth(s, i)..])
  }

  /** `pieces[0] + breaks[0] + pieces[1] + ... + pieces[|breaks|]`. */
  function Interleave(pieces: seq<string>, breaks: seq<string>): string
    requires |pieces| == |breaks| + 1
    decreases |breaks|
  {
    if breaks == [] then pieces[0]
    else pieces[0] + breaks[0] + Interleave(pieces[1..], breaks[1..])
  }

  /** What follows the first break `t`: the later pieces and breaks are those of `t`, and after a lone `\r` it does not start with `\n`. */
  lemma FirstBreakRest(s: string) returns (t: string)
    requires LineBreaksOf(s) != []
    ensures |t| < |s|
    ensures |SplitAtLineBreaks(s)| >= 2
    ensures SplitAtLineBreaks(s)[1..] == SplitAtLineBreaks(t) && LineBreaksOf(s)[1..] == LineBreaksOf(t)
    ensures LineBreaksOf(s)[0] == "\r" ==> t == [] || t[0] != '\n'
  {
    var i := FirstLineBreak(s, 0);
    var w := BreakWidth(s, i);
    t := s[i + w..];
    assert LineBreaksOf(s) == [s[i..i + w]] + LineBreaksOf(t);
    assert SplitAtLineBreaks(s) == [s[..i]] + SplitAtLineBreaks(t);
    if LineBreaksOf(s)[0] == "\r" {
      assert |s[i..i + w]| == 1 == w;
    }
  }

  /** When the first piece is empty, the first break starts at the first character. */
  lemma LeadingBreak(t: string)
    requires LineBreaksOf(t) != [] && SplitAtLineBreaks(t)[0] == []
    ensures t != [] && LineBreaksOf(t)[0][0] == t[0]
  {
    var j := FirstLineBreak(t, 0);
    assert SplitAtLineBreaks(t)[0] == t[..j];
  }

  /** A lone `\r` break at the front is not followed by `\n`: `\r\n` would have been one break. */
  lemma LoneReturnAtFront(s: string)
    requires |LineBreaksOf(s)| >= 2 && LineBreaksOf(s)[0] == "\r"
    ensures |SplitAtLineBreaks(s)| >= 2
    ensures !(SplitAtLineBreaks(s)[1] == "" && LineBreaksOf(s)[1] == "\n")
  {
    var t := FirstBreakRest(s);
    assert LineBreaksOf(t) != [] && SplitAtLineBreaks(s)[1] == SplitAtLineBreaks(t)[0];
    if SplitAtLineBreaks(t)[0] == [] {
      LeadingBreak(t);
    }
  }

  /** Splitting loses nothing: the pieces glued back with the breaks between them give `s` again. */
  lemma {:induction false} SplitAtLineBreaksRejoins(s: string)
    ensures |SplitAtLineBreaks(s)| == |LineBreaksOf(s)| + 1
    ensures Interleave(SplitAtLineBreaks(s), LineBreaksOf(s)) == s
    decreases |s|
  {
    var i := FirstLineBreak(s, 0);
    if i < |s| {
      var w := BreakWidth(s, i);
      var tail := s[i + w..];
      SplitAtLineBreaksRejoins(tail);
      var ps, bs := SplitAtLineBreaks(s), LineBreaksOf(s);
      assert ps == [s[..i]] + SplitAtLineBreaks(tail);
      assert bs == [s[i..i + w]] + LineBreaksOf(tail);
      assert ps[1..] == SplitAtLineBreaks(tail) && bs[1..] == LineBreaksOf(tail);
      SplitInThree(s, i, i + w);
    }
  }

  lemma ElementOfRest(a: seq<string>, b: seq<string>, k: nat)
    requires a != [] && a[1..] == b && k < |b|
    ensures a[k + 1] == b[k]
  {
  }

  /** `\r\n` is always one break: a lone `"\r"` break is never followed directly by a `"\n"` one. */
  lemma {:induction false} CrLfIsOneBreak(s: string)
    ensures |SplitAtLineBreaks(s)| == |LineBreaksOf(s)| + 1
    ensures forall k :: 0 <= k < |LineBreaksOf(s)| - 1 && LineBreaksOf(s)[k] == "\r" ==>
              !(SplitAtLineBreaks(s)[k + 1] == "" && LineBreaksOf(s)[k + 1] == "\n")
    decreases |s|
  {
    SplitAtLineBreaksRejoins(s);
    var ps, bs := SplitAtLineBreaks(s), LineBreaksOf(s);
    if bs != [] {
      var t := FirstBreakRest(s);
      CrLfIsOneBreak(t);
      forall k | 0 <= k < |bs| - 1 && bs[k] == "\r"
        ensures !(ps[k + 1] == "" && bs[k + 1] == "\n")
      {
        if k == 0 {
          LoneReturnAtFront(s);
        } else {
          ElementOfRest(ps, SplitAtLineBreaks(t), k);
          ElementOfRest(bs, LineBreaksOf(t), k - 1);
          ElementOfRest(bs, LineBreaksOf(t), k);
        }
      }
    }
  }

  /** The pieces less their trailing empty ones, as `String.split` with limit 0 returns them. */
  function DropTrailingEmpty(ps: seq<string>): (r: seq<string>)
    ensures |r| <= |ps| && r == ps[..|r|]
    ensures r != [] ==> r[|r| - 1] != []
    ensures forall k :: |r| <= k < |ps| ==> ps[k] == []
    decreases |ps|
  {
    if ps != [] && ps[|ps| - 1] == [] then DropTrailingEmpty(ps[..|ps| - 1]) else ps
  }

  /**
   * `s.split("\\R")`: the whole string when it holds no break; otherwise the pieces between
   * breaks, of which only trailing empty ones are dropped.
   */
  function SplitLines(s: string): (r: seq<string>)
    ensures forall p :: p in r ==> forall k :: 0 <= k < |p| ==> !IsLineBreak(p[k])
    ensures (forall k :: 0 <= k < |s| ==> !IsLineBreak(s[k])) ==> r == [s]
    ensures |r| <= |SplitAtLineBreaks(s)| && r == SplitAtLineBreaks(s)[..|r|]
    ensures forall k :: |r| <= k < |SplitAtLineBreaks(s)| ==> SplitAtLineBreaks(s)[k] == []
    ensures (exists k :: 0 <= k < |s| && IsLineBreak(s[k])) && r != [] ==> r[|r| - 1] != []
  {
    var pieces := SplitAtLineBreaks(s);
    if |pieces| == 1 then pieces else DropTrailingEmpty(pieces)
  }

  /** What a `StringBuilder` holds after `append(l).append(System.lineSeparator())` for each line, the separator being `"\n"`. */
  function JoinLines(ls: seq<string>): string
    decreases |ls|
  {
    if ls == [] then "" else JoinLines(ls[..|ls| - 1]) + ls[|ls| - 1] + "\n"
  }
}
