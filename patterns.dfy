/**
  The two line patterns of `SyllabusService` and its bullet stripper, written
  out as matchers over characters instead of regular expressions:

    SECTOR_LINE    = ^\s*(\d+)\.\s*(.+?)\s*$
    COURSE_HEADING = ^\s*\d+\s*[\.)]\s*(.+?)\s*$

  Both are used with `Matcher.matches()`, so the whole line must be consumed.
  The prefix up to the dot or parenthesis has exactly one way to match (no
  part of it can give characters back), so only the tail `\s*(.+?)\s*` needs
  the backtracking order of `java.util.regex`: greedy first, lazy second.
*/
module LinePatterns {
  import opened Wrappers
  import opened JavaText

  /** `rest` splits as `\s*` (up to `i`), a group `.+` (from `i` to `j`), and `\s*` (from `j`). */
  ghost predicate ValidTail(rest: string, i: int, j: int) {
    && 0 <= i < j <= |rest|
    && (forall k :: 0 <= k < i ==> IsRegexSpace(rest[k]))
    && (forall k :: i <= k < j ==> !IsDotExcluded(rest[k]))
    && (forall k :: j <= k < |rest| ==> IsRegexSpace(rest[k]))
  }

  /** The start of the longest run of `\s` that ends `s`. */
  function SpaceSuffixStart(s: string): (e: nat)
    ensures e <= |s|
    ensures forall k :: e <= k < |s| ==> IsRegexSpace(s[k])
    ensures e > 0 ==> !IsRegexSpace(s[e - 1])
    decreases |s|
  {
    if s != [] && IsRegexSpace(s[|s| - 1]) then SpaceSuffixStart(s[..|s| - 1]) else |s|
  }

  /** The last position holding a character that `.` matches. */
  function LastDotMatch(s: string): (r: Option<nat>)
    ensures r.Some? ==> r.value < |s| && !IsDotExcluded(s[r.value])
    ensures r.Some? ==> forall k :: r.value < k < |s| ==> IsDotExcluded(s[k])
    ensures r.None? ==> forall k :: 0 <= k < |s| ==> IsDotExcluded(s[k])
    decreases |s|
  {
    if s == [] then None
    else if !IsDotExcluded(s[|s| - 1]) then Some(|s| - 1)
    else LastDotMatch(s[..|s| - 1])
  }

  /** Whether `s[i..j]` holds a line terminator that `.` does not match. */
  predicate HasDotExcluded(s: string, i: nat, j: nat)
    requires i <= j <= |s|
  {
    exists k :: i <= k < j && IsDotExcluded(s[k])
  }

  /** Where `\s*(.+?)\s*` puts the bounds of its group when it must match all of `rest`:
      after the greedy `\s*` has taken every leading `\s`, the lazy group stops where the
      trailing run of `\s` begins; when `rest` is all `\s`, the first `\s*` gives back just
      enough for the group to take one character. */
  function TailGroup(rest: string): Option<(nat, nat)> {
    var start := SkipRegexSpaces(rest, 0);
    if start < |rest| then
      var end := SpaceSuffixStart(rest);
      if HasDotExcluded(rest, start, end) then None else Some((start, end))
    else
      match LastDotMatch(rest)
      case None => None
      case Some(k) => Some((k, k + 1))
  }

  /** The bounds `TailGroup` picks are the ones `java.util.regex` picks: among all ways to
      split `rest`, the one with the largest start, and the smallest end for that start; and
      there is none exactly when no split exists. */
  lemma TailGroupSpec(rest: string)
    ensures TailGroup(rest).Some? ==> ValidTail(rest, TailGroup(rest).value.0, TailGroup(rest).value.1)
    ensures TailGroup(rest).Some? ==> forall i, j :: ValidTail(rest, i, j) ==>
              i <= TailGroup(rest).value.0 && (i == TailGroup(rest).value.0 ==> TailGroup(rest).value.1 <= j)
    ensures TailGroup(rest).None? ==> forall i, j :: !ValidTail(rest, i, j)
  {
    var start := SkipRegexSpaces(rest, 0);
    if start < |rest| {
      var end := SpaceSuffixStart(rest);
      assert start < end by {
        assert !IsRegexSpace(rest[start]);
      }
      assert forall i, j :: ValidTail(rest, i, j) ==> i <= start && end <= j;
      if HasDotExcluded(rest, start, end) {
        var m :| start <= m < end && IsDotExcluded(rest[m]);
        assert forall i, j :: ValidTail(rest, i, j) ==> i <= m < j;
      }
    } else {
      match LastDotMatch(rest)
      case None =>
        assert forall i, j :: 0 <= i < |rest| ==> IsDotExcluded(rest[i]) && !ValidTail(rest, i, j);
      case Some(k) =>
        assert forall i, j :: k < i < |rest| ==> IsDotExcluded(rest[i]) && !ValidTail(rest, i, j);
    }
  }

  /** The group of `\s*(.+?)\s*` matched against all of `rest`, if it matches. */
  function LazyGroup(rest: string): Option<string> {
    match TailGroup(rest)
    case None => None
    case Some((i, j)) => Some(rest[i..j])
  }

  /** `SECTOR_LINE.matcher(line).matches()`: the sector number (`group(1)`) and the text of `group(2)`. */
  function MatchSectorLine(line: string): Option<(nat, string)> {
    var p := SkipRegexSpaces(line, 0);
    var d := SkipDigits(line, p);
    if d == p || d == |line| || line[d] != '.' then None
    else
      match LazyGroup(line[d + 1..])
      case None => None
      case Some(g) => Some((DecimalValue(line[p..d]), g))
  }

  /** `COURSE_HEADING.matcher(line).matches()`: the text of `group(1)`. */
  function MatchCourseHeading(line: string): Option<string> {
    var p := SkipRegexSpaces(line, 0);
    var d := SkipDigits(line, p);
    if d == p then None
    else
      var q := SkipRegexSpaces(line, d);
      if q == |line| || (line[q] != '.' && line[q] != ')') then None
      else LazyGroup(line[q + 1..])
  }

  /** The bullet `•` as it reads when its UTF-8 bytes are decoded as Windows-1252. */
  const MisdecodedBullet: string := "\U{00E2}\U{20AC}\U{00A2}"

  /** The length of the marker `^(â€¢|•|\-|\*)` at the start of `line`, or 0 when there is none. */
  function BulletMarkerLength(line: string): (m: nat)
    ensures m <= |line|
  {
    if StartsWith(line, MisdecodedBullet) then |MisdecodedBullet|
    else if line != [] && (line[0] == '•' || line[0] == '-' || line[0] == '*') then 1
    else 0
  }

  /** `line.replaceFirst("^(â€¢|•|\\-|\\*)\\s*", "").trim()`. */
  function StripBullet(line: string): string {
    var m := BulletMarkerLength(line);
    if m == 0 then Trim(line) else Trim(line[SkipRegexSpaces(line, m)..])
  }

  /** `extractBulletText(line)`: the stripped line, or `None` (for `null`) when stripping changed nothing. */
  function ExtractBulletText(line: string): Option<string> {
    var cleaned := StripBullet(line);
    if cleaned == line then None else Some(cleaned)
  }

  /** On a trimmed line, as the master-list parser passes it, a result comes back exactly
      when the line starts with a bullet marker, and it is the stripped line. */
  lemma ExtractBulletOfTrimmed(line: string)
    requires Trim(line) == line
    ensures ExtractBulletText(line).Some? <==> BulletMarkerLength(line) > 0
    ensures ExtractBulletText(line).Some? ==> ExtractBulletText(line).value == StripBullet(line)
  {
    var m := BulletMarkerLength(line);
    if m > 0 {
      var rest := line[SkipRegexSpaces(line, m)..];
      assert |StripBullet(line)| <= |rest| < |line|;
    }
  }

  /** A bulleted course line gives back its course name. */
  lemma ExtractBulletRoundTrip(marker: char, name: string)
    requires marker == '•' || marker == '-' || marker == '*'
    requires name != [] && !IsTrimmable(name[0]) && !IsTrimmable(name[|name| - 1])
    ensures ExtractBulletText([marker, ' '] + name) == Some(name)
  {
    var line := [marker, ' '] + name;
    assert !StartsWith(line, MisdecodedBullet);
    assert !IsRegexSpace(name[0]);
    assert SkipRegexSpaces(line, 1) == 2 by {
      var k := SkipRegexSpaces(line, 1);
      assert IsRegexSpace(line[1]);
      assert line[2] == name[0];
    }
    assert line[2..] == name;
  }

  /** The decimal digits of `n`, most significant first, without leading zeros. */
  function DecimalDigits(n: nat): (ds: string)
    ensures ds != []
    ensures forall k :: 0 <= k < |ds| ==> IsDigit(ds[k])
    decreases n
  {
    var last := [(('0' as int) + n % 10) as char];
    if n < 10 then last else DecimalDigits(n / 10) + last
  }

  /** `Integer.parseInt` reads back the number its decimal digits were written from. */
  lemma {:induction false} DecimalRoundTrip(n: nat)
    ensures DecimalValue(DecimalDigits(n)) == n
    decreases n
  {
    var ds := DecimalDigits(n);
    if n >= 10 {
      DecimalRoundTrip(n / 10);
      assert ds[..|ds| - 1] == DecimalDigits(n / 10);
    }
  }

  /** Where a run of digits followed by a non-digit ends. */
  lemma DigitsEndAt(line: string, ds: string)
    requires ds != [] && forall k :: 0 <= k < |ds| ==> IsDigit(ds[k])
    requires |ds| < |line| && ds == line[..|ds|] && !IsDigit(line[|ds|])
    ensures SkipRegexSpaces(line, 0) == 0
    ensures SkipDigits(line, 0) == |ds|
  {
    assert !IsRegexSpace(line[0]) by {
      assert line[0] == ds[0];
    }
  }

  /** A tail made of one space and a name with no `\s` at either end and no line terminator
      gives that name back as the group. */
  lemma LazyGroupOfSpacedName(name: string)
    requires name != [] && !IsRegexSpace(name[0]) && !IsRegexSpace(name[|name| - 1])
    requires forall k :: 0 <= k < |name| ==> !IsDotExcluded(name[k])
    ensures LazyGroup([' '] + name) == Some(name)
  {
    var rest := [' '] + name;
    assert rest[1] == name[0];
    assert ValidTail(rest, 1, |rest|);
    TailGroupSpec(rest);
    var r := TailGroup(rest);
    assert r.value.0 >= 1 && r.value.1 <= |rest|;
    assert r == Some((1, |rest|));
    assert rest[1..|rest|] == name;
  }

  /** A sector header written as `<n>. <name>` matches `SECTOR_LINE` with number `n` and group `name`. */
  lemma SectorLineRoundTrip(n: nat, name: string)
    requires name != [] && !IsRegexSpace(name[0]) && !IsRegexSpace(name[|name| - 1])
    requires forall k :: 0 <= k < |name| ==> !IsDotExcluded(name[k])
    ensures MatchSectorLine(DecimalDigits(n) + ". " + name) == Some((n, name))
  {
    var ds := DecimalDigits(n);
    var line := ds + ". " + name;
    DigitsEndAt(line, ds);
    assert line[|ds| + 1..] == [' '] + name;
    LazyGroupOfSpacedName(name);
    assert line[0..|ds|] == ds;
    DecimalRoundTrip(n);
  }

  /** A course heading written as `<n>. <name>` or `<n>) <name>` matches `COURSE_HEADING` with group `name`. */
  lemma CourseHeadingRoundTrip(n: nat, separator: char, name: string)
    requires separator == '.' || separator == ')'
    requires name != [] && !IsRegexSpace(name[0]) && !IsRegexSpace(name[|name| - 1])
    requires forall k :: 0 <= k < |name| ==> !IsDotExcluded(name[k])
    ensures MatchCourseHeading(DecimalDigits(n) + [separator, ' '] + name) == Some(name)
  {
    var ds := DecimalDigits(n);
    var line := ds + [separator, ' '] + name;
    DigitsEndAt(line, ds);
    assert SkipRegexSpaces(line, |ds|) == |ds| by {
      assert !IsRegexSpace(line[|ds|]);
    }
    assert line[|ds| + 1..] == [' '] + name;
    LazyGroupOfSpacedName(name);
  }

  /** A line that does not start with a digit (after `\s`) is never a heading. */
  lemma HeadingNeedsNumber(line: string)
    requires forall k :: 0 <= k < |line| ==> !IsDigit(line[k])
    ensures MatchCourseHeading(line) == None
    ensures MatchSectorLine(line) == None
  {
    var p := SkipRegexSpaces(line, 0);
    if p < |line| {
      assert !IsDigit(line[p]);
    }
  }
}
