/**
  `SyllabusService.normalize`: the key under which every course name is
  stored and looked up. Lower-case the text, spell `&` as ` and `, turn every
  run of characters outside `[a-z0-9]` into one space, and trim.
*/
module Normalization {
  import opened Wrappers
  import opened JavaText

  predicate IsKeyChar(c: char) {
    ('a' <= c <= 'z') || ('0' <= c <= '9')
  }

  /** `Character.toLowerCase` under `Locale.ROOT`, for ASCII letters; every other character is kept. */
  function LowerChar(c: char): char {
    if 'A' <= c <= 'Z' then (c as int + 32) as char else c
  }

  /** `text.toLowerCase(Locale.ROOT)`. */
  function LowerAscii(s: string): (r: string)
    ensures |r| == |s|
    ensures forall i :: 0 <= i < |s| ==> r[i] == LowerChar(s[i])
  {
    seq(|s|, i requires 0 <= i < |s| => LowerChar(s[i]))
  }

  /** `.replace("&", " and ")`. */
  function ExpandAmpersand(s: string): string
    decreases |s|
  {
    if s == [] then []
    else (if s[0] == '&' then " and " else [s[0]]) + ExpandAmpersand(s[1..])
  }

  /** Drops the leading run of characters outside `[a-z0-9]`. */
  function DropSeparators(s: string): (r: string)
    ensures |r| <= |s| && r == s[|s| - |r|..]
    ensures r != [] ==> IsKeyChar(r[0])
    ensures s != [] && IsKeyChar(s[0]) ==> r == s
    decreases |s|
  {
    if s != [] && !IsKeyChar(s[0]) then DropSeparators(s[1..]) else s
  }

  /** Only key characters and spaces, and never two spaces in a row. */
  ghost predicate IsSpacedWords(s: string) {
    && (forall i :: 0 <= i < |s| ==> IsKeyChar(s[i]) || s[i] == ' ')
    && (forall i, j :: 0 <= i && j == i + 1 && j < |s| ==> !(s[i] == ' ' && s[j] == ' '))
  }

  /** The shape of every normalized key: spaced words with no space at either end. */
  ghost predicate IsNormalized(s: string) {
    IsSpacedWords(s) && (s != [] ==> s[0] != ' ' && s[|s| - 1] != ' ')
  }

  /** `.replaceAll("[^a-z0-9]+", " ")`: each maximal run of non-key characters becomes one space. */
  function CollapseSeparators(s: string): (r: string)
    ensures s != [] && IsKeyChar(s[0]) ==> r != [] && r[0] == s[0]
    decreases |s|
  {
    if s == [] then []
    else if IsKeyChar(s[0]) then [s[0]] + CollapseSeparators(s[1..])
    else [' '] + CollapseSeparators(DropSeparators(s[1..]))
  }

  /** `normalize(text)` for a non-null `text`. */
  function Normalize(s: string): string {
    Trim(CollapseSeparators(ExpandAmpersand(LowerAscii(s))))
  }

  /** `normalize(text)`, where `None` stands for `null`. */
  function NormalizeNullable(text: Option<string>): string {
    match text
    case None => ""
    case Some(s) => Normalize(s)
  }

  lemma SpacedWordsSlice(s: string, i: nat, j: nat)
    requires IsSpacedWords(s) && i <= j <= |s|
    ensures IsSpacedWords(s[i..j])
  {
    var t := s[i..j];
    forall k, m | 0 <= k && m == k + 1 && m < |t| ensures !(t[k] == ' ' && t[m] == ' ') {
      assert t[k] == s[i + k] && t[m] == s[i + m];
    }
  }

  /** A character of spaced words put in front of spaced words keeps the shape, unless it
      puts two spaces in a row. */
  lemma ConsSpacedWords(c: char, rest: string)
    requires IsKeyChar(c) || c == ' '
    requires IsSpacedWords(rest)
    requires c == ' ' && rest != [] ==> rest[0] != ' '
    ensures IsSpacedWords([c] + rest)
  {
    var r := [c] + rest;
    forall k | 0 <= k < |r| ensures IsKeyChar(r[k]) || r[k] == ' ' {
      if k > 0 { assert r[k] == rest[k - 1]; }
    }
    forall k, m | 0 <= k && m == k + 1 && m < |r| ensures !(r[k] == ' ' && r[m] == ' ') {
      if k > 0 { assert r[k] == rest[k - 1] && r[m] == rest[m - 1]; }
    }
  }

  /** Collapsing the separators leaves spaced words. */
  lemma {:induction false} CollapseSpacedWords(s: string)
    ensures IsSpacedWords(CollapseSeparators(s))
    decreases |s|
  {
    if s != [] {
      if IsKeyChar(s[0]) {
        CollapseSpacedWords(s[1..]);
        ConsSpacedWords(s[0], CollapseSeparators(s[1..]));
      } else {
        var tail := DropSeparators(s[1..]);
        CollapseSpacedWords(tail);
        ConsSpacedWords(' ', CollapseSeparators(tail));
      }
    }
  }

  /** Trimming spaced words leaves the normalized shape. */
  lemma TrimSpacedWords(c: string)
    requires IsSpacedWords(c)
    ensures IsNormalized(Trim(c))
  {
    var front := TrimStart(c);
    SpacedWordsSlice(c, |c| - |front|, |c|);
    var r := TrimEnd(front);
    SpacedWordsSlice(front, 0, |r|);
    assert Trim(c) == r;
  }

  /** Every result of `normalize` has the normalized shape. */
  lemma NormalizeShape(s: string)
    ensures IsNormalized(Normalize(s))
  {
    CollapseSpacedWords(ExpandAmpersand(LowerAscii(s)));
    TrimSpacedWords(CollapseSeparators(ExpandAmpersand(LowerAscii(s))));
  }

  lemma LowerFixesKey(s: string)
    requires IsSpacedWords(s)
    ensures LowerAscii(s) == s
  {
    assert forall i :: 0 <= i < |s| ==> LowerAscii(s)[i] == s[i];
  }

  lemma {:induction false} ExpandFixesKey(s: string)
    requires IsSpacedWords(s)
    ensures ExpandAmpersand(s) == s
    decreases |s|
  {
    if s != [] {
      SpacedWordsSlice(s, 1, |s|);
      ExpandFixesKey(s[1..]);
      assert s == [s[0]] + s[1..];
    }
  }

  lemma {:induction false} CollapseFixesKey(s: string)
    requires IsSpacedWords(s)
    ensures CollapseSeparators(s) == s
    decreases |s|
  {
    if s != [] {
      SpacedWordsSlice(s, 1, |s|);
      assert s == [s[0]] + s[1..];
      if !IsKeyChar(s[0]) {
        assert |s| > 1 ==> s[1] != ' ';
        assert DropSeparators(s[1..]) == s[1..];
      }
      CollapseFixesKey(s[1..]);
    }
  }

  /** A string that already has the normalized shape is its own key. */
  lemma NormalizeFixesNormalized(s: string)
    requires IsNormalized(s)
    ensures Normalize(s) == s
  {
    LowerFixesKey(s);
    ExpandFixesKey(s);
    CollapseFixesKey(s);
  }

  /** `normalize(normalize(s)) == normalize(s)`. */
  lemma NormalizeIdempotent(s: string)
    ensures Normalize(Normalize(s)) == Normalize(s)
  {
    NormalizeShape(s);
    NormalizeFixesNormalized(Normalize(s));
  }

  /** A normalized key is blank exactly when it is empty. */
  lemma NormalizedBlankIsEmpty(s: string)
    requires IsNormalized(s)
    ensures IsBlank(s) <==> s == []
  {
    if s != [] {
      assert !IsWhitespace(s[0]);
    }
  }

  /** A character that `normalize` turns into (part of) a separator: outside `[a-z0-9]` once
      lower-cased, and not `&`. */
  predicate IsSeparatorChar(c: char) {
    !IsKeyChar(LowerChar(c)) && c != '&'
  }

  /** Lower-casing twice is lower-casing once. */
  lemma LowerAsciiIdempotent(s: string)
    ensures LowerAscii(LowerAscii(s)) == LowerAscii(s)
  {
    assert forall i :: 0 <= i < |s| ==> LowerAscii(LowerAscii(s))[i] == LowerAscii(s)[i];
  }

  /** `normalize` ignores case: a lower-cased text has the same key. */
  lemma NormalizeIgnoresCase(s: string)
    ensures Normalize(LowerAscii(s)) == Normalize(s)
  {
    LowerAsciiIdempotent(s);
  }

  /** Lower-casing works character by character. */
  lemma LowerAsciiConcat(a: string, b: string)
    ensures LowerAscii(a + b) == LowerAscii(a) + LowerAscii(b)
  {
    assert forall i :: 0 <= i < |a + b| ==> LowerAscii(a + b)[i] == (LowerAscii(a) + LowerAscii(b))[i];
  }

  /** Spelling out `&` works character by character. */
  lemma {:induction false} ExpandConcat(a: string, b: string)
    ensures ExpandAmpersand(a + b) == ExpandAmpersand(a) + ExpandAmpersand(b)
    decreases |a|
  {
    if a == [] {
      assert a + b == b;
    } else {
      assert (a + b)[0] == a[0] && (a + b)[1..] == a[1..] + b;
      ExpandConcat(a[1..], b);
    }
  }

  /** A text without `&` is left as it is. */
  lemma {:induction false} ExpandFixesNoAmpersand(s: string)
    requires forall k :: 0 <= k < |s| ==> s[k] != '&'
    ensures ExpandAmpersand(s) == s
    decreases |s|
  {
    if s != [] {
      ExpandFixesNoAmpersand(s[1..]);
      assert s == [s[0]] + s[1..];
    }
  }

  /** Leading separators are dropped through a run of separators to what follows it. */
  lemma {:induction false} DropThroughSeparators(p: string, y: string)
    requires forall k :: 0 <= k < |p| ==> !IsKeyChar(p[k])
    ensures DropSeparators(p + y) == DropSeparators(y)
    decreases |p|
  {
    if p == [] {
      assert p + y == y;
    } else {
      assert (p + y)[0] == p[0] && (p + y)[1..] == p[1..] + y;
      DropThroughSeparators(p[1..], y);
    }
  }

  /** Dropping leading separators stops inside `x` when `x` holds a key character. */
  lemma {:induction false} DropStopsInside(x: string, z: string)
    requires exists k :: 0 <= k < |x| && IsKeyChar(x[k])
    ensures DropSeparators(x + z) == DropSeparators(x) + z
    decreases |x|
  {
    if !IsKeyChar(x[0]) {
      assert (x + z)[1..] == x[1..] + z;
      var k :| 0 <= k < |x| && IsKeyChar(x[k]);
      assert x[1..][k - 1] == x[k];
      DropStopsInside(x[1..], z);
    }
  }

  lemma ConcatAssoc(a: string, b: string, c: string)
    ensures a + (b + c) == a + b + c
  {
  }

  /** One step of collapsing, at the front. */
  lemma CollapseCons(c: char, z: string)
    ensures CollapseSeparators([c] + z) ==
              if IsKeyChar(c) then [c] + CollapseSeparators(z) else [' '] + CollapseSeparators(DropSeparators(z))
  {
    assert ([c] + z)[0] == c && ([c] + z)[1..] == z;
  }

  /** A leading run of separators becomes one blank, and the separators after it vanish. */
  lemma CollapseLeadingRun(z: string, y: string)
    requires z != [] && forall k :: 0 <= k < |z| ==> !IsKeyChar(z[k])
    ensures CollapseSeparators(z + y) == [' '] + CollapseSeparators(DropSeparators(y))
  {
    assert z + y == [z[0]] + (z[1..] + y);
    CollapseCons(z[0], z[1..] + y);
    DropThroughSeparators(z[1..], y);
  }

  /** A key character in front is kept as it is. */
  lemma CollapseKeyLed(x: string, z: string)
    requires x != [] && IsKeyChar(x[0])
    ensures CollapseSeparators(x + z) == [x[0]] + CollapseSeparators(x[1..] + z)
  {
    assert x + z == [x[0]] + (x[1..] + z);
    CollapseCons(x[0], x[1..] + z);
  }

  /** A separator in front, with a key character later in `x`, skips to that key character. */
  lemma CollapseSeparatorLed(x: string, z: string)
    requires x != [] && !IsKeyChar(x[0])
    requires exists k :: 0 <= k < |x[1..]| && IsKeyChar(x[1..][k])
    ensures CollapseSeparators(x + z) == [' '] + CollapseSeparators(DropSeparators(x[1..]) + z)
  {
    assert x + z == [x[0]] + (x[1..] + z);
    CollapseCons(x[0], x[1..] + z);
    DropStopsInside(x[1..], z);
  }

  /** Any two non-empty runs of separators in the same place collapse alike. */
  lemma {:induction false} CollapseAnySeparators(x: string, p: string, q: string, y: string)
    requires p != [] && forall k :: 0 <= k < |p| ==> !IsKeyChar(p[k])
    requires q != [] && forall k :: 0 <= k < |q| ==> !IsKeyChar(q[k])
    ensures CollapseSeparators(x + p + y) == CollapseSeparators(x + q + y)
    decreases |x|
  {
    if x == [] {
      assert x + p + y == p + y && x + q + y == q + y;
      CollapseLeadingRun(p, y);
      CollapseLeadingRun(q, y);
    } else if IsKeyChar(x[0]) {
      ConcatAssoc(x, p, y);
      ConcatAssoc(x, q, y);
      CollapseKeyLed(x, p + y);
      CollapseKeyLed(x, q + y);
      ConcatAssoc(x[1..], p, y);
      ConcatAssoc(x[1..], q, y);
      CollapseAnySeparators(x[1..], p, q, y);
    } else if exists k :: 0 <= k < |x[1..]| && IsKeyChar(x[1..][k]) {
      ConcatAssoc(x, p, y);
      ConcatAssoc(x, q, y);
      CollapseSeparatorLed(x, p + y);
      CollapseSeparatorLed(x, q + y);
      var d := DropSeparators(x[1..]);
      ConcatAssoc(d, p, y);
      ConcatAssoc(d, q, y);
      CollapseAnySeparators(d, p, q, y);
    } else {
      CollapseLeadingRun(x + p, y);
      CollapseLeadingRun(x + q, y);
    }
  }

  /** `normalize` ignores punctuation: any two non-empty runs of separators in the same place
      give the same key, so a separator can be swapped for another, or repeated. */
  lemma NormalizeIgnoresSeparators(a: string, p: string, q: string, b: string)
    requires p != [] && forall k :: 0 <= k < |p| ==> IsSeparatorChar(p[k])
    requires q != [] && forall k :: 0 <= k < |q| ==> IsSeparatorChar(q[k])
    ensures Normalize(a + p + b) == Normalize(a + q + b)
  {
    LowerAsciiConcat(a + p, b);
    LowerAsciiConcat(a, p);
    LowerAsciiConcat(a + q, b);
    LowerAsciiConcat(a, q);
    var la, lp, lq, lb := LowerAscii(a), LowerAscii(p), LowerAscii(q), LowerAscii(b);
    ExpandConcat(la + lp, lb);
    ExpandConcat(la, lp);
    ExpandConcat(la + lq, lb);
    ExpandConcat(la, lq);
    ExpandFixesNoAmpersand(lp);
    ExpandFixesNoAmpersand(lq);
    CollapseAnySeparators(ExpandAmpersand(la), lp, lq, ExpandAmpersand(lb));
  }

  /** A text made of separators only has the empty key, the key of `null`. */
  lemma NormalizeOfSeparatorsOnly(s: string)
    requires forall k :: 0 <= k < |s| ==> IsSeparatorChar(s[k])
    ensures Normalize(s) == []
  {
    var l := LowerAscii(s);
    assert forall k :: 0 <= k < |l| ==> !IsKeyChar(l[k]) && l[k] != '&';
    ExpandFixesNoAmpersand(l);
    var c := CollapseSeparators(l);
    if l != [] {
      assert l == [l[0]] + l[1..];
      CollapseCons(l[0], l[1..]);
      DropThroughSeparators(l[1..], []);
      assert l[1..] + [] == l[1..];
      assert c == [' '];
    }
    assert |Trim(c)| <= 1;
  }
}
