/**
  `SyllabusService.similarityScore` and the two best-match scans built on it
  (`findBestExpectedCourse`, `findBestSectionForCourse`). A scan keeps the
  first candidate that reaches the highest score and accepts it only when
  that score is at least `Threshold`.
*/
module Similarity {
  import opened Wrappers
  import opened JavaText
  import opened Normalization

  /** The score every fuzzy match in the catalog must reach. */
  const Threshold: int := 4
  /** The score of two equal strings. */
  const ExactScore: nat := 100
  /** Added when one string contains the other. */
  const ContainmentBonus: nat := 30
  /** Added per distinct token the two strings share. */
  const TokenBonus: nat := 5

  /** The distinct whitespace-separated tokens present in both strings. */
  function SharedTokens(a: string, b: string): set<string> {
    Tokens(a) * Tokens(b)
  }

  /** `similarityScore(a, b)` for non-null `a` and `b` (every caller passes normalized keys). */
  function Score(a: string, b: string): nat {
    if IsBlank(a) || IsBlank(b) then 0
    else if a == b then ExactScore
    else (if Contains(a, b) || Contains(b, a) then ContainmentBonus else 0) + TokenBonus * |SharedTokens(a, b)|
  }

  /** The score does not depend on the order of its arguments. */
  lemma ScoreSymmetric(a: string, b: string)
    ensures Score(a, b) == Score(b, a)
  {
    assert SharedTokens(a, b) == SharedTokens(b, a);
  }

  /** A non-blank string scores 100 against itself. */
  lemma ScoreOfEqual(a: string)
    requires !IsBlank(a)
    ensures Score(a, a) == ExactScore
  {
  }

  /** A pair clears the threshold exactly when both sides are non-blank and they are
      equal, one contains the other, or they share a token. */
  lemma ScoreAccepted(a: string, b: string)
    ensures Score(a, b) >= Threshold <==>
      !IsBlank(a) && !IsBlank(b) && (a == b || Contains(a, b) || Contains(b, a) || SharedTokens(a, b) != {})
  {
    if SharedTokens(a, b) != {} {
      var t :| t in SharedTokens(a, b);
      assert |SharedTokens(a, b)| >= |{t}|;
    }
  }

  /** The boundary case: one shared token and no containment scores exactly 5. */
  lemma ScoreOneSharedToken(a: string, b: string)
    requires !IsBlank(a) && !IsBlank(b) && a != b
    requires !Contains(a, b) && !Contains(b, a)
    requires |SharedTokens(a, b)| == 1
    ensures Score(a, b) == TokenBonus && Score(a, b) >= Threshold
  {
  }

  /** Counting one more token of the left set adds one exactly when the right set has it. */
  lemma OverlapStep(seen: set<string>, token: string, other: set<string>)
    requires token !in seen
    ensures |(seen + {token}) * other| == |seen * other| + (if token in other then 1 else 0)
  {
    if token in other {
      assert (seen + {token}) * other == seen * other + {token};
    } else {
      assert (seen + {token}) * other == seen * other;
    }
  }

  /** The counting loop of `similarityScore`: how many tokens of `tokensA` are also in `tokensB`. */
  method CountShared(tokensA: set<string>, tokensB: set<string>) returns (overlap: nat)
    ensures overlap == |tokensA * tokensB|
  {
    overlap := 0;
    var remaining := tokensA;
    ghost var seen: set<string> := {};
    while remaining != {}
      invariant remaining + seen == tokensA && remaining !! seen
      invariant overlap == |seen * tokensB|
      decreases |remaining|
    {
      var token :| token in remaining;
      OverlapStep(seen, token, tokensB);
      if token in tokensB {
        overlap := overlap + 1;
      }
      remaining := remaining - {token};
      seen := seen + {token};
    }
    assert seen == tokensA;
  }

  /** `similarityScore`: 0 for a blank side, 100 for equal strings, otherwise 30 for
      containment plus 5 per shared token. */
  method SimilarityScore(a: string, b: string) returns (score: int)
    ensures score == Score(a, b)
  {
    if IsBlank(a) || IsBlank(b) {
      return 0;
    }
    if a == b {
      return ExactScore;
    }
    score := 0;
    if Contains(a, b) || Contains(b, a) {
      score := score + ContainmentBonus;
    }
    var tokensA := Tokens(a);
    var tokensB := Tokens(b);
    var overlap := CountShared(tokensA, tokensB);
    score := score + overlap * TokenBonus;
  }

  /** The index of the first maximal element: the one a `score > bestScore` scan keeps. */
  function FirstMaxIndex(scores: seq<int>): (k: nat)
    requires |scores| > 0
    ensures k < |scores|
    ensures forall j :: 0 <= j < |scores| ==> scores[j] <= scores[k]
    ensures forall j :: 0 <= j < k ==> scores[j] < scores[k]
    decreases |scores|
  {
    if |scores| == 1 then 0
    else
      var k := FirstMaxIndex(scores[..|scores| - 1]);
      if scores[|scores| - 1] > scores[k] then |scores| - 1 else k
  }

  /** Extending the scanned prefix by one element moves the first maximum only on a strictly greater score. */
  lemma FirstMaxStep(scores: seq<int>, j: nat)
    requires j < |scores|
    ensures j == 0 ==> FirstMaxIndex(scores[..j + 1]) == 0
    ensures j > 0 ==> FirstMaxIndex(scores[..j + 1]) ==
                      (var k := FirstMaxIndex(scores[..j]); if scores[j] > scores[k] then j else k)
  {
    assert scores[..j + 1][..j] == scores[..j];
  }

  /** The scores of `target` against each key, in order. */
  function ScoresAgainst(target: string, keys: seq<string>): (r: seq<nat>)
    ensures |r| == |keys|
  {
    if keys == [] then []
    else ScoresAgainst(target, keys[..|keys| - 1]) + [Score(target, keys[|keys| - 1])]
  }

  /** The `j`-th score is the score of the `j`-th key. */
  lemma {:induction false} ScoresAgainstAt(target: string, keys: seq<string>, j: nat)
    requires j < |keys|
    ensures ScoresAgainst(target, keys)[j] == Score(target, keys[j])
    decreases |keys|
  {
    if j < |keys| - 1 {
      ScoresAgainstAt(target, keys[..|keys| - 1], j);
    }
  }

  /** The item a `score > bestScore` scan over `items` keeps, given each item's score:
      the first maximal one, if its score clears the threshold. */
  function PickBest<T>(items: seq<T>, scores: seq<int>): Option<T>
    requires |scores| == |items|
  {
    if items == [] then None
    else
      var k := FirstMaxIndex(scores);
      if scores[k] >= Threshold then Some(items[k]) else None
  }

  /** The choice of `PickBest`: a first maximum clearing the threshold, and nothing
      exactly when no score clears it. */
  lemma PickBestSpec<T>(items: seq<T>, scores: seq<int>)
    requires |scores| == |items|
    ensures PickBest(items, scores).None? <==> forall j :: 0 <= j < |scores| ==> scores[j] < Threshold
    ensures PickBest(items, scores).Some? ==>
              exists k :: && 0 <= k < |items| && PickBest(items, scores).value == items[k]
                          && scores[k] >= Threshold
                          && (forall j :: 0 <= j < |scores| ==> scores[j] <= scores[k])
                          && (forall j :: 0 <= j < k ==> scores[j] < scores[k])
  {
    if items != [] {
      var k := FirstMaxIndex(scores);
      assert scores[k] < Threshold ==> forall j :: 0 <= j < |scores| ==> scores[j] < Threshold;
    }
  }

  /** After a scan of all of `scores` that ends at their first maximum, `PickBest` takes that
      item when its score clears the threshold, and nothing otherwise. */
  lemma PickBestOfScan<T>(items: seq<T>, scores: seq<int>, bestIndex: nat)
    requires |scores| == |items| > 0
    requires bestIndex == FirstMaxIndex(scores[..|scores|])
    ensures PickBest(items, scores) == if scores[bestIndex] >= Threshold then Some(items[bestIndex]) else None
  {
    assert scores[..|scores|] == scores;
  }

  /** Each expected course name, normalized. */
  function NormalizeAll(names: seq<string>): (r: seq<string>)
    ensures |r| == |names|
  {
    if names == [] then []
    else NormalizeAll(names[..|names| - 1]) + [Normalize(names[|names| - 1])]
  }

  /** The `j`-th key is the `j`-th name, normalized. */
  lemma {:induction false} NormalizeAllAt(names: seq<string>, j: nat)
    requires j < |names|
    ensures NormalizeAll(names)[j] == Normalize(names[j])
    decreases |names|
  {
    if j < |names| - 1 {
      NormalizeAllAt(names[..|names| - 1], j);
    }
  }

  /** What `findBestExpectedCourse(candidate, expected)` returns: the first expected name,
      as written, whose key scores highest against the candidate's key, if that score is
      at least the threshold. */
  function BestExpectedCourse(candidate: string, expected: seq<string>): Option<string> {
    PickBest(expected, ScoresAgainst(Normalize(candidate), NormalizeAll(expected)))
  }

  /** The expected name chosen is the first whose key scores highest, and it clears the
      threshold; nothing is chosen exactly when every expected name scores below it. */
  lemma BestExpectedCourseSpec(candidate: string, expected: seq<string>)
    ensures BestExpectedCourse(candidate, expected).None? <==>
      forall j :: 0 <= j < |expected| ==> Score(Normalize(candidate), Normalize(expected[j])) < Threshold
    ensures BestExpectedCourse(candidate, expected).Some? ==>
              exists k :: && 0 <= k < |expected|
                          && BestExpectedCourse(candidate, expected).value == expected[k]
                          && Score(Normalize(candidate), Normalize(expected[k])) >= Threshold
                          && (forall j :: 0 <= j < |expected| ==>
                                Score(Normalize(candidate), Normalize(expected[j])) <= Score(Normalize(candidate), Normalize(expected[k])))
                          && (forall j :: 0 <= j < k ==>
                                Score(Normalize(candidate), Normalize(expected[j])) < Score(Normalize(candidate), Normalize(expected[k])))
  {
    var scores := ScoresAgainst(Normalize(candidate), NormalizeAll(expected));
    forall j | 0 <= j < |expected| ensures scores[j] == Score(Normalize(candidate), Normalize(expected[j])) {
      NormalizeAllAt(expected, j);
      ScoresAgainstAt(Normalize(candidate), NormalizeAll(expected), j);
    }
    PickBestSpec(expected, scores);
  }

  /** `order` lists every element of `s` exactly once: one iteration order of a hash map's keys. */
  predicate Enumerates<T(==)>(order: seq<T>, s: set<T>) {
    && (forall i, j :: 0 <= i < j < |order| ==> order[i] != order[j])
    && (forall i :: 0 <= i < |order| ==> order[i] in s)
    && (forall x :: x in s ==> x in order)
  }

  /** The text stored under each key of `order`, in order. */
  function ValuesAt(sections: map<string, string>, order: seq<string>): (r: seq<string>)
    requires forall i :: 0 <= i < |order| ==> order[i] in sections
    ensures |r| == |order|
  {
    seq(|order|, i requires 0 <= i < |order| => sections[order[i]])
  }

  /** What `findBestSectionForCourse` returns when `sections.keySet()` iterates in `order`:
      the text stored under the first best-scoring key, if that score clears the threshold. */
  function BestSection(normalizedCourse: string, sections: map<string, string>, order: seq<string>): Option<string>
    requires Enumerates(order, sections.Keys)
  {
    PickBest(ValuesAt(sections, order), ScoresAgainst(normalizedCourse, order))
  }

  /** The section chosen is stored under a key that clears the threshold and no key scores
      higher; nothing is chosen exactly when every key scores below the threshold. */
  lemma BestSectionSpec(normalizedCourse: string, sections: map<string, string>, order: seq<string>)
    requires Enumerates(order, sections.Keys)
    ensures BestSection(normalizedCourse, sections, order).None? <==>
      forall key :: key in sections ==> Score(normalizedCourse, key) < Threshold
    ensures BestSection(normalizedCourse, sections, order).Some? ==>
              exists key :: && key in sections
                            && BestSection(normalizedCourse, sections, order).value == sections[key]
                            && Score(normalizedCourse, key) >= Threshold
                            && (forall other :: other in sections ==> Score(normalizedCourse, other) <= Score(normalizedCourse, key))
  {
    var scores := ScoresAgainst(normalizedCourse, order);
    var values := ValuesAt(sections, order);
    PickBestSpec(values, scores);
    if BestSection(normalizedCourse, sections, order).Some? {
      var k :| && 0 <= k < |values| && BestSection(normalizedCourse, sections, order).value == values[k]
               && scores[k] >= Threshold && (forall j :: 0 <= j < |scores| ==> scores[j] <= scores[k]);
      ScoresAgainstAt(normalizedCourse, order, k);
      forall other | other in sections ensures Score(normalizedCourse, other) <= Score(normalizedCourse, order[k]) {
        var j :| 0 <= j < |order| && order[j] == other;
        ScoresAgainstAt(normalizedCourse, order, j);
      }
    } else {
      forall key | key in sections ensures Score(normalizedCourse, key) < Threshold {
        var j :| 0 <= j < |order| && order[j] == key;
        ScoresAgainstAt(normalizedCourse, order, j);
      }
    }
  }

  /** One step of `findBestExpectedCourse`: normalize the `j`-th expected name and score it. */
  method ScoreExpected(normalizedCandidate: string, expected: seq<string>, j: nat) returns (score: int)
    requires j < |expected|
    ensures score >= 0
    ensures score == ScoresAgainst(normalizedCandidate, NormalizeAll(expected))[j]
  {
    var key := Normalize(expected[j]);
    score := SimilarityScore(normalizedCandidate, key);
    NormalizeAllAt(expected, j);
    ScoresAgainstAt(normalizedCandidate, NormalizeAll(expected), j);
  }

  /** `findBestExpectedCourse`: scans the expected names in list order. */
  method FindBestExpectedCourse(candidate: string, expected: seq<string>) returns (best: Option<string>)
    ensures best == BestExpectedCourse(candidate, expected)
  {
    if expected == [] {
      return None;
    }
    var normalizedCandidate := Normalize(candidate);
    best := ScanExpected(normalizedCandidate, expected);
  }

  /** The loop of `findBestExpectedCourse`, once the candidate is normalized. */
  method ScanExpected(normalizedCandidate: string, expected: seq<string>) returns (best: Option<string>)
    requires expected != []
    ensures best == PickBest(expected, ScoresAgainst(normalizedCandidate, NormalizeAll(expected)))
  {
    ghost var scores := ScoresAgainst(normalizedCandidate, NormalizeAll(expected));
    var bestCourse: Option<string> := None;
    var bestScore := -1;
    ghost var bestIndex := 0;
    for j := 0 to |expected|
      invariant j == 0 ==> bestScore == -1
      invariant j > 0 ==> bestIndex == FirstMaxIndex(scores[..j])
      invariant j > 0 ==> bestScore == scores[bestIndex] && bestCourse == Some(expected[bestIndex])
    {
      var score := ScoreExpected(normalizedCandidate, expected, j);
      FirstMaxStep(scores, j);
      if score > bestScore {
        bestScore := score;
        bestCourse := Some(expected[j]);
        bestIndex := j;
      }
    }
    PickBestOfScan(expected, scores, bestIndex);
    best := if bestScore >= Threshold then bestCourse else None;
  }

  /** One step of `findBestSectionForCourse`: score the `j`-th key. */
  method ScoreKey(normalizedCourse: string, order: seq<string>, j: nat) returns (score: int)
    requires j < |order|
    ensures score >= 0
    ensures score == ScoresAgainst(normalizedCourse, order)[j]
  {
    score := SimilarityScore(normalizedCourse, order[j]);
    ScoresAgainstAt(normalizedCourse, order, j);
  }

  /** `findBestSectionForCourse`: scans the section keys in the map's iteration order `order`. */
  method FindBestSectionForCourse(normalizedCourse: string, sections: map<string, string>, order: seq<string>)
    returns (best: Option<string>)
    requires Enumerates(order, sections.Keys)
    ensures best == BestSection(normalizedCourse, sections, order)
  {
    ghost var scores := ScoresAgainst(normalizedCourse, order);
    ghost var values := ValuesAt(sections, order);
    var bestKey: Option<string> := None;
    var bestScore := -1;
    ghost var bestIndex := 0;
    for j := 0 to |order|
      invariant j == 0 ==> bestScore == -1 && bestKey == None
      invariant j > 0 ==> bestIndex == FirstMaxIndex(scores[..j])
      invariant j > 0 ==> bestScore == scores[bestIndex] && bestKey == Some(order[bestIndex])
    {
      var score := ScoreKey(normalizedCourse, order, j);
      FirstMaxStep(scores, j);
      if score > bestScore {
        bestScore := score;
        bestKey := Some(order[j]);
        bestIndex := j;
      }
    }
    if |order| > 0 {
      PickBestOfScan(values, scores, bestIndex);
    }
    assert bestKey.Some? ==> sections[bestKey.value] == values[bestIndex];
    if bestKey.Some? && bestScore >= Threshold {
      best := Some(sections[bestKey.value]);
    } else {
      best := None;
    }
  }
}
