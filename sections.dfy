/**
  `extractSections` and `saveSection`: a sector file is cut into per-course
  blocks. A block starts at a line that matches `COURSE_HEADING` and whose
  heading text fuzzily matches one of the sector's expected courses; it runs up
  to the next such line. Lines before the first accepted heading belong to no
  block. Each block is stored, trimmed, under its course's normalized name
  unless it is blank, a later block replacing an earlier one.
*/
module Sections {
  import opened Wrappers
  import opened JavaText
  import opened Normalization
  import opened Similarity
  import opened LinePatterns

  /** The expected course a line opens a block for, if any: the line matches `COURSE_HEADING`
      and its group, trimmed, is accepted by `findBestExpectedCourse`. */
  function AcceptedHeading(line: string, expected: seq<string>): Option<string> {
    match MatchCourseHeading(line)
    case None => None
    case Some(group) => BestExpectedCourse(Trim(group), expected)
  }

  /** A line of a sector file together with the course it opens a block for, if any. */
  datatype SectionLine = SectionLine(text: string, opens: Option<string>)

  /** Each line with the course it opens. */
  function Annotate(lines: seq<string>, expected: seq<string>): (ls: seq<SectionLine>)
    ensures |ls| == |lines|
    decreases |lines|
  {
    if lines == [] then []
    else
      var last := lines[|lines| - 1];
      Annotate(lines[..|lines| - 1], expected) + [SectionLine(last, AcceptedHeading(last, expected))]
  }

  /** Line `k` of `Annotate(lines, expected)`. */
  lemma {:induction false} AnnotateAt(lines: seq<string>, expected: seq<string>, k: nat)
    requires k < |lines|
    ensures Annotate(lines, expected)[k] == SectionLine(lines[k], AcceptedHeading(lines[k], expected))
    decreases |lines|
  {
    if k < |lines| - 1 {
      AnnotateAt(lines[..|lines| - 1], expected, k);
    }
  }

  /** The text of each line. */
  function Texts(ls: seq<SectionLine>): (texts: seq<string>)
    ensures |texts| == |ls|
    ensures forall k :: 0 <= k < |ls| ==> texts[k] == ls[k].text
  {
    seq(|ls|, k requires 0 <= k < |ls| => ls[k].text)
  }

  /** The position of the first of the first `n` lines that opens a block, or `n` when none does. */
  function HeadingIndex(ls: seq<SectionLine>, n: nat): (h: nat)
    requires n <= |ls|
    ensures h <= n
    ensures forall k :: 0 <= k < h ==> ls[k].opens.None?
    ensures h < n ==> ls[h].opens.Some?
  {
    if n == 0 then 0
    else
      var h := HeadingIndex(ls, n - 1);
      if h < n - 1 || ls[n - 1].opens.Some? then h else n
  }

  /** A course and the lines of its block, heading first. */
  datatype Block = Block(course: string, lines: seq<SectionLine>)

  /** The blocks after one more line: an opening line starts a new block, any other line
      joins the open block, or is dropped while no block is open. */
  function AddLine(bs: seq<Block>, line: SectionLine): seq<Block> {
    if line.opens.Some? then bs + [Block(line.opens.value, [line])]
    else if bs == [] then []
    else
      var last := bs[|bs| - 1];
      bs[..|bs| - 1] + [Block(last.course, last.lines + [line])]
  }

  /** The blocks of the first `n` lines, line by line. */
  function Blocks(ls: seq<SectionLine>, n: nat): seq<Block>
    requires n <= |ls|
  {
    if n == 0 then [] else AddLine(Blocks(ls, n - 1), ls[n - 1])
  }

  /** All block lines, in order. */
  function Concat(bs: seq<Block>): seq<SectionLine>
    decreases |bs|
  {
    if bs == [] then [] else Concat(bs[..|bs| - 1]) + bs[|bs| - 1].lines
  }

  /** A block starts with the line that opens it for its course, and no other line in it opens one. */
  predicate WellShaped(b: Block) {
    && b.lines != []
    && b.lines[0].opens == Some(b.course)
    && forall k :: 1 <= k < |b.lines| ==> b.lines[k].opens.None?
  }

  /** `saveSection(sections, course, block)`. */
  function SaveSection(sections: map<string, string>, course: Option<string>, block: string): map<string, string> {
    if course.None? then sections
    else
      var text := Trim(block);
      if IsBlank(text) then sections else sections[Normalize(course.value) := text]
  }

  /** The text a block is saved with. */
  function SectionText(b: Block): string {
    Trim(JoinLines(Texts(b.lines)))
  }

  /** What saving block `b` puts in the map: its course's normalized name and its text, or
      nothing when the text is blank. */
  function Saved(b: Block): Option<(string, string)> {
    var text := SectionText(b);
    if IsBlank(text) then None else Some((Normalize(b.course), text))
  }

  /** What saving each block puts in the map. */
  function Entries(bs: seq<Block>): (es: seq<Option<(string, string)>>)
    ensures |es| == |bs|
    ensures forall j :: 0 <= j < |bs| ==> es[j] == Saved(bs[j])
  {
    seq(|bs|, j requires 0 <= j < |bs| => Saved(bs[j]))
  }

  /** The map after putting each entry in turn, a later entry replacing an earlier one. */
  function PutAll(es: seq<Option<(string, string)>>): map<string, string>
    decreases |es|
  {
    if es == [] then map[] else Put(PutAll(es[..|es| - 1]), es[|es| - 1])
  }

  /** The map after putting one entry. */
  function Put(m: map<string, string>, e: Option<(string, string)>): map<string, string> {
    match e
    case None => m
    case Some((key, text)) => m[key := text]
  }

  /** The map after saving each block in turn. This is the fold the `extractSections` loop follows
      one block at a time; `PutAll(Entries(bs))` is the same map over a list of entries, the form
      `PutAllKeys` and `PutAllValues` reason about, and `StoreIsPutAll` joins the two. */
  function Store(bs: seq<Block>): map<string, string>
    decreases |bs|
  {
    if bs == [] then map[] else Put(Store(bs[..|bs| - 1]), Saved(bs[|bs| - 1]))
  }

  /** Saving the blocks puts their entries: lets the loop invariant, stated with `Store`, use the
      key and value lemmas proved about `PutAll`. */
  lemma {:induction false} StoreIsPutAll(bs: seq<Block>)
    ensures Store(bs) == PutAll(Entries(bs))
    decreases |bs|
  {
    if bs != [] {
      StoreIsPutAll(bs[..|bs| - 1]);
      assert Entries(bs)[..|bs| - 1] == Entries(bs[..|bs| - 1]);
    }
  }

  /** What `extractSections(content, expected)` returns. */
  function SectionsOf(content: string, expected: seq<string>): map<string, string> {
    if IsBlank(content) then map[]
    else
      var ls := Annotate(SplitLines(content), expected);
      Store(Blocks(ls, |ls|))
  }

  /** No block is open before the first opening line. */
  lemma {:induction false} BlocksEmpty(ls: seq<SectionLine>, n: nat)
    requires n <= |ls|
    ensures Blocks(ls, n) == [] <==> HeadingIndex(ls, n) == n
  {
    if n > 0 {
      BlocksEmpty(ls, n - 1);
    }
  }

  /** One more block adds its lines at the end. */
  lemma ConcatSnoc(bs: seq<Block>, b: Block)
    ensures Concat(bs + [b]) == Concat(bs) + b.lines
  {
    assert (bs + [b])[..|bs|] == bs;
  }

  /** One more line adds itself at the end of the block lines, unless no block is open. */
  lemma AddLineConcat(bs: seq<Block>, line: SectionLine)
    ensures Concat(AddLine(bs, line)) == if bs == [] && line.opens.None? then [] else Concat(bs) + [line]
  {
    if line.opens.Some? {
      ConcatSnoc(bs, Block(line.opens.value, [line]));
    } else if bs != [] {
      var last := bs[|bs| - 1];
      var init := bs[..|bs| - 1];
      assert bs == init + [last];
      ConcatSnoc(init, last);
      ConcatSnoc(init, Block(last.course, last.lines + [line]));
    }
  }

  /** Once a line has opened a block, or when line `n` opens one, the first opening line stays put. */
  lemma HeadingIndexKeeps(ls: seq<SectionLine>, n: nat)
    requires 0 < n <= |ls|
    requires HeadingIndex(ls, n - 1) < n - 1 || ls[n - 1].opens.Some?
    ensures HeadingIndex(ls, n) == HeadingIndex(ls, n - 1)
  {
  }

  /** A slice that ends one line later has that line at its end. */
  lemma SliceSnoc(ls: seq<SectionLine>, h: nat, n: nat)
    requires h < n <= |ls|
    ensures ls[h..n] == ls[h..n - 1] + [ls[n - 1]]
  {
  }

  /** The blocks cover every line from the first opening line on, in order, and nothing else. */
  lemma {:induction false} BlocksPartition(ls: seq<SectionLine>, n: nat)
    requires n <= |ls|
    ensures Concat(Blocks(ls, n)) == ls[HeadingIndex(ls, n)..n]
  {
    if n > 0 {
      BlocksPartition(ls, n - 1);
      PartitionStep(ls, n);
    }
  }

  /** One line more keeps `BlocksPartition`. */
  lemma PartitionStep(ls: seq<SectionLine>, n: nat)
    requires 0 < n <= |ls|
    requires Concat(Blocks(ls, n - 1)) == ls[HeadingIndex(ls, n - 1)..n - 1]
    ensures Concat(Blocks(ls, n)) == ls[HeadingIndex(ls, n)..n]
  {
    var line := ls[n - 1];
    var bs := Blocks(ls, n - 1);
    var h := HeadingIndex(ls, n - 1);
    AddLineConcat(bs, line);
    if bs == [] && line.opens.None? {
      assert h == n - 1 by { BlocksEmpty(ls, n - 1); }
      assert ls[n..n] == [];
    } else {
      assert h < n - 1 || line.opens.Some? by { BlocksEmpty(ls, n - 1); }
      HeadingIndexKeeps(ls, n);
      SliceSnoc(ls, h, n);
    }
  }

  /** Every block is well shaped. */
  lemma {:induction false} BlocksShape(ls: seq<SectionLine>, n: nat)
    requires n <= |ls|
    ensures forall j :: 0 <= j < |Blocks(ls, n)| ==> WellShaped(Blocks(ls, n)[j])
  {
    if n > 0 {
      var bs := Blocks(ls, n - 1);
      var line := ls[n - 1];
      BlocksShape(ls, n - 1);
      if line.opens.None? && bs != [] {
        var last := bs[|bs| - 1];
        var b := Block(last.course, last.lines + [line]);
        assert WellShaped(last);
        assert WellShaped(b) by {
          assert forall k :: 1 <= k < |last.lines| ==> b.lines[k] == last.lines[k];
        }
      }
    }
  }

  /** What one more line does to the courses of the blocks. */
  lemma AddLineCourses(bs: seq<Block>, line: SectionLine)
    ensures |AddLine(bs, line)| == if line.opens.Some? then |bs| + 1 else |bs|
    ensures forall j :: 0 <= j < |bs| ==> AddLine(bs, line)[j].course == bs[j].course
    ensures line.opens.Some? ==> AddLine(bs, line)[|bs|].course == line.opens.value
  {
  }

  /** One of the first `n` lines opens a block for `course`. */
  predicate OpenedBefore(ls: seq<SectionLine>, n: nat, course: string)
    requires n <= |ls|
  {
    exists k :: 0 <= k < n && ls[k].opens == Some(course)
  }

  /** Every one of the blocks of the first `n` lines belongs to a course one of those lines opens. */
  predicate CoursesOpened(ls: seq<SectionLine>, n: nat)
    requires n <= |ls|
  {
    forall j :: 0 <= j < |Blocks(ls, n)| ==> OpenedBefore(ls, n, Blocks(ls, n)[j].course)
  }

  /** Every block belongs to a course one of the lines opens. */
  lemma {:induction false} BlockCoursesOpened(ls: seq<SectionLine>, n: nat)
    requires n <= |ls|
    ensures CoursesOpened(ls, n)
  {
    if n > 0 {
      BlockCoursesOpened(ls, n - 1);
      CoursesOpenedStep(ls, n);
    }
  }

  /** One line more keeps `BlockCoursesOpened`. */
  lemma CoursesOpenedStep(ls: seq<SectionLine>, n: nat)
    requires 0 < n <= |ls|
    requires CoursesOpened(ls, n - 1)
    ensures CoursesOpened(ls, n)
  {
    var bs := Blocks(ls, n - 1);
    var line := ls[n - 1];
    var cs := Blocks(ls, n);
    assert cs == AddLine(bs, line);
    AddLineCourses(bs, line);
    forall j | 0 <= j < |cs| ensures OpenedBefore(ls, n, cs[j].course) {
      if j == |bs| {
        assert ls[n - 1].opens == Some(cs[j].course);
      } else {
        assert OpenedBefore(ls, n - 1, bs[j].course);
        var k :| 0 <= k < n - 1 && ls[k].opens == Some(bs[j].course);
        assert ls[k].opens == Some(cs[j].course);
      }
    }
  }

  /** Entry `e` puts something under `key`. */
  predicate PutsKey(e: Option<(string, string)>, key: string) {
    e.Some? && e.value.0 == key
  }

  /** The keys of the map are those some entry puts. */
  lemma {:induction false} PutAllKeys(es: seq<Option<(string, string)>>, key: string)
    ensures key in PutAll(es) <==> exists j :: 0 <= j < |es| && PutsKey(es[j], key)
    decreases |es|
  {
    if es != [] {
      var prefix := es[..|es| - 1];
      PutAllKeys(prefix, key);
      if exists j :: 0 <= j < |prefix| && PutsKey(prefix[j], key) {
        var j :| 0 <= j < |prefix| && PutsKey(prefix[j], key);
        assert es[j] == prefix[j];
      }
      if exists j :: 0 <= j < |es| && PutsKey(es[j], key) {
        var j :| 0 <= j < |es| && PutsKey(es[j], key);
        if j < |prefix| {
          assert prefix[j] == es[j];
        }
      }
    }
  }

  /** The value under a key is the text of the last entry that puts that key. */
  lemma {:induction false} PutAllValues(es: seq<Option<(string, string)>>, key: string)
    requires key in PutAll(es)
    ensures exists j :: && 0 <= j < |es| && PutsKey(es[j], key) && PutAll(es)[key] == es[j].value.1
                        && forall later :: j < later < |es| ==> !PutsKey(es[later], key)
    decreases |es|
  {
    var prefix := es[..|es| - 1];
    if PutsKey(es[|es| - 1], key) {
      assert PutAll(es)[key] == es[|es| - 1].value.1;
    } else {
      assert PutAll(es)[key] == PutAll(prefix)[key];
      PutAllValues(prefix, key);
      var j :| && 0 <= j < |prefix| && PutsKey(prefix[j], key) && PutAll(prefix)[key] == prefix[j].value.1
               && forall later :: j < later < |prefix| ==> !PutsKey(prefix[later], key);
      assert es[j] == prefix[j];
      assert forall later :: j < later < |es| - 1 ==> es[later] == prefix[later];
    }
  }

  /** A key is in the map exactly when some block is saved under it, and then it holds the text
      of the last such block: a later block replaces an earlier one, a blank one replaces nothing. */
  lemma StoreEntries(bs: seq<Block>, key: string)
    ensures key in Store(bs) <==> exists j :: 0 <= j < |bs| && PutsKey(Saved(bs[j]), key)
    ensures key in Store(bs) ==>
              exists j :: && 0 <= j < |bs| && PutsKey(Saved(bs[j]), key) && Store(bs)[key] == SectionText(bs[j])
                          && forall later :: j < later < |bs| ==> !PutsKey(Saved(bs[later]), key)
  {
    var es := Entries(bs);
    StoreIsPutAll(bs);
    PutAllKeys(es, key);
    if key in Store(bs) {
      PutAllValues(es, key);
    }
  }

  /** Every stored section is trimmed and not blank. */
  lemma StoredTextsNonBlank(bs: seq<Block>)
    ensures forall key :: key in Store(bs) ==> !IsBlank(Store(bs)[key]) && Trim(Store(bs)[key]) == Store(bs)[key]
  {
    StoreIsPutAll(bs);
    forall key | key in Store(bs) ensures !IsBlank(Store(bs)[key]) && Trim(Store(bs)[key]) == Store(bs)[key] {
      PutAllValues(Entries(bs), key);
    }
  }

  /** Every section `extractSections` returns is trimmed and not blank. */
  lemma SectionTextsNonBlank(content: string, expected: seq<string>)
    ensures forall key :: key in SectionsOf(content, expected) ==>
              !IsBlank(SectionsOf(content, expected)[key]) && Trim(SectionsOf(content, expected)[key]) == SectionsOf(content, expected)[key]
  {
    if !IsBlank(content) {
      var ls := Annotate(SplitLines(content), expected);
      StoredTextsNonBlank(Blocks(ls, |ls|));
    }
  }

  /** A course a line opens a block for is one of the expected courses. */
  lemma AcceptedIsExpected(line: string, expected: seq<string>)
    ensures AcceptedHeading(line, expected).Some? ==> AcceptedHeading(line, expected).value in expected
  {
    var heading := MatchCourseHeading(line);
    if heading.Some? {
      BestExpectedCourseSpec(Trim(heading.value), expected);
    }
  }

  /** A key of the saved map is the normalized course name of one of the blocks. */
  lemma {:induction false} StoreKeyCourse(bs: seq<Block>, key: string)
    requires key in Store(bs)
    ensures exists j :: 0 <= j < |bs| && Normalize(bs[j].course) == key
    decreases |bs|
  {
    var init := bs[..|bs| - 1];
    if key in Store(init) {
      StoreKeyCourse(init, key);
      var j :| 0 <= j < |init| && Normalize(init[j].course) == key;
      assert bs[j] == init[j];
    } else {
      assert Normalize(bs[|bs| - 1].course) == key;
    }
  }

  /** A course some annotated line opens a block for is one of the expected courses. */
  lemma OpenedIsExpected(lines: seq<string>, expected: seq<string>, course: string)
    requires OpenedBefore(Annotate(lines, expected), |lines|, course)
    ensures course in expected
  {
    var ls := Annotate(lines, expected);
    var k :| 0 <= k < |lines| && ls[k].opens == Some(course);
    AnnotateAt(lines, expected, k);
    AcceptedIsExpected(lines[k], expected);
  }

  /** A key saved from the annotated lines is the normalized name of an expected course. */
  lemma KeyIsExpected(lines: seq<string>, expected: seq<string>, key: string)
    requires key in Store(Blocks(Annotate(lines, expected), |lines|))
    ensures exists e :: e in expected && Normalize(e) == key
  {
    var ls := Annotate(lines, expected);
    var bs := Blocks(ls, |lines|);
    StoreKeyCourse(bs, key);
    var j :| 0 <= j < |bs| && Normalize(bs[j].course) == key;
    BlockCoursesOpened(ls, |lines|);
    assert OpenedBefore(ls, |lines|, bs[j].course);
    OpenedIsExpected(lines, expected, bs[j].course);
  }

  /** Every key of the result of `extractSections` is the normalized name of an expected course. */
  lemma SectionKeysAreExpected(content: string, expected: seq<string>)
    ensures forall key :: key in SectionsOf(content, expected) ==>
              exists e :: e in expected && Normalize(e) == key
  {
    if !IsBlank(content) {
      var lines := SplitLines(content);
      forall key | key in Store(Blocks(Annotate(lines, expected), |lines|))
        ensures exists e :: e in expected && Normalize(e) == key
      {
        KeyIsExpected(lines, expected, key);
      }
    }
  }

  /** One line of the loop of `extractSections`: does it open a block, and for which course? */
  method OpensBlock(line: string, expected: seq<string>) returns (matched: Option<string>)
    ensures matched == AcceptedHeading(line, expected)
  {
    var heading := MatchCourseHeading(line);
    if heading.None? {
      return None;
    }
    var candidate := Trim(heading.value);
    matched := FindBestExpectedCourse(candidate, expected);
  }

  /** The map once the open block, the last of `bs`, is saved too. */
  lemma StoreClosed(bs: seq<Block>)
    requires bs != []
    ensures Store(bs) ==
              SaveSection(Store(bs[..|bs| - 1]), Some(bs[|bs| - 1].course), JoinLines(Texts(bs[|bs| - 1].lines)))
  {
    SaveSectionPuts(Store(bs[..|bs| - 1]), bs[|bs| - 1]);
  }

  /** Saving a block puts what `Saved` says it puts. `SaveSection` keeps the Java method's own
      parameters (a nullable course and the raw block text), which the loop calls with; `Put` of
      `Saved` is the same step seen from a block, which `Store` folds. This joins the two. */
  lemma SaveSectionPuts(m: map<string, string>, b: Block)
    ensures SaveSection(m, Some(b.course), JoinLines(Texts(b.lines))) == Put(m, Saved(b))
  {
  }

  /** What the loop of `extractSections` holds for the blocks `bs` read so far: the course and
      text of the open block, and the map of the blocks already closed. */
  predicate Tracks(bs: seq<Block>, course: Option<string>, block: string, sections: map<string, string>) {
    if bs == [] then course.None? && block == "" && sections == map[]
    else
      var last := bs[|bs| - 1];
      && course == Some(last.course)
      && block == JoinLines(Texts(last.lines))
      && sections == Store(bs[..|bs| - 1])
  }

  /** An opening line closes the open block, saving it, and starts its own. */
  lemma TracksOpen(bs: seq<Block>, line: SectionLine, course: Option<string>, block: string, sections: map<string, string>)
    requires Tracks(bs, course, block, sections) && line.opens.Some?
    ensures Tracks(AddLine(bs, line), line.opens, line.text + "\n", SaveSection(sections, course, block))
  {
    var b := Block(line.opens.value, [line]);
    var next := bs + [b];
    assert AddLine(bs, line) == next;
    assert JoinLines(Texts(b.lines)) == line.text + "\n" by {
      assert Texts([line]) == [line.text];
      assert JoinLines([line.text]) == JoinLines([]) + line.text + "\n";
    }
    assert Store(next[..|next| - 1]) == SaveSection(sections, course, block) by {
      assert next[..|next| - 1] == bs;
      if bs != [] {
        StoreClosed(bs);
      }
    }
  }

  /** Any other line joins the open block, or is skipped while none is open. */
  lemma TracksContinue(bs: seq<Block>, line: SectionLine, course: Option<string>, block: string, sections: map<string, string>)
    requires Tracks(bs, course, block, sections) && line.opens.None?
    ensures course.None? ==> Tracks(AddLine(bs, line), course, block, sections)
    ensures course.Some? ==> Tracks(AddLine(bs, line), course, block + line.text + "\n", sections)
  {
    if bs != [] {
      var last := bs[|bs| - 1];
      var next := AddLine(bs, line);
      var lines := last.lines + [line];
      assert next[..|next| - 1] == bs[..|bs| - 1];
      assert Texts(lines)[..|lines| - 1] == Texts(last.lines);
    }
  }

  /** Saving the open block at the end gives the map of all blocks. */
  lemma TracksClose(bs: seq<Block>, course: Option<string>, block: string, sections: map<string, string>)
    requires Tracks(bs, course, block, sections)
    ensures SaveSection(sections, course, block) == Store(bs)
  {
    if bs != [] {
      StoreClosed(bs);
    }
  }

  /** The variables of the loop of `extractSections`: `currentCourse`, `currentBlock` and `sections`. */
  datatype ScanState = ScanState(course: Option<string>, block: string, sections: map<string, string>)

  /** One iteration of the loop of `extractSections` on an annotated line. */
  function ReadLine(st: ScanState, line: SectionLine): ScanState {
    if line.opens.Some? then ScanState(line.opens, line.text + "\n", SaveSection(st.sections, st.course, st.block))
    else if st.course.Some? then ScanState(st.course, st.block + line.text + "\n", st.sections)
    else st
  }

  /** The loop variables after the first `n` lines. */
  function Scan(ls: seq<SectionLine>, n: nat): ScanState
    requires n <= |ls|
  {
    if n == 0 then ScanState(None, "", map[]) else ReadLine(Scan(ls, n - 1), ls[n - 1])
  }

  /** After any number of lines the loop variables hold the open block and the closed ones. */
  lemma {:induction false} ScanTracks(ls: seq<SectionLine>, n: nat)
    requires n <= |ls|
    ensures Tracks(Blocks(ls, n), Scan(ls, n).course, Scan(ls, n).block, Scan(ls, n).sections)
  {
    if n > 0 {
      ScanTracks(ls, n - 1);
      var st := Scan(ls, n - 1);
      if ls[n - 1].opens.Some? {
        TracksOpen(Blocks(ls, n - 1), ls[n - 1], st.course, st.block, st.sections);
      } else {
        TracksContinue(Blocks(ls, n - 1), ls[n - 1], st.course, st.block, st.sections);
      }
    }
  }

  /** The final `saveSection` after the loop gives the map of all the blocks. */
  lemma ScanStores(ls: seq<SectionLine>)
    ensures SaveSection(Scan(ls, |ls|).sections, Scan(ls, |ls|).course, Scan(ls, |ls|).block) == Store(Blocks(ls, |ls|))
  {
    var st := Scan(ls, |ls|);
    ScanTracks(ls, |ls|);
    TracksClose(Blocks(ls, |ls|), st.course, st.block, st.sections);
  }

  /** The fold reads the annotated lines one by one. */
  lemma ScanStep(lines: seq<string>, expected: seq<string>, i: nat)
    requires i < |lines|
    ensures Scan(Annotate(lines, expected), i + 1) ==
              ReadLine(Scan(Annotate(lines, expected), i), SectionLine(lines[i], AcceptedHeading(lines[i], expected)))
  {
    AnnotateAt(lines, expected, i);
  }

  /** `extractSections(content, expected)`. */
  method ExtractSections(content: string, expected: seq<string>) returns (sections: map<string, string>)
    ensures sections == SectionsOf(content, expected)
    ensures IsBlank(content) ==> sections == map[]
  {
    if IsBlank(content) {
      return map[];
    }
    var lines := SplitLines(content);
    sections := ScanLines(lines, expected);
  }

  /** The loop of `extractSections` over the lines of a sector file. */
  method ScanLines(lines: seq<string>, expected: seq<string>) returns (sections: map<string, string>)
    ensures sections == Store(Blocks(Annotate(lines, expected), |lines|))
  {
    ghost var ls := Annotate(lines, expected);
    sections := map[];
    var currentCourse: Option<string> := None;
    var currentBlock := "";
    for i := 0 to |lines|
      invariant ScanState(currentCourse, currentBlock, sections) == Scan(ls, i)
    {
      currentCourse, currentBlock, sections := ReadNextLine(lines[i], expected, currentCourse, currentBlock, sections);
      ScanStep(lines, expected, i);
    }
    ScanStores(ls);
    sections := SaveSection(sections, currentCourse, currentBlock);
  }

  /** The body of the loop of `extractSections`: an accepted heading saves the open block and
      starts a new one with the heading line; any other line joins the open block, if any. */
  method ReadNextLine(line: string, expected: seq<string>, course: Option<string>, block: string, sections: map<string, string>)
    returns (course': Option<string>, block': string, sections': map<string, string>)
    ensures ScanState(course', block', sections') ==
              ReadLine(ScanState(course, block, sections), SectionLine(line, AcceptedHeading(line, expected)))
  {
    var matched := OpensBlock(line, expected);
    course', block', sections' := course, block, sections;
    if matched.Some? {
      sections' := SaveSection(sections, course, block);
      course' := matched;
      block' := line + "\n";
    } else if course.Some? {
      block' := block + line + "\n";
    }
  }
}
