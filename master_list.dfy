/**
  The master course list (`website course.txt`) and what `parseWebsiteCourseList`
  builds from it: the name of each sector, the courses listed under each sector in
  file order, and an index from a course's normalized name to its sector.

  `Load` is the loop of `parseWebsiteCourseList` as a fold over the classified
  lines; `OpenSector`, `HeaderName`, `CoursesUnder` and `IndexedSector` say,
  entry by entry, what each table holds, and the lemmas prove that the fold
  builds exactly those tables.
*/
module MasterList {
  import opened Wrappers
  import opened JavaText
  import opened Normalization
  import opened LinePatterns

  /** How the loop treats one line of the master list. */
  datatype MasterLine =
    | Blank                              // empty once trimmed: skipped
    | Header(sector: nat, name: string)  // `SECTOR_LINE`: opens sector `sector`
    | Course(name: string)               // a bulleted, non-blank course name
    | Other                              // anything else: skipped

  /** The classification of one raw line, in the order the loop tests it. */
  function Classify(raw: string): MasterLine {
    var line := Trim(raw);
    if line == [] then Blank
    else
      match MatchSectorLine(line)
      case Some((n, group)) => Header(n, Trim(group))
      case None =>
        match ExtractBulletText(line)
        case None => Other
        case Some(course) => if IsBlank(course) then Other else Course(course)
  }

  /** The three tables and the loop's `currentSector`. */
  datatype ListState = ListState(
    names: map<nat, string>,
    courses: map<nat, seq<string>>,
    index: map<string, nat>,
    current: Option<nat>)

  /** The tables of a freshly created service. */
  const EmptyList := ListState(map[], map[], map[], None)

  /** Each line, classified. */
  function ClassifyAll(lines: seq<string>): (cs: seq<MasterLine>)
    ensures |cs| == |lines|
    ensures forall k :: 0 <= k < |lines| ==> cs[k] == Classify(lines[k])
  {
    seq(|lines|, k requires 0 <= k < |lines| => Classify(lines[k]))
  }

  /** One iteration of the loop, on a classified line. */
  function Step(st: ListState, line: MasterLine): ListState {
    match line
    case Header(n, name) =>
      ListState(st.names[n := name],
                if n in st.courses then st.courses else st.courses[n := []],
                st.index,
                Some(n))
    case Course(c) =>
      if st.current.None? then st
      else
        var n := st.current.value;
        var listed := if n in st.courses then st.courses[n] else [];
        ListState(st.names, st.courses[n := listed + [c]], st.index[Normalize(c) := n], st.current)
    case _ => st
  }

  /** The tables after the loop has run over the classified lines `cs`, starting from `start`. */
  function Load(start: ListState, cs: seq<MasterLine>): ListState
    decreases |cs|
  {
    if cs == [] then start
    else Step(Load(start, cs[..|cs| - 1]), cs[|cs| - 1])
  }

  /** The sector of the last header line, if there is one. */
  function OpenSector(cs: seq<MasterLine>): Option<nat>
    decreases |cs|
  {
    if cs == [] then None
    else
      match cs[|cs| - 1]
      case Header(n, _) => Some(n)
      case _ => OpenSector(cs[..|cs| - 1])
  }

  /** The name on the last header line numbered `n`, if there is one. */
  function HeaderName(cs: seq<MasterLine>, n: nat): Option<string>
    decreases |cs|
  {
    if cs == [] then None
    else
      match cs[|cs| - 1]
      case Header(m, name) => if m == n then Some(name) else HeaderName(cs[..|cs| - 1], n)
      case _ => HeaderName(cs[..|cs| - 1], n)
  }

  /** The course lines whose last preceding header is numbered `n`, in file order. */
  function CoursesUnder(cs: seq<MasterLine>, n: nat): seq<string>
    decreases |cs|
  {
    if cs == [] then []
    else
      var prefix := cs[..|cs| - 1];
      match cs[|cs| - 1]
      case Course(c) => CoursesUnder(prefix, n) + (if OpenSector(prefix) == Some(n) then [c] else [])
      case _ => CoursesUnder(prefix, n)
  }

  /** The sector of the last course line below some header whose name normalizes to `key`. */
  function IndexedSector(cs: seq<MasterLine>, key: string): Option<nat>
    decreases |cs|
  {
    if cs == [] then None
    else
      var prefix := cs[..|cs| - 1];
      match cs[|cs| - 1]
      case Course(c) =>
        if Normalize(c) == key && OpenSector(prefix).Some? then OpenSector(prefix) else IndexedSector(prefix, key)
      case _ => IndexedSector(prefix, key)
  }

  /** The open sector always has a header, so it has a name. */
  lemma {:induction false} OpenSectorHasName(cs: seq<MasterLine>)
    ensures OpenSector(cs).Some? ==> HeaderName(cs, OpenSector(cs).value).Some?
    decreases |cs|
  {
    if cs != [] && !cs[|cs| - 1].Header? {
      OpenSectorHasName(cs[..|cs| - 1]);
    }
  }

  /** An indexed course's sector has a header, so it has a name. */
  lemma {:induction false} IndexedSectorHasName(cs: seq<MasterLine>, key: string)
    ensures IndexedSector(cs, key).Some? ==> HeaderName(cs, IndexedSector(cs, key).value).Some?
    decreases |cs|
  {
    if cs != [] {
      var prefix := cs[..|cs| - 1];
      var r := IndexedSector(cs, key);
      if r.Some? {
        if cs[|cs| - 1].Course? && r == OpenSector(prefix) {
          OpenSectorHasName(prefix);
        } else {
          IndexedSectorHasName(prefix, key);
        }
      }
    }
  }

  /** The loop's `currentSector` always has a course list, so appending to it never fails. */
  lemma {:induction false} CurrentIsListed(start: ListState, cs: seq<MasterLine>)
    requires start.current.Some? ==> start.current.value in start.courses
    ensures Load(start, cs).current.Some? ==> Load(start, cs).current.value in Load(start, cs).courses
    decreases |cs|
  {
    if cs != [] {
      CurrentIsListed(start, cs[..|cs| - 1]);
    }
  }

  /** The loop's `currentSector` after `cs` is the sector of the last header. */
  lemma {:induction false} LoadCurrent(cs: seq<MasterLine>)
    ensures Load(EmptyList, cs).current == OpenSector(cs)
    decreases |cs|
  {
    if cs != [] {
      LoadCurrent(cs[..|cs| - 1]);
    }
  }

  /** `sectorNameByIndex`: each header number seen, with the name on its last header line. */
  lemma {:induction false} LoadNames(cs: seq<MasterLine>)
    ensures forall n :: n in Load(EmptyList, cs).names <==> HeaderName(cs, n).Some?
    ensures forall n :: n in Load(EmptyList, cs).names ==> Load(EmptyList, cs).names[n] == HeaderName(cs, n).value
    decreases |cs|
  {
    if cs != [] {
      LoadNames(cs[..|cs| - 1]);
    }
  }

  /** `sectorCoursesByIndex` has a list for exactly the header numbers seen. */
  lemma {:induction false} LoadCourseKeys(cs: seq<MasterLine>)
    ensures forall n :: n in Load(EmptyList, cs).courses <==> HeaderName(cs, n).Some?
    decreases |cs|
  {
    if cs != [] {
      var prefix := cs[..|cs| - 1];
      LoadCourseKeys(prefix);
      LoadCurrent(prefix);
      OpenSectorHasName(prefix);
    }
  }

  /** Courses are only ever listed under a sector that has a header. */
  lemma {:induction false} CoursesNeedHeader(cs: seq<MasterLine>, n: nat)
    ensures HeaderName(cs, n).None? ==> CoursesUnder(cs, n) == []
    decreases |cs|
  {
    if cs != [] {
      var prefix := cs[..|cs| - 1];
      CoursesNeedHeader(prefix, n);
      OpenSectorHasName(prefix);
    }
  }

  /** `sectorCoursesByIndex`: every course listed below one of the sector's headers, in file
      order; a repeated header neither empties nor restarts the list. */
  lemma {:induction false} LoadCourses(cs: seq<MasterLine>)
    ensures forall n :: n in Load(EmptyList, cs).courses ==> Load(EmptyList, cs).courses[n] == CoursesUnder(cs, n)
    decreases |cs|
  {
    if cs != [] {
      var prefix := cs[..|cs| - 1];
      LoadCourses(prefix);
      LoadCourseKeys(prefix);
      LoadCurrent(prefix);
      OpenSectorHasName(prefix);
      var before := Load(EmptyList, prefix);
      match cs[|cs| - 1]
      case Header(m, _) =>
        CoursesNeedHeader(prefix, m);
      case Course(c) =>
        if before.current.Some? {
          assert before.current.value in before.courses;
        }
      case Blank =>
      case Other =>
    }
  }

  /** `courseToSectorByNormalized`: each normalized course name listed below a header, with
      the sector of its last listing. */
  lemma {:induction false} LoadIndex(cs: seq<MasterLine>)
    ensures forall key :: key in Load(EmptyList, cs).index <==> IndexedSector(cs, key).Some?
    ensures forall key :: key in Load(EmptyList, cs).index ==> Load(EmptyList, cs).index[key] == IndexedSector(cs, key).value
    decreases |cs|
  {
    if cs != [] {
      var prefix, last := cs[..|cs| - 1], cs[|cs| - 1];
      LoadIndex(prefix);
      LoadCurrent(prefix);
      var before := Load(EmptyList, prefix);
      assert Load(EmptyList, cs) == Step(before, last);
      if last.Course? && before.current.Some? {
        var k, n := Normalize(last.name), before.current.value;
        var after := Load(EmptyList, cs).index;
        assert after == before.index[k := n];
        forall key
          ensures (key in after <==> IndexedSector(cs, key).Some?)
          ensures key in after ==> after[key] == IndexedSector(cs, key).value
        {
          if key == k {
            assert IndexedSector(cs, key) == Some(n);
          } else {
            assert IndexedSector(cs, key) == IndexedSector(prefix, key);
          }
        }
      } else {
        assert Load(EmptyList, cs).index == before.index;
        assert forall key :: IndexedSector(cs, key) == IndexedSector(prefix, key);
      }
    }
  }

  /** Lines before the first header change nothing: course lines there have no sector yet. */
  lemma {:induction false} HeaderlessLinesLoadNothing(cs: seq<MasterLine>)
    requires forall k :: 0 <= k < |cs| ==> !cs[k].Header?
    ensures Load(EmptyList, cs) == EmptyList
    decreases |cs|
  {
    if cs != [] {
      HeaderlessLinesLoadNothing(cs[..|cs| - 1]);
      assert !cs[|cs| - 1].Header?;
    }
  }

  /** The text `getSectorByCourse` answers with when a course has no named sector. */
  const FallbackSector: string := "Course Syllabus"

  /** `getSectorByCourse(course)` over the two tables, `None` standing for `null`. */
  function SectorLookup(names: map<nat, string>, index: map<string, nat>, course: Option<string>): (r: string)
    ensures r == FallbackSector || r in names.Values
  {
    var key := NormalizeNullable(course);
    if key in index && index[key] in names then names[index[key]] else FallbackSector
  }

  /** A course name made of punctuation and blanks only has the key of `null`, `""`, and so the same sector. */
  lemma SeparatorsOnlyLookUpAsNull(names: map<nat, string>, index: map<string, nat>, course: string)
    requires forall k :: 0 <= k < |course| ==> IsSeparatorChar(course[k])
    ensures SectorLookup(names, index, Some(course)) == SectorLookup(names, index, None)
  {
    NormalizeOfSeparatorsOnly(course);
    assert NormalizeNullable(Some(course)) == [] == NormalizeNullable(None);
  }

  /** After loading the master list, a course's sector is the name on the last header of the
      sector it was last listed under, and the fallback when it was never listed. */
  lemma SectorOfLoadedCourse(cs: seq<MasterLine>, course: string)
    ensures IndexedSector(cs, Normalize(course)).None? ==>
              SectorLookup(Load(EmptyList, cs).names, Load(EmptyList, cs).index, Some(course)) == FallbackSector
    ensures IndexedSector(cs, Normalize(course)).Some? ==>
              Some(SectorLookup(Load(EmptyList, cs).names, Load(EmptyList, cs).index, Some(course))) ==
              HeaderName(cs, IndexedSector(cs, Normalize(course)).value)
  {
    LoadNames(cs);
    LoadIndex(cs);
    IndexedSectorHasName(cs, Normalize(course));
  }

  /** A header line written `<n>. <name>` is read as sector `n` named `name`. */
  lemma ClassifyHeaderLine(n: nat, name: string)
    requires name != [] && !IsTrimmable(name[0]) && !IsTrimmable(name[|name| - 1])
    requires forall k :: 0 <= k < |name| ==> !IsDotExcluded(name[k])
    ensures Classify(DecimalDigits(n) + ". " + name) == Header(n, name)
  {
    var line := DecimalDigits(n) + ". " + name;
    assert line[0] == DecimalDigits(n)[0] && line[|line| - 1] == name[|name| - 1];
    SectorLineRoundTrip(n, name);
  }

  /** A course line written `- <name>` (or with `•` or `*`) is read as that course. */
  lemma ClassifyCourseLine(marker: char, name: string)
    requires marker == '•' || marker == '-' || marker == '*'
    requires name != [] && !IsTrimmable(name[0]) && !IsTrimmable(name[|name| - 1]) && !IsBlank(name)
    ensures Classify([marker, ' '] + name) == Course(name)
  {
    var line := [marker, ' '] + name;
    assert line[|line| - 1] == name[|name| - 1];
    assert MatchSectorLine(line) == None by {
      assert SkipRegexSpaces(line, 0) == 0 && SkipDigits(line, 0) == 0;
    }
    ExtractBulletRoundTrip(marker, name);
  }
}
