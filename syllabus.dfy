/**
  `SyllabusService`: the catalog built at start-up and the two queries it answers.

  `init` registers the ten sector files, reads the master course list and then
  cuts every sector file into per-course sections. The file system is a
  parameter: the master list is the sequence of its lines, or `None` when it
  cannot be found or read, and `files` maps each file name that can be found
  and read to its content. `HashMap` iteration order, which Java leaves
  unspecified, is a parameter too: `sectorOrder` lists the sectors that have
  sections, and `keyOrders` lists the keys of each sector's sections.
*/
module Syllabus {
  import opened Wrappers
  import opened JavaText
  import opened Normalization
  import opened Similarity
  import opened MasterList
  import opened Sections
  import opened LinePatterns

  /** The sector files `init` registers, in registration order: sector number and file name. */
  const SectorFiles: seq<(nat, string)> := [
    (1, "BEAUTY SECTOR1.txt"),
    (2, "IT Sector 2.txt"),
    (3, "healthcare sector3.txt"),
    (4, "construction and engineering ssksills sector4.txt"),
    (5, "management n finance sector5.txt"),
    (6, "media and entertain sector6.txt"),
    (7, "hospitality and tourism sector7.txt"),
    (8, "apparel and fashion design sector8.txt"),
    (9, "electronic n hardware sector9.txt"),
    (10, "logistic and suply chain sector 10.txt")
  ]

  /** The answer to a missing or blank course name. */
  const MissingCourseName: string := "Syllabus not found: course name is missing."

  /** The answer when no stage finds anything for `course`. */
  function NotFoundMessage(course: string): string {
    "Syllabus not found for \"" + course + "\"."
  }

  /** No sector number is registered twice. */
  predicate DistinctSectors(entries: seq<(nat, string)>) {
    forall i, j :: 0 <= i < j < |entries| ==> entries[i].0 != entries[j].0
  }

  /** `sectorCoursesByIndex.getOrDefault(sector, emptyList())`. */
  function CoursesOf(courses: map<nat, seq<string>>, sector: nat): seq<string> {
    if sector in courses then courses[sector] else []
  }

  /** `sectorContentCache` after reading the registered files `entries` in order, starting from `cache`. */
  function ReadContents(cache: map<nat, string>, entries: seq<(nat, string)>, files: map<string, string>): map<nat, string>
    decreases |entries|
  {
    if entries == [] then cache
    else
      var m := ReadContents(cache, entries[..|entries| - 1], files);
      var (sector, name) := entries[|entries| - 1];
      if name in files then m[sector := files[name]] else m
  }

  /** `sectorCourseSectionsByNormalized` after reading the registered files `entries` in order. */
  function ReadSections(sections: map<nat, map<string, string>>, entries: seq<(nat, string)>, files: map<string, string>,
                        courses: map<nat, seq<string>>): map<nat, map<string, string>>
    decreases |entries|
  {
    if entries == [] then sections
    else
      var m := ReadSections(sections, entries[..|entries| - 1], files, courses);
      var (sector, name) := entries[|entries| - 1];
      if name in files then m[sector := SectionsOf(files[name], CoursesOf(courses, sector))] else m
  }

  /** A registered sector is cached exactly when its file can be read, and then with the file's
      content; any other sector keeps what it had. */
  lemma {:induction false} ReadContentsSpec(cache: map<nat, string>, entries: seq<(nat, string)>, files: map<string, string>, sector: nat)
    requires DistinctSectors(entries)
    ensures forall i :: 0 <= i < |entries| && entries[i].0 == sector ==>
              (sector in ReadContents(cache, entries, files) <==> entries[i].1 in files || sector in cache)
    ensures forall i :: 0 <= i < |entries| && entries[i].0 == sector && entries[i].1 in files ==>
              ReadContents(cache, entries, files)[sector] == files[entries[i].1]
    ensures (forall i :: 0 <= i < |entries| ==> entries[i].0 != sector) ==>
              (sector in ReadContents(cache, entries, files) <==> sector in cache) &&
              (sector in cache ==> ReadContents(cache, entries, files)[sector] == cache[sector])
    ensures (forall i :: 0 <= i < |entries| && entries[i].0 == sector ==> entries[i].1 !in files) ==>
              (sector in ReadContents(cache, entries, files) <==> sector in cache) &&
              (sector in cache ==> ReadContents(cache, entries, files)[sector] == cache[sector])
    decreases |entries|
  {
    if entries != [] {
      var init := entries[..|entries| - 1];
      assert DistinctSectors(init);
      ReadContentsSpec(cache, init, files, sector);
    }
  }

  /** A registered sector whose file can be read gets the sections cut from that file, with the
      sector's listed courses as the expected ones. */
  lemma {:induction false} ReadSectionsSpec(sections: map<nat, map<string, string>>, entries: seq<(nat, string)>,
                                            files: map<string, string>, courses: map<nat, seq<string>>, sector: nat)
    requires DistinctSectors(entries)
    ensures forall i :: 0 <= i < |entries| && entries[i].0 == sector && entries[i].1 in files ==>
              sector in ReadSections(sections, entries, files, courses) &&
              ReadSections(sections, entries, files, courses)[sector] == SectionsOf(files[entries[i].1], CoursesOf(courses, sector))
    decreases |entries|
  {
    if entries != [] {
      var init := entries[..|entries| - 1];
      var last := |entries| - 1;
      assert DistinctSectors(init);
      ReadSectionsSpec(sections, init, files, courses, sector);
      var r := ReadSections(sections, entries, files, courses);
      forall i | 0 <= i < |entries| && entries[i].0 == sector && entries[i].1 in files
        ensures sector in r && r[sector] == SectionsOf(files[entries[i].1], CoursesOf(courses, sector))
      {
        if i < last {
          assert init[i] == entries[i];
          assert entries[last].0 != sector;
        }
      }
    }
  }

  /** A sector none of whose registered files can be read keeps the sections it had. */
  lemma {:induction false} ReadSectionsKeeps(sections: map<nat, map<string, string>>, entries: seq<(nat, string)>,
                                             files: map<string, string>, courses: map<nat, seq<string>>, sector: nat)
    requires forall i :: 0 <= i < |entries| && entries[i].0 == sector ==> entries[i].1 !in files
    ensures sector in ReadSections(sections, entries, files, courses) <==> sector in sections
    ensures sector in sections ==> ReadSections(sections, entries, files, courses)[sector] == sections[sector]
    decreases |entries|
  {
    if entries != [] {
      ReadSectionsKeeps(sections, entries[..|entries| - 1], files, courses, sector);
    }
  }

  /** No section of any sector is blank. */
  ghost predicate SectionsNonBlank(sections: map<nat, map<string, string>>) {
    forall sector, key :: sector in sections && key in sections[sector] ==> !IsBlank(sections[sector][key])
  }

  /** Every section of every sector is trimmed. */
  ghost predicate SectionsTrimmed(sections: map<nat, map<string, string>>) {
    forall sector, key :: sector in sections && key in sections[sector] ==> Trim(sections[sector][key]) == sections[sector][key]
  }

  /** Reading sector files keeps every section trimmed and not blank. */
  lemma {:induction false} ReadSectionsNonBlank(sections: map<nat, map<string, string>>, entries: seq<(nat, string)>,
                                                files: map<string, string>, courses: map<nat, seq<string>>)
    requires SectionsNonBlank(sections) && SectionsTrimmed(sections)
    ensures SectionsNonBlank(ReadSections(sections, entries, files, courses))
    ensures SectionsTrimmed(ReadSections(sections, entries, files, courses))
    decreases |entries|
  {
    if entries != [] {
      ReadSectionsNonBlank(sections, entries[..|entries| - 1], files, courses);
      var (sector, name) := entries[|entries| - 1];
      if name in files {
        SectionTextsNonBlank(files[name], CoursesOf(courses, sector));
      }
    }
  }

  /** The sections of `sector`, or none when it has no entry (`getOrDefault(sector, emptyMap())`). */
  function SectionsIn(sections: map<nat, map<string, string>>, sector: nat): map<string, string> {
    if sector in sections then sections[sector] else map[]
  }

  /** The iteration order of the sections of `sector`. */
  function OrderIn(sections: map<nat, map<string, string>>, keyOrders: map<nat, seq<string>>, sector: nat): seq<string>
    requires sector in sections ==> sector in keyOrders
  {
    if sector in sections then keyOrders[sector] else []
  }

  /** `keyOrders` gives an iteration order for the keys of every sector's sections. */
  predicate OrdersEnumerate(sections: map<nat, map<string, string>>, keyOrders: map<nat, seq<string>>) {
    forall sector :: sector in sections ==> sector in keyOrders && Enumerates(keyOrders[sector], sections[sector].Keys)
  }

  /** The first three stages of `getSyllabusByCourse`, for a course indexed under `sector`: the exact
      section, the best fuzzy section of that sector, and the sector's whole text when not blank. */
  function IndexedAnswer(key: string, sector: nat, sections: map<nat, map<string, string>>, keyOrders: map<nat, seq<string>>,
                         contents: map<nat, string>): Option<string>
    requires OrdersEnumerate(sections, keyOrders)
  {
    var own := SectionsIn(sections, sector);
    if key in own && !IsBlank(own[key]) then Some(own[key])
    else
      match BestSection(key, own, OrderIn(sections, keyOrders, sector))
      case Some(text) => Some(text)
      case None => if sector in contents && !IsBlank(contents[sector]) then Some(contents[sector]) else None
  }

  /** The last stage: the best fuzzy section of the first sector, in `sectorOrder`, that has one. */
  function FirstFuzzy(key: string, sectorOrder: seq<nat>, sections: map<nat, map<string, string>>, keyOrders: map<nat, seq<string>>): Option<string>
    requires forall i :: 0 <= i < |sectorOrder| ==> sectorOrder[i] in sections
    requires OrdersEnumerate(sections, keyOrders)
    decreases |sectorOrder|
  {
    if sectorOrder == [] then None
    else
      var sector := sectorOrder[0];
      match BestSection(key, sections[sector], keyOrders[sector])
      case Some(text) => Some(text)
      case None => FirstFuzzy(key, sectorOrder[1..], sections, keyOrders)
  }

  /** The stages of `getSyllabusByCourse` for a normalized course: the indexed stages, then the scan
      of every sector; `None` when none of them finds anything. */
  function Lookup(index: map<string, nat>, sections: map<nat, map<string, string>>, contents: map<nat, string>,
                  key: string, sectorOrder: seq<nat>, keyOrders: map<nat, seq<string>>): Option<string>
    requires Enumerates(sectorOrder, sections.Keys)
    requires OrdersEnumerate(sections, keyOrders)
  {
    var indexed := if key in index then IndexedAnswer(key, index[key], sections, keyOrders, contents) else None;
    if indexed.Some? then indexed else FirstFuzzy(key, sectorOrder, sections, keyOrders)
  }

  /** `getSyllabusByCourse(course)` over the service's tables, `None` standing for `null`. */
  function SyllabusOf(index: map<string, nat>, sections: map<nat, map<string, string>>, contents: map<nat, string>,
                      course: Option<string>, sectorOrder: seq<nat>, keyOrders: map<nat, seq<string>>): string
    requires Enumerates(sectorOrder, sections.Keys)
    requires OrdersEnumerate(sections, keyOrders)
  {
    if course.None? || IsBlank(course.value) then MissingCourseName
    else
      match Lookup(index, sections, contents, Normalize(course.value), sectorOrder, keyOrders)
      case Some(text) => text
      case None => NotFoundMessage(course.value)
  }

  /** The fuzzy stage answers with a section of one of the sectors it scans, one that clears the
      threshold against the course; it answers nothing exactly when no key of any sector does. */
  lemma {:induction false} FirstFuzzySpec(key: string, sectorOrder: seq<nat>, sections: map<nat, map<string, string>>,
                                          keyOrders: map<nat, seq<string>>)
    requires forall i :: 0 <= i < |sectorOrder| ==> sectorOrder[i] in sections
    requires OrdersEnumerate(sections, keyOrders)
    ensures FirstFuzzy(key, sectorOrder, sections, keyOrders).None? <==>
              forall i, k :: 0 <= i < |sectorOrder| && k in sections[sectorOrder[i]] ==> Score(key, k) < Threshold
    ensures FirstFuzzy(key, sectorOrder, sections, keyOrders).Some? ==>
              exists i, k :: && 0 <= i < |sectorOrder| && k in sections[sectorOrder[i]]
                             && FirstFuzzy(key, sectorOrder, sections, keyOrders).value == sections[sectorOrder[i]][k]
                             && Score(key, k) >= Threshold
    decreases |sectorOrder|
  {
    if sectorOrder != [] {
      var sector := sectorOrder[0];
      var rest := sectorOrder[1..];
      BestSectionSpec(key, sections[sector], keyOrders[sector]);
      FirstFuzzySpec(key, rest, sections, keyOrders);
      var r := FirstFuzzy(key, sectorOrder, sections, keyOrders);
      if BestSection(key, sections[sector], keyOrders[sector]).Some? {
        var k :| && k in sections[sector] && r.value == sections[sector][k] && Score(key, k) >= Threshold;
        assert sectorOrder[0] == sector;
      } else {
        if r.Some? {
          var i, k :| && 0 <= i < |rest| && k in sections[rest[i]]
                      && r.value == sections[rest[i]][k] && Score(key, k) >= Threshold;
          assert sectorOrder[i + 1] == rest[i];
        }
        forall i, k | 0 <= i < |sectorOrder| && k in sections[sectorOrder[i]] && r.None?
          ensures Score(key, k) < Threshold
        {
          if i > 0 {
            assert sectorOrder[i] == rest[i - 1];
          }
        }
      }
    }
  }

  /** A stored, non-blank section under the course's own key in its indexed sector is the answer. */
  lemma SyllabusExactHit(index: map<string, nat>, sections: map<nat, map<string, string>>, contents: map<nat, string>,
                         course: string, sectorOrder: seq<nat>, keyOrders: map<nat, seq<string>>)
    requires Enumerates(sectorOrder, sections.Keys)
    requires OrdersEnumerate(sections, keyOrders)
    requires !IsBlank(course)
    requires Normalize(course) in index && index[Normalize(course)] in sections
    requires Normalize(course) in sections[index[Normalize(course)]]
    requires !IsBlank(sections[index[Normalize(course)]][Normalize(course)])
    ensures SyllabusOf(index, sections, contents, Some(course), sectorOrder, keyOrders) ==
              sections[index[Normalize(course)]][Normalize(course)]
  {
  }

  /** `text` is a section stored for some key of some sector. */
  ghost predicate StoredIn(sections: map<nat, map<string, string>>, text: string) {
    exists sector, key :: sector in sections && key in sections[sector] && text == sections[sector][key]
  }

  /** The indexed stages answer with a section of the course's sector or with the sector's whole,
      non-blank text; they answer nothing exactly when the exact section is missing or blank, no key
      of the sector clears the threshold and the sector's text is missing or blank. */
  lemma IndexedAnswerSpec(key: string, sector: nat, sections: map<nat, map<string, string>>, keyOrders: map<nat, seq<string>>,
                          contents: map<nat, string>)
    requires OrdersEnumerate(sections, keyOrders)
    ensures var a := IndexedAnswer(key, sector, sections, keyOrders, contents);
            a.Some? ==> (sector in sections && exists k :: k in sections[sector] && a.value == sections[sector][k]) ||
                        (sector in contents && a.value == contents[sector] && !IsBlank(a.value))
    ensures IndexedAnswer(key, sector, sections, keyOrders, contents).None? <==>
              && (key !in SectionsIn(sections, sector) || IsBlank(SectionsIn(sections, sector)[key]))
              && (forall k :: k in SectionsIn(sections, sector) ==> Score(key, k) < Threshold)
              && (sector !in contents || IsBlank(contents[sector]))
  {
    BestSectionSpec(key, SectionsIn(sections, sector), OrderIn(sections, keyOrders, sector));
  }

  /** A lookup answers with a stored section of some sector, or with the whole, non-blank text of
      the sector the key is indexed under. */
  lemma LookupProvenance(index: map<string, nat>, sections: map<nat, map<string, string>>, contents: map<nat, string>,
                         key: string, sectorOrder: seq<nat>, keyOrders: map<nat, seq<string>>)
    requires Enumerates(sectorOrder, sections.Keys)
    requires OrdersEnumerate(sections, keyOrders)
    ensures var a := Lookup(index, sections, contents, key, sectorOrder, keyOrders);
            a.Some? ==> StoredIn(sections, a.value) ||
                        (key in index && index[key] in contents && a.value == contents[index[key]] && !IsBlank(a.value))
  {
    var a := Lookup(index, sections, contents, key, sectorOrder, keyOrders);
    var indexed := if key in index then IndexedAnswer(key, index[key], sections, keyOrders, contents) else None;
    if indexed.Some? {
      IndexedAnswerSpec(key, index[key], sections, keyOrders, contents);
      if !(index[key] in contents && a.value == contents[index[key]] && !IsBlank(a.value)) {
        var k :| k in sections[index[key]] && a.value == sections[index[key]][k];
      }
    } else {
      FirstFuzzySpec(key, sectorOrder, sections, keyOrders);
      if a.Some? {
        var i, k :| 0 <= i < |sectorOrder| && k in sections[sectorOrder[i]] && a.value == sections[sectorOrder[i]][k];
      }
    }
  }

  /** Every answer is the missing-name message, the not-found message naming the course as given,
      a stored section of some sector, or the whole, non-blank text of the sector the course is
      indexed under. */
  lemma SyllabusProvenance(index: map<string, nat>, sections: map<nat, map<string, string>>, contents: map<nat, string>,
                           course: Option<string>, sectorOrder: seq<nat>, keyOrders: map<nat, seq<string>>)
    requires Enumerates(sectorOrder, sections.Keys)
    requires OrdersEnumerate(sections, keyOrders)
    ensures var r := SyllabusOf(index, sections, contents, course, sectorOrder, keyOrders);
            || r == MissingCourseName
            || (course.Some? && r == NotFoundMessage(course.value))
            || StoredIn(sections, r)
            || (course.Some? && Normalize(course.value) in index && index[Normalize(course.value)] in contents &&
                r == contents[index[Normalize(course.value)]] && !IsBlank(r))
  {
    if course.Some? && !IsBlank(course.value) {
      var key := Normalize(course.value);
      var a := Lookup(index, sections, contents, key, sectorOrder, keyOrders);
      LookupProvenance(index, sections, contents, key, sectorOrder, keyOrders);
      assert a.None? ==> SyllabusOf(index, sections, contents, course, sectorOrder, keyOrders) == NotFoundMessage(course.value);
    }
  }

  /** When the course is not indexed and no key of any sector scores at the threshold against it,
      the answer is the not-found message. */
  lemma SyllabusNotFound(index: map<string, nat>, sections: map<nat, map<string, string>>, contents: map<nat, string>,
                         course: string, sectorOrder: seq<nat>, keyOrders: map<nat, seq<string>>)
    requires Enumerates(sectorOrder, sections.Keys)
    requires OrdersEnumerate(sections, keyOrders)
    requires !IsBlank(course) && Normalize(course) !in index
    requires forall sector, key :: sector in sections && key in sections[sector] ==> Score(Normalize(course), key) < Threshold
    ensures SyllabusOf(index, sections, contents, Some(course), sectorOrder, keyOrders) == NotFoundMessage(course)
  {
    FirstFuzzySpec(Normalize(course), sectorOrder, sections, keyOrders);
  }

  /** Neither fixed answer is blank. */
  lemma MessagesNotBlank(course: string)
    ensures !IsBlank(MissingCourseName)
    ensures !IsBlank(NotFoundMessage(course))
  {
    assert MissingCourseName[0] == 'S';
    assert NotFoundMessage(course)[0] == 'S';
  }

  /** With every stored section non-blank, the answer is never blank. */
  lemma SyllabusNeverBlank(index: map<string, nat>, sections: map<nat, map<string, string>>, contents: map<nat, string>,
                           course: Option<string>, sectorOrder: seq<nat>, keyOrders: map<nat, seq<string>>)
    requires Enumerates(sectorOrder, sections.Keys)
    requires OrdersEnumerate(sections, keyOrders)
    requires SectionsNonBlank(sections)
    ensures !IsBlank(SyllabusOf(index, sections, contents, course, sectorOrder, keyOrders))
  {
    MessagesNotBlank(if course.Some? then course.value else "");
    if course.Some? && !IsBlank(course.value) {
      var key := Normalize(course.value);
      var a := Lookup(index, sections, contents, key, sectorOrder, keyOrders);
      LookupProvenance(index, sections, contents, key, sectorOrder, keyOrders);
      if a.Some? {
        if StoredIn(sections, a.value) {
          var sector, k :| sector in sections && k in sections[sector] && a.value == sections[sector][k];
          assert !IsBlank(a.value) by {
            assert !IsBlank(sections[sector][k]);
          }
        }
        assert SyllabusOf(index, sections, contents, course, sectorOrder, keyOrders) == a.value;
      } else {
        assert SyllabusOf(index, sections, contents, course, sectorOrder, keyOrders) == NotFoundMessage(course.value);
      }
    }
  }

  /** The body of the loop of `parseWebsiteCourseList` on one raw line: the tables and
      `currentSector` before the line, and after it. */
  method ReadMasterLine(rawLine: string, tables: ListState) returns (next: ListState)
    requires tables.current.Some? ==> tables.current.value in tables.courses
    ensures next == Step(tables, Classify(rawLine))
  {
    next := tables;
    var line := Trim(rawLine);
    if line == [] {
      assert Classify(rawLine) == Blank;
      return;
    }
    var sectorMatch := MatchSectorLine(line);
    if sectorMatch.Some? {
      var (sector, group) := sectorMatch.value;
      assert Classify(rawLine) == Header(sector, Trim(group));
      next := next.(current := Some(sector), names := next.names[sector := Trim(group)]);
      if sector !in next.courses {
        next := next.(courses := next.courses[sector := []]);
      }
      return;
    }
    if tables.current.None? {
      assert Classify(rawLine).Course? || Classify(rawLine) == Other;
      return;
    }
    var course := ExtractBulletText(line);
    if course.None? || IsBlank(course.value) {
      assert Classify(rawLine) == Other;
      return;
    }
    assert Classify(rawLine) == Course(course.value);
    var sector := tables.current.value;
    next := next.(courses := next.courses[sector := next.courses[sector] + [course.value]]);
    next := next.(index := next.index[Normalize(course.value) := sector]);
  }

  /** The loop of `parseWebsiteCourseList` over the lines of the master list, from the tables
      `start` with no current sector. */
  method ReadMasterLines(lines: seq<string>, start: ListState) returns (tables: ListState)
    requires start.current.None?
    ensures tables == Load(start, ClassifyAll(lines))
  {
    ghost var cs := ClassifyAll(lines);
    tables := start;
    for i := 0 to |lines|
      invariant tables == Load(start, cs[..i])
      invariant tables.current.Some? ==> tables.current.value in tables.courses
    {
      tables := ReadMasterLine(lines[i], tables);
      assert cs[..i + 1][..i] == cs[..i];
      CurrentIsListed(start, cs[..i + 1]);
    }
    assert cs[..|lines|] == cs;
  }

  class SyllabusService {
    /** `sectorFileByIndex`, a `LinkedHashMap`: its entries in insertion order. */
    var sectorFileByIndex: seq<(nat, string)>
    var sectorNameByIndex: map<nat, string>
    var sectorCoursesByIndex: map<nat, seq<string>>
    var courseToSectorByNormalized: map<string, nat>
    var sectorContentCache: map<nat, string>
    var sectorCourseSectionsByNormalized: map<nat, map<string, string>>

    /** A new service holds empty tables. */
    constructor()
      ensures sectorFileByIndex == [] && sectorNameByIndex == map[] && sectorCoursesByIndex == map[]
      ensures courseToSectorByNormalized == map[] && sectorContentCache == map[] && sectorCourseSectionsByNormalized == map[]
    {
      sectorFileByIndex := [];
      sectorNameByIndex := map[];
      sectorCoursesByIndex := map[];
      courseToSectorByNormalized := map[];
      sectorContentCache := map[];
      sectorCourseSectionsByNormalized := map[];
    }

    /** The master-list tables and a `currentSector`, as one value. */
    function Tables(current: Option<nat>): ListState
      reads this
    {
      ListState(sectorNameByIndex, sectorCoursesByIndex, courseToSectorByNormalized, current)
    }

    /** `init()` on a new service: register the sector files, read the master list, then the sector files. */
    method Init(masterLines: Option<seq<string>>, files: map<string, string>)
      modifies this
      requires sectorFileByIndex == [] && sectorNameByIndex == map[] && sectorCoursesByIndex == map[]
      requires courseToSectorByNormalized == map[] && sectorContentCache == map[] && sectorCourseSectionsByNormalized == map[]
      ensures sectorFileByIndex == SectorFiles
      ensures masterLines.None? ==> Tables(None) == EmptyList
      ensures masterLines.Some? ==> Tables(None) == Load(EmptyList, ClassifyAll(masterLines.value)).(current := None)
      ensures sectorContentCache == ReadContents(map[], SectorFiles, files)
      ensures sectorCourseSectionsByNormalized == ReadSections(map[], SectorFiles, files, sectorCoursesByIndex)
      ensures SectionsNonBlank(sectorCourseSectionsByNormalized) && SectionsTrimmed(sectorCourseSectionsByNormalized)
    {
      sectorFileByIndex := SectorFiles;
      ParseWebsiteCourseList(masterLines);
      ParseAllSectorSections(files);
      ReadSectionsNonBlank(map[], SectorFiles, files, sectorCoursesByIndex);
    }

    /** `parseWebsiteCourseList()`, given the lines of the master list, or `None` when it cannot be read. */
    method ParseWebsiteCourseList(masterLines: Option<seq<string>>)
      modifies this
      ensures unchanged(this`sectorFileByIndex, this`sectorContentCache, this`sectorCourseSectionsByNormalized)
      ensures masterLines.None? ==> Tables(None) == old(Tables(None))
      ensures masterLines.Some? ==> Tables(None) == Load(old(Tables(None)), ClassifyAll(masterLines.value)).(current := None)
    {
      if masterLines.None? {
        return;
      }
      var tables := ReadMasterLines(masterLines.value, Tables(None));
      sectorNameByIndex, sectorCoursesByIndex, courseToSectorByNormalized := tables.names, tables.courses, tables.index;
    }

    /** `parseAllSectorSections()`: every registered file that can be read is cached and cut into
        sections, with the sector's listed courses as the expected ones. */
    method ParseAllSectorSections(files: map<string, string>)
      modifies this
      ensures unchanged(this`sectorFileByIndex, this`sectorNameByIndex, this`sectorCoursesByIndex, this`courseToSectorByNormalized)
      ensures sectorContentCache == ReadContents(old(sectorContentCache), sectorFileByIndex, files)
      ensures sectorCourseSectionsByNormalized ==
                ReadSections(old(sectorCourseSectionsByNormalized), sectorFileByIndex, files, sectorCoursesByIndex)
    {
      ghost var cache := sectorContentCache;
      ghost var sections := sectorCourseSectionsByNormalized;
      for j := 0 to |sectorFileByIndex|
        invariant unchanged(this`sectorFileByIndex, this`sectorNameByIndex, this`sectorCoursesByIndex, this`courseToSectorByNormalized)
        invariant sectorContentCache == ReadContents(cache, sectorFileByIndex[..j], files)
        invariant sectorCourseSectionsByNormalized == ReadSections(sections, sectorFileByIndex[..j], files, sectorCoursesByIndex)
      {
        var (sector, name) := sectorFileByIndex[j];
        assert sectorFileByIndex[..j + 1][..j] == sectorFileByIndex[..j];
        if name in files {
          var content := files[name];
          sectorContentCache := sectorContentCache[sector := content];
          var expected := if sector in sectorCoursesByIndex then sectorCoursesByIndex[sector] else [];
          var extracted := ExtractSections(content, expected);
          sectorCourseSectionsByNormalized := sectorCourseSectionsByNormalized[sector := extracted];
        }
      }
      assert sectorFileByIndex[..|sectorFileByIndex|] == sectorFileByIndex;
    }

    /** `getSectorByCourse(course)`: the name of the sector the course is indexed under, or the fallback. */
    function GetSectorByCourse(course: Option<string>): (r: string)
      reads this
      ensures NormalizeNullable(course) !in courseToSectorByNormalized ==> r == FallbackSector
      ensures r == FallbackSector || r in sectorNameByIndex.Values
    {
      SectorLookup(sectorNameByIndex, courseToSectorByNormalized, course)
    }

    /** `getSyllabusByCourse(course)`, scanning sectors in `sectorOrder` and the keys of each
        sector's sections in `keyOrders`. */
    method GetSyllabusByCourse(course: Option<string>, sectorOrder: seq<nat>, keyOrders: map<nat, seq<string>>)
      returns (r: string)
      requires Enumerates(sectorOrder, sectorCourseSectionsByNormalized.Keys)
      requires OrdersEnumerate(sectorCourseSectionsByNormalized, keyOrders)
      ensures r == SyllabusOf(courseToSectorByNormalized, sectorCourseSectionsByNormalized, sectorContentCache,
                              course, sectorOrder, keyOrders)
    {
      if course.None? || IsBlank(course.value) {
        return MissingCourseName;
      }
      var normalizedCourse := Normalize(course.value);
      var indexed := IndexedStages(normalizedCourse, keyOrders);
      if indexed.Some? {
        return indexed.value;
      }
      var fuzzy := ScanSectors(normalizedCourse, sectorOrder, keyOrders);
      if fuzzy.Some? {
        return fuzzy.value;
      }
      return NotFoundMessage(course.value);
    }

    /** The stages of `getSyllabusByCourse` that run when the course is indexed. */
    method IndexedStages(normalizedCourse: string, keyOrders: map<nat, seq<string>>) returns (answer: Option<string>)
      requires OrdersEnumerate(sectorCourseSectionsByNormalized, keyOrders)
      ensures answer == if normalizedCourse in courseToSectorByNormalized
                        then IndexedAnswer(normalizedCourse, courseToSectorByNormalized[normalizedCourse],
                                           sectorCourseSectionsByNormalized, keyOrders, sectorContentCache)
                        else None
    {
      if normalizedCourse !in courseToSectorByNormalized {
        return None;
      }
      var sector := courseToSectorByNormalized[normalizedCourse];
      var sections := SectionsIn(sectorCourseSectionsByNormalized, sector);
      if normalizedCourse in sections && !IsBlank(sections[normalizedCourse]) {
        return Some(sections[normalizedCourse]);
      }
      var fuzzySection := FindBestSectionForCourse(normalizedCourse, sections, OrderIn(sectorCourseSectionsByNormalized, keyOrders, sector));
      if fuzzySection.Some? {
        return fuzzySection;
      }
      if sector in sectorContentCache && !IsBlank(sectorContentCache[sector]) {
        return Some(sectorContentCache[sector]);
      }
      return None;
    }

    /** The last stage of `getSyllabusByCourse`: the sectors in iteration order, first fuzzy hit wins. */
    method ScanSectors(normalizedCourse: string, sectorOrder: seq<nat>, keyOrders: map<nat, seq<string>>) returns (answer: Option<string>)
      requires Enumerates(sectorOrder, sectorCourseSectionsByNormalized.Keys)
      requires OrdersEnumerate(sectorCourseSectionsByNormalized, keyOrders)
      ensures answer == FirstFuzzy(normalizedCourse, sectorOrder, sectorCourseSectionsByNormalized, keyOrders)
    {
      for i := 0 to |sectorOrder|
        invariant FirstFuzzy(normalizedCourse, sectorOrder, sectorCourseSectionsByNormalized, keyOrders) ==
                  FirstFuzzy(normalizedCourse, sectorOrder[i..], sectorCourseSectionsByNormalized, keyOrders)
      {
        var sector := sectorOrder[i];
        var fuzzySection := FindBestSectionForCourse(normalizedCourse, sectorCourseSectionsByNormalized[sector], keyOrders[sector]);
        assert sectorOrder[i..][1..] == sectorOrder[i + 1..];
        if fuzzySection.Some? {
          return fuzzySection;
        }
      }
      return None;
    }
  }
}
