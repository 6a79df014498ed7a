# Course catalog of `SyllabusService`

This project models the course-catalog engine of the checkout application's
`SyllabusService`, and proves what it does.

At start-up the service does two things:

- It reads a master course list. The list has numbered sector headers (`3. Healthcare`) and bulleted course names (`• Phlebotomy Technician`). From it the service builds three tables: sector names, the ordered course list of each sector, and an index from each normalized course name to its sector.
- It reads one free-text file per sector and cuts it into per-course sections. A section starts at a numbered heading whose text fuzzily matches one of the sector's listed courses.

It then answers two queries:

- `getSectorByCourse` returns the sector name of a course, or `"Course Syllabus"`.
- `getSyllabusByCourse` runs a cascade of stages: the exact section, a fuzzy section of the course's sector, the whole sector text, and a fuzzy section of any sector. It ends in fixed messages.

Two pure helpers underlie everything:

- `normalize` lower-cases ASCII, turns `&` into ` and `, collapses every run of other characters into one space, and trims.
- `similarityScore` gives 0 for a blank side and 100 for equal keys. Otherwise it gives 30 for containment plus 5 per shared whitespace token.

The Dafny modules follow the Java code:

- `JavaText`: the `java.lang.String` and `java.util.regex` behaviour the service relies on. That is `trim`, `isBlank`, `contains`, `split("\\s+")`, `split("\\R")` and the character classes `\s`, `\d`, `.` and `\R`.
- `Normalization`: `normalize`.
- `Similarity`: `similarityScore`, and the two best-match scans with threshold 4 (`findBestExpectedCourse`, `findBestSectionForCourse`).
- `LinePatterns`: the regular expressions `SECTOR_LINE` and `COURSE_HEADING` as hand-written matchers with Java's lazy-group semantics, and `extractBulletText`.
- `MasterList`: the loop of `parseWebsiteCourseList`, as a classification of lines and a fold over them, with its tables described line by line.
- `Sections`: `extractSections` and `saveSection`. A specification splits the lines into blocks and stores them. A method runs Java's loop over `currentCourse`, the `StringBuilder` block and the result map.
- `Syllabus`: the `SyllabusService` class, with its six tables as fields, plus `init`, `parseAllSectorSections` and the two queries.

Several things outside the code are parameters of the model:

- The file system. The master list is `Some(lines)`, or `None` when it cannot be found or read. The readable sector files are a map from file name to content.
- `HashMap` iteration order, which Java leaves unspecified. `sectorOrder` lists the sectors that have sections; `keyOrders` lists the keys of each sector's section map. Each is required to enumerate its map's keys exactly once.
- `null` is `None` wherever the source accepts it.
- `System.lineSeparator()` is `"\n"`.

## Model

| member | source | states |
|---|---|---|
| Normalization.NormalizeShape | src/main/java/com/safix/checkout/service/SyllabusService.java:266-274 | a normalized key holds only `a-z`, `0-9` and single spaces, with no space at either end |
| Normalization.NormalizeIdempotent | src/main/java/com/safix/checkout/service/SyllabusService.java:266-274 | normalizing twice gives the same key as normalizing once |
| Normalization.NormalizeFixesNormalized | src/main/java/com/safix/checkout/service/SyllabusService.java:266-274 | any string of the normalized shape is its own key |
| Normalization.CollapseSpacedWords | src/main/java/com/safix/checkout/service/SyllabusService.java:272 | `replaceAll("[^a-z0-9]+", " ")` leaves only key characters and never two spaces in a row |
| Normalization.NormalizedBlankIsEmpty | src/main/java/com/safix/checkout/service/SyllabusService.java:239 | a normalized key is blank exactly when it is empty |
| Normalization.NormalizeIgnoresCase | src/main/java/com/safix/checkout/service/SyllabusService.java:270 | lower-casing a name first does not change its key |
| Normalization.CollapseAnySeparators | src/main/java/com/safix/checkout/service/SyllabusService.java:272 | any two non-empty runs of non-key characters in the same place collapse to the same text |
| Normalization.NormalizeIgnoresSeparators | src/main/java/com/safix/checkout/service/SyllabusService.java:266-274 | swapping one non-empty run of punctuation and blanks for another (doubling it, say, or `-` for three spaces) keeps the key, so `Hair-Styling` and `hair   styling` share one |
| Normalization.NormalizeOfSeparatorsOnly | src/main/java/com/safix/checkout/service/SyllabusService.java:266-274 | a name made of punctuation and blanks only has the empty key, the key of `null` |
| JavaText.WordsAreTokens | src/main/java/com/safix/checkout/service/SyllabusService.java:251-254 | every token of `split("\\s+")` less `""` is non-empty and holds no `\s` character |
| JavaText.WordsAreMaximalRuns | src/main/java/com/safix/checkout/service/SyllabusService.java:251-254 | every token of `split("\\s+")` less `""` is a maximal run of non-`\s` characters of the input |
| JavaText.MaximalRunsAreWords | src/main/java/com/safix/checkout/service/SyllabusService.java:251-254 | every maximal run of non-`\s` characters of the input is one of the tokens |
| JavaText.SplitLines | src/main/java/com/safix/checkout/service/SyllabusService.java:181 | no line of `split("\\R")` holds a line break; a text with no break is its own single line; otherwise the lines are the pieces between breaks less trailing empty ones only, the last kept line being non-empty |
| JavaText.LineBreaksOf | src/main/java/com/safix/checkout/service/SyllabusService.java:181 | each break `\R` consumes is `\r\n` or a single line-break character |
| JavaText.SplitAtLineBreaksRejoins | src/main/java/com/safix/checkout/service/SyllabusService.java:181 | there is one more piece than breaks, and the pieces glued back with the breaks between them give the text again |
| JavaText.CrLfIsOneBreak | src/main/java/com/safix/checkout/service/SyllabusService.java:181 | `\r\n` is always consumed as one break: a lone `\r` break is never followed directly by an empty piece and a `\n` break |
| Similarity.ScoreSymmetric | src/main/java/com/safix/checkout/service/SyllabusService.java:238-264 | the score does not depend on argument order |
| Similarity.ScoreOfEqual | src/main/java/com/safix/checkout/service/SyllabusService.java:242-244 | equal non-blank keys score 100 |
| Similarity.ScoreAccepted | src/main/java/com/safix/checkout/service/SyllabusService.java:238-264 | a score reaches the threshold 4 exactly when both sides are non-blank and they are equal, one contains the other, or they share a token |
| Similarity.ScoreOneSharedToken | src/main/java/com/safix/checkout/service/SyllabusService.java:246-263 | with no containment, one shared token scores exactly 5, which clears the threshold |
| Similarity.CountShared | src/main/java/com/safix/checkout/service/SyllabusService.java:256-261 | the counting loop returns the number of tokens in both sets |
| Similarity.SimilarityScore | src/main/java/com/safix/checkout/service/SyllabusService.java:238-264 | the method returns the score its specification defines: 0 for a blank side, 100 for equality, else 30 for containment plus 5 per shared token |
| Similarity.FirstMaxIndex | src/main/java/com/safix/checkout/service/SyllabusService.java:224-233 | the strict `>` scan keeps an index whose score is maximal and that no earlier index matches |
| Similarity.FirstMaxStep | src/main/java/com/safix/checkout/service/SyllabusService.java:227-233 | one more iteration of the scan replaces the best only on a strictly greater score |
| Similarity.PickBestSpec | src/main/java/com/safix/checkout/service/SyllabusService.java:229-235 | the pick is the first maximal candidate when it scores at least 4, and nothing exactly when every candidate scores below 4 |
| Similarity.BestExpectedCourseSpec | src/main/java/com/safix/checkout/service/SyllabusService.java:218-236 | the expected course returned is the original, un-normalized name whose key scores highest first and at least 4; null exactly when every expected name scores below 4 |
| Similarity.FindBestExpectedCourse | src/main/java/com/safix/checkout/service/SyllabusService.java:218-236 | the method, including its empty-list null, returns what `BestExpectedCourse` specifies |
| Similarity.ScanExpected | src/main/java/com/safix/checkout/service/SyllabusService.java:223-235 | the scan over a non-empty list returns the first maximal candidate when it clears the threshold |
| Similarity.BestSectionSpec | src/main/java/com/safix/checkout/service/SyllabusService.java:88-102 | the section text returned is stored under a key that scores highest and at least 4; null exactly when no key reaches 4 |
| Similarity.FindBestSectionForCourse | src/main/java/com/safix/checkout/service/SyllabusService.java:88-102 | the method returns what `BestSection` specifies for the given key order |
| LinePatterns.TailGroupSpec | src/main/java/com/safix/checkout/service/SyllabusService.java:17-18 | the lazy group `(.+?)\s*$` takes the largest start and the smallest end for it, as `java.util.regex` does, and fails exactly when no split exists |
| LinePatterns.LazyGroupOfSpacedName | src/main/java/com/safix/checkout/service/SyllabusService.java:17-18 | after a space, a name with no surrounding whitespace is captured whole |
| LinePatterns.SectorLineRoundTrip | src/main/java/com/safix/checkout/service/SyllabusService.java:17 | `SECTOR_LINE` reads `<n>. <name>` back as sector `n` and name `name` |
| LinePatterns.CourseHeadingRoundTrip | src/main/java/com/safix/checkout/service/SyllabusService.java:18 | `COURSE_HEADING` reads `<n>. <name>` and `<n>) <name>` back as `name` |
| LinePatterns.HeadingNeedsNumber | src/main/java/com/safix/checkout/service/SyllabusService.java:17-18 | a line with no digit matches neither pattern |
| LinePatterns.DecimalRoundTrip | src/main/java/com/safix/checkout/service/SyllabusService.java:121 | `parseInt` of the decimal digits of `n` is `n` |
| LinePatterns.ExtractBulletOfTrimmed | src/main/java/com/safix/checkout/service/SyllabusService.java:145-154 | on a trimmed line the result is non-null exactly when the line starts with `â€¢`, `•`, `-` or `*`, and then it is the stripped, trimmed remainder |
| LinePatterns.ExtractBulletRoundTrip | src/main/java/com/safix/checkout/service/SyllabusService.java:145-154 | a bullet, a space and a trimmed name give back the name |
| MasterList.ClassifyHeaderLine | src/main/java/com/safix/checkout/service/SyllabusService.java:114-125 | a raw line `<n>. <name>` is a header for sector `n` named `name` |
| MasterList.ClassifyCourseLine | src/main/java/com/safix/checkout/service/SyllabusService.java:114-135 | a raw line made of a bullet, a space and a non-blank trimmed name is a course line for `name` |
| MasterList.LoadCurrent | src/main/java/com/safix/checkout/service/SyllabusService.java:112-139 | after the loop, `currentSector` is the sector of the last header, or null when there is none |
| MasterList.LoadNames | src/main/java/com/safix/checkout/service/SyllabusService.java:119-125 | a sector is named exactly when a header announces it, and the name is that of its last header |
| MasterList.LoadCourseKeys | src/main/java/com/safix/checkout/service/SyllabusService.java:124 | a sector has a course list exactly when a header announces it |
| MasterList.LoadCourses | src/main/java/com/safix/checkout/service/SyllabusService.java:124-137 | a sector's list holds, in file order, every course listed under any of its headers, because a repeated header keeps the list (`putIfAbsent`) |
| MasterList.CoursesNeedHeader | src/main/java/com/safix/checkout/service/SyllabusService.java:128-130 | no course is collected for a sector that no header announces |
| MasterList.LoadIndex | src/main/java/com/safix/checkout/service/SyllabusService.java:138 | a key is indexed exactly when some course normalizes to it, and it maps to the sector of the last such course |
| MasterList.HeaderlessLinesLoadNothing | src/main/java/com/safix/checkout/service/SyllabusService.java:115-130 | without a header line, blank, bulleted and other lines leave every table empty |
| MasterList.OpenSectorHasName | src/main/java/com/safix/checkout/service/SyllabusService.java:119-125 | the current sector always has a name |
| MasterList.IndexedSectorHasName | src/main/java/com/safix/checkout/service/SyllabusService.java:123-138 | every sector in the index has a name |
| MasterList.CurrentIsListed | src/main/java/com/safix/checkout/service/SyllabusService.java:124-137 | the current sector always has a course list, so `sectorCoursesByIndex.get(currentSector).add` never meets null |
| MasterList.SectorLookup | src/main/java/com/safix/checkout/service/SyllabusService.java:44-50 | the answer is `"Course Syllabus"` or the name of some sector |
| MasterList.SeparatorsOnlyLookUpAsNull | src/main/java/com/safix/checkout/service/SyllabusService.java:44-50 | a course name of punctuation and blanks only gets the same sector as `null` |
| MasterList.SectorOfLoadedCourse | src/main/java/com/safix/checkout/service/SyllabusService.java:44-50 | after loading, a course's sector is the name on the last header of the sector it was last listed under, and `"Course Syllabus"` when it was never listed |
| Sections.AnnotateAt | src/main/java/com/safix/checkout/service/SyllabusService.java:185-190 | a line opens a block exactly when it matches `COURSE_HEADING` and its trimmed group matches an expected course |
| Sections.AcceptedIsExpected | src/main/java/com/safix/checkout/service/SyllabusService.java:186-192 | a block is opened only for one of the expected course names |
| Sections.BlocksEmpty | src/main/java/com/safix/checkout/service/SyllabusService.java:199-201 | no block exists until the first accepted heading |
| Sections.BlocksPartition | src/main/java/com/safix/checkout/service/SyllabusService.java:182-202 | the blocks, laid end to end, are exactly the lines from the first accepted heading on: earlier lines are dropped and no later line is lost |
| Sections.BlocksShape | src/main/java/com/safix/checkout/service/SyllabusService.java:187-201 | each block starts with its own accepted heading and holds no other; a heading-shaped line below the threshold stays in the current block |
| Sections.StoreEntries | src/main/java/com/safix/checkout/service/SyllabusService.java:208-216 | a key is stored exactly when some block saves under it, with the text of the last such block |
| Sections.StoredTextsNonBlank | src/main/java/com/safix/checkout/service/SyllabusService.java:212-214 | every stored text is trimmed and non-blank |
| Sections.SectionTextsNonBlank | src/main/java/com/safix/checkout/service/SyllabusService.java:175-216 | every section `extractSections` returns is trimmed and non-blank |
| Sections.SectionKeysAreExpected | src/main/java/com/safix/checkout/service/SyllabusService.java:175-216 | every section key is the normalized name of an expected course |
| Sections.KeyIsExpected | src/main/java/com/safix/checkout/service/SyllabusService.java:189-214 | a key stored from the annotated lines is the key of an expected course |
| Sections.SaveSectionPuts | src/main/java/com/safix/checkout/service/SyllabusService.java:208-216 | `saveSection` puts the trimmed block under the normalized course when it is non-blank, and otherwise changes nothing |
| Sections.TracksOpen | src/main/java/com/safix/checkout/service/SyllabusService.java:187-195 | an accepted heading saves the open block and starts a new one holding the heading line |
| Sections.TracksContinue | src/main/java/com/safix/checkout/service/SyllabusService.java:199-201 | any other line is appended to the open block, or dropped when no course is open |
| Sections.TracksClose | src/main/java/com/safix/checkout/service/SyllabusService.java:204 | the final `saveSection` stores the last block, completing the specification's map |
| Sections.ScanTracks | src/main/java/com/safix/checkout/service/SyllabusService.java:185-202 | after each line, `currentCourse`, the block and the map agree with the blocks cut so far |
| Sections.ScanStores | src/main/java/com/safix/checkout/service/SyllabusService.java:185-204 | the loop followed by the final save yields the stored blocks |
| Sections.OpensBlock | src/main/java/com/safix/checkout/service/SyllabusService.java:186-190 | a line opens a block for the expected course its heading group matches best |
| Sections.ReadNextLine | src/main/java/com/safix/checkout/service/SyllabusService.java:186-201 | one iteration updates the course, block and map as the line-by-line specification says |
| Sections.ScanLines | src/main/java/com/safix/checkout/service/SyllabusService.java:182-204 | the loop over the lines returns the map of stored blocks |
| Sections.ExtractSections | src/main/java/com/safix/checkout/service/SyllabusService.java:175-206 | the method returns the specified sections, and an empty map for blank content |
| Syllabus.ReadMasterLine | src/main/java/com/safix/checkout/service/SyllabusService.java:113-138 | one iteration of the master-list loop changes the tables and the current sector exactly as the line's classification says |
| Syllabus.ReadMasterLines | src/main/java/com/safix/checkout/service/SyllabusService.java:112-139 | the loop over all lines yields the tables that folding the classified lines gives |
| Syllabus.ReadContentsSpec | src/main/java/com/safix/checkout/service/SyllabusService.java:157-166 | a registered sector is cached with its file's content exactly when that file can be read; other sectors keep what they had |
| Syllabus.ReadSectionsSpec | src/main/java/com/safix/checkout/service/SyllabusService.java:157-168 | a registered sector whose file can be read gets the sections cut from that file, using the sector's listed courses as the expected ones |
| Syllabus.ReadSectionsKeeps | src/main/java/com/safix/checkout/service/SyllabusService.java:159-171 | a sector none of whose files can be read keeps the sections it had |
| Syllabus.ReadSectionsNonBlank | src/main/java/com/safix/checkout/service/SyllabusService.java:166-168 | reading the sector files keeps every stored section trimmed and non-blank |
| Syllabus.IndexedAnswerSpec | src/main/java/com/safix/checkout/service/SyllabusService.java:60-76 | the indexed stages answer with a section of the course's sector or with that sector's non-blank text; they answer nothing exactly when the exact section is missing or blank, no key clears the threshold and the text is missing or blank |
| Syllabus.FirstFuzzySpec | src/main/java/com/safix/checkout/service/SyllabusService.java:78-83 | the cross-sector stage answers with a section, of a scanned sector, whose key clears the threshold; it answers nothing exactly when no key of any sector does |
| Syllabus.LookupProvenance | src/main/java/com/safix/checkout/service/SyllabusService.java:57-83 | every stage's answer is a stored section or the indexed sector's non-blank text |
| Syllabus.MessagesNotBlank | src/main/java/com/safix/checkout/service/SyllabusService.java:54-85 | neither fixed message is blank |
| Syllabus.SyllabusExactHit | src/main/java/com/safix/checkout/service/SyllabusService.java:60-65 | a non-blank section under the course's own key in its indexed sector is the answer |
| Syllabus.SyllabusNotFound | src/main/java/com/safix/checkout/service/SyllabusService.java:78-85 | an unindexed course that no key of any sector matches gets `Syllabus not found for "<course>".`, with the input as given |
| Syllabus.SyllabusProvenance | src/main/java/com/safix/checkout/service/SyllabusService.java:52-86 | every answer is the missing-name message, the not-found message, a stored section, or the indexed sector's non-blank text |
| Syllabus.SyllabusNeverBlank | src/main/java/com/safix/checkout/service/SyllabusService.java:52-86 | when every stored section is non-blank, which `Init` establishes, the answer is never blank |
| Syllabus.SyllabusService.constructor | src/main/java/com/safix/checkout/service/SyllabusService.java:20-25 | a new service starts with all six tables empty |
| Syllabus.SyllabusService.Init | src/main/java/com/safix/checkout/service/SyllabusService.java:27-42 | `init` registers the ten sector files in order, loads the master list (or nothing when it is unreadable), reads the sector files, and leaves every section trimmed and non-blank |
| Syllabus.SyllabusService.ParseWebsiteCourseList | src/main/java/com/safix/checkout/service/SyllabusService.java:104-143 | the three master-list tables become the fold of the classified lines over the old tables, and stay unchanged when the list cannot be read |
| Syllabus.SyllabusService.ParseAllSectorSections | src/main/java/com/safix/checkout/service/SyllabusService.java:156-173 | the content cache and the section tables become the folds over the registered files; the master-list tables are untouched |
| Syllabus.SyllabusService.GetSectorByCourse | src/main/java/com/safix/checkout/service/SyllabusService.java:44-50 | a course whose key (`""` for null) is not indexed gets `"Course Syllabus"`; every answer is that or a sector name |
| Syllabus.SyllabusService.IndexedStages | src/main/java/com/safix/checkout/service/SyllabusService.java:58-76 | the first three stages run only for an indexed course and answer as `IndexedAnswer` specifies |
| Syllabus.SyllabusService.ScanSectors | src/main/java/com/safix/checkout/service/SyllabusService.java:78-83 | the scan over sectors in iteration order returns the first fuzzy hit |
| Syllabus.SyllabusService.GetSyllabusByCourse | src/main/java/com/safix/checkout/service/SyllabusService.java:52-86 | the method returns the answer of the specified cascade: the missing-name message for null or blank input, then the stages in order, then the not-found message |

## Left out

- File resolution and reading are not modelled: `resolvePath`, `Files.readAllLines`, `Files.readString`, the swallowed `IOException`, and the `@PostConstruct` wiring. An unreadable master list is `None`; an unreadable sector file is a name missing from the `files` map.
- The master list comes in already split into lines. How `readAllLines` splits lines and decodes UTF-8 is not modelled. `null` entries cannot occur there, so `rawLine == null ? "" : …` is not modelled. The same goes for the `null` checks on `line`, `content` and `expectedCourses` inside the class.
- `HashMap` iteration order is not fixed. It is the `sectorOrder` and `keyOrders` parameters of the queries, and an order parameter of `FindBestSectionForCourse`.
- Syllabus.SyllabusService.ParseWebsiteCourseList: the loop runs on a `ListState` value (`ReadMasterLines`), and the three fields are assigned once afterwards. Java writes into the fields line by line. Nothing else reads them meanwhile, so the final state is the same, but the intermediate field updates are not modelled.
- Syllabus.SyllabusService.Init: requires the six tables to be empty, i.e. a freshly constructed service. `sectorFileByIndex` is an ordered sequence of (sector, file name) pairs, assigned in one step rather than by ten `put` calls.
- MasterList.Classify: `Integer.parseInt` overflow is not modelled. Sector numbers are unbounded naturals. Java throws `NumberFormatException` for a header number above 2147483647, and `init` does not catch it.
- Normalization.LowerAscii: `toLowerCase(Locale.ROOT)` is modelled for ASCII letters only. Every other character later becomes a separator. This differs from Java only for the few non-ASCII characters whose lower case is an ASCII letter or digit, such as the Kelvin sign and dotted capital I.
- Similarity.Score: both arguments are non-null strings, because every call site passes `normalize` output. The null branch of `similarityScore` is not modelled.
- `System.lineSeparator()` is taken to be `"\n"`.
- The key `""` is not special-cased. A master-list bullet whose name has no letter or digit, such as `- ???`, is indexed under `""` (line 138). After that, `getSectorByCourse(null)` and `getSectorByCourse("!!!")` answer that bullet's sector, and `getSyllabusByCourse("!!!")`, unless a section is stored under `""`, reaches its third stage and returns that sector's whole text when it is non-blank. The second stage cannot match, because a blank key scores 0. The model keeps this behaviour (`SeparatorsOnlyLookUpAsNull`).
- The other files of the application are not part of this model: `RegistrationService`, `EmailService`, `PdfService`, `QrCodeController`, `CheckoutController` and `Registration`. They deal in spreadsheets, e-mail, PDF, QR images, web routing and clock-stamped records.
