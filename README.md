# Course catalog loader, modelled in Dafny

This project models the two moving parts of a course-catalog importer. Both are sequential
and deterministic.

- **The normalizer** (`read_course`, `from_raw_to_list`) reads one quarter's parsed JSON
  document: quarter name → `CourseData` → department → list of section mappings. It builds a
  flat list of `Course` records, with `Time` and `Date` cut at fixed offsets. It also builds
  one `Department` per department key. A department lists each `"<dept> <course number>
  <title>"` line of its sections once, in first-occurrence order. The first section without
  a required field raises a `KeyError`.
- **The driver** (`main`, `check_file_open`, `insert_data` of both `InsertData.py` files)
  walks the configured years upward from the start year. For each quarter token of a year it:
  - derives the quarter name (drop the 16-character file suffix, `_` becomes a space) and
    the path (`path + token`);
  - opens and normalizes the quarter's file;
  - inserts every Course into `<quarter> courses`, then every Department into
    `<quarter> departments`.

  The first fault ends the whole run.
- **The older top-level script** (`ReadCourseData.py`) runs the same normalizing loop
  inline on the fixed quarter `2018 Winter De Anza`. It counts the sections of each
  department and the courses in total. It stores hand-written 17-key course dictionaries and
  two-key department dictionaries in `new_test_courses` and `new_test_depts`.

The modules follow the program:

- `Catalog` (catalog.dfy): src/ReadCourseData.py. `ReadCourse` mutates the caller's
  `CourseList` object in place.
- `Records` (records.dfy): the `vars(entity)` records and the older script's dictionaries,
  each with a decoder.
- `DocumentStore` (store.dfy): the database as a `Database` object. It keeps the log of
  every `insert_one` call, and shared lemmas read collections back from that log.
- `Loader` (loader.dfy): both `InsertData.py` files. They are modelled alike except for the
  record format (`MessageToDict` or `vars`), which is a parameter here. The other ways the
  two files differ are listed under "Left out".
- `LegacyImport` (legacy.dfy): the older script.
- `PyStrings` (pystrings.dfy): Python's clamping slices, `replace` and `split`.

Each loop is a method proved against a recursive function that folds over the same input
prefix by prefix:

| method | proved against |
|---|---|
| `ReadCourse` | `ScanSections` |
| `FromRawToList` | `ScanTable` |
| `ImportYear` | `TokensRun` |
| `Run` | `RunFrom` |

The properties are lemmas about those functions.

## Model

| member | source | states |
|---|---|---|
| PyStrings.Take | src/ReadCourseData.py:164-166 | `s[:n]` is the prefix of length min(n, len s); a short string gives a shorter prefix, never an error |
| PyStrings.Drop | src/ReadCourseData.py:164-166 | `s[n:]` is what follows the first min(n, len s) characters; empty when s is too short |
| PyStrings.SlicesCutAt | src/ReadCourseData.py:164-166 | `s[:n]` and `s[n+1:]` are the two sides of s around index n (the separator character is dropped) |
| PyStrings.CutAtUnique | src/ReadCourseData.py:164-166 | the two sides of a cut are determined by the string and the offset |
| PyStrings.DropLast | src/InsertData.py:107 | `s[:-n]` keeps all but the last n characters, and is empty when s has at most n |
| PyStrings.Replace | src/InsertData.py:107 | `replace` keeps the length and changes exactly the occurrences of one character |
| PyStrings.ReplaceBack | src/InsertData.py:107 | replacing back undoes a replacement when the new character did not occur before |
| PyStrings.Split | src/InsertData.py:105 | `split(',')` returns at least one piece, and no piece holds a comma |
| PyStrings.JoinSplit | src/InsertData.py:105 | joining the pieces of a split with the separator gives back the string |
| PyStrings.SplitJoin | src/InsertData.py:105 | splitting separator-free pieces joined by the separator gives back the pieces |
| PyStrings.SplitPlain | src/InsertData.py:105 | a string without the separator splits into itself alone |
| PyStrings.SplitAtFirst | src/InsertData.py:105 | splitting cuts at the first separator and splits the rest |
| PyStrings.SplitCount | src/InsertData.py:105 | a split yields one piece more than the separators in the string |
| Catalog.CompleteHasRequiredKeys | src/ReadCourseData.py:160-168 | a section is complete iff it holds all 14 fields the constructor call reads |
| Catalog.MakeCourse | src/ReadCourseData.py:160-168 | a section yields a Course iff it holds every field read, otherwise a KeyError |
| Catalog.MakeCourseFault | src/ReadCourseData.py:160-168 | the KeyError names the first missing field in the order the call reads them |
| Catalog.MakeCourseFields | src/ReadCourseData.py:43-69 | UID and crn are both CRN; the other scalars are copied verbatim; start/end time are the sides of Time cut at 8, start/end date of Date cut at 5; lab, act and wl_act are empty |
| Catalog.SectionCourse | src/ReadCourseData.py:160-168 | the Course built from a complete section starts with empty lab, act and wl_act lists |
| Catalog.MakeCourseLine | src/ReadCourseData.py:170-171 | the course number and title used in the summary line are the section's Crse and Title |
| Catalog.SummaryLine | src/ReadCourseData.py:170-171 | the summary line is the department name, course number and title joined by single spaces |
| Catalog.SummaryLineSplit | src/ReadCourseData.py:170-171 | when the department name and course number hold no space, splitting the line at spaces gives them back, followed by the words of the title |
| Catalog.SectionLines | src/ReadCourseData.py:170-171 | one `'{0} {1} {2}'` line per section, in section order |
| Catalog.AddUnique | src/ReadCourseData.py:172-173 | after the membership test the line is present, the earlier lines keep their places, at most that one line is added, and a duplicate-free list stays duplicate-free |
| Catalog.Dedup | src/ReadCourseData.py:172-173 | appending under a membership test leaves no duplicates and exactly the strings offered |
| Catalog.DedupFirstOccurrenceOrder | src/ReadCourseData.py:172-173 | the kept strings are in the order of their first occurrence |
| Catalog.ScanSections | src/ReadCourseData.py:158-173 | the only exception the loop over a department's sections raises is a KeyError |
| Catalog.FirstIncomplete | src/ReadCourseData.py:159-168 | the sections before this index are complete, and the section at it, if any, is not |
| Catalog.SectionCoursesAt | src/ReadCourseData.py:160-169 | for complete sections, the j-th Course is the one built from the j-th section |
| Catalog.ScanSectionsAllComplete | src/ReadCourseData.py:158-173 | a department whose sections are all complete yields the Course of every section and the de-duplicated lines of all of them, with no KeyError |
| Catalog.ScanSectionsUpTo | src/ReadCourseData.py:158-173 | the loop reads the sections before the first incomplete one, and that one, if any, raises its KeyError |
| Catalog.ScanSectionsCount | src/ReadCourseData.py:159-169 | at most one Course per section, and one for every section exactly when no KeyError is raised |
| Catalog.ScanSectionsMade | src/ReadCourseData.py:160-169 | the j-th Course appended is the one built from the j-th section |
| Catalog.ScanSectionsFault | src/ReadCourseData.py:152-169 | a KeyError comes from the section right after the last Course appended |
| Catalog.ScanSectionsCourses | src/ReadCourseData.py:152-169 | one Course per section up to the first incomplete one, whose KeyError stops the loop |
| Catalog.ScanSectionsSummaries | src/ReadCourseData.py:170-173 | the summaries are the de-duplicated lines of the sections read before any KeyError |
| Catalog.ScanSectionsStopsAtFault | src/ReadCourseData.py:159-169 | once a section has raised, later sections change nothing |
| Catalog.ScanSectionsListing | src/ReadCourseData.py:158-174 | a department whose sections are all complete is read to the end, listing each line once |
| Catalog.ScanSectionsComplete | src/ReadCourseData.py:159-169 | a department whose sections are all complete yields one Course per section |
| Catalog.ScanSectionsRaises | src/ReadCourseData.py:152-169 | an incomplete department raises at its first incomplete section, after appending the Courses of all earlier ones |
| Catalog.DepartmentListing | src/ReadCourseData.py:170-173 | a listing has no duplicates, holds exactly the lines of its sections, and is in first-occurrence order |
| Catalog.CourseTable | src/ReadCourseData.py:190 | `course_raw[quarter_name]['CourseData']` succeeds iff both keys exist; a missing quarter raises KeyError for the quarter name, a missing `CourseData` raises KeyError for that key |
| Catalog.LookupDept | src/ReadCourseData.py:159 | a department key is found iff some entry has it, and what is found is that entry's section list |
| Catalog.CourseSections | src/ReadCourseData.py:159 | a department's sections are the list stored under its key in the table; a missing key raises KeyError for the department |
| Catalog.ScanTable | src/ReadCourseData.py:189-192 | a table read to the end has one Department per key; the only exception it raises is a KeyError |
| Catalog.Normalize | src/ReadCourseData.py:177-192 | the only exception is a KeyError; on success the table exists and there is one Department per department key |
| Catalog.ListingsAt | src/ReadCourseData.py:189-192 | the i-th listing is the i-th department key with its sections' lines de-duplicated |
| Catalog.ScanTableListings | src/ReadCourseData.py:189-192 | with every section complete, the table is read to the end and its Departments are exactly the listings of its keys |
| Catalog.ScanTableDepartments | src/ReadCourseData.py:189-192 | one Department per department key, in key order, each listing its sections' lines once |
| Catalog.ScanTableCourses | src/ReadCourseData.py:189-192 | the course list is one Course per section of all departments, in document order; its length is the total section count |
| Catalog.ScanTableIncomplete | src/ReadCourseData.py:177-192 | a table with an incomplete section raises the KeyError of the first incomplete section in document order |
| Catalog.LastDepartmentRaises | src/ReadCourseData.py:190-191 | when only the last department is incomplete, the table raises there |
| Catalog.EmptyDepartment | src/ReadCourseData.py:158-174 | a department without sections is listed with no lines and adds no Course |
| Catalog.DepartmentsDistinct | src/ReadCourseData.py:190-191 | the Department names are pairwise distinct, as the JSON keys are |
| Catalog.LookupDeptAt | src/ReadCourseData.py:159 | looking a department up by its key gives that department's own sections |
| Catalog.CourseList.Append | src/ReadCourseData.py:169 | `course_list.append` adds the Course at the end of the caller's list |
| Catalog.ReadCourse | src/ReadCourseData.py:135-174 | appends to the caller's list exactly the Courses the loop builds; returns the Department or the KeyError, leaving earlier Courses appended |
| Catalog.FromRawToList | src/ReadCourseData.py:177-192 | returns exactly the normalizer's two lists, or its first KeyError |
| Records.Lookup | DBImport/InsertData.py:82 | a key is found iff the record has it, and the value found is the one stored beside it |
| Records.LookupAt | DBImport/InsertData.py:82 | in a record whose keys are distinct, every key finds the value written beside it |
| Records.LookupZip | DBImport/InsertData.py:82 | zipping distinct keys with values stores each value under its own key |
| Records.CourseAttributes | DBImport/InsertData.py:82 | `vars(course)` has the 20 attribute names of the constructor, `startTime` and `lab` included |
| Records.DepartmentAttributes | DBImport/InsertData.py:85 | `vars(dept)` has the keys `deptName` and `courses` |
| Records.AttributeNamesDistinct | src/ReadCourseData.py:50-69 | the 20 attribute names of a Course are pairwise distinct |
| Records.CourseAttributesDisplay | src/ReadCourseData.py:50-69 | `vars(course)` binds each attribute name to its own attribute, `startTime` to the start time, `lab` to the lab list, and so on for all 20 |
| Records.DepartmentAttributesDisplay | src/ReadCourseData.py:115 | `vars(dept)` binds `deptName` to the name and `courses` to the listing |
| Records.CourseAttributesLookup | DBImport/InsertData.py:82 | looking up any attribute name in `vars(course)` gives that attribute; `lab` gives the lab list |
| Records.DepartmentAttributesLookup | DBImport/InsertData.py:85 | looking up `deptName` and `courses` in `vars(dept)` gives the name and the listing |
| Records.CourseOfAttributes | DBImport/InsertData.py:82 | a course read back from an attribute record re-encodes to that record |
| Records.DepartmentOfAttributes | DBImport/InsertData.py:85 | a department read back from an attribute record re-encodes to that record |
| Records.CourseAttributesRoundTrip | DBImport/InsertData.py:82 | `vars` keeps every attribute of a Course: decoding gives it back |
| Records.LegacyCourseRecord | ReadCourseData.py:104-122 | the older course record has exactly the 17 keys written, with start_time/end_time/start_date/end_date, and no lab, act or wl_act |
| Records.LegacyKeysDistinct | ReadCourseData.py:104-122 | the 17 keys of the older course dictionary are pairwise distinct |
| Records.LegacyCourseRecordDisplay | ReadCourseData.py:104-122 | the older course dictionary binds each key to its attribute: `start_time` to the start time, `end_time` to the end time, `start_date` and `end_date` to the dates, and so on for all 17 |
| Records.LegacyCourseLookup | ReadCourseData.py:104-122 | looking up any key of the older course dictionary gives its attribute |
| Records.LegacyTimesAndDates | ReadCourseData.py:113-119 | looking up `start_time`, `end_time`, `start_date` and `end_date` gives the start and end times and dates |
| Records.LegacyDepartmentRecord | ReadCourseData.py:126-129 | the department record is `department_name` then `course_list` |
| Records.LegacyDepartmentRecordDisplay | ReadCourseData.py:126-129 | the older department dictionary binds `department_name` to the name and `course_list` to the listing |
| Records.LegacyDepartmentLookup | ReadCourseData.py:126-129 | looking up `department_name` and `course_list` gives the name and the listing |
| Records.CourseOfLegacyRecord | ReadCourseData.py:104-122 | a course read back from a 17-key record re-encodes to it and has empty lists |
| Records.DepartmentOfLegacyRecord | ReadCourseData.py:126-129 | a department read back from its record re-encodes to it |
| Records.LegacyCourseRoundTrip | ReadCourseData.py:104-122 | the 17-key record loses nothing of a Course whose three lists are empty |
| DocumentStore.StoredRecord | DBImport/InsertData.py:82-85 | a stored payload has a field list iff it was not made by `MessageToDict`; a `vars` record has the attribute names as keys, an older one its 17 or 2 keys |
| DocumentStore.AttributeRecordRoundTrip | DBImport/InsertData.py:81-86 | every stored `vars` record reads back as the entity it was made from |
| DocumentStore.LegacyRecordRoundTrip | ReadCourseData.py:103-130 | every stored older record reads back as its entity when the course lists are empty |
| DocumentStore.Database.InsertOne | src/InsertData.py:85 | `insert_one` appends one record to the log and changes nothing else |
| DocumentStore.InCollectionMembers | src/InsertData.py:80-88 | a collection holds exactly the records inserted into it |
| DocumentStore.InCollectionAppend | src/InsertData.py:83-88 | reading a collection back distributes over a log written in two parts |
| DocumentStore.CourseInserts | src/InsertData.py:83-85 | one insert per course |
| DocumentStore.DepartmentInserts | src/InsertData.py:86-88 | one insert per department |
| DocumentStore.EntityInserts | src/InsertData.py:83-88 | one insert per course and one per department |
| DocumentStore.CourseInsertsAt | src/InsertData.py:83-85 | the i-th course insert stores the i-th course |
| DocumentStore.DepartmentInsertsAt | src/InsertData.py:86-88 | the i-th department insert stores the i-th department |
| DocumentStore.EntityInsertsOrder | src/InsertData.py:83-88 | all courses before any department, one insert per entity, each list in order, into the two collections only |
| DocumentStore.CourseCollectionOwn | DBImport/InsertData.py:81-83 | the course collection receives the courses' records, in order |
| DocumentStore.CourseCollectionOther | DBImport/InsertData.py:81-83 | the course inserts put nothing into any other collection |
| DocumentStore.DepartmentCollectionOwn | DBImport/InsertData.py:84-86 | the department collection receives the departments' records, in order |
| DocumentStore.DepartmentCollectionOther | DBImport/InsertData.py:84-86 | the department inserts put nothing into any other collection |
| DocumentStore.CourseCollectionContents | DBImport/InsertData.py:81-83 | the course inserts fill their collection with the courses in order and touch no other collection |
| DocumentStore.DepartmentCollectionContents | DBImport/InsertData.py:84-86 | the department inserts fill their collection with the departments in order and touch no other collection |
| DocumentStore.EntityCollections | DBImport/InsertData.py:81-86 | reading the two collections back gives exactly the courses and the departments, in order |
| Loader.QuarterName | src/InsertData.py:107 | the name is the token minus its last 16 characters, with every `_` read as a space |
| Loader.QuarterNameOfToken | DBImport/InsertData.py:105 | a name with spaces written as `_` plus a 16-character suffix gives back the name |
| Loader.CoursesCollection | src/InsertData.py:80 | the course collection's name is the quarter name followed by ` courses` |
| Loader.DepartmentsCollection | src/InsertData.py:81 | the department collection's name is the quarter name followed by ` departments` |
| Loader.CollectionsDistinct | src/InsertData.py:80-81 | a course collection is never a department collection, and distinct quarters use distinct collections |
| Loader.CheckFileOpen | src/InsertData.py:45-60 | the document is returned iff the name is non-empty and names a file; otherwise FileNotFoundError for that name |
| Loader.QuarterInserts | src/InsertData.py:79-88 | a quarter makes one insert per course and one per department |
| Loader.QuarterCollections | DBImport/InsertData.py:78-86 | reading a loaded quarter's two collections gives its courses and its departments, in order |
| Loader.TokenRun | src/InsertData.py:107-110 | a token's fault is FileNotFoundError for `path + token` or a KeyError |
| Loader.TokenRunOutcome | src/InsertData.py:107-110 | a token loads iff the name `path + token` is non-empty, names a file, and its document normalizes; then it makes one insert per course and per department |
| Loader.TokenRunReadsItsFile | src/InsertData.py:107-108 | a token's outcome depends only on the file at `path + token`, with the suffix kept |
| Loader.TokenRunCount | src/InsertData.py:108-110 | a loaded quarter stores one record per section plus one per department key |
| Loader.TokensRun | src/InsertData.py:106-110 | the fault that stops a year is FileNotFoundError or a KeyError |
| Loader.TokensRunStopsAtFault | src/InsertData.py:106-110 | after a token faults, no later token of the year is read |
| Loader.TokensRunLoadedAt | src/InsertData.py:106-110 | a year that ends without a fault has loaded its k-th token |
| Loader.TokensRunLoadedAll | src/InsertData.py:106-110 | a year that ends without a fault has loaded every one of its tokens |
| Loader.TokensRunNoFault | src/InsertData.py:106-110 | a year whose tokens all load ends without a fault |
| Loader.TokensRunAllLoad | src/InsertData.py:106-110 | a year ends without a fault iff every one of its tokens loads |
| Loader.TokensRunFirstFault | DBImport/InsertData.py:104-113 | a faulting year stops at a faulting token, with its fault and only the inserts of the tokens before it |
| Loader.FirstGap | src/InsertData.py:104 | the first year from the start whose entry is missing or empty |
| Loader.RunFrom | src/InsertData.py:103-111 | the run's fault is FileNotFoundError, a KeyError, or a missing year entry at or after the year the run started from |
| Loader.RunEndsAtFirstGap | src/InsertData.py:104 | the run ends normally only at an empty entry; a missing entry ends it with a fault |
| Loader.RunReadsUpToGap | DBImport/InsertData.py:102-111 | years after the first gap are never read |
| Loader.TokensRunConfig | src/InsertData.py:107 | loading tokens reads only the configured path |
| Loader.InsertData | src/InsertData.py:63-88 | appends exactly the quarter's inserts: every course, then every department |
| Loader.ImportQuarter | src/InsertData.py:107-110 | one token either adds its quarter's inserts or stops with its fault, adding nothing |
| Loader.ImportYear | src/InsertData.py:105-110 | the inner loop adds the year's inserts in token order and returns the first fault |
| Loader.Run | src/InsertData.py:91-125 | the database receives exactly the run's inserts; the outcome is its fault, or normal end |
| LegacyImport.ReadDepartmentCounting | ReadCourseData.py:71-85 | the inner loop appends exactly the department's Courses up to the first KeyError, builds its listing, counts every section when none raises, and adds one to the total per Course |
| LegacyImport.ReadWithCounters | ReadCourseData.py:67-90 | the inline loop computes the normalizer's result; each printed section count is that department's number of sections, and `total_course` equals the course-list length and the sum of the counts |
| LegacyImport.NormalizedCoursesBare | src/ReadCourseData.py:67-69 | every Course the normalizer builds has empty lab, act and wl_act lists |
| LegacyImport.LegacyRun | ReadCourseData.py:59-130 | the script stores its records iff the filename is non-empty, names a file, and the document normalizes; an empty name leaves `course_raw_data` unbound, a missing file raises FileNotFoundError, anything else raised is a KeyError |
| LegacyImport.LegacyRunReadsBack | ReadCourseData.py:103-130 | one record per course and per department, in list order, each in its collection, each reading back as its entity |
| LegacyImport.LegacyMain | ReadCourseData.py:59-130 | an empty filename or a missing file or key stops the script with no insert; otherwise every course, then every department, is inserted |

## Left out

- The MongoDB connection (`get_db`, `MongoClient`, credentials, the `.env` loading): the
  database is the in-memory `Database` log of `(collection, record)` inserts.
- Opening files and `json.load`: the files are a map from path to the parsed document.
  Malformed JSON is not modelled.
- ConfigParser, logging and the log-file naming, `input()` and `print`: the configuration
  is a `Config` value, the prompted filename a parameter, and the printed counters the
  results of `ReadWithCounters`.
- `MessageToDict` (src/InsertData.py:84,87): a protobuf call whose output is not modelled. Its
  payloads have no field list (`StoredRecord` is `None`). Given the plain `Course` and
  `Department` objects of the normalizer, the call would raise at the first entity, so
  src/InsertData.py as written would store nothing. The model shows the intended insert of
  every entity, not that raise.
- Loader.CheckFileOpen: the fault carries the file name for both files. src/InsertData.py:60
  raises `FileNotFoundError('File not found', filename)`, while DBImport/InsertData.py:59
  raises `FileNotFoundError('File not found')` without the name. A non-empty name that
  names no file fails inside `open` in both, with the name.
- The exact exception routing of src/InsertData.py:112-123. Lines 118 and 121
  (`except FileNotFoundError fnfe:`) are not valid Python, so that file does not parse as
  written. DBImport/InsertData.py catches every exception once. The model gives both files
  the same steps and keeps only that the first fault ends the run with no further insert.
- A missing year entry: `config['locations'][str(year)]` raises a KeyError, which the
  handler catches. The model follows the code and ends the run with `MissingYear`. Only an
  empty entry ends it normally. Either way the database holds the same inserts.
- The `Instructor` and `Lab` classes: unused constructors with no behaviour.
- Section values are strings. JSON numbers or nulls in a section are not modelled.
- No concrete file names (such as `2018_Winter_De_Anza_courseData.json`) are worked
  through. The token and name properties are proved for all tokens.
