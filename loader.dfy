/** The loader of src/InsertData.py and DBImport/InsertData.py: walks the configured years
    upward from the start year, and for every quarter token of a year reads the quarter's
    file, normalizes it and inserts every Course and then every Department into the
    quarter's two collections. The first fault ends the whole run. Both files are modelled
    alike except for how an entity becomes a record (its RecordFormat here). */
module Loader {
  import opened Wrappers
  import opened Faults
  import opened PyStrings
  import opened Catalog
  import opened DocumentStore

  /** `QUARTER_INDEX = -16`: a token ends in a 16-character file suffix ("_courseData.json"). */
  const QuarterSuffixLength: nat := 16

  const CoursesSuffix: string := " courses"
  const DepartmentsSuffix: string := " departments"

  /** The configuration the driver reads: `locations.path`, `data_info.start_year`, and the
      `locations` entry of each year (keyed here by the year's number). */
  datatype Config = Config(path: string, startYear: int, locations: map<int, string>)

  // ---------------------------------------------------------------------------------------
  // Names derived from a quarter token

  /** `token[:QUARTER_INDEX].replace('_', ' ')` */
  function QuarterName(token: string): (q: string)
    ensures |q| == if |token| > QuarterSuffixLength then |token| - QuarterSuffixLength else 0
    ensures forall i :: 0 <= i < |q| ==> q[i] == if token[i] == '_' then ' ' else token[i]
  {
    Replace(DropLast(token, QuarterSuffixLength), '_', ' ')
  }

  /** The token of a quarter's file is the quarter name with spaces written as underscores,
      followed by the 16-character suffix; the driver recovers the name from it. */
  lemma QuarterNameOfToken(q: string, suffix: string)
    requires '_' !in q && |suffix| == QuarterSuffixLength
    ensures QuarterName(Replace(q, ' ', '_') + suffix) == q
  {
    var stem := Replace(q, ' ', '_');
    assert DropLast(stem + suffix, QuarterSuffixLength) == stem;
    ReplaceBack(q, ' ', '_');
  }

  /** `quarter_name + ' courses'` */
  function CoursesCollection(quarterName: string): (name: string)
    ensures |name| == |quarterName| + 8
    ensures name[..|quarterName|] == quarterName && name[|quarterName|..] == CoursesSuffix
  {
    quarterName + CoursesSuffix
  }

  /** `quarter_name + ' departments'` */
  function DepartmentsCollection(quarterName: string): (name: string)
    ensures |name| == |quarterName| + 12
    ensures name[..|quarterName|] == quarterName && name[|quarterName|..] == DepartmentsSuffix
  {
    quarterName + DepartmentsSuffix
  }

  /** No quarter's course collection is any quarter's department collection, and distinct
      quarters use distinct collections. */
  lemma CollectionsDistinct(q1: string, q2: string)
    ensures CoursesCollection(q1) != DepartmentsCollection(q2)
    ensures CoursesCollection(q1) == CoursesCollection(q2) ==> q1 == q2
    ensures DepartmentsCollection(q1) == DepartmentsCollection(q2) ==> q1 == q2
  {
    var a, b := CoursesCollection(q1), DepartmentsCollection(q2);
    if |a| == |b| {
      assert a[|q1|] == ' ';
      assert b[|q1|] == DepartmentsSuffix[|q1| - |q2|] == 'a';
    }
    if CoursesCollection(q1) == CoursesCollection(q2) {
      assert q1 == CoursesCollection(q1)[..|q1|];
    }
    if DepartmentsCollection(q1) == DepartmentsCollection(q2) {
      assert q1 == DepartmentsCollection(q1)[..|q1|];
    }
  }

  // ---------------------------------------------------------------------------------------
  // Opening a quarter's file

  /** `check_file_open(filename)`: an empty name raises FileNotFoundError before any file is
      touched; otherwise the document stored under that name, or FileNotFoundError. */
  function CheckFileOpen(files: Files, filename: string): (r: Result<Document, Fault>)
    ensures r.Ok? <==> filename != "" && filename in files
    ensures r.Ok? ==> r.value == files[filename]
    ensures r.Err? ==> r.error == FileNotFound(filename)
  {
    if filename == "" then Err(FileNotFound(filename))
    else if filename !in files then Err(FileNotFound(filename))
    else Ok(files[filename])
  }

  // ---------------------------------------------------------------------------------------
  // `insert_data`: the inserts of one quarter

  /** `insert_data(course_list, dept_list, quarter_name)`: every course, then every department,
      into the quarter's two collections. */
  function QuarterInserts(style: RecordFormat, quarterName: string, n: Normalized): (ins: seq<Insert>)
    ensures |ins| == |n.courses| + |n.departments|
  {
    EntityInserts(style, CoursesCollection(quarterName), DepartmentsCollection(quarterName), n)
  }

  /** Reading back a loaded quarter's two collections gives exactly its courses and its
      departments, each in list order. */
  lemma QuarterCollections(style: RecordFormat, q: string, n: Normalized)
    ensures var ps := InCollection(QuarterInserts(style, q, n), CoursesCollection(q));
      |ps| == |n.courses| && forall i :: 0 <= i < |n.courses| ==> ps[i] == Serialized(style, CourseEntity(n.courses[i]))
    ensures var ps := InCollection(QuarterInserts(style, q, n), DepartmentsCollection(q));
      |ps| == |n.departments| && forall i :: 0 <= i < |n.departments| ==> ps[i] == Serialized(style, DepartmentEntity(n.departments[i]))
  {
    CollectionsDistinct(q, q);
    EntityCollections(style, CoursesCollection(q), DepartmentsCollection(q), n);
  }

  // ---------------------------------------------------------------------------------------
  // One quarter token, one year's tokens, and the years

  /** The body of the inner loop for one token: the quarter name and the path derived from
      it, the file opened, the document normalized, and the inserts made. A fault raised by
      any of these happens before the first insert of the quarter. */
  function TokenRun(cfg: Config, files: Files, style: RecordFormat, token: string): (r: Result<seq<Insert>, Fault>)
    ensures r.Err? ==> r.error == FileNotFound(cfg.path + token) || r.error.KeyError?
  {
    var q := QuarterName(token);
    var doc :- CheckFileOpen(files, cfg.path + token);
    var n :- Normalize(doc, q);
    Ok(QuarterInserts(style, q, n))
  }

  /** A token loads exactly when its file opens and its document normalizes, and then it
      makes one insert per course and per department of the normalized quarter. */
  lemma TokenRunOutcome(cfg: Config, files: Files, style: RecordFormat, token: string)
    ensures var r := TokenRun(cfg, files, style, token);
      var path := cfg.path + token;
      && (r.Ok? <==> path != "" && path in files && Normalize(files[path], QuarterName(token)).Ok?)
      && (r.Ok? ==> var n := Normalize(files[path], QuarterName(token)).value;
            |r.value| == |n.courses| + |n.departments|)
  {
  }

  /** A token's file is found at the configured path followed by the full token, suffix
      included, and no other file is read. */
  lemma TokenRunReadsItsFile(cfg: Config, files: Files, files': Files, style: RecordFormat, token: string)
    requires (cfg.path + token in files) == (cfg.path + token in files')
    requires cfg.path + token in files ==> files[cfg.path + token] == files'[cfg.path + token]
    ensures TokenRun(cfg, files, style, token) == TokenRun(cfg, files', style, token)
    ensures TokenRun(cfg, files, style, token).Ok? ==> cfg.path + token in files
  {
  }

  /** A loaded quarter stores one course record per section of its document and one
      department record per department key. */
  lemma TokenRunCount(cfg: Config, files: Files, style: RecordFormat, token: string)
    requires TokenRun(cfg, files, style, token).Ok?
    ensures var doc := files[cfg.path + token];
      var t := CourseTable(doc, QuarterName(token)).value;
      && CourseTable(doc, QuarterName(token)).Ok?
      && |TokenRun(cfg, files, style, token).value| == |AllSections(t)| + |t|
  {
    var q := QuarterName(token);
    var doc := files[cfg.path + token];
    var t := CourseTable(doc, q).value;
    if !AllComplete(t) {
      ScanTableIncomplete(t);
    }
    ScanTableCourses(t);
    ScanTableDepartments(t);
    EntityInsertsOrder(style, CoursesCollection(q), DepartmentsCollection(q), ScanTable(t).value);
  }

  /** Progress of a run: the inserts made so far, and the fault that stopped it, if any. */
  datatype Progress = Progress(inserts: seq<Insert>, fault: Option<Fault>)

  /** The inner `for` loop over one year's tokens, in split order, stopping at the first fault. */
  function TokensRun(cfg: Config, files: Files, style: RecordFormat, tokens: seq<string>): (r: Progress)
    ensures r.fault.Some? ==> r.fault.value.FileNotFound? || r.fault.value.KeyError?
    decreases |tokens|
  {
    if tokens == [] then Progress([], None)
    else
      var prior := TokensRun(cfg, files, style, tokens[..|tokens| - 1]);
      if prior.fault.Some? then prior
      else match TokenRun(cfg, files, style, tokens[|tokens| - 1])
        case Err(f) => prior.(fault := Some(f))
        case Ok(ins) => prior.(inserts := prior.inserts + ins)
  }

  /** One more turn of the inner loop. */
  lemma TokensRunStep(cfg: Config, files: Files, style: RecordFormat, tokens: seq<string>, k: nat)
    requires k < |tokens| && TokensRun(cfg, files, style, tokens[..k]).fault.None?
    ensures var prior := TokensRun(cfg, files, style, tokens[..k]);
      var now := TokenRun(cfg, files, style, tokens[k]);
      TokensRun(cfg, files, style, tokens[..k + 1]) ==
        if now.Err? then prior.(fault := Some(now.error)) else prior.(inserts := prior.inserts + now.value)
  {
    assert tokens[..k + 1][..k] == tokens[..k];
  }

  /** Once a token faults, no later token of the year is read. */
  lemma {:induction false} TokensRunStopsAtFault(cfg: Config, files: Files, style: RecordFormat, tokens: seq<string>, k: nat)
    requires k <= |tokens| && TokensRun(cfg, files, style, tokens[..k]).fault.Some?
    ensures TokensRun(cfg, files, style, tokens) == TokensRun(cfg, files, style, tokens[..k])
    decreases |tokens| - k
  {
    if k < |tokens| {
      assert tokens[..k + 1][..k] == tokens[..k];
      TokensRunStopsAtFault(cfg, files, style, tokens, k + 1);
    } else {
      assert tokens[..k] == tokens;
    }
  }

  /** A year that ends without a fault has loaded its last token, and the tokens before it
      ended without a fault. */
  lemma TokensRunLastLoaded(cfg: Config, files: Files, style: RecordFormat, tokens: seq<string>)
    requires tokens != [] && TokensRun(cfg, files, style, tokens).fault.None?
    ensures TokensRun(cfg, files, style, tokens[..|tokens| - 1]).fault.None?
    ensures TokenRun(cfg, files, style, tokens[|tokens| - 1]).Ok?
  {
  }

  /** A year that ends without a fault has loaded its k-th token. */
  lemma {:induction false} TokensRunLoadedAt(cfg: Config, files: Files, style: RecordFormat, tokens: seq<string>, k: nat)
    requires TokensRun(cfg, files, style, tokens).fault.None? && k < |tokens|
    ensures TokenRun(cfg, files, style, tokens[k]).Ok?
    decreases |tokens|
  {
    var init := tokens[..|tokens| - 1];
    TokensRunLastLoaded(cfg, files, style, tokens);
    if k < |init| {
      TokensRunLoadedAt(cfg, files, style, init, k);
      assert init[k] == tokens[k];
    } else {
      assert k == |tokens| - 1;
    }
  }

  /** A year that ends without a fault has loaded every one of its tokens. */
  lemma TokensRunLoadedAll(cfg: Config, files: Files, style: RecordFormat, tokens: seq<string>)
    requires TokensRun(cfg, files, style, tokens).fault.None?
    ensures forall k :: 0 <= k < |tokens| ==> TokenRun(cfg, files, style, tokens[k]).Ok?
  {
    forall k | 0 <= k < |tokens| ensures TokenRun(cfg, files, style, tokens[k]).Ok? {
      TokensRunLoadedAt(cfg, files, style, tokens, k);
    }
  }

  /** A year whose tokens all load ends without a fault. */
  lemma {:induction false} TokensRunNoFault(cfg: Config, files: Files, style: RecordFormat, tokens: seq<string>)
    requires forall k :: 0 <= k < |tokens| ==> TokenRun(cfg, files, style, tokens[k]).Ok?
    ensures TokensRun(cfg, files, style, tokens).fault.None?
    decreases |tokens|
  {
    if tokens != [] {
      var init := tokens[..|tokens| - 1];
      forall k | 0 <= k < |init| ensures TokenRun(cfg, files, style, init[k]).Ok? {
        assert init[k] == tokens[k];
      }
      TokensRunNoFault(cfg, files, style, init);
      TokensRunStep(cfg, files, style, tokens, |tokens| - 1);
      assert tokens[..|tokens|] == tokens;
    }
  }

  /** A year's tokens end without a fault exactly when every one of them loads. */
  lemma TokensRunAllLoad(cfg: Config, files: Files, style: RecordFormat, tokens: seq<string>)
    ensures TokensRun(cfg, files, style, tokens).fault.None? <==>
      forall k :: 0 <= k < |tokens| ==> TokenRun(cfg, files, style, tokens[k]).Ok?
  {
    if TokensRun(cfg, files, style, tokens).fault.None? {
      TokensRunLoadedAll(cfg, files, style, tokens);
    }
    if forall k :: 0 <= k < |tokens| ==> TokenRun(cfg, files, style, tokens[k]).Ok? {
      TokensRunNoFault(cfg, files, style, tokens);
    }
  }

  /** A year that faults stops at a token that faults, with that token's fault and only the
      inserts of the tokens before it. */
  lemma {:induction false} TokensRunFirstFault(cfg: Config, files: Files, style: RecordFormat, tokens: seq<string>)
    requires TokensRun(cfg, files, style, tokens).fault.Some?
    ensures var r := TokensRun(cfg, files, style, tokens);
      exists k :: (0 <= k < |tokens|
        && TokenRun(cfg, files, style, tokens[k]) == Err(r.fault.value)
        && TokensRun(cfg, files, style, tokens[..k]).fault.None?
        && r.inserts == TokensRun(cfg, files, style, tokens[..k]).inserts)
    decreases |tokens|
  {
    var init := tokens[..|tokens| - 1];
    var prior := TokensRun(cfg, files, style, init);
    if prior.fault.Some? {
      TokensRunFirstFault(cfg, files, style, init);
      var k :| 0 <= k < |init|
          && TokenRun(cfg, files, style, init[k]) == Err(prior.fault.value)
          && TokensRun(cfg, files, style, init[..k]).fault.None?
          && prior.inserts == TokensRun(cfg, files, style, init[..k]).inserts;
      assert init[..k] == tokens[..k] && init[k] == tokens[k];
    } else {
      assert tokens[..|tokens| - 1] == init;
    }
  }

  /** The years with a `locations` entry from `year` on: the measure of the outer loop. */
  function YearsFrom(locations: map<int, string>, year: int): set<int>
  {
    set y | y in locations && y >= year
  }

  lemma YearsFromShrinks(locations: map<int, string>, year: int)
    requires year in locations
    ensures |YearsFrom(locations, year + 1)| < |YearsFrom(locations, year)|
  {
    assert YearsFrom(locations, year + 1) == YearsFrom(locations, year) - {year};
  }

  /** The first year from `year` on whose entry is missing or empty. */
  function FirstGap(locations: map<int, string>, year: int): (gap: int)
    ensures gap >= year
    ensures forall y :: year <= y < gap ==> y in locations && locations[y] != ""
    ensures gap !in locations || locations[gap] == ""
    decreases |YearsFrom(locations, year)|
  {
    if year !in locations || locations[year] == "" then year
    else
      YearsFromShrinks(locations, year);
      FirstGap(locations, year + 1)
  }

  /** The outer `while` loop from `year` on: a missing entry raises the configuration's
      KeyError, an empty entry ends the run normally, otherwise the year's tokens are loaded
      and the year advances by one, unless a token faulted. */
  function RunFrom(cfg: Config, files: Files, style: RecordFormat, year: int): (r: Progress)
    ensures r.fault.Some? ==> r.fault.value.FileNotFound? || r.fault.value.KeyError? || r.fault.value.MissingYear?
    ensures r.fault.Some? && r.fault.value.MissingYear? ==>
      r.fault.value.year >= year && r.fault.value.year !in cfg.locations
    decreases |YearsFrom(cfg.locations, year)|
  {
    if year !in cfg.locations then Progress([], Some(MissingYear(year)))
    else if cfg.locations[year] == "" then Progress([], None)
    else
      var now := TokensRun(cfg, files, style, Split(cfg.locations[year], ','));
      if now.fault.Some? then now
      else
        YearsFromShrinks(cfg.locations, year);
        var rest := RunFrom(cfg, files, style, year + 1);
        Progress(now.inserts + rest.inserts, rest.fault)
  }

  /** `main()`: the run from `start_year`. */
  function RunSpec(cfg: Config, files: Files, style: RecordFormat): Progress
  {
    RunFrom(cfg, files, style, cfg.startYear)
  }

  function OutcomeOf(fault: Option<Fault>): Outcome
  {
    if fault.None? then Finished else Failed(fault.value)
  }

  /** The run ends normally only at an empty entry; a missing entry ends it with a fault. */
  lemma {:induction false} RunEndsAtFirstGap(cfg: Config, files: Files, style: RecordFormat, year: int)
    ensures var gap := FirstGap(cfg.locations, year);
      && (RunFrom(cfg, files, style, year).fault.None? ==> gap in cfg.locations && cfg.locations[gap] == "")
      && (gap !in cfg.locations ==> RunFrom(cfg, files, style, year).fault.Some?)
    decreases |YearsFrom(cfg.locations, year)|
  {
    if year in cfg.locations && cfg.locations[year] != "" {
      YearsFromShrinks(cfg.locations, year);
      RunEndsAtFirstGap(cfg, files, style, year + 1);
    }
  }

  /** No year after the first missing or empty entry is read: two configurations that agree
      on the years up to that gap produce the same run. */
  lemma {:induction false} RunReadsUpToGap(cfg: Config, cfg': Config, files: Files, style: RecordFormat, year: int)
    requires cfg.path == cfg'.path
    requires forall y :: year <= y <= FirstGap(cfg.locations, year) ==>
      (y in cfg.locations <==> y in cfg'.locations) &&
      (y in cfg.locations ==> cfg.locations[y] == cfg'.locations[y])
    ensures RunFrom(cfg, files, style, year) == RunFrom(cfg', files, style, year)
    decreases |YearsFrom(cfg.locations, year)|
  {
    var gap := FirstGap(cfg.locations, year);
    assert year <= year <= gap;
    if year in cfg.locations && cfg.locations[year] != "" {
      var tokens := Split(cfg.locations[year], ',');
      TokensRunConfig(cfg, cfg', files, style, tokens);
      YearsFromShrinks(cfg.locations, year);
      RunReadsUpToGap(cfg, cfg', files, style, year + 1);
    }
  }

  /** Loading tokens reads only the configured path, not the year entries. */
  lemma {:induction false} TokensRunConfig(cfg: Config, cfg': Config, files: Files, style: RecordFormat, tokens: seq<string>)
    requires cfg.path == cfg'.path
    ensures TokensRun(cfg, files, style, tokens) == TokensRun(cfg', files, style, tokens)
    decreases |tokens|
  {
    if tokens != [] {
      TokensRunConfig(cfg, cfg', files, style, tokens[..|tokens| - 1]);
    }
  }

  // ---------------------------------------------------------------------------------------
  // The imperative driver

  /** `insert_data(course_list, dept_list, quarter_name)` */
  method InsertData(db: Database, courseList: seq<Course>, deptList: seq<Department>,
                    quarterName: string, style: RecordFormat)
    modifies db
    ensures db.log == old(db.log) + QuarterInserts(style, quarterName, Normalized(courseList, deptList))
  {
    var courseCollection := CoursesCollection(quarterName);
    var deptCollection := DepartmentsCollection(quarterName);
    for i := 0 to |courseList|
      invariant db.log == old(db.log) + CourseInserts(style, courseCollection, courseList[..i])
    {
      CourseInsertsStep(style, courseCollection, courseList, i);
      var record := Serialized(style, CourseEntity(courseList[i]));
      ConcatAssoc(old(db.log), CourseInserts(style, courseCollection, courseList[..i]), [Insert(courseCollection, record)]);
      db.InsertOne(courseCollection, record);
    }
    assert courseList[..|courseList|] == courseList;
    ghost var courses := db.log;
    for i := 0 to |deptList|
      invariant db.log == courses + DepartmentInserts(style, deptCollection, deptList[..i])
    {
      DepartmentInsertsStep(style, deptCollection, deptList, i);
      var record := Serialized(style, DepartmentEntity(deptList[i]));
      ConcatAssoc(courses, DepartmentInserts(style, deptCollection, deptList[..i]), [Insert(deptCollection, record)]);
      db.InsertOne(deptCollection, record);
    }
    assert deptList[..|deptList|] == deptList;
    ConcatAssoc(old(db.log), CourseInserts(style, courseCollection, courseList), DepartmentInserts(style, deptCollection, deptList));
  }

  /** One turn of the inner loop: derive the names, open the file, normalize, insert. */
  method ImportQuarter(cfg: Config, files: Files, style: RecordFormat, token: string, db: Database)
    returns (fault: Option<Fault>)
    modifies db
    ensures TokenRun(cfg, files, style, token).Ok? ==>
      fault.None? && db.log == old(db.log) + TokenRun(cfg, files, style, token).value
    ensures TokenRun(cfg, files, style, token).Err? ==>
      fault == Some(TokenRun(cfg, files, style, token).error) && db.log == old(db.log)
  {
    var quarterName := QuarterName(token);
    var filename := cfg.path + token;
    var raw := CheckFileOpen(files, filename);
    if raw.Err? {
      return Some(raw.error);
    }
    var lists := FromRawToList(raw.value, quarterName);
    if lists.Err? {
      return Some(lists.error);
    }
    InsertData(db, lists.value.courses, lists.value.departments, quarterName, style);
    return None;
  }

  /** The inner `for` loop over one year's tokens, in split order. */
  method ImportYear(cfg: Config, files: Files, style: RecordFormat, tokens: seq<string>, db: Database)
    returns (fault: Option<Fault>)
    modifies db
    ensures db.log == old(db.log) + TokensRun(cfg, files, style, tokens).inserts
    ensures fault == TokensRun(cfg, files, style, tokens).fault
  {
    for k := 0 to |tokens|
      invariant db.log == old(db.log) + TokensRun(cfg, files, style, tokens[..k]).inserts
      invariant TokensRun(cfg, files, style, tokens[..k]).fault.None?
    {
      ghost var prior := TokensRun(cfg, files, style, tokens[..k]);
      ghost var now := TokenRun(cfg, files, style, tokens[k]);
      fault := ImportQuarter(cfg, files, style, tokens[k], db);
      TokensRunStep(cfg, files, style, tokens, k);
      if fault.Some? {
        TokensRunStopsAtFault(cfg, files, style, tokens, k + 1);
        return;
      }
      ConcatAssoc(old(db.log), prior.inserts, now.value);
    }
    assert tokens[..|tokens|] == tokens;
    fault := None;
  }

  /** One turn of the outer loop, for a year with a non-empty entry. */
  lemma RunFromStep(cfg: Config, files: Files, style: RecordFormat, year: int)
    requires year in cfg.locations && cfg.locations[year] != ""
    ensures var now := TokensRun(cfg, files, style, Split(cfg.locations[year], ','));
      RunFrom(cfg, files, style, year) ==
        if now.fault.Some? then now
        else Progress(now.inserts + RunFrom(cfg, files, style, year + 1).inserts,
                      RunFrom(cfg, files, style, year + 1).fault)
  {
  }

  /** `main()`: the `while` loop over the years, from `start_year`, one year at a time. */
  method Run(cfg: Config, files: Files, style: RecordFormat, db: Database) returns (outcome: Outcome)
    modifies db
    ensures db.log == old(db.log) + RunSpec(cfg, files, style).inserts
    ensures outcome == OutcomeOf(RunSpec(cfg, files, style).fault)
  {
    var year := cfg.startYear;
    ghost var done: seq<Insert> := [];
    assert done + RunFrom(cfg, files, style, year).inserts == RunFrom(cfg, files, style, year).inserts;
    while true
      invariant db.log == old(db.log) + done
      invariant RunSpec(cfg, files, style) ==
        Progress(done + RunFrom(cfg, files, style, year).inserts, RunFrom(cfg, files, style, year).fault)
      decreases |YearsFrom(cfg.locations, year)|
    {
      if year !in cfg.locations {
        assert done + [] == done;
        return Failed(MissingYear(year));
      }
      var entry := cfg.locations[year];
      if entry == "" {
        assert done + [] == done;
        return Finished;
      }
      var tokens := Split(entry, ',');
      ghost var now := TokensRun(cfg, files, style, tokens);
      ghost var before := db.log;
      var fault := ImportYear(cfg, files, style, tokens, db);
      ConcatAssoc(old(db.log), done, now.inserts);
      RunFromStep(cfg, files, style, year);
      if fault.Some? {
        return Failed(fault.value);
      }
      ghost var rest := RunFrom(cfg, files, style, year + 1);
      ConcatAssoc(done, now.inserts, rest.inserts);
      YearsFromShrinks(cfg.locations, year);
      done := done + now.inserts;
      year := year + 1;
    }
  }
}
