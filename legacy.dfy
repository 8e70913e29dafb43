/** The older top-level script ReadCourseData.py: it reads one fixed quarter of a prompted
    file with the normalizer's loop written inline, counting the sections of each department
    and the courses of the whole quarter, and stores every Course and then every Department
    as a hand-written dictionary into two fixed test collections. */
module LegacyImport {
  import opened Wrappers
  import opened Faults
  import opened Catalog
  import opened Records
  import opened DocumentStore

  /** The quarter key the script reads, fixed in its code. */
  const LegacyQuarter: string := "2018 Winter De Anza"

  /** `db.new_test_courses` and `db.new_test_depts` */
  const LegacyCoursesCollection: string := "new_test_courses"
  const LegacyDepartmentsCollection: string := "new_test_depts"

  /** The sum of a list of counts. */
  function Total(counts: seq<nat>): nat
    decreases |counts|
  {
    if counts == [] then 0 else Total(counts[..|counts| - 1]) + counts[|counts| - 1]
  }

  lemma TotalAppend(counts: seq<nat>, n: nat)
    ensures Total(counts + [n]) == Total(counts) + n
  {
    assert (counts + [n])[..|counts|] == counts;
  }

  /** The inner loop of `main` over one department's sections: `dep_course_num` counts every
      section reached, each Course built is appended to `course_list` and counted in
      `total_course`, and its summary line is added under a membership test. */
  method ReadDepartmentCounting(department: string, ss: seq<Section>, courseList: seq<Course>, totalCourse: nat)
    returns (courses: seq<Course>, lines: seq<string>, depCourseNum: nat, total: nat, fault: Option<Fault>)
    ensures var scan := ScanSections(department, ss);
      && courses == courseList + scan.courses
      && lines == scan.summaries
      && fault == scan.fault
      && total == totalCourse + |scan.courses|
    ensures fault.None? ==> depCourseNum == |ss|
  {
    courses, lines, depCourseNum, total := courseList, [], 0, totalCourse;
    ghost var read: seq<Course> := [];
    for j := 0 to |ss|
      invariant ScanSections(department, ss[..j]) == Scan(read, lines, None)
      invariant courses == courseList + read
      invariant depCourseNum == j
      invariant total == totalCourse + |read|
    {
      depCourseNum := depCourseNum + 1;
      ScanSectionsStep(department, ss, j, Scan(read, lines, None));
      var made := MakeCourse(ss[j]);
      if made.Err? {
        ScanSectionsStopsAtFault(department, ss, j + 1);
        fault := Some(made.error);
        return;
      }
      var course := made.value;
      courses := courses + [course];
      read := read + [course];
      var line := SummaryLine(department, course.courseNum, course.courseTitle);
      if line !in lines {
        lines := lines + [line];
      }
      total := total + 1;
    }
    assert ss[..|ss|] == ss;
    fault := None;
  }

  /** The two nested loops of `main`: the Course and Department lists, built as the
      normalizer builds them, together with the printed counters, `dep_course_num` of each
      department read to its end and `total_course`. A KeyError stops the script; the
      counts printed up to then are those of the departments finished before it. */
  method ReadWithCounters(doc: Document) returns (r: Result<Normalized, Fault>, sectionCounts: seq<nat>, totalCourse: nat)
    ensures r == Normalize(doc, LegacyQuarter)
    ensures CourseTable(doc, LegacyQuarter).Ok? ==>
      var t := CourseTable(doc, LegacyQuarter).value;
      && |sectionCounts| <= |t|
      && (forall i :: 0 <= i < |sectionCounts| ==> sectionCounts[i] == |t[i].1|)
      && (r.Ok? ==> |sectionCounts| == |t|)
    ensures r.Ok? ==> totalCourse == |r.value.courses| == Total(sectionCounts)
  {
    sectionCounts, totalCourse := [], 0;
    var table := CourseTable(doc, LegacyQuarter);
    if table.Err? {
      r := Err(table.error);
      return;
    }
    var t := table.value;
    var courseList: seq<Course> := [];
    var departmentList: seq<Department> := [];
    for i := 0 to |t|
      invariant ScanTable(t[..i]) == Ok(Normalized(courseList, departmentList))
      invariant |sectionCounts| == i && forall k :: 0 <= k < i ==> sectionCounts[k] == |t[k].1|
      invariant totalCourse == |courseList| == Total(sectionCounts)
    {
      var department := t[i].0;
      LookupDeptAt(t, i);
      assert CourseSections(doc, LegacyQuarter, department) == Ok(t[i].1);
      var ss := CourseSections(doc, LegacyQuarter, department).value;
      ghost var prior := Normalized(courseList, departmentList);
      ScanTableStep(t, i, prior);
      var lines, depCourseNum, fault;
      courseList, lines, depCourseNum, totalCourse, fault :=
        ReadDepartmentCounting(department, ss, courseList, totalCourse);
      if fault.Some? {
        ScanTableStopsAtFault(t, i + 1);
        r := Err(fault.value);
        return;
      }
      ScanSectionsCount(department, ss);
      TotalAppend(sectionCounts, depCourseNum);
      sectionCounts := sectionCounts + [depCourseNum];
      departmentList := departmentList + [Department(department, lines)];
    }
    assert t[..|t|] == t;
    r := Ok(Normalized(courseList, departmentList));
  }

  /** `main()`: an empty answer to the prompt leaves the document unbound, so its first use
      raises; a name of no file raises FileNotFoundError; a KeyError of the normalizing loop
      stops the script; otherwise every course is inserted, then every department, all
      before any of them would be lost to a later fault. */
  function LegacyRun(files: Files, filename: string): (r: Result<seq<Insert>, Fault>)
    ensures r.Ok? <==> filename != "" && filename in files && Normalize(files[filename], LegacyQuarter).Ok?
    ensures filename == "" ==> r == Err(UnboundDocument)
    ensures filename != "" && filename !in files ==> r == Err(FileNotFound(filename))
    ensures r.Err? && filename != "" && filename in files ==> r.error.KeyError?
  {
    if filename == "" then Err(UnboundDocument)
    else if filename !in files then Err(FileNotFound(filename))
    else
      var n :- Normalize(files[filename], LegacyQuarter);
      Ok(EntityInserts(LegacyDict, LegacyCoursesCollection, LegacyDepartmentsCollection, n))
  }

  /** Every Course the normalizer builds starts with empty lab, act and wl_act lists. */
  lemma NormalizedCoursesBare(doc: Document, quarterName: string)
    requires Normalize(doc, quarterName).Ok?
    ensures forall c :: c in Normalize(doc, quarterName).value.courses ==>
      c.lab == [] && c.act == [] && c.wlAct == []
  {
    var t := CourseTable(doc, quarterName).value;
    if !AllComplete(t) {
      ScanTableIncomplete(t);
    }
    ScanTableCourses(t);
    var cs := ScanTable(t).value.courses;
    forall c | c in cs ensures c.lab == [] && c.act == [] && c.wlAct == [] {
      var k :| 0 <= k < |cs| && cs[k] == c;
      assert Complete(AllSections(t)[k]);
    }
  }

  /** A successful run stores one record per course and one per department, in list order,
      each in its own collection, and every stored record reads back as the entity it was
      made from: the lists the course dictionary leaves out are empty when the script runs. */
  lemma LegacyRunReadsBack(files: Files, filename: string)
    requires LegacyRun(files, filename).Ok?
    ensures var n := Normalize(files[filename], LegacyQuarter).value;
      var log := LegacyRun(files, filename).value;
      var courses := InCollection(log, LegacyCoursesCollection);
      var depts := InCollection(log, LegacyDepartmentsCollection);
      && |log| == |n.courses| + |n.departments|
      && |courses| == |n.courses| && |depts| == |n.departments|
      && (forall i :: 0 <= i < |courses| ==>
            StoredRecord(courses[i]).Some? &&
            EntityOfRecord(LegacyDict, StoredRecord(courses[i]).value) == Some(CourseEntity(n.courses[i])))
      && (forall i :: 0 <= i < |depts| ==>
            StoredRecord(depts[i]).Some? &&
            EntityOfRecord(LegacyDict, StoredRecord(depts[i]).value) == Some(DepartmentEntity(n.departments[i])))
  {
    var n := Normalize(files[filename], LegacyQuarter).value;
    var log := LegacyRun(files, filename).value;
    assert LegacyCoursesCollection != LegacyDepartmentsCollection by {
      assert |LegacyCoursesCollection| != |LegacyDepartmentsCollection|;
    }
    EntityInsertsOrder(LegacyDict, LegacyCoursesCollection, LegacyDepartmentsCollection, n);
    EntityCollections(LegacyDict, LegacyCoursesCollection, LegacyDepartmentsCollection, n);
    NormalizedCoursesBare(files[filename], LegacyQuarter);
    var courses := InCollection(log, LegacyCoursesCollection);
    forall i | 0 <= i < |courses|
      ensures StoredRecord(courses[i]).Some?
      ensures EntityOfRecord(LegacyDict, StoredRecord(courses[i]).value) == Some(CourseEntity(n.courses[i]))
    {
      assert n.courses[i] in n.courses;
      LegacyRecordRoundTrip(CourseEntity(n.courses[i]));
    }
    var depts := InCollection(log, LegacyDepartmentsCollection);
    forall i | 0 <= i < |depts|
      ensures StoredRecord(depts[i]).Some?
      ensures EntityOfRecord(LegacyDict, StoredRecord(depts[i]).value) == Some(DepartmentEntity(n.departments[i]))
    {
      LegacyRecordRoundTrip(DepartmentEntity(n.departments[i]));
    }
  }

  /** `main()`: open the named file, run the counting loops, then the two insert loops. */
  method LegacyMain(files: Files, filename: string, db: Database) returns (outcome: Outcome)
    modifies db
    ensures LegacyRun(files, filename).Ok? ==>
      outcome == Finished && db.log == old(db.log) + LegacyRun(files, filename).value
    ensures LegacyRun(files, filename).Err? ==>
      outcome == Failed(LegacyRun(files, filename).error) && db.log == old(db.log)
  {
    if filename == "" {
      return Failed(UnboundDocument);
    }
    if filename !in files {
      return Failed(FileNotFound(filename));
    }
    var lists, sectionCounts, totalCourse := ReadWithCounters(files[filename]);
    if lists.Err? {
      return Failed(lists.error);
    }
    var courseList, departmentList := lists.value.courses, lists.value.departments;
    for i := 0 to |courseList|
      invariant db.log == old(db.log) + CourseInserts(LegacyDict, LegacyCoursesCollection, courseList[..i])
    {
      CourseInsertsStep(LegacyDict, LegacyCoursesCollection, courseList, i);
      var record := Serialized(LegacyDict, CourseEntity(courseList[i]));
      ConcatAssoc(old(db.log), CourseInserts(LegacyDict, LegacyCoursesCollection, courseList[..i]),
                  [Insert(LegacyCoursesCollection, record)]);
      db.InsertOne(LegacyCoursesCollection, record);
    }
    assert courseList[..|courseList|] == courseList;
    ghost var courses := db.log;
    for i := 0 to |departmentList|
      invariant db.log == courses + DepartmentInserts(LegacyDict, LegacyDepartmentsCollection, departmentList[..i])
    {
      DepartmentInsertsStep(LegacyDict, LegacyDepartmentsCollection, departmentList, i);
      var record := Serialized(LegacyDict, DepartmentEntity(departmentList[i]));
      ConcatAssoc(courses, DepartmentInserts(LegacyDict, LegacyDepartmentsCollection, departmentList[..i]),
                  [Insert(LegacyDepartmentsCollection, record)]);
      db.InsertOne(LegacyDepartmentsCollection, record);
    }
    assert departmentList[..|departmentList|] == departmentList;
    ConcatAssoc(old(db.log), CourseInserts(LegacyDict, LegacyCoursesCollection, courseList),
                DepartmentInserts(LegacyDict, LegacyDepartmentsCollection, departmentList));
    return Finished;
  }
}
