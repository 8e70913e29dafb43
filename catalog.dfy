/** The catalog normalizer: one quarter's parsed JSON document becomes a flat list of
    Course records and one Department per department key, each Department listing the
    "<dept> <course number> <title>" lines of its sections once, in first-occurrence order. */
module Catalog {
  import opened Wrappers
  import opened Faults
  import opened PyStrings

  /** One section mapping of the parsed document: field name to its text. */
  type Section = map<string, string>

  /** A JSON object holds each key at most once. */
  predicate DistinctKeys<V>(entries: seq<(string, V)>)
  {
    forall i, j :: 0 <= i < j < |entries| ==> entries[i].0 != entries[j].0
  }

  /** The `CourseData` object: department name to its sections, in the document's key order. */
  type DeptTable = t: seq<(string, seq<Section>)> | DistinctKeys(t)

  /** The parsed document: quarter name to the quarter's object, of which `CourseData` is read. */
  type Document = map<string, map<string, DeptTable>>

  const CourseDataKey: string := "CourseData"

  datatype Course = Course(
    uid: string, crn: string, courseNum: string, sectionNum: string, campus: string,
    numCredit: string, courseTitle: string, days: string, startTime: string, endTime: string,
    cap: string, wlCap: string, instructorName: string, startDate: string, endDate: string,
    location: string, attribute: string,
    lab: seq<string>, act: seq<string>, wlAct: seq<string>)

  datatype Department = Department(deptName: string, courses: seq<string>)

  /** The section fields read to build a Course, in the order the constructor call reads them. */
  const RequiredKeys: seq<string> :=
    ["CRN", "Crse", "Sec", "Cmp", "Cred", "Title", "Days", "Time",
     "Cap", "WL Cap", "Instructor", "Date", "Location", "Attribute"]

  /** The section has every field the Course constructor call reads. */
  predicate Complete(s: Section)
  {
    && "CRN" in s && "Crse" in s && "Sec" in s && "Cmp" in s && "Cred" in s && "Title" in s
    && "Days" in s && "Time" in s && "Cap" in s && "WL Cap" in s && "Instructor" in s
    && "Date" in s && "Location" in s && "Attribute" in s
  }

  /** The conjuncts of Complete are exactly the keys of RequiredKeys, in that order. */
  lemma CompleteHasRequiredKeys(s: Section)
    ensures Complete(s) <==> forall j :: 0 <= j < |RequiredKeys| ==> RequiredKeys[j] in s
  {
    if forall j :: 0 <= j < |RequiredKeys| ==> RequiredKeys[j] in s {
      assert RequiredKeys[0] in s && RequiredKeys[1] in s && RequiredKeys[2] in s;
      assert RequiredKeys[3] in s && RequiredKeys[4] in s && RequiredKeys[5] in s;
      assert RequiredKeys[6] in s && RequiredKeys[7] in s && RequiredKeys[8] in s;
      assert RequiredKeys[9] in s && RequiredKeys[10] in s && RequiredKeys[11] in s;
      assert RequiredKeys[12] in s && RequiredKeys[13] in s;
    }
  }

  /** Index of the first of `keys` missing from s, or |keys| when none is. */
  function FirstMissing(s: Section, keys: seq<string>): (i: nat)
    ensures i <= |keys|
    ensures forall j :: 0 <= j < i ==> keys[j] in s
    ensures i < |keys| ==> keys[i] !in s
  {
    if keys == [] then 0
    else if keys[0] !in s then 0
    else 1 + FirstMissing(s, keys[1..])
  }

  /** Builds the Course of one section, raising the KeyError of the first field it lacks. */
  function MakeCourse(s: Section): (r: Result<Course, Fault>)
    ensures r.Ok? <==> Complete(s)
    ensures r.Err? ==> r.error.KeyError?
  {
    if Complete(s) then Ok(SectionCourse(s))
    else
      CompleteHasRequiredKeys(s);
      Err(KeyError(RequiredKeys[FirstMissing(s, RequiredKeys)]))
  }

  /** The Course constructor call on a complete section; a new Course has no labs,
      activities or wait-list activities yet. */
  function SectionCourse(s: Section): (c: Course)
    requires Complete(s)
    ensures c.lab == [] && c.act == [] && c.wlAct == []
  {
    Course(
      uid := s["CRN"], crn := s["CRN"], courseNum := s["Crse"], sectionNum := s["Sec"],
      campus := s["Cmp"], numCredit := s["Cred"], courseTitle := s["Title"], days := s["Days"],
      startTime := Take(s["Time"], 8), endTime := Drop(s["Time"], 9),
      cap := s["Cap"], wlCap := s["WL Cap"], instructorName := s["Instructor"],
      startDate := Take(s["Date"], 5), endDate := Drop(s["Date"], 6),
      location := s["Location"], attribute := s["Attribute"],
      lab := [], act := [], wlAct := [])
  }

  /** An incomplete section raises the KeyError of the first required field it lacks,
      in the order the constructor call reads them. */
  lemma MakeCourseFault(s: Section)
    requires !Complete(s)
    ensures exists i :: 0 <= i < |RequiredKeys| && MakeCourse(s) == Err(KeyError(RequiredKeys[i]))
                        && RequiredKeys[i] !in s
                        && forall j :: 0 <= j < i ==> RequiredKeys[j] in s
  {
    CompleteHasRequiredKeys(s);
    var i := FirstMissing(s, RequiredKeys);
    assert MakeCourse(s) == Err(KeyError(RequiredKeys[i]));
  }

  /** UID and crn are both the section's CRN; the other scalar fields are copied verbatim;
      start/end time and date are the two sides of Time cut at 8 and Date cut at 5. */
  lemma MakeCourseFields(s: Section)
    requires Complete(s)
    ensures var c := MakeCourse(s).value;
      && c.uid == s["CRN"] && c.crn == s["CRN"]
      && c.courseNum == s["Crse"] && c.sectionNum == s["Sec"] && c.campus == s["Cmp"]
      && c.numCredit == s["Cred"] && c.courseTitle == s["Title"] && c.days == s["Days"]
      && c.cap == s["Cap"] && c.wlCap == s["WL Cap"] && c.instructorName == s["Instructor"]
      && c.location == s["Location"] && c.attribute == s["Attribute"]
      && CutAt(s["Time"], 8, c.startTime, c.endTime)
      && CutAt(s["Date"], 5, c.startDate, c.endDate)
  {
    SlicesCutAt(s["Time"], 8);
    SlicesCutAt(s["Date"], 5);
  }

  /** The course number and title of a complete section's Course are its Crse and Title. */
  lemma MakeCourseLine(s: Section)
    requires Complete(s)
    ensures MakeCourse(s).value.courseNum == s["Crse"] && MakeCourse(s).value.courseTitle == s["Title"]
  {
  }

  /** The '{0} {1} {2}' summary line of a course in its department: the three joined by
      single spaces. */
  function SummaryLine(dept: string, courseNum: string, title: string): (line: string)
    ensures line == Join([dept, courseNum, title], ' ')
  {
    assert Join([title], ' ') == title;
    assert [courseNum, title][1..] == [title];
    assert Join([courseNum, title], ' ') == courseNum + [' '] + title;
    assert [dept, courseNum, title][1..] == [courseNum, title];
    assert dept + " " + courseNum + " " + title == dept + [' '] + (courseNum + [' '] + title);
    dept + " " + courseNum + " " + title
  }

  /** A department name and a course number hold no space, so splitting a summary line at
      spaces gives back the department, the course number and then the words of the title:
      two courses share a line only when they share number and title. */
  lemma SummaryLineSplit(dept: string, courseNum: string, title: string)
    requires ' ' !in dept && ' ' !in courseNum
    ensures Split(SummaryLine(dept, courseNum, title), ' ') == [dept, courseNum] + Split(title, ' ')
  {
    var rest := courseNum + [' '] + title;
    SplitAtFirst(courseNum, title, ' ');
    assert " " == [' '];
    assert SummaryLine(dept, courseNum, title) == dept + [' '] + rest;
    SplitAtFirst(dept, rest, ' ');
    assert [dept] + ([courseNum] + Split(title, ' ')) == [dept, courseNum] + Split(title, ' ');
  }

  /** The summary line of a complete section, read from its raw `Crse` and `Title` fields. */
  function SectionLine(dept: string, s: Section): string
    requires Complete(s)
  {
    SummaryLine(dept, s["Crse"], s["Title"])
  }

  /** The summary lines of complete sections, one per section. */
  function SectionLines(dept: string, ss: seq<Section>): (lines: seq<string>)
    requires forall j :: 0 <= j < |ss| ==> Complete(ss[j])
    ensures |lines| == |ss|
    ensures forall j :: 0 <= j < |ss| ==> lines[j] == SectionLine(dept, ss[j])
    decreases |ss|
  {
    if ss == [] then []
    else SectionLines(dept, ss[..|ss| - 1]) + [SectionLine(dept, ss[|ss| - 1])]
  }

  // ---------------------------------------------------------------------------------------
  // De-duplication under a membership test

  predicate NoDuplicates(xs: seq<string>)
  {
    forall i, j :: 0 <= i < j < |xs| ==> xs[i] != xs[j]
  }

  /** `if x not in xs: xs.append(x)`: x is present afterwards, the list before it is kept as
      its prefix, nothing else is added, and a list without duplicates stays without. */
  function AddUnique(xs: seq<string>, x: string): (r: seq<string>)
    ensures x in r && |xs| <= |r| <= |xs| + 1 && r[..|xs|] == xs
    ensures forall y :: y in r <==> y in xs || y == x
    ensures NoDuplicates(xs) ==> NoDuplicates(r)
  {
    if x in xs then xs else xs + [x]
  }

  /** The strings of xs, each once: what appending under a membership test leaves. */
  function Dedup(xs: seq<string>): (r: seq<string>)
    ensures NoDuplicates(r)
    ensures forall x :: x in r <==> x in xs
    decreases |xs|
  {
    if xs == [] then []
    else
      var init := xs[..|xs| - 1];
      assert xs == init + [xs[|xs| - 1]];
      AddUnique(Dedup(init), xs[|xs| - 1])
  }

  /** Position of the first occurrence of x in xs. */
  function FirstIndex(xs: seq<string>, x: string): (i: nat)
    requires x in xs
    ensures i < |xs| && xs[i] == x && x !in xs[..i]
  {
    if xs[0] == x then 0
    else
      assert xs == [xs[0]] + xs[1..];
      1 + FirstIndex(xs[1..], x)
  }

  lemma FirstIndexExtend(xs: seq<string>, x: string, y: string)
    requires y in xs
    ensures FirstIndex(xs + [x], y) == FirstIndex(xs, y)
  {
    var b := FirstIndex(xs, y);
    assert (xs + [x])[b] == y;
    assert (xs + [x])[..b] == xs[..b];
  }

  /** Dedup keeps the strings in the order of their first occurrence in xs. */
  lemma {:induction false} DedupFirstOccurrenceOrder(xs: seq<string>)
    ensures forall i, j :: 0 <= i < j < |Dedup(xs)| ==>
              FirstIndex(xs, Dedup(xs)[i]) < FirstIndex(xs, Dedup(xs)[j])
    decreases |xs|
  {
    if xs != [] {
      var init, x := xs[..|xs| - 1], xs[|xs| - 1];
      assert xs == init + [x];
      DedupFirstOccurrenceOrder(init);
      var d := Dedup(init);
      forall y | y in d ensures FirstIndex(xs, y) == FirstIndex(init, y) {
        FirstIndexExtend(init, x, y);
      }
      if x !in init {
        assert FirstIndex(xs, x) == |init| by {
          assert x !in xs[..|init|];
        }
        assert Dedup(xs) == d + [x];
        forall i, j | 0 <= i < j < |Dedup(xs)|
          ensures FirstIndex(xs, Dedup(xs)[i]) < FirstIndex(xs, Dedup(xs)[j])
        {
          assert Dedup(xs)[i] == d[i];
          if j < |d| {
            assert Dedup(xs)[j] == d[j];
          }
        }
      }
    }
  }

  // ---------------------------------------------------------------------------------------
  // One department: the loop of read_course

  /** What reading a department's sections leaves: the courses appended to the shared list,
      the department's summary lines, and the KeyError that stopped the loop, if any. */
  datatype Scan = Scan(courses: seq<Course>, summaries: seq<string>, fault: Option<Fault>)

  /** read_course's loop over the first |ss| sections, section by section; the only
      exception the loop raises is a KeyError. */
  function ScanSections(dept: string, ss: seq<Section>): (r: Scan)
    ensures r.fault.Some? ==> r.fault.value.KeyError?
    decreases |ss|
  {
    if ss == [] then Scan([], [], None)
    else
      var prior := ScanSections(dept, ss[..|ss| - 1]);
      if prior.fault.Some? then prior
      else match MakeCourse(ss[|ss| - 1])
        case Err(f) => prior.(fault := Some(f))
        case Ok(c) =>
          Scan(prior.courses + [c],
               AddUnique(prior.summaries, SummaryLine(dept, c.courseNum, c.courseTitle)),
               None)
  }

  /** One more turn of read_course's loop reads the next section. */
  lemma ScanSectionsStep(dept: string, ss: seq<Section>, i: nat, prior: Scan)
    requires i < |ss| && ScanSections(dept, ss[..i]) == prior && prior.fault.None?
    ensures MakeCourse(ss[i]).Err? ==>
      ScanSections(dept, ss[..i + 1]) == prior.(fault := Some(MakeCourse(ss[i]).error))
    ensures MakeCourse(ss[i]).Ok? ==>
      var c := MakeCourse(ss[i]).value;
      ScanSections(dept, ss[..i + 1]) ==
        Scan(prior.courses + [c], AddUnique(prior.summaries, SummaryLine(dept, c.courseNum, c.courseTitle)), None)
  {
    assert ss[..i + 1][..i] == ss[..i];
  }

  /** The index of the first incomplete section, or |ss| when every section is complete. */
  function FirstIncomplete(ss: seq<Section>): (k: nat)
    ensures k <= |ss|
    ensures forall j :: 0 <= j < k ==> Complete(ss[j])
    ensures k < |ss| ==> !Complete(ss[k])
    decreases |ss|
  {
    if ss == [] || !Complete(ss[0]) then 0
    else 1 + FirstIncomplete(ss[1..])
  }

  /** The Courses built from complete sections, one per section, in order. */
  function SectionCourses(ss: seq<Section>): (cs: seq<Course>)
    requires SectionsComplete(ss)
    ensures |cs| == |ss|
    decreases |ss|
  {
    if ss == [] then []
    else
      var init := ss[..|ss| - 1];
      assert SectionsComplete(init) by {
        forall j | 0 <= j < |init| ensures Complete(init[j]) { assert init[j] == ss[j]; }
      }
      SectionCourses(init) + [SectionCourse(ss[|ss| - 1])]
  }

  lemma {:induction false} SectionCoursesAt(ss: seq<Section>, j: nat)
    requires SectionsComplete(ss) && j < |ss|
    ensures MakeCourse(ss[j]) == Ok(SectionCourses(ss)[j])
    decreases |ss|
  {
    var init := ss[..|ss| - 1];
    if j < |init| {
      assert SectionsComplete(init) by {
        forall i | 0 <= i < |init| ensures Complete(init[i]) { assert init[i] == ss[i]; }
      }
      SectionCoursesAt(init, j);
      assert init[j] == ss[j];
    }
  }


  /** The summary line of the Course built from a complete section is the section's line. */
  lemma SectionCourseLine(dept: string, s: Section)
    requires Complete(s)
    ensures MakeCourse(s) == Ok(SectionCourse(s))
    ensures SummaryLine(dept, SectionCourse(s).courseNum, SectionCourse(s).courseTitle) == SectionLine(dept, s)
  {
  }

  /** A department whose sections are all complete is read to the end: the Courses of all
      its sections and the de-duplicated lines of all of them. */
  lemma {:induction false} ScanSectionsAllComplete(dept: string, ss: seq<Section>)
    requires SectionsComplete(ss)
    ensures ScanSections(dept, ss) == Scan(SectionCourses(ss), Dedup(SectionLines(dept, ss)), None)
    decreases |ss|
  {
    if ss != [] {
      var init, last := ss[..|ss| - 1], ss[|ss| - 1];
      assert SectionsComplete(init) by {
        forall j | 0 <= j < |init| ensures Complete(init[j]) { assert init[j] == ss[j]; }
      }
      ScanSectionsAllComplete(dept, init);
      SectionCourseLine(dept, last);
      assert SectionCourses(ss) == SectionCourses(init) + [SectionCourse(last)];
      var lines := SectionLines(dept, ss);
      assert lines == SectionLines(dept, init) + [SectionLine(dept, last)];
      assert lines[..|lines| - 1] == SectionLines(dept, init);
      assert Dedup(lines) == AddUnique(Dedup(SectionLines(dept, init)), SectionLine(dept, last));
    }
  }

  /** The loop reads the sections before the first incomplete one; that one, if any, raises
      its KeyError and stops the loop. */
  lemma ScanSectionsUpTo(dept: string, ss: seq<Section>)
    ensures var k := FirstIncomplete(ss);
      && SectionsComplete(ss[..k])
      && ScanSections(dept, ss) ==
           Scan(SectionCourses(ss[..k]), Dedup(SectionLines(dept, ss[..k])),
                if k < |ss| then Some(MakeCourse(ss[k]).error) else None)
  {
    var k := FirstIncomplete(ss);
    forall j | 0 <= j < k ensures Complete(ss[..k][j]) { assert ss[..k][j] == ss[j]; }
    ScanSectionsAllComplete(dept, ss[..k]);
    if k < |ss| {
      ScanSectionsStep(dept, ss, k, ScanSections(dept, ss[..k]));
      ScanSectionsStopsAtFault(dept, ss, k + 1);
    } else {
      assert ss[..k] == ss;
    }
  }

  /** The loop reads at most one Course per section, and one for every section exactly
      when nothing raises. */
  lemma ScanSectionsCount(dept: string, ss: seq<Section>)
    ensures var r := ScanSections(dept, ss);
      |r.courses| <= |ss| && (r.fault.None? <==> |r.courses| == |ss|)
  {
    ScanSectionsUpTo(dept, ss);
  }

  /** The j-th Course read is the one built from the j-th section. */
  lemma ScanSectionsMade(dept: string, ss: seq<Section>)
    ensures var r := ScanSections(dept, ss);
      |r.courses| <= |ss| && forall j :: 0 <= j < |r.courses| ==> MakeCourse(ss[j]) == Ok(r.courses[j])
  {
    ScanSectionsUpTo(dept, ss);
    var k := FirstIncomplete(ss);
    var read, courses := ss[..k], ScanSections(dept, ss).courses;
    assert courses == SectionCourses(read);
    forall j | 0 <= j < |courses| ensures MakeCourse(ss[j]) == Ok(courses[j]) {
      SectionCoursesAt(read, j);
      assert read[j] == ss[j];
    }
  }

  /** A KeyError comes from the section right after the last Course read. */
  lemma ScanSectionsFault(dept: string, ss: seq<Section>)
    ensures var r := ScanSections(dept, ss);
      r.fault.Some? ==> |r.courses| < |ss| && MakeCourse(ss[|r.courses|]) == Err(r.fault.value)
  {
    ScanSectionsUpTo(dept, ss);
  }

  /** One Course per section up to the first incomplete one, whose KeyError stops the loop. */
  lemma ScanSectionsCourses(dept: string, ss: seq<Section>)
    ensures var r := ScanSections(dept, ss);
      && |r.courses| <= |ss|
      && (forall j :: 0 <= j < |r.courses| ==> MakeCourse(ss[j]) == Ok(r.courses[j]))
      && (r.fault.None? <==> |r.courses| == |ss|)
      && (r.fault.Some? ==> MakeCourse(ss[|r.courses|]) == Err(r.fault.value))
  {
    ScanSectionsCount(dept, ss);
    ScanSectionsMade(dept, ss);
    ScanSectionsFault(dept, ss);
  }

  /** The summaries are the de-duplicated lines of the sections read before any KeyError. */
  lemma ScanSectionsSummaries(dept: string, ss: seq<Section>)
    ensures var r := ScanSections(dept, ss);
      && |r.courses| <= |ss|
      && (forall j :: 0 <= j < |r.courses| ==> Complete(ss[j]))
      && r.summaries == Dedup(SectionLines(dept, ss[..|r.courses|]))
  {
    ScanSectionsUpTo(dept, ss);
  }

  /** Once a section has raised, the later sections change nothing. */
  lemma {:induction false} ScanSectionsStopsAtFault(dept: string, ss: seq<Section>, k: nat)
    requires k <= |ss|
    requires ScanSections(dept, ss[..k]).fault.Some?
    ensures ScanSections(dept, ss) == ScanSections(dept, ss[..k])
    decreases |ss| - k
  {
    if k < |ss| {
      assert ss[..k + 1][..k] == ss[..k];
      ScanSectionsStopsAtFault(dept, ss, k + 1);
    } else {
      assert ss[..k] == ss;
    }
  }

  /** A department's listing holds the line of each of its sections exactly once,
      in the order of first occurrence. */
  lemma DepartmentListing(dept: string, ss: seq<Section>)
    requires forall j :: 0 <= j < |ss| ==> Complete(ss[j])
    ensures var listing := Dedup(SectionLines(dept, ss));
      && NoDuplicates(listing)
      && (forall x :: x in listing <==>
            exists j :: 0 <= j < |ss| && x == SectionLine(dept, ss[j]))
      && (forall i, j :: 0 <= i < j < |listing| ==>
            FirstIndex(SectionLines(dept, ss), listing[i]) < FirstIndex(SectionLines(dept, ss), listing[j]))
  {
    var lines := SectionLines(dept, ss);
    DedupFirstOccurrenceOrder(lines);
    forall x | x in lines
      ensures exists j :: 0 <= j < |ss| && x == SectionLine(dept, ss[j])
    {
      var j :| 0 <= j < |lines| && lines[j] == x;
    }
  }

  // ---------------------------------------------------------------------------------------
  // The whole quarter: the loop of from_raw_to_list

  datatype Normalized = Normalized(courses: seq<Course>, departments: seq<Department>)

  /** from_raw_to_list's loop over the first |t| departments of the table: read to the end,
      it has one Department per key; the only exception it raises is a KeyError. */
  function ScanTable(t: seq<(string, seq<Section>)>): (r: Result<Normalized, Fault>)
    ensures r.Ok? ==> |r.value.departments| == |t|
    ensures r.Err? ==> r.error.KeyError?
    decreases |t|
  {
    if t == [] then Ok(Normalized([], []))
    else match ScanTable(t[..|t| - 1])
      case Err(f) => Err(f)
      case Ok(prior) =>
        var dept := t[|t| - 1];
        var scan := ScanSections(dept.0, dept.1);
        if scan.fault.Some? then Err(scan.fault.value)
        else Ok(Normalized(prior.courses + scan.courses,
                           prior.departments + [Department(dept.0, scan.summaries)]))
  }

  /** `course_raw[quarter_name]['CourseData']`: a missing quarter raises its KeyError before
      the `CourseData` key is looked at. */
  function CourseTable(doc: Document, quarterName: string): (r: Result<DeptTable, Fault>)
    ensures r.Ok? <==> quarterName in doc && CourseDataKey in doc[quarterName]
    ensures r.Ok? ==> r.value == doc[quarterName][CourseDataKey]
    ensures quarterName !in doc ==> r == Err(KeyError(quarterName))
    ensures quarterName in doc && r.Err? ==> r == Err(KeyError(CourseDataKey))
  {
    if quarterName !in doc then Err(KeyError(quarterName))
    else if CourseDataKey !in doc[quarterName] then Err(KeyError(CourseDataKey))
    else Ok(doc[quarterName][CourseDataKey])
  }

  /** from_raw_to_list(course_raw, quarter_name): it fails only with a KeyError, and a result
      has one Department per key of the quarter's `CourseData`. */
  function Normalize(doc: Document, quarterName: string): (r: Result<Normalized, Fault>)
    ensures r.Err? ==> r.error.KeyError?
    ensures r.Ok? ==>
      CourseTable(doc, quarterName).Ok? && |r.value.departments| == |CourseTable(doc, quarterName).value|
  {
    match CourseTable(doc, quarterName)
    case Err(f) => Err(f)
    case Ok(t) => ScanTable(t)
  }

  /** The sections of all departments, one after another, in document order. */
  function AllSections(t: seq<(string, seq<Section>)>): seq<Section>
    decreases |t|
  {
    if t == [] then [] else AllSections(t[..|t| - 1]) + t[|t| - 1].1
  }

  predicate SectionsComplete(ss: seq<Section>)
  {
    forall j :: 0 <= j < |ss| ==> Complete(ss[j])
  }

  predicate AllComplete(t: seq<(string, seq<Section>)>)
  {
    forall i :: 0 <= i < |t| ==> SectionsComplete(t[i].1)
  }

  lemma AllCompletePrefix(t: seq<(string, seq<Section>)>, k: nat)
    requires AllComplete(t) && k <= |t|
    ensures AllComplete(t[..k])
  {
    forall i | 0 <= i < k ensures SectionsComplete(t[..k][i].1) {
      assert t[..k][i] == t[i];
    }
  }

  /** A department whose sections are all complete is read to the end without a KeyError,
      and its listing is the de-duplicated lines of all its sections. */
  lemma ScanSectionsListing(dept: string, ss: seq<Section>)
    requires SectionsComplete(ss)
    ensures ScanSections(dept, ss).fault.None?
    ensures ScanSections(dept, ss).summaries == Dedup(SectionLines(dept, ss))
  {
    ScanSectionsAllComplete(dept, ss);
  }

  /** A department whose sections are all complete yields one Course per section. */
  lemma ScanSectionsComplete(dept: string, ss: seq<Section>)
    requires SectionsComplete(ss)
    ensures ScanSections(dept, ss).fault.None?
    ensures |ScanSections(dept, ss).courses| == |ss|
    ensures forall j :: 0 <= j < |ss| ==> MakeCourse(ss[j]) == Ok(ScanSections(dept, ss).courses[j])
  {
    ScanSectionsAllComplete(dept, ss);
    forall j | 0 <= j < |ss| ensures MakeCourse(ss[j]) == Ok(ScanSections(dept, ss).courses[j]) {
      SectionCoursesAt(ss, j);
    }
  }

  /** The Departments of a table whose sections are all complete: one per key, in key order,
      each listing the de-duplicated lines of its sections. */
  /** The Department a table entry lists when all its sections are complete. */
  function Listing(entry: (string, seq<Section>)): Department
    requires SectionsComplete(entry.1)
  {
    Department(entry.0, Dedup(SectionLines(entry.0, entry.1)))
  }

  function Listings(t: seq<(string, seq<Section>)>): (ds: seq<Department>)
    requires AllComplete(t)
    ensures |ds| == |t|
    decreases |t|
  {
    if t == [] then []
    else
      AllCompletePrefix(t, |t| - 1);
      Listings(t[..|t| - 1]) + [Listing(t[|t| - 1])]
  }

  lemma {:induction false} ListingsAt(t: seq<(string, seq<Section>)>, i: nat)
    requires AllComplete(t) && i < |t|
    ensures Listings(t)[i] == Listing(t[i])
    decreases |t|
  {
    var init := t[..|t| - 1];
    AllCompletePrefix(t, |t| - 1);
    assert Listings(t) == Listings(init) + [Listing(t[|t| - 1])];
    if i < |init| {
      ListingsAt(init, i);
      assert init[i] == t[i];
    }
  }


  /** With every section complete the table is read to the end, and its Departments are the
      listings of its keys. */
  lemma {:induction false} ScanTableListings(t: seq<(string, seq<Section>)>)
    requires AllComplete(t)
    ensures ScanTable(t).Ok? && ScanTable(t).value.departments == Listings(t)
    decreases |t|
  {
    if t != [] {
      var init, last := t[..|t| - 1], t[|t| - 1];
      AllCompletePrefix(t, |t| - 1);
      ScanTableListings(init);
      ScanSectionsListing(last.0, last.1);
      ScanTableStep(t, |t| - 1, ScanTable(init).value);
      assert t[..|t|] == t;
    }
  }

  /** With every section complete the table is read to the end, and there is one Department
      per key, in key order, listing its sections' summary lines once each. */
  lemma ScanTableDepartments(t: seq<(string, seq<Section>)>)
    requires AllComplete(t)
    ensures ScanTable(t).Ok?
    ensures |ScanTable(t).value.departments| == |t|
    ensures forall i :: 0 <= i < |t| ==>
              ScanTable(t).value.departments[i] == Department(t[i].0, Dedup(SectionLines(t[i].0, t[i].1)))
  {
    ScanTableListings(t);
    forall i | 0 <= i < |t| ensures ScanTable(t).value.departments[i] == Listing(t[i]) {
      ListingsAt(t, i);
    }
  }

  /** With every section complete, the course list holds one Course per section, in document
      order: the sections of all departments, one department after another. */
  lemma {:induction false} ScanTableCourses(t: seq<(string, seq<Section>)>)
    requires AllComplete(t)
    ensures ScanTable(t).Ok?
    ensures |ScanTable(t).value.courses| == |AllSections(t)|
    ensures forall k :: 0 <= k < |AllSections(t)| ==>
              MakeCourse(AllSections(t)[k]) == Ok(ScanTable(t).value.courses[k])
    decreases |t|
  {
    if t != [] {
      var init, last := t[..|t| - 1], t[|t| - 1];
      AllCompletePrefix(t, |t| - 1);
      ScanTableCourses(init);
      ScanSectionsComplete(last.0, last.1);
      var prior := ScanTable(init).value.courses;
      var cs := ScanTable(t).value.courses;
      var scan := ScanSections(last.0, last.1);
      assert cs == prior + scan.courses;
      var all := AllSections(t);
      assert all == AllSections(init) + last.1;
      forall k | 0 <= k < |all| ensures MakeCourse(all[k]) == Ok(cs[k]) {
        if k < |prior| {
          assert all[k] == AllSections(init)[k];
        } else {
          assert all[k] == last.1[k - |prior|];
        }
      }
    }
  }

  /** One more turn of from_raw_to_list's loop reads the next department of the table. */
  lemma ScanTableStep(t: seq<(string, seq<Section>)>, i: nat, prior: Normalized)
    requires i < |t| && ScanTable(t[..i]) == Ok(prior)
    ensures var scan := ScanSections(t[i].0, t[i].1);
      ScanTable(t[..i + 1]) ==
        if scan.fault.Some? then Err(scan.fault.value)
        else Ok(Normalized(prior.courses + scan.courses,
                           prior.departments + [Department(t[i].0, scan.summaries)]))
  {
    assert t[..i + 1][..i] == t[..i];
  }

  /** The first fault of a table is the first one of its departments (the first, the
      second, ...); this formulation names the department and the section that raise. */
  predicate RaisesAt(t: seq<(string, seq<Section>)>, f: Fault, i: nat, j: nat)
  {
    && i < |t| && j < |t[i].1|
    && MakeCourse(t[i].1[j]) == Err(f)
    && SectionsComplete(t[i].1[..j])
    && AllComplete(t[..i])
  }

  /** A table with an incomplete section raises the KeyError of the first one in document
      order: every section before it, in its own and in earlier departments, is complete. */
  lemma {:induction false} ScanTableIncomplete(t: seq<(string, seq<Section>)>)
    requires !AllComplete(t)
    ensures ScanTable(t).Err?
    ensures exists i, j :: RaisesAt(t, ScanTable(t).error, i, j)
    decreases |t|
  {
    var init := t[..|t| - 1];
    if !AllComplete(init) {
      ScanTableIncomplete(init);
      var i: nat, j: nat :| RaisesAt(init, ScanTable(init).error, i, j);
      assert init[i] == t[i];
      assert init[..i] == t[..i];
      assert ScanTable(t) == ScanTable(init);
      assert RaisesAt(t, ScanTable(t).error, i, j);
    } else {
      LastDepartmentRaises(t);
    }
  }

  lemma LastDepartmentRaises(t: seq<(string, seq<Section>)>)
    requires !AllComplete(t) && t != [] && AllComplete(t[..|t| - 1])
    ensures ScanTable(t).Err?
    ensures RaisesAt(t, ScanTable(t).error, |t| - 1, |ScanSections(t[|t| - 1].0, t[|t| - 1].1).courses|)
  {
    var init, last := t[..|t| - 1], t[|t| - 1];
    LastIncomplete(t);
    ScanSectionsRaises(last.0, last.1);
    ScanTableDepartments(init);
    ScanTableStep(t, |t| - 1, ScanTable(init).value);
    assert t[..|t|] == t;
  }

  /** When every earlier department is complete, the incomplete one is the last. */
  lemma LastIncomplete(t: seq<(string, seq<Section>)>)
    requires !AllComplete(t) && t != [] && AllComplete(t[..|t| - 1])
    ensures !SectionsComplete(t[|t| - 1].1)
  {
    forall i | 0 <= i < |t| - 1 ensures SectionsComplete(t[i].1) {
      assert t[..|t| - 1][i] == t[i];
    }
  }

  /** An incomplete department stops at the KeyError of its first incomplete section. */
  lemma ScanSectionsRaises(dept: string, ss: seq<Section>)
    requires !SectionsComplete(ss)
    ensures var r := ScanSections(dept, ss);
      && r.fault.Some?
      && |r.courses| < |ss|
      && MakeCourse(ss[|r.courses|]) == Err(r.fault.value)
      && SectionsComplete(ss[..|r.courses|])
  {
    ScanSectionsCourses(dept, ss);
    var r := ScanSections(dept, ss);
    var j :| 0 <= j < |ss| && !Complete(ss[j]);
    assert !MakeCourse(ss[j]).Ok?;
    var k := |r.courses|;
    forall j' | 0 <= j' < k ensures Complete(ss[..k][j']) {
      assert MakeCourse(ss[j']).Ok?;
    }
  }

  /** An empty department is listed with no lines and adds nothing to the course list. */
  lemma EmptyDepartment(t: seq<(string, seq<Section>)>, i: nat)
    requires AllComplete(t) && i < |t| && t[i].1 == []
    ensures ScanTable(t).Ok? && ScanTable(t[..i + 1]).Ok? && ScanTable(t[..i]).Ok?
    ensures |ScanTable(t).value.departments| == |t|
    ensures ScanTable(t).value.departments[i] == Department(t[i].0, [])
    ensures ScanTable(t[..i + 1]).value.courses == ScanTable(t[..i]).value.courses
  {
    ScanTableDepartments(t);
    AllCompletePrefix(t, i);
    ScanTableDepartments(t[..i]);
    assert t[..i + 1][..i] == t[..i];
  }

  /** The departments come out in key order, so with distinct keys their names are distinct. */
  lemma DepartmentsDistinct(t: DeptTable)
    requires AllComplete(t)
    ensures ScanTable(t).Ok?
    ensures var ds := ScanTable(t).value.departments;
              forall i, j :: 0 <= i < j < |ds| ==> ds[i].deptName != ds[j].deptName
  {
    ScanTableDepartments(t);
  }

  // ---------------------------------------------------------------------------------------
  // The imperative code: read_course appends to the caller's list in place

  /** The Python list that read_course appends Course objects to. */
  class CourseList {
    var items: seq<Course>

    constructor ()
      ensures items == []
    {
      items := [];
    }

    method Append(c: Course)
      modifies this
      ensures items == old(items) + [c]
    {
      items := items + [c];
    }
  }

  /** `table[dept]`: the sections of the first entry with that key, or None. */
  function LookupDept(t: seq<(string, seq<Section>)>, dept: string): (r: Option<seq<Section>>)
    ensures r.Some? <==> exists i :: 0 <= i < |t| && t[i].0 == dept
    ensures r.Some? ==> exists i :: 0 <= i < |t| && t[i] == (dept, r.value)
    decreases |t|
  {
    if t == [] then None
    else if t[0].0 == dept then Some(t[0].1)
    else LookupDept(t[1..], dept)
  }

  lemma {:induction false} LookupDeptAt(t: seq<(string, seq<Section>)>, i: nat)
    requires DistinctKeys(t) && i < |t|
    ensures LookupDept(t, t[i].0) == Some(t[i].1)
    decreases i
  {
    if i > 0 {
      assert t[0].0 != t[i].0;
      LookupDeptAt(t[1..], i - 1);
    }
  }

  /** `course_raw[quarter_name]['CourseData'][department]`: the sections stored under that
      key, or the KeyError of the first key missing on the way. */
  function CourseSections(doc: Document, quarterName: string, dept: string): (r: Result<seq<Section>, Fault>)
    ensures r.Ok? ==>
      && CourseTable(doc, quarterName).Ok?
      && exists i :: 0 <= i < |CourseTable(doc, quarterName).value| &&
           CourseTable(doc, quarterName).value[i] == (dept, r.value)
    ensures CourseTable(doc, quarterName).Ok? && r.Err? ==> r.error == KeyError(dept)
    ensures CourseTable(doc, quarterName).Err? ==> r == Err(CourseTable(doc, quarterName).error)
  {
    match CourseTable(doc, quarterName)
    case Err(f) => Err(f)
    case Ok(t) =>
      match LookupDept(t, dept)
      case None => Err(KeyError(dept))
      case Some(ss) => Ok(ss)
  }

  /** read_course: appends one Course per section to `courseList` and returns the department
      with its de-duplicated summary lines; a KeyError leaves the courses appended so far. */
  method ReadCourse(doc: Document, quarterName: string, courseList: CourseList, department: string)
    returns (r: Result<Department, Fault>)
    modifies courseList
    ensures match CourseSections(doc, quarterName, department)
      case Err(f) => r == Err(f) && courseList.items == old(courseList.items)
      case Ok(ss) =>
        var scan := ScanSections(department, ss);
        && courseList.items == old(courseList.items) + scan.courses
        && r == if scan.fault.Some? then Err(scan.fault.value) else Ok(Department(department, scan.summaries))
  {
    var sections := CourseSections(doc, quarterName, department);
    if sections.Err? {
      return Err(sections.error);
    }
    var ss := sections.value;
    var summaries: seq<string> := [];
    ghost var appended: seq<Course> := [];
    for i := 0 to |ss|
      invariant ScanSections(department, ss[..i]) == Scan(appended, summaries, None)
      invariant courseList.items == old(courseList.items) + appended
    {
      ScanSectionsStep(department, ss, i, Scan(appended, summaries, None));
      var made := MakeCourse(ss[i]);
      if made.Err? {
        ScanSectionsStopsAtFault(department, ss, i + 1);
        return Err(made.error);
      }
      var course := made.value;
      ghost var before := courseList.items;
      courseList.Append(course);
      assert before + [course] == old(courseList.items) + (appended + [course]);
      appended := appended + [course];
      var line := SummaryLine(department, course.courseNum, course.courseTitle);
      if line !in summaries {
        summaries := summaries + [line];
      }
    }
    assert ss[..|ss|] == ss;
    return Ok(Department(department, summaries));
  }

  lemma {:induction false} ScanTableStopsAtFault(t: seq<(string, seq<Section>)>, k: nat)
    requires k <= |t|
    requires ScanTable(t[..k]).Err?
    ensures ScanTable(t) == ScanTable(t[..k])
    decreases |t| - k
  {
    if k < |t| {
      assert t[..k + 1][..k] == t[..k];
      ScanTableStopsAtFault(t, k + 1);
    } else {
      assert t[..k] == t;
    }
  }

  /** from_raw_to_list: the two lists the normalizer returns, or the first KeyError. */
  method FromRawToList(doc: Document, quarterName: string) returns (r: Result<Normalized, Fault>)
    ensures r == Normalize(doc, quarterName)
  {
    var courseList := new CourseList();
    var departmentList: seq<Department> := [];
    var table := CourseTable(doc, quarterName);
    if table.Err? {
      return Err(table.error);
    }
    var t := table.value;
    for i := 0 to |t|
      invariant ScanTable(t[..i]) == Ok(Normalized(courseList.items, departmentList))
    {
      ScanTableStep(t, i, Normalized(courseList.items, departmentList));
      LookupDeptAt(t, i);
      assert CourseSections(doc, quarterName, t[i].0) == Ok(t[i].1);
      var dept := ReadCourse(doc, quarterName, courseList, t[i].0);
      if dept.Err? {
        ScanTableStopsAtFault(t, i + 1);
        return Err(dept.error);
      }
      departmentList := departmentList + [dept.value];
    }
    assert t[..|t|] == t;
    return Ok(Normalized(courseList.items, departmentList));
  }
}
