/** The string-keyed records the loaders store for a Course or a Department: the attribute
    dictionary of the object (`vars`, DBImport/InsertData.py) and the hand-written
    dictionaries of the older script (ReadCourseData.py). Each comes with the decoder that
    reads the entity back, so that no stored information is lost. */
module Records {
  import opened Wrappers
  import opened Catalog

  /** A value of a stored record: a string, or a list of strings (a Department's lines,
      a Course's lab/activity lists). */
  datatype Field = Text(text: string) | TextList(items: seq<string>)

  /** A string-keyed record, its keys in the order they were written (a Python dict keeps
      insertion order, and the store keeps the order of a document's fields). */
  type Record = seq<(string, Field)>

  /** The keys of a record, in order. */
  function KeysOf(r: Record): (keys: seq<string>)
    ensures |keys| == |r|
    ensures forall i :: 0 <= i < |r| ==> keys[i] == r[i].0
  {
    seq(|r|, i requires 0 <= i < |r| => r[i].0)
  }

  /** The values of a record, in order. */
  function ValuesOf(r: Record): (values: seq<Field>)
    ensures |values| == |r|
    ensures forall i :: 0 <= i < |r| ==> values[i] == r[i].1
  {
    seq(|r|, i requires 0 <= i < |r| => r[i].1)
  }

  /** The record with the given keys and values, in order. */
  function Zip(keys: seq<string>, values: seq<Field>): (r: Record)
    requires |keys| == |values|
    ensures KeysOf(r) == keys && ValuesOf(r) == values
  {
    seq(|keys|, i requires 0 <= i < |keys| => (keys[i], values[i]))
  }

  /** A record is determined by its keys and its values. */
  lemma ZipKeysValues(r: Record)
    ensures Zip(KeysOf(r), ValuesOf(r)) == r
  {
  }

  /** The Text values of a list of fields, when all of them are Text. */
  function Texts(v: seq<Field>): (texts: Option<seq<string>>)
    ensures texts.Some? <==> forall i :: 0 <= i < |v| ==> v[i].Text?
    ensures texts.Some? ==> |texts.value| == |v| && forall i :: 0 <= i < |v| ==> v[i] == Text(texts.value[i])
    decreases |v|
  {
    if v == [] then Some([])
    else if !v[|v| - 1].Text? then None
    else
      match Texts(v[..|v| - 1])
      case None => None
      case Some(init) => Some(init + [v[|v| - 1].text])
  }

  /** `r.get(k)`: the value stored under key k, if the record has that key. */
  function Lookup(r: Record, k: string): (v: Option<Field>)
    ensures v.Some? <==> k in KeysOf(r)
    ensures v.Some? ==> (k, v.value) in r
    decreases |r|
  {
    if r == [] then None
    else
      var init := r[..|r| - 1];
      assert KeysOf(r) == KeysOf(init) + [r[|r| - 1].0];
      if r[|r| - 1].0 == k then Some(r[|r| - 1].1)
      else Lookup(init, k)
  }

  /** In a record whose keys are distinct, each key finds the value written beside it. */
  lemma {:induction false} LookupAt(r: Record, i: nat)
    requires NoDuplicates(KeysOf(r)) && i < |r|
    ensures Lookup(r, r[i].0) == Some(r[i].1)
    decreases |r|
  {
    var init := r[..|r| - 1];
    if i < |r| - 1 {
      assert KeysOf(r)[i] != KeysOf(r)[|r| - 1];
      assert KeysOf(init) == KeysOf(r)[..|r| - 1];
      LookupAt(init, i);
    }
  }

  /** Zipping distinct keys with values stores each value under its own key. */
  lemma LookupZip(keys: seq<string>, values: seq<Field>)
    requires |keys| == |values| && NoDuplicates(keys)
    ensures forall i :: 0 <= i < |keys| ==> Lookup(Zip(keys, values), keys[i]) == Some(values[i])
  {
    var r := Zip(keys, values);
    forall i | 0 <= i < |keys| ensures Lookup(r, keys[i]) == Some(values[i]) {
      LookupAt(r, i);
    }
  }

  // ---------------------------------------------------------------------------------------
  // `vars(entity)`

  /** The attribute names of a Course object, in the order its constructor assigns them. */
  const CourseAttributeNames: seq<string> :=
    ["UID", "crn", "course_num", "section_num", "campus", "num_credit", "course_title", "days",
     "startTime", "endTime", "cap", "wl_cap", "instructor_name", "startDate", "endDate",
     "location", "attribute", "lab", "act", "wl_act"]

  /** The attribute names of a Department object. */
  const DepartmentAttributeNames: seq<string> := ["deptName", "courses"]

  /** The 17 string attributes of a Course, in constructor order. */
  function ScalarTexts(c: Course): seq<string>
  {
    [c.uid, c.crn, c.courseNum, c.sectionNum, c.campus, c.numCredit, c.courseTitle, c.days,
     c.startTime, c.endTime, c.cap, c.wlCap, c.instructorName, c.startDate, c.endDate,
     c.location, c.attribute]
  }

  function TextFields(texts: seq<string>): (v: seq<Field>)
    ensures |v| == |texts| && forall i :: 0 <= i < |texts| ==> v[i] == Text(texts[i])
  {
    seq(|texts|, i requires 0 <= i < |texts| => Text(texts[i]))
  }

  /** The Course with these 17 string attributes and these three lists. */
  function CourseOf(t: seq<string>, lab: seq<string>, act: seq<string>, wlAct: seq<string>): (c: Course)
    requires |t| == 17
    ensures ScalarTexts(c) == t && c.lab == lab && c.act == act && c.wlAct == wlAct
  {
    Course(t[0], t[1], t[2], t[3], t[4], t[5], t[6], t[7], t[8], t[9], t[10], t[11], t[12],
           t[13], t[14], t[15], t[16], lab, act, wlAct)
  }

  lemma CourseOfScalars(c: Course)
    ensures CourseOf(ScalarTexts(c), c.lab, c.act, c.wlAct) == c
  {
  }

  /** `vars(course)` */
  function CourseAttributes(c: Course): (r: Record)
    ensures KeysOf(r) == CourseAttributeNames
  {
    Zip(CourseAttributeNames,
        TextFields(ScalarTexts(c)) + [TextList(c.lab), TextList(c.act), TextList(c.wlAct)])
  }

  /** `vars(department)` */
  function DepartmentAttributes(d: Department): (r: Record)
    ensures KeysOf(r) == DepartmentAttributeNames
  {
    Zip(DepartmentAttributeNames, [Text(d.deptName), TextList(d.courses)])
  }

  /** The attribute names of a Course and of a Department are distinct. */
  lemma AttributeNamesDistinct()
    ensures NoDuplicates(CourseAttributeNames)
  {
    var names := CourseAttributeNames;
    // No two names agree in length, first character and last-but-one character.
    forall i, j | 0 <= i < j < |names| ensures names[i] != names[j] {
      assert |names[i]| != |names[j]| || names[i][0] != names[j][0]
          || names[i][|names[i]| - 2] != names[j][|names[j]| - 2];
    }
  }

  /** `vars(course)` written out: each attribute name bound to its own attribute. */
  lemma CourseAttributesDisplay(c: Course)
    ensures CourseAttributes(c) ==
      [("UID", Text(c.uid)), ("crn", Text(c.crn)), ("course_num", Text(c.courseNum)),
       ("section_num", Text(c.sectionNum)), ("campus", Text(c.campus)),
       ("num_credit", Text(c.numCredit)), ("course_title", Text(c.courseTitle)),
       ("days", Text(c.days)), ("startTime", Text(c.startTime)), ("endTime", Text(c.endTime)),
       ("cap", Text(c.cap)), ("wl_cap", Text(c.wlCap)), ("instructor_name", Text(c.instructorName)),
       ("startDate", Text(c.startDate)), ("endDate", Text(c.endDate)),
       ("location", Text(c.location)), ("attribute", Text(c.attribute)),
       ("lab", TextList(c.lab)), ("act", TextList(c.act)), ("wl_act", TextList(c.wlAct))]
  {
  }

  /** `vars(department)` written out. */
  lemma DepartmentAttributesDisplay(d: Department)
    ensures DepartmentAttributes(d) == [("deptName", Text(d.deptName)), ("courses", TextList(d.courses))]
  {
  }

  /** Looking up an attribute name in `vars(course)` gives that attribute. */
  lemma CourseAttributesLookup(c: Course)
    ensures forall i :: 0 <= i < |CourseAttributeNames| ==>
      Lookup(CourseAttributes(c), CourseAttributeNames[i]) == Some(ValuesOf(CourseAttributes(c))[i])
    ensures Lookup(CourseAttributes(c), "lab") == Some(TextList(c.lab))
  {
    AttributeNamesDistinct();
    LookupZip(CourseAttributeNames, ValuesOf(CourseAttributes(c)));
    ZipKeysValues(CourseAttributes(c));
    assert CourseAttributeNames[17] == "lab";
  }

  lemma DepartmentAttributesLookup(d: Department)
    ensures Lookup(DepartmentAttributes(d), "deptName") == Some(Text(d.deptName))
    ensures Lookup(DepartmentAttributes(d), "courses") == Some(TextList(d.courses))
  {
    LookupZip(DepartmentAttributeNames, [Text(d.deptName), TextList(d.courses)]);
  }

  /** Reads a Course back from an attribute record. */
  function CourseOfAttributes(r: Record): (c: Option<Course>)
    ensures c.Some? ==> CourseAttributes(c.value) == r
  {
    if KeysOf(r) != CourseAttributeNames then None
    else
      var v := ValuesOf(r);
      match Texts(v[..17])
      case None => None
      case Some(t) =>
        if v[17].TextList? && v[18].TextList? && v[19].TextList? then
          var c := CourseOf(t, v[17].items, v[18].items, v[19].items);
          assert TextFields(ScalarTexts(c)) == v[..17];
          assert ValuesOf(CourseAttributes(c)) == v;
          ZipKeysValues(r);
          Some(c)
        else None
  }

  /** Reads a Department back from an attribute record. */
  function DepartmentOfAttributes(r: Record): (d: Option<Department>)
    ensures d.Some? ==> DepartmentAttributes(d.value) == r
  {
    if KeysOf(r) == DepartmentAttributeNames && r[0].1.Text? && r[1].1.TextList?
    then
      var d := Department(r[0].1.text, r[1].1.items);
      ZipKeysValues(r);
      assert ValuesOf(r) == ValuesOf(DepartmentAttributes(d));
      Some(d)
    else None
  }

  /** `vars` keeps every attribute of a Course, lab/act/wl_act included. */
  lemma CourseAttributesRoundTrip(c: Course)
    ensures CourseOfAttributes(CourseAttributes(c)) == Some(c)
  {
    var v := ValuesOf(CourseAttributes(c));
    assert v[..17] == TextFields(ScalarTexts(c));
    CourseOfScalars(c);
  }

  lemma DepartmentAttributesRoundTrip(d: Department)
    ensures DepartmentOfAttributes(DepartmentAttributes(d)) == Some(d)
  {
  }

  // ---------------------------------------------------------------------------------------
  // The records of the older script

  /** The keys of the older script's course record, in the order it writes them: the
      camelCase attributes are stored under snake_case names, and lab/act/wl_act are not. */
  const LegacyCourseKeys: seq<string> :=
    ["UID", "crn", "course_num", "section_num", "campus", "num_credit", "course_title", "days",
     "start_time", "end_time", "cap", "wl_cap", "instructor_name", "start_date", "end_date",
     "location", "attribute"]

  const LegacyDepartmentKeys: seq<string> := ["department_name", "course_list"]

  /** The course dictionary of the older script. */
  function LegacyCourseRecord(c: Course): (r: Record)
    ensures KeysOf(r) == LegacyCourseKeys
  {
    Zip(LegacyCourseKeys, TextFields(ScalarTexts(c)))
  }

  /** The department dictionary of the older script. */
  function LegacyDepartmentRecord(d: Department): (r: Record)
    ensures KeysOf(r) == LegacyDepartmentKeys
  {
    Zip(LegacyDepartmentKeys, [Text(d.deptName), TextList(d.courses)])
  }

  lemma LegacyKeysDistinct()
    ensures NoDuplicates(LegacyCourseKeys)
  {
    var keys := LegacyCourseKeys;
    // No two keys agree in length, first character and last-but-one character.
    forall i, j | 0 <= i < j < |keys| ensures keys[i] != keys[j] {
      assert |keys[i]| != |keys[j]| || keys[i][0] != keys[j][0]
          || keys[i][|keys[i]| - 2] != keys[j][|keys[j]| - 2];
    }
  }

  /** The older script's course dictionary written out: each key bound to its attribute. */
  lemma LegacyCourseRecordDisplay(c: Course)
    ensures LegacyCourseRecord(c) ==
      [("UID", Text(c.uid)), ("crn", Text(c.crn)), ("course_num", Text(c.courseNum)),
       ("section_num", Text(c.sectionNum)), ("campus", Text(c.campus)),
       ("num_credit", Text(c.numCredit)), ("course_title", Text(c.courseTitle)),
       ("days", Text(c.days)), ("start_time", Text(c.startTime)), ("end_time", Text(c.endTime)),
       ("cap", Text(c.cap)), ("wl_cap", Text(c.wlCap)), ("instructor_name", Text(c.instructorName)),
       ("start_date", Text(c.startDate)), ("end_date", Text(c.endDate)),
       ("location", Text(c.location)), ("attribute", Text(c.attribute))]
  {
  }

  lemma LegacyDepartmentRecordDisplay(d: Department)
    ensures LegacyDepartmentRecord(d) ==
      [("department_name", Text(d.deptName)), ("course_list", TextList(d.courses))]
  {
  }

  /** Each key of the older script's course dictionary finds its own attribute. */
  lemma LegacyCourseLookup(c: Course)
    ensures forall i :: 0 <= i < |LegacyCourseKeys| ==>
      Lookup(LegacyCourseRecord(c), LegacyCourseKeys[i]) == Some(Text(ScalarTexts(c)[i]))
  {
    LegacyKeysDistinct();
    LookupZip(LegacyCourseKeys, TextFields(ScalarTexts(c)));
  }

  /** The renamed keys of the older script's course dictionary find the start and end times
      and dates. */
  lemma LegacyTimesAndDates(c: Course)
    ensures Lookup(LegacyCourseRecord(c), "start_time") == Some(Text(c.startTime))
    ensures Lookup(LegacyCourseRecord(c), "end_time") == Some(Text(c.endTime))
    ensures Lookup(LegacyCourseRecord(c), "start_date") == Some(Text(c.startDate))
    ensures Lookup(LegacyCourseRecord(c), "end_date") == Some(Text(c.endDate))
  {
    var r := LegacyCourseRecord(c);
    LegacyKeysDistinct();
    LegacyCourseRecordDisplay(c);
    LookupAt(r, 8);
    LookupAt(r, 9);
    LookupAt(r, 13);
    LookupAt(r, 14);
  }

  lemma LegacyDepartmentLookup(d: Department)
    ensures Lookup(LegacyDepartmentRecord(d), "department_name") == Some(Text(d.deptName))
    ensures Lookup(LegacyDepartmentRecord(d), "course_list") == Some(TextList(d.courses))
  {
    LookupZip(LegacyDepartmentKeys, [Text(d.deptName), TextList(d.courses)]);
  }

  /** Reads a Course back from the older script's record; the lists it does not store come
      back empty. */
  function CourseOfLegacyRecord(r: Record): (c: Option<Course>)
    ensures c.Some? ==> LegacyCourseRecord(c.value) == r && c.value.lab == [] && c.value.act == [] && c.value.wlAct == []
  {
    if KeysOf(r) != LegacyCourseKeys then None
    else
      match Texts(ValuesOf(r))
      case None => None
      case Some(t) =>
        var c := CourseOf(t, [], [], []);
        assert TextFields(ScalarTexts(c)) == ValuesOf(r);
        ZipKeysValues(r);
        Some(c)
  }

  function DepartmentOfLegacyRecord(r: Record): (d: Option<Department>)
    ensures d.Some? ==> LegacyDepartmentRecord(d.value) == r
  {
    if KeysOf(r) == LegacyDepartmentKeys && r[0].1.Text? && r[1].1.TextList?
    then
      var d := Department(r[0].1.text, r[1].1.items);
      ZipKeysValues(r);
      assert ValuesOf(r) == ValuesOf(LegacyDepartmentRecord(d));
      Some(d)
    else None
  }

  /** The older script's course record loses nothing of a freshly built Course: the lists it
      leaves out are always empty when it runs. */
  lemma LegacyCourseRoundTrip(c: Course)
    requires c.lab == [] && c.act == [] && c.wlAct == []
    ensures CourseOfLegacyRecord(LegacyCourseRecord(c)) == Some(c)
  {
    CourseOfScalars(c);
  }

  lemma LegacyDepartmentRoundTrip(d: Department)
    ensures DepartmentOfLegacyRecord(LegacyDepartmentRecord(d)) == Some(d)
  {
  }
}
