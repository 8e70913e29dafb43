/** The document store as the loaders see it: named collections receiving one record per
    `insert_one` call, in call order, and the parsed source files they read from. */
module DocumentStore {
  import opened Wrappers
  import opened Catalog
  import opened Records

  /** The entities the normalizer produces. */
  datatype Entity = CourseEntity(course: Course) | DepartmentEntity(department: Department)

  /** How an entity becomes the record handed to `insert_one`: `MessageToDict(entity)`
      (src/InsertData.py), `vars(entity)` (DBImport/InsertData.py), or the dictionary
      literals of the older script (ReadCourseData.py). */
  datatype RecordFormat = MessageDict | AttributeDict | LegacyDict

  /** What one `insert_one` call receives: the entity, serialized in the given format. */
  datatype Payload = Serialized(format: RecordFormat, entity: Entity)

  /** The fields of the stored document. `MessageToDict` is a protobuf call whose output is
      not modelled, so its records have no field list here. */
  function StoredRecord(p: Payload): (r: Option<Record>)
    ensures r.Some? <==> p.format != MessageDict
    ensures r.Some? && p.format == AttributeDict ==>
      KeysOf(r.value) == if p.entity.CourseEntity? then CourseAttributeNames else DepartmentAttributeNames
    ensures r.Some? && p.format == LegacyDict ==>
      KeysOf(r.value) == if p.entity.CourseEntity? then LegacyCourseKeys else LegacyDepartmentKeys
  {
    match p.format
    case MessageDict => None
    case AttributeDict =>
      (match p.entity
       case CourseEntity(c) => Some(CourseAttributes(c))
       case DepartmentEntity(d) => Some(DepartmentAttributes(d)))
    case LegacyDict =>
      (match p.entity
       case CourseEntity(c) => Some(LegacyCourseRecord(c))
       case DepartmentEntity(d) => Some(LegacyDepartmentRecord(d)))
  }

  /** Reads the entity back from a stored document of the given format. */
  function EntityOfRecord(format: RecordFormat, r: Record): Option<Entity>
  {
    match format
    case MessageDict => None
    case AttributeDict =>
      (match CourseOfAttributes(r)
       case Some(c) => Some(CourseEntity(c))
       case None =>
         match DepartmentOfAttributes(r)
         case Some(d) => Some(DepartmentEntity(d))
         case None => None)
    case LegacyDict =>
      (match CourseOfLegacyRecord(r)
       case Some(c) => Some(CourseEntity(c))
       case None =>
         match DepartmentOfLegacyRecord(r)
         case Some(d) => Some(DepartmentEntity(d))
         case None => None)
  }

  /** A stored attribute record reads back as the entity it was made from. */
  lemma AttributeRecordRoundTrip(e: Entity)
    ensures StoredRecord(Serialized(AttributeDict, e)).Some?
    ensures EntityOfRecord(AttributeDict, StoredRecord(Serialized(AttributeDict, e)).value) == Some(e)
  {
    match e
    case CourseEntity(c) => CourseAttributesRoundTrip(c);
    case DepartmentEntity(d) =>
      DepartmentAttributesRoundTrip(d);
      assert |KeysOf(DepartmentAttributes(d))| != |CourseAttributeNames|;
  }

  /** A stored legacy record reads back as the entity it was made from, provided the course
      lists the record leaves out are empty. */
  lemma LegacyRecordRoundTrip(e: Entity)
    requires e.CourseEntity? ==> e.course.lab == [] && e.course.act == [] && e.course.wlAct == []
    ensures StoredRecord(Serialized(LegacyDict, e)).Some?
    ensures EntityOfRecord(LegacyDict, StoredRecord(Serialized(LegacyDict, e)).value) == Some(e)
  {
    match e
    case CourseEntity(c) => LegacyCourseRoundTrip(c);
    case DepartmentEntity(d) =>
      LegacyDepartmentRoundTrip(d);
      assert |KeysOf(LegacyDepartmentRecord(d))| != |LegacyCourseKeys|;
  }

  /** One `insert_one` call: the collection it targets and the record it stores. */
  datatype Insert = Insert(collection: string, payload: Payload)

  /** The source files the loaders open, by path, already parsed. */
  type Files = map<string, Document>

  /** The database: every insert ever made, in order. Inserts are never merged or
      rejected, so loading a quarter twice stores its records twice. */
  class Database {
    var log: seq<Insert>

    constructor ()
      ensures log == []
    {
      log := [];
    }

    /** `db[collection].insert_one(record)` */
    method InsertOne(collection: string, payload: Payload)
      modifies this
      ensures log == old(log) + [Insert(collection, payload)]
    {
      log := log + [Insert(collection, payload)];
    }
  }

  /** The records stored into one collection, in insert order. */
  function InCollection(log: seq<Insert>, collection: string): (payloads: seq<Payload>)
    ensures |payloads| <= |log|
    decreases |log|
  {
    if log == [] then []
    else
      var init := InCollection(log[..|log| - 1], collection);
      var last := log[|log| - 1];
      if last.collection == collection then init + [last.payload] else init
  }

  /** A collection holds exactly the records inserted into it. */
  lemma {:induction false} InCollectionMembers(log: seq<Insert>, collection: string)
    ensures forall p :: p in InCollection(log, collection) <==>
      exists i :: 0 <= i < |log| && log[i] == Insert(collection, p)
    decreases |log|
  {
    if log != [] {
      var init := log[..|log| - 1];
      InCollectionMembers(init, collection);
      assert forall i :: 0 <= i < |init| ==> init[i] == log[i];
    }
  }

  /** A single insert lands in its own collection and in no other. */
  lemma InCollectionSingle(x: Insert, collection: string)
    ensures InCollection([x], collection) == if x.collection == collection then [x.payload] else []
  {
    assert [x][..0] == [];
  }

  /** Reading a collection back distributes over a log written in two parts. */
  lemma {:induction false} InCollectionAppend(a: seq<Insert>, b: seq<Insert>, collection: string)
    ensures InCollection(a + b, collection) == InCollection(a, collection) + InCollection(b, collection)
    decreases |b|
  {
    if b != [] {
      var b' := b[..|b| - 1];
      assert (a + b)[..|a + b| - 1] == a + b';
      InCollectionAppend(a, b', collection);
    } else {
      assert a + b == a;
    }
  }

  lemma ConcatAssoc<T>(a: seq<T>, b: seq<T>, c: seq<T>)
    ensures a + b + c == a + (b + c)
  {
  }

  // ---------------------------------------------------------------------------------------
  // Inserting the normalizer's two lists

  /** The insert of every course into one collection, in list order. */
  function CourseInserts(style: RecordFormat, collection: string, courses: seq<Course>): (ins: seq<Insert>)
    ensures |ins| == |courses|
    decreases |courses|
  {
    if courses == [] then []
    else CourseInserts(style, collection, courses[..|courses| - 1])
         + [Insert(collection, Serialized(style, CourseEntity(courses[|courses| - 1])))]
  }

  /** The insert of every department into one collection, in list order. */
  function DepartmentInserts(style: RecordFormat, collection: string, depts: seq<Department>): (ins: seq<Insert>)
    ensures |ins| == |depts|
    decreases |depts|
  {
    if depts == [] then []
    else DepartmentInserts(style, collection, depts[..|depts| - 1])
         + [Insert(collection, Serialized(style, DepartmentEntity(depts[|depts| - 1])))]
  }

  /** The inserts of one normalized quarter: every course, then every department. */
  function EntityInserts(style: RecordFormat, courseCollection: string, deptCollection: string, n: Normalized): (ins: seq<Insert>)
    ensures |ins| == |n.courses| + |n.departments|
  {
    CourseInserts(style, courseCollection, n.courses) + DepartmentInserts(style, deptCollection, n.departments)
  }

  lemma CourseInsertsStep(style: RecordFormat, collection: string, courses: seq<Course>, i: nat)
    requires i < |courses|
    ensures CourseInserts(style, collection, courses[..i + 1]) ==
      CourseInserts(style, collection, courses[..i]) + [Insert(collection, Serialized(style, CourseEntity(courses[i])))]
  {
    assert courses[..i + 1][..i] == courses[..i];
  }

  lemma DepartmentInsertsStep(style: RecordFormat, collection: string, depts: seq<Department>, i: nat)
    requires i < |depts|
    ensures DepartmentInserts(style, collection, depts[..i + 1]) ==
      DepartmentInserts(style, collection, depts[..i]) + [Insert(collection, Serialized(style, DepartmentEntity(depts[i])))]
  {
    assert depts[..i + 1][..i] == depts[..i];
  }

  /** The i-th course insert stores the i-th course. */
  lemma {:induction false} CourseInsertsAt(style: RecordFormat, collection: string, courses: seq<Course>)
    ensures forall i :: 0 <= i < |courses| ==>
      CourseInserts(style, collection, courses)[i] == Insert(collection, Serialized(style, CourseEntity(courses[i])))
    decreases |courses|
  {
    if courses != [] {
      var init := courses[..|courses| - 1];
      CourseInsertsAt(style, collection, init);
      forall i | 0 <= i < |init| ensures courses[i] == init[i] { }
    }
  }

  /** The i-th department insert stores the i-th department. */
  lemma {:induction false} DepartmentInsertsAt(style: RecordFormat, collection: string, depts: seq<Department>)
    ensures forall i :: 0 <= i < |depts| ==>
      DepartmentInserts(style, collection, depts)[i] == Insert(collection, Serialized(style, DepartmentEntity(depts[i])))
    decreases |depts|
  {
    if depts != [] {
      var init := depts[..|depts| - 1];
      DepartmentInsertsAt(style, collection, init);
      forall i | 0 <= i < |init| ensures depts[i] == init[i] { }
    }
  }

  /** All courses are inserted before any department, one insert per entity, each list in
      order, into the two given collections and nowhere else. */
  lemma EntityInsertsOrder(style: RecordFormat, c: string, d: string, n: Normalized)
    ensures var ins := EntityInserts(style, c, d, n);
      && |ins| == |n.courses| + |n.departments|
      && (forall i :: 0 <= i < |n.courses| ==>
            ins[i] == Insert(c, Serialized(style, CourseEntity(n.courses[i]))))
      && (forall i :: 0 <= i < |n.departments| ==>
            ins[|n.courses| + i] == Insert(d, Serialized(style, DepartmentEntity(n.departments[i]))))
      && (forall i :: 0 <= i < |ins| ==> ins[i].collection == c || ins[i].collection == d)
  {
    var ins := EntityInserts(style, c, d, n);
    var cs := CourseInserts(style, c, n.courses);
    CourseInsertsAt(style, c, n.courses);
    DepartmentInsertsAt(style, d, n.departments);
    forall i | 0 <= i < |n.departments|
      ensures ins[|n.courses| + i] == Insert(d, Serialized(style, DepartmentEntity(n.departments[i])))
    {
      assert ins[|cs| + i] == DepartmentInserts(style, d, n.departments)[i];
    }
  }

  /** The records of courses, one per course, in order. */
  function CoursePayloads(style: RecordFormat, courses: seq<Course>): (ps: seq<Payload>)
    ensures |ps| == |courses|
    ensures forall i :: 0 <= i < |courses| ==> ps[i] == Serialized(style, CourseEntity(courses[i]))
    decreases |courses|
  {
    if courses == [] then []
    else CoursePayloads(style, courses[..|courses| - 1]) + [Serialized(style, CourseEntity(courses[|courses| - 1]))]
  }

  /** The records of departments, one per department, in order. */
  function DepartmentPayloads(style: RecordFormat, depts: seq<Department>): (ps: seq<Payload>)
    ensures |ps| == |depts|
    ensures forall i :: 0 <= i < |depts| ==> ps[i] == Serialized(style, DepartmentEntity(depts[i]))
    decreases |depts|
  {
    if depts == [] then []
    else DepartmentPayloads(style, depts[..|depts| - 1]) + [Serialized(style, DepartmentEntity(depts[|depts| - 1]))]
  }

  /** The course inserts fill their own collection with the courses' records, in order. */
  lemma {:induction false} CourseCollectionOwn(style: RecordFormat, c: string, courses: seq<Course>)
    ensures InCollection(CourseInserts(style, c, courses), c) == CoursePayloads(style, courses)
    decreases |courses|
  {
    if courses != [] {
      var init := courses[..|courses| - 1];
      var one := [Insert(c, Serialized(style, CourseEntity(courses[|courses| - 1])))];
      CourseCollectionOwn(style, c, init);
      assert CourseInserts(style, c, courses) == CourseInserts(style, c, init) + one;
      InCollectionAppend(CourseInserts(style, c, init), one, c);
      InCollectionSingle(one[0], c);
    }
  }

  /** The course inserts put nothing into any other collection. */
  lemma {:induction false} CourseCollectionOther(style: RecordFormat, c: string, other: string, courses: seq<Course>)
    requires other != c
    ensures InCollection(CourseInserts(style, c, courses), other) == []
    decreases |courses|
  {
    if courses != [] {
      var init := courses[..|courses| - 1];
      var one := [Insert(c, Serialized(style, CourseEntity(courses[|courses| - 1])))];
      CourseCollectionOther(style, c, other, init);
      assert CourseInserts(style, c, courses) == CourseInserts(style, c, init) + one;
      InCollectionAppend(CourseInserts(style, c, init), one, other);
      InCollectionSingle(one[0], other);
    }
  }

  /** The course inserts put one record per course, in order, into their collection, and
      nothing into any other. */
  lemma CourseCollectionContents(style: RecordFormat, c: string, other: string, courses: seq<Course>)
    requires other != c
    ensures var ps := InCollection(CourseInserts(style, c, courses), c);
      && |ps| == |courses|
      && forall i :: 0 <= i < |courses| ==> ps[i] == Serialized(style, CourseEntity(courses[i]))
    ensures InCollection(CourseInserts(style, c, courses), other) == []
  {
    CourseCollectionOwn(style, c, courses);
    CourseCollectionOther(style, c, other, courses);
  }

  /** The department inserts fill their own collection with the departments' records, in order. */
  lemma {:induction false} DepartmentCollectionOwn(style: RecordFormat, d: string, depts: seq<Department>)
    ensures InCollection(DepartmentInserts(style, d, depts), d) == DepartmentPayloads(style, depts)
    decreases |depts|
  {
    if depts != [] {
      var init := depts[..|depts| - 1];
      var one := [Insert(d, Serialized(style, DepartmentEntity(depts[|depts| - 1])))];
      DepartmentCollectionOwn(style, d, init);
      assert DepartmentInserts(style, d, depts) == DepartmentInserts(style, d, init) + one;
      InCollectionAppend(DepartmentInserts(style, d, init), one, d);
      InCollectionSingle(one[0], d);
    }
  }

  /** The department inserts put nothing into any other collection. */
  lemma {:induction false} DepartmentCollectionOther(style: RecordFormat, d: string, other: string, depts: seq<Department>)
    requires other != d
    ensures InCollection(DepartmentInserts(style, d, depts), other) == []
    decreases |depts|
  {
    if depts != [] {
      var init := depts[..|depts| - 1];
      var one := [Insert(d, Serialized(style, DepartmentEntity(depts[|depts| - 1])))];
      DepartmentCollectionOther(style, d, other, init);
      assert DepartmentInserts(style, d, depts) == DepartmentInserts(style, d, init) + one;
      InCollectionAppend(DepartmentInserts(style, d, init), one, other);
      InCollectionSingle(one[0], other);
    }
  }

  /** The department inserts put one record per department, in order, into their
      collection, and nothing into any other. */
  lemma DepartmentCollectionContents(style: RecordFormat, d: string, other: string, depts: seq<Department>)
    requires other != d
    ensures var ps := InCollection(DepartmentInserts(style, d, depts), d);
      && |ps| == |depts|
      && forall i :: 0 <= i < |depts| ==> ps[i] == Serialized(style, DepartmentEntity(depts[i]))
    ensures InCollection(DepartmentInserts(style, d, depts), other) == []
  {
    DepartmentCollectionOwn(style, d, depts);
    DepartmentCollectionOther(style, d, other, depts);
  }


  /** Reading back the two collections of a loaded quarter gives exactly its courses and its
      departments, each in list order, provided the two collections differ. */
  lemma EntityCollections(style: RecordFormat, c: string, d: string, n: Normalized)
    requires c != d
    ensures var ps := InCollection(EntityInserts(style, c, d, n), c);
      |ps| == |n.courses| && forall i :: 0 <= i < |n.courses| ==> ps[i] == Serialized(style, CourseEntity(n.courses[i]))
    ensures var ps := InCollection(EntityInserts(style, c, d, n), d);
      |ps| == |n.departments| && forall i :: 0 <= i < |n.departments| ==> ps[i] == Serialized(style, DepartmentEntity(n.departments[i]))
  {
    var cs, ds := CourseInserts(style, c, n.courses), DepartmentInserts(style, d, n.departments);
    CourseCollectionContents(style, c, d, n.courses);
    DepartmentCollectionContents(style, d, c, n.departments);
    InCollectionAppend(cs, ds, c);
    InCollectionAppend(cs, ds, d);
    assert InCollection(cs, c) + [] == InCollection(cs, c);
    assert [] + InCollection(ds, d) == InCollection(ds, d);
  }
}
