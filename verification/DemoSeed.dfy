/**
 The demonstration seeder: one transaction that creates what is missing of the
 batch, refuses anything that differs from it, and can be run again.  Every row
 it reads or writes belongs to one tenant; these are the tables of that tenant.
 */
module DemoSeed {
  import opened Prelude
  import opened Upserts
  import opened StableSort
  import opened DemoBatch
  import Domain = ExamStore

  type Status = Domain.ExamStatus

  datatype Person = Person(id: string, kind: Domain.PersonType, name: string, eduplusUserId: Option<string>, active: bool)

  datatype Classroom = Classroom(id: string, name: string, active: bool)

  datatype Course = Course(id: string, code: Option<string>, name: string, active: bool)

  datatype Membership = Membership(studentId: string, classroomId: string, active: bool)

  datatype DemoExam = DemoExam(
    id: string, isDemo: bool, creatorId: string, classroomId: string, title: string, kind: string, date: string,
    status: Status, publishedAt: Option<int>)

  /** maximumScore in hundredths. */
  datatype ExamSubject = ExamSubject(id: string, maximumScore: int, displayOrder: int)

  datatype ScoreKey = ScoreKey(examId: string, subjectId: string, studentId: string)

  /** value in hundredths. */
  datatype Score = Score(graderId: string, value: Option<int>, absent: bool)

  /**
   Each table by a unique key of the schema: people, classrooms, courses and
   memberships by EduPlus id, exams by demo key, exam subjects by (exam, course).
   Of exams without a demo key only the ids matter.
   */
  datatype Tables = Tables(
    people: map<string, Person>, classrooms: map<string, Classroom>, courses: map<string, Course>,
    memberships: map<string, Membership>, exams: map<string, DemoExam>, otherExams: set<string>,
    subjects: map<(string, string), ExamSubject>, scores: map<ScoreKey, Score>)

  datatype Error = NoTenant | BadStudents(problem: Problem) | ExamConflict | SubjectConflict | ScoresDiffer | CountMismatch | UniqueViolation

  datatype Report = Report(studentCount: nat, examCount: nat, subjectCount: nat, scoreCount: nat, applied: bool)

  const BATCH_KEY := "demo-exams-20260924-v1"

  const CREATOR_KEY := BATCH_KEY + ":creator"

  const CREATOR_NAME := "【演示】成绩生成器"

  const CLASS_KEY := BATCH_KEY + ":class"

  const CLASS_NAME := "【演示】全体学生组"

  const SUBJECT_NAMES := ["【演示】语文", "【演示】数学", "【演示】英语"]

  const COURSE_CODES := ["DEMO_CHINESE", "DEMO_MATH", "DEMO_ENGLISH"]

  const EXAM_TITLES := ["【演示】周测", "【演示】月考", "【演示】阶段考试"]

  const EXAM_DATES := ["2026-08-20T00:00:00.000Z", "2026-09-05T00:00:00.000Z", "2026-09-20T00:00:00.000Z"]

  const CHUNK := 400

  function CourseKey(j: Index): string { BATCH_KEY + ":course:" + SUBJECT_KEYS[j] }

  function ExamKey(i: Index): string { BATCH_KEY + ":" + EXAM_KEYS[i] }

  function MembershipKey(s: DemoStudent): string { BATCH_KEY + ":membership:" + s.eduplusId }

  // ---- looking rows up after they have been made sure of ----

  function CreatorId(t: Tables): string { if CREATOR_KEY in t.people then t.people[CREATOR_KEY].id else "" }

  function ClassId(t: Tables): string { if CLASS_KEY in t.classrooms then t.classrooms[CLASS_KEY].id else "" }

  function CourseId(t: Tables, j: Index): string { if CourseKey(j) in t.courses then t.courses[CourseKey(j)].id else "" }

  function ExamId(t: Tables, i: Index): string { if ExamKey(i) in t.exams then t.exams[ExamKey(i)].id else "" }

  function SubjectId(t: Tables, i: Index, j: Index): string {
    var k := (ExamId(t, i), CourseId(t, j));
    if k in t.subjects then t.subjects[k].id else ""
  }

  // ---- the steps; uuid gives the id of the row made for a key ----

  function MakeCreator(t: Tables, uuid: string -> string): Result<Tables, Error> {
    if CREATOR_KEY in t.people then
      Ok(t.(people := t.people[CREATOR_KEY := t.people[CREATOR_KEY].(kind := Domain.Staff, name := CREATOR_NAME, active := true)]))
    else if exists p :: p in t.people && t.people[p].id == uuid(CREATOR_KEY) then Err(UniqueViolation)
    else Ok(t.(people := t.people[CREATOR_KEY := Person(uuid(CREATOR_KEY), Domain.Staff, CREATOR_NAME, None, true)]))
  }

  function MakeClass(t: Tables, uuid: string -> string): Result<Tables, Error> {
    if CLASS_KEY in t.classrooms then
      Ok(t.(classrooms := t.classrooms[CLASS_KEY := t.classrooms[CLASS_KEY].(name := CLASS_NAME, active := true)]))
    else if exists c :: c in t.classrooms && t.classrooms[c].id == uuid(CLASS_KEY) then Err(UniqueViolation)
    else Ok(t.(classrooms := t.classrooms[CLASS_KEY := Classroom(uuid(CLASS_KEY), CLASS_NAME, true)]))
  }

  function MakeCourse(t: Tables, j: Index, uuid: string -> string): Result<Tables, Error> {
    var key := CourseKey(j);
    if key in t.courses then
      Ok(t.(courses := t.courses[key := t.courses[key].(name := SUBJECT_NAMES[j], active := true)]))
    else if exists c :: c in t.courses && (t.courses[c].id == uuid(key) || t.courses[c].code == Some(COURSE_CODES[j])) then Err(UniqueViolation)
    else Ok(t.(courses := t.courses[key := Course(uuid(key), Some(COURSE_CODES[j]), SUBJECT_NAMES[j], true)]))
  }

  function MakeCourses(t: Tables, n: nat, uuid: string -> string): Result<Tables, Error>
    requires n <= 3
  {
    if n == 0 then Ok(t)
    else
      match MakeCourses(t, n - 1, uuid)
      case Err(e) => Err(e)
      case Ok(before) => MakeCourse(before, n - 1, uuid)
  }

  /** Both unique keys of the membership table. */
  predicate MembershipTaken(memberships: map<string, Membership>, key: string, m: Membership) {
    key in memberships
    || exists k :: k in memberships && memberships[k].studentId == m.studentId && memberships[k].classroomId == m.classroomId
  }

  function MembershipRows(t: Tables, students: seq<DemoStudent>): (r: seq<(string, Membership)>)
    ensures |r| == |students|
  {
    seq(|students|, i requires 0 <= i < |students| => (MembershipKey(students[i]), Membership(students[i].id, ClassId(t), true)))
  }

  /** createMany with skipDuplicates. */
  function AddMemberships(memberships: map<string, Membership>, rows: seq<(string, Membership)>): map<string, Membership> {
    if rows == [] then memberships
    else
      var n := |rows| - 1;
      var before := AddMemberships(memberships, rows[..n]);
      if MembershipTaken(before, rows[n].0, rows[n].1) then before else before[rows[n].0 := rows[n].1]
  }

  predicate ExamIdTaken(t: Tables, id: string) {
    id in t.otherExams || exists k :: k in t.exams && t.exams[k].id == id
  }

  function MakeExam(t: Tables, i: Index, uuid: string -> string): Result<Tables, Error> {
    var key := ExamKey(i);
    if key in t.exams then
      var exam := t.exams[key];
      if !exam.isDemo || exam.title != EXAM_TITLES[i] || exam.status == Domain.Withdrawn then Err(ExamConflict) else Ok(t)
    else if ExamIdTaken(t, uuid(key)) then Err(UniqueViolation)
    else
      Ok(t.(exams := t.exams[key := DemoExam(uuid(key), true, CreatorId(t), ClassId(t), EXAM_TITLES[i], EXAM_KEYS[i], EXAM_DATES[i], Domain.Draft, None)]))
  }

  function MakeSubject(t: Tables, i: Index, j: Index, uuid: string -> string): Result<Tables, Error> {
    var key := (ExamId(t, i), CourseId(t, j));
    var made := uuid(EXAM_KEYS[i] + ":" + SUBJECT_KEYS[j]);
    if key in t.subjects then
      if t.subjects[key].maximumScore != 100_00 then Err(SubjectConflict) else Ok(t)
    else if exists k :: k in t.subjects && t.subjects[k].id == made then Err(UniqueViolation)
    else Ok(t.(subjects := t.subjects[key := ExamSubject(made, 100_00, j)]))
  }

  function MakeSubjects(t: Tables, i: Index, n: nat, uuid: string -> string): Result<Tables, Error>
    requires n <= 3
  {
    if n == 0 then Ok(t)
    else
      match MakeSubjects(t, i, n - 1, uuid)
      case Err(e) => Err(e)
      case Ok(before) => MakeSubject(before, i, n - 1, uuid)
  }

  function MakeExams(t: Tables, n: nat, uuid: string -> string): Result<Tables, Error>
    requires n <= 3
  {
    if n == 0 then Ok(t)
    else
      match MakeExams(t, n - 1, uuid)
      case Err(e) => Err(e)
      case Ok(before) =>
        match MakeExam(before, n - 1, uuid)
        case Err(e) => Err(e)
        case Ok(made) => MakeSubjects(made, n - 1, 3, uuid)
  }

  function MakePeople(t: Tables, students: seq<DemoStudent>, uuid: string -> string): Result<Tables, Error> {
    match MakeCreator(t, uuid)
    case Err(e) => Err(e)
    case Ok(t1) =>
      match MakeClass(t1, uuid)
      case Err(e) => Err(e)
      case Ok(t2) =>
        match MakeCourses(t2, 3, uuid)
        case Err(e) => Err(e)
        case Ok(t3) => Ok(t3.(memberships := AddMemberships(t3.memberships, MembershipRows(t3, students))))
  }

  // ---- the scores ----

  function KeyOf(t: Tables, c: Cell): ScoreKey {
    ScoreKey(ExamId(t, c.exam), SubjectId(t, c.exam, c.subject), c.studentId)
  }

  function Expected(t: Tables, cells: seq<Cell>): (r: seq<(ScoreKey, Score)>)
    ensures |r| == |cells|
  {
    seq(|cells|, i requires 0 <= i < |cells| => (KeyOf(t, cells[i]), Score(CreatorId(t), Some(100 * cells[i].value), false)))
  }

  function DemoIds(t: Tables): set<string> {
    {ExamId(t, 0), ExamId(t, 1), ExamId(t, 2)}
  }

  /** The score rows of the three exams. */
  function DemoScores(t: Tables): map<ScoreKey, Score> {
    map k | k in t.scores && k.examId in DemoIds(t) :: t.scores[k]
  }

  /** undefined and null are the same to the comparison: a row outside the batch passes when it has no value. */
  function ExpectedValue(expected: seq<(ScoreKey, Score)>, k: ScoreKey): Option<int> {
    match LastFor(expected, k)
    case None => None
    case Some(row) => row.value
  }

  predicate ValueFits(t: Tables, expected: seq<(ScoreKey, Score)>, k: ScoreKey)
    requires k in t.scores
  {
    !t.scores[k].absent && t.scores[k].value == ExpectedValue(expected, k)
  }

  predicate ValuesFit(t: Tables, expected: seq<(ScoreKey, Score)>) {
    forall k | k in DemoScores(t) :: ValueFits(t, expected, k)
  }

  function AddScores(scores: map<ScoreKey, Score>, rows: seq<(ScoreKey, Score)>): map<ScoreKey, Score> {
    if rows == [] then scores
    else
      var n := |rows| - 1;
      var before := AddScores(scores, rows[..n]);
      if rows[n].0 in before then before else before[rows[n].0 := rows[n].1]
  }

  function PublishOne(t: Tables, i: Index, now: int): Tables {
    var key := ExamKey(i);
    if key in t.exams && t.exams[key].status == Domain.Draft
    then t.(exams := t.exams[key := t.exams[key].(status := Domain.Published, publishedAt := Some(now))])
    else t
  }

  function PublishAll(t: Tables, n: nat, now: int): Tables
    requires n <= 3
  {
    if n == 0 then t else PublishOne(PublishAll(t, n - 1, now), n - 1, now)
  }

  function WriteScores(t: Tables, cells: seq<Cell>, now: int): Result<Tables, Error> {
    var expected := Expected(t, cells);
    if !ValuesFit(t, expected) then Err(ScoresDiffer)
    else
      var written := t.(scores := AddScores(t.scores, expected));
      if |DemoScores(written)| != |expected| then Err(CountMismatch) else Ok(PublishAll(written, 3, now))
  }

  function Seed(t: Tables, students: seq<DemoStudent>, cells: seq<Cell>, uuid: string -> string, now: int): Result<Tables, Error> {
    match MakePeople(t, students, uuid)
    case Err(e) => Err(e)
    case Ok(t1) =>
      match MakeExams(t1, 3, uuid)
      case Err(e) => Err(e)
      case Ok(t2) => WriteScores(t2, cells, now)
  }

  /** The whole command; students is what the query returned, in its order. */
  function RunSeed(t: Tables, tenantActive: bool, apply: bool, students: seq<DemoStudent>, le: (DemoStudent, DemoStudent) -> bool,
                   digest: string -> nat, uuid: string -> string, now: int): (Tables, Result<Report, Error>)
  {
    if !tenantActive then (t, Err(NoTenant))
    else
      match BuildDemoScores(le, digest, students)
      case Err(p) => (t, Err(BadStudents(p)))
      case Ok(cells) =>
        if !apply then (t, Ok(Report(|students|, 3, 9, |cells|, false)))
        else
          match Seed(t, students, cells, uuid, now)
          case Err(e) => (t, Err(e))
          case Ok(after) => (after, Ok(Report(|students|, 3, 9, |cells|, true)))
  }

  // ---- the command ----

  class DemoSeeder {
    var tables: Tables

    /** createMany with skipDuplicates on the score table. */
    method CreateScores(rows: seq<(ScoreKey, Score)>)
      modifies this
      ensures tables == old(tables).(scores := AddScores(old(tables).scores, rows))
    {
      for i := 0 to |rows|
        invariant tables == old(tables).(scores := AddScores(old(tables).scores, rows[..i]))
      {
        assert rows[..i + 1][..i] == rows[..i];
        if rows[i].0 !in tables.scores { tables := tables.(scores := tables.scores[rows[i].0 := rows[i].1]); }
      }
      assert rows[..|rows|] == rows;
    }

    /** The chunks of 400 add up to one insertion of all rows. */
    method CreateScoresInChunks(rows: seq<(ScoreKey, Score)>)
      modifies this
      ensures tables == old(tables).(scores := AddScores(old(tables).scores, rows))
    {
      hide AddScores;
      var start := 0;
      NoScores(tables.scores);
      while start < |rows|
        invariant 0 <= start <= |rows|
        invariant tables == old(tables).(scores := AddScores(old(tables).scores, rows[..start]))
      {
        var end := if start + CHUNK < |rows| then start + CHUNK else |rows|;
        AddScoresAppend(old(tables).scores, rows[..start], rows[start..end]);
        assert rows[..start] + rows[start..end] == rows[..end];
        CreateScores(rows[start..end]);
        start := end;
      }
      assert rows[..|rows|] == rows;
    }

    method CreateMemberships(rows: seq<(string, Membership)>)
      modifies this
      ensures tables == old(tables).(memberships := AddMemberships(old(tables).memberships, rows))
    {
      hide MembershipTaken;
      for i := 0 to |rows|
        invariant tables == old(tables).(memberships := AddMemberships(old(tables).memberships, rows[..i]))
      {
        assert rows[..i + 1][..i] == rows[..i];
        if !MembershipTaken(tables.memberships, rows[i].0, rows[i].1) {
          tables := tables.(memberships := tables.memberships[rows[i].0 := rows[i].1]);
        }
      }
      assert rows[..|rows|] == rows;
    }

    method CreateMembershipsInChunks(rows: seq<(string, Membership)>)
      modifies this
      ensures tables == old(tables).(memberships := AddMemberships(old(tables).memberships, rows))
    {
      hide AddMemberships;
      var start := 0;
      NoMemberships(tables.memberships);
      while start < |rows|
        invariant 0 <= start <= |rows|
        invariant tables == old(tables).(memberships := AddMemberships(old(tables).memberships, rows[..start]))
      {
        var end := if start + CHUNK < |rows| then start + CHUNK else |rows|;
        AddMembershipsAppend(old(tables).memberships, rows[..start], rows[start..end]);
        assert rows[..start] + rows[start..end] == rows[..end];
        CreateMemberships(rows[start..end]);
        start := end;
      }
      assert rows[..|rows|] == rows;
    }

    method UpsertCreator(uuid: string -> string) returns (r: Result<(), Error>)
      modifies this
      ensures
        match MakeCreator(old(tables), uuid)
        case Err(e) => r == Err(e)
        case Ok(after) => r == Ok(()) && tables == after
    {
      var row := Person(uuid(CREATOR_KEY), Domain.Staff, CREATOR_NAME, None, true);
      if CREATOR_KEY in tables.people {
        var stored := tables.people[CREATOR_KEY];
        row := Person(stored.id, Domain.Staff, CREATOR_NAME, stored.eduplusUserId, true);
      } else if exists p :: p in tables.people && tables.people[p].id == row.id {
        return Err(UniqueViolation);
      }
      tables := tables.(people := tables.people[CREATOR_KEY := row]);
      return Ok(());
    }

    method UpsertClass(uuid: string -> string) returns (r: Result<(), Error>)
      modifies this
      ensures
        match MakeClass(old(tables), uuid)
        case Err(e) => r == Err(e)
        case Ok(after) => r == Ok(()) && tables == after
    {
      var row := Classroom(uuid(CLASS_KEY), CLASS_NAME, true);
      if CLASS_KEY in tables.classrooms {
        row := Classroom(tables.classrooms[CLASS_KEY].id, CLASS_NAME, true);
      } else if exists c :: c in tables.classrooms && tables.classrooms[c].id == row.id {
        return Err(UniqueViolation);
      }
      tables := tables.(classrooms := tables.classrooms[CLASS_KEY := row]);
      return Ok(());
    }

    method UpsertCourse(j: Index, uuid: string -> string) returns (r: Result<(), Error>)
      modifies this
      ensures
        match MakeCourse(old(tables), j, uuid)
        case Err(e) => r == Err(e)
        case Ok(after) => r == Ok(()) && tables == after
    {
      var key := CourseKey(j);
      var row := Course(uuid(key), Some(COURSE_CODES[j]), SUBJECT_NAMES[j], true);
      if key in tables.courses {
        row := Course(tables.courses[key].id, tables.courses[key].code, SUBJECT_NAMES[j], true);
      } else if exists c :: c in tables.courses && (tables.courses[c].id == row.id || tables.courses[c].code == row.code) {
        return Err(UniqueViolation);
      }
      tables := tables.(courses := tables.courses[key := row]);
      return Ok(());
    }

    method MakePeopleRows(students: seq<DemoStudent>, uuid: string -> string) returns (r: Result<(), Error>)
      modifies this
      ensures
        match MakePeople(old(tables), students, uuid)
        case Err(e) => r == Err(e)
        case Ok(after) => r == Ok(()) && tables == after
    {
      hide MakeCreator, MakeClass, MakeCourse, MembershipRows, AddMemberships;
      var creator := UpsertCreator(uuid);
      if creator.Err? { return creator; }
      var classroom := UpsertClass(uuid);
      if classroom.Err? { return classroom; }
      ghost var before := tables;
      for j := 0 to 3
        invariant MakeCourses(before, j, uuid) == Ok(tables)
      {
        var course := UpsertCourse(j, uuid);
        if course.Err? {
          CoursesFail(before, j + 1, uuid);
          return course;
        }
      }
      CreateMembershipsInChunks(MembershipRows(tables, students));
      return Ok(());
    }

    /** An existing exam is kept if it is the batch's own and not withdrawn. */
    method EnsureExam(i: Index, uuid: string -> string) returns (r: Result<(), Error>)
      modifies this
      ensures
        match MakeExam(old(tables), i, uuid)
        case Err(e) => r == Err(e)
        case Ok(after) => r == Ok(()) && tables == after
    {
      var key := ExamKey(i);
      if key in tables.exams {
        var exam := tables.exams[key];
        if !exam.isDemo || exam.title != EXAM_TITLES[i] || exam.status == Domain.Withdrawn { return Err(ExamConflict); }
        return Ok(());
      }
      if ExamIdTaken(tables, uuid(key)) { return Err(UniqueViolation); }
      var exam := DemoExam(uuid(key), true, CreatorId(tables), ClassId(tables), EXAM_TITLES[i], EXAM_KEYS[i], EXAM_DATES[i], Domain.Draft, None);
      tables := tables.(exams := tables.exams[key := exam]);
      return Ok(());
    }

    method EnsureSubject(i: Index, j: Index, uuid: string -> string) returns (r: Result<(), Error>)
      modifies this
      ensures
        match MakeSubject(old(tables), i, j, uuid)
        case Err(e) => r == Err(e)
        case Ok(after) => r == Ok(()) && tables == after
    {
      hide ExamId, CourseId;
      var key := (ExamId(tables, i), CourseId(tables, j));
      if key in tables.subjects {
        if tables.subjects[key].maximumScore != 100_00 { return Err(SubjectConflict); }
        return Ok(());
      }
      var row := ExamSubject(uuid(EXAM_KEYS[i] + ":" + SUBJECT_KEYS[j]), 100_00, j);
      if exists k :: k in tables.subjects && tables.subjects[k].id == row.id { return Err(UniqueViolation); }
      tables := tables.(subjects := tables.subjects[key := row]);
      return Ok(());
    }

    method MakeExamRows(uuid: string -> string) returns (r: Result<(), Error>)
      modifies this
      ensures
        match MakeExams(old(tables), 3, uuid)
        case Err(e) => r == Err(e)
        case Ok(after) => r == Ok(()) && tables == after
    {
      hide MakeExam, MakeSubject;
      for i := 0 to 3
        invariant MakeExams(old(tables), i, uuid) == Ok(tables)
      {
        var exam := EnsureExam(i, uuid);
        if exam.Err? {
          ExamsFail(old(tables), i + 1, uuid);
          return exam;
        }
        ghost var made := tables;
        for j := 0 to 3
          invariant MakeSubjects(made, i, j, uuid) == Ok(tables)
        {
          var subject := EnsureSubject(i, j, uuid);
          if subject.Err? {
            SubjectsFail(made, i, j + 1, uuid);
            ExamsFail(old(tables), i + 1, uuid);
            return subject;
          }
        }
      }
      return Ok(());
    }

    /** The loop over the existing rows, in whatever order they come. */
    method CheckExisting(expected: seq<(ScoreKey, Score)>) returns (ok: bool)
      ensures ok == ValuesFit(tables, expected)
    {
      hide LastFor;
      var existing := DemoScores(tables).Keys;
      var rest := existing;
      while rest != {}
        invariant rest <= existing
        invariant forall k | k in existing - rest :: ValueFits(tables, expected, k)
        decreases |rest|
      {
        var k :| k in rest;
        if !ValueFits(tables, expected, k) { return false; }
        rest := rest - {k};
      }
      return true;
    }

    method WriteScoreRows(cells: seq<Cell>, now: int) returns (r: Result<(), Error>)
      modifies this
      ensures
        match WriteScores(old(tables), cells, now)
        case Err(e) => r == Err(e)
        case Ok(after) => r == Ok(()) && tables == after
    {
      hide Expected, ValuesFit, AddScores, DemoScores, PublishOne;
      var expected := Expected(tables, cells);
      var fits := CheckExisting(expected);
      if !fits { return Err(ScoresDiffer); }
      CreateScoresInChunks(expected);
      var written := tables;
      if |DemoScores(tables)| != |expected| { return Err(CountMismatch); }
      for i := 0 to 3
        invariant tables == PublishAll(written, i, now)
      {
        tables := PublishOne(tables, i, now);
      }
      return Ok(());
    }

    method RunDemoSeed(tenantActive: bool, apply: bool, students: seq<DemoStudent>, le: (DemoStudent, DemoStudent) -> bool,
                       digest: string -> nat, uuid: string -> string, now: int) returns (r: Result<Report, Error>)
      modifies this
      ensures (tables, r) == RunSeed(old(tables), tenantActive, apply, students, le, digest, uuid, now)
    {
      hide CheckStudents, CellsOf, Sort, MakePeople, MakeExams, WriteScores;
      if !tenantActive { return Err(NoTenant); }
      var checked := CheckDemoStudents(students);
      if checked.Err? { return Err(BadStudents(checked.error)); }
      var cells := CellsOf(digest, Sort(students, le));
      var report := Report(|students|, 3, 9, |cells|, false);
      if !apply { return Ok(report); }
      var before := tables;
      var made := MakePeopleRows(students, uuid);
      if made.Ok? { made := MakeExamRows(uuid); }
      if made.Ok? { made := WriteScoreRows(cells, now); }
      if made.Err? {
        tables := before;
        return Err(made.error);
      }
      return Ok(report.(applied := true));
    }
  }

  lemma NoScores(scores: map<ScoreKey, Score>)
    ensures AddScores(scores, []) == scores
  {
  }

  lemma {:induction false} AddScoresAppend(scores: map<ScoreKey, Score>, a: seq<(ScoreKey, Score)>, b: seq<(ScoreKey, Score)>)
    ensures AddScores(scores, a + b) == AddScores(AddScores(scores, a), b)
    decreases |b|
  {
    if b == [] {
      assert a + b == a;
    } else {
      assert (a + b)[..|a + b| - 1] == a + b[..|b| - 1];
      AddScoresAppend(scores, a, b[..|b| - 1]);
    }
  }

  lemma NoMemberships(memberships: map<string, Membership>)
    ensures AddMemberships(memberships, []) == memberships
  {
  }

  lemma {:induction false} AddMembershipsAppend(memberships: map<string, Membership>, a: seq<(string, Membership)>, b: seq<(string, Membership)>)
    ensures AddMemberships(memberships, a + b) == AddMemberships(AddMemberships(memberships, a), b)
    decreases |b|
  {
    hide MembershipTaken;
    if b == [] {
      assert a + b == a;
    } else {
      assert (a + b)[..|a + b| - 1] == a + b[..|b| - 1];
      AddMembershipsAppend(memberships, a, b[..|b| - 1]);
    }
  }

  lemma {:induction false} CoursesFail(t: Tables, n: nat, uuid: string -> string)
    requires n <= 3 && MakeCourses(t, n, uuid).Err?
    ensures MakeCourses(t, 3, uuid) == Err(MakeCourses(t, n, uuid).error)
    decreases 3 - n
  {
    hide MakeCourse;
    if n < 3 { CoursesFail(t, n + 1, uuid); }
  }

  lemma {:induction false} SubjectsFail(t: Tables, i: Index, n: nat, uuid: string -> string)
    requires n <= 3 && MakeSubjects(t, i, n, uuid).Err?
    ensures MakeSubjects(t, i, 3, uuid) == Err(MakeSubjects(t, i, n, uuid).error)
    decreases 3 - n
  {
    hide MakeSubject;
    if n < 3 { SubjectsFail(t, i, n + 1, uuid); }
  }

  lemma {:induction false} ExamsFail(t: Tables, n: nat, uuid: string -> string)
    requires n <= 3 && MakeExams(t, n, uuid).Err?
    ensures MakeExams(t, 3, uuid) == Err(MakeExams(t, n, uuid).error)
    decreases 3 - n
  {
    hide MakeExam, MakeSubjects;
    if n < 3 { ExamsFail(t, n + 1, uuid); }
  }
}
