/** Creating, changing, publishing and withdrawing exams. */
module Exams {
  import opened Prelude
  import opened ExamStore

  datatype NewSubject = NewSubject(courseId: string, maximumScore: MaximumScore)

  datatype CreateExam = CreateExam(classroomId: string, title: string, kind: string, examDate: int, subjects: seq<NewSubject>)

  datatype UpdateExam = UpdateExam(title: Option<string>, kind: Option<string>, examDate: Option<int>)

  // ---- create ----

  predicate ClassroomUsable(dir: Directory, tenantId: string, classroomId: string) {
    classroomId in dir.classrooms && dir.classrooms[classroomId] == Classroom(tenantId, true)
  }

  predicate MayTeachAll(dir: Directory, actor: Actor, classroomId: string, subjects: seq<NewSubject>) {
    forall i | 0 <= i < |subjects| :: MayTeach(dir, actor, classroomId, subjects[i].courseId)
  }

  function NewExam(actor: Actor, command: CreateExam): Exam {
    Exam(actor.tenantId, actor.personId, command.classroomId, command.title, command.kind, command.examDate, Draft, None, None)
  }

  /** The primary key and the unique (tenant, exam, course) of the subject table. */
  predicate SubjectTaken(db: ExamDb, id: string, tenantId: string, examId: string, courseId: string) {
    id in db.subjects
    || exists s :: s in db.subjects && db.subjects[s].tenantId == tenantId && db.subjects[s].examId == examId && db.subjects[s].courseId == courseId
  }

  /** Inserting the subject rows in order; uuid gives the id of each row. */
  function WithSubjects(db: ExamDb, dir: Directory, tenantId: string, examId: string, subjects: seq<NewSubject>, uuid: nat -> string): Result<ExamDb, Error> {
    if subjects == [] then Ok(db)
    else
      var n := |subjects| - 1;
      match WithSubjects(db, dir, tenantId, examId, subjects[..n], uuid)
      case Err(e) => Err(e)
      case Ok(before) =>
        if SubjectTaken(before, uuid(n), tenantId, examId, subjects[n].courseId) then Err(UniqueViolation)
        else if (tenantId, subjects[n].courseId) !in dir.courses then Err(ForeignKey)
        else Ok(before.(subjects := before.subjects[uuid(n) := Subject(tenantId, examId, subjects[n].courseId, subjects[n].maximumScore, n)]))
  }

  function Create(db: ExamDb, dir: Directory, actor: Actor, command: CreateExam, examId: string, uuid: nat -> string): (ExamDb, Result<string, Error>) {
    if !IsStaffActor(actor) then (db, Err(NotStaff))
    else if !ClassroomUsable(dir, actor.tenantId, command.classroomId) then (db, Err(NoClassroom))
    else if !MayTeachAll(dir, actor, command.classroomId, command.subjects) then (db, Err(NotAssigned))
    else if examId in db.exams then (db, Err(UniqueViolation))
    else if !PersonExists(dir, actor.tenantId, actor.personId) then (db, Err(ForeignKey))
    else
      match WithSubjects(db.(exams := db.exams[examId := NewExam(actor, command)]), dir, actor.tenantId, examId, command.subjects, uuid)
      case Err(e) => (db, Err(e))
      case Ok(after) => (after, Ok(examId))
  }

  // ---- update, publish, withdraw ----

  /** A teacher must have created the exam; staff need not. */
  predicate MayChange(actor: Actor, exam: Exam) {
    actor.identityType == Teacher ==> exam.creatorId == actor.personId
  }

  function OwnedExam(db: ExamDb, actor: Actor, examId: string): Result<Exam, Error> {
    if !IsStaffActor(actor) then Err(NotStaff)
    else if !ExamVisible(db, actor.tenantId, examId) then Err(NoExam)
    else if !MayChange(actor, db.exams[examId]) then Err(NotOwner)
    else Ok(db.exams[examId])
  }

  function MutableExam(db: ExamDb, actor: Actor, examId: string): Result<Exam, Error> {
    match OwnedExam(db, actor, examId)
    case Err(e) => Err(e)
    case Ok(exam) => if exam.status != Draft then Err(NotDraft) else Ok(exam)
  }

  function WithExam(db: ExamDb, examId: string, exam: Exam): ExamDb {
    db.(exams := db.exams[examId := exam])
  }

  function Update(db: ExamDb, actor: Actor, examId: string, command: UpdateExam): (ExamDb, Result<(), Error>) {
    match MutableExam(db, actor, examId)
    case Err(e) => (db, Err(e))
    case Ok(exam) =>
      var updated := exam.(title := command.title.GetOr(exam.title), kind := command.kind.GetOr(exam.kind),
                           examDate := command.examDate.GetOr(exam.examDate));
      (WithExam(db, examId, updated), Ok(()))
  }

  function Publish(db: ExamDb, actor: Actor, examId: string, now: int): (ExamDb, Result<(), Error>) {
    match MutableExam(db, actor, examId)
    case Err(e) => (db, Err(e))
    case Ok(exam) =>
      if |SubjectsOf(db, actor.tenantId, examId)| == 0 then (db, Err(NoSubjects))
      else (WithExam(db, examId, exam.(status := Published, publishedAt := Some(now), withdrawnAt := None)), Ok(()))
  }

  function Withdraw(db: ExamDb, actor: Actor, examId: string, now: int): (ExamDb, Result<(), Error>) {
    match OwnedExam(db, actor, examId)
    case Err(e) => (db, Err(e))
    case Ok(exam) =>
      if exam.status != Published then (db, Err(NotPublished))
      else (WithExam(db, examId, exam.(status := Withdrawn, withdrawnAt := Some(now))), Ok(()))
  }

  // ---- the service ----

  class ExamsService {
    const db: Database

    constructor (db: Database)
      ensures this.db == db
    {
      this.db := db;
    }

    method CreateOne(dir: Directory, actor: Actor, command: CreateExam, examId: string, uuid: nat -> string) returns (r: Result<string, Error>)
      modifies db`exams, db`subjects
      ensures (db.Contents(), r) == Create(old(db.Contents()), dir, actor, command, examId, uuid)
    {
      hide MayTeach, PersonExists, SubjectTaken, WithSubjects;
      if !IsStaffActor(actor) { return Err(NotStaff); }
      if !ClassroomUsable(dir, actor.tenantId, command.classroomId) { return Err(NoClassroom); }
      for i := 0 to |command.subjects|
        invariant forall j | 0 <= j < i :: MayTeach(dir, actor, command.classroomId, command.subjects[j].courseId)
      {
        if !MayTeach(dir, actor, command.classroomId, command.subjects[i].courseId) { return Err(NotAssigned); }
      }
      if examId in db.exams { return Err(UniqueViolation); }
      if !PersonExists(dir, actor.tenantId, actor.personId) { return Err(ForeignKey); }
      var exams, subjects := db.exams, db.subjects;
      db.exams := db.exams[examId := NewExam(actor, command)];
      var inserted := InsertSubjects(dir, actor.tenantId, examId, command.subjects, uuid);
      if inserted.Err? {
        db.exams, db.subjects := exams, subjects;
        return Err(inserted.error);
      }
      return Ok(examId);
    }

    /** The insertion loop; an error leaves the rows written so far for the caller to roll back. */
    method InsertSubjects(dir: Directory, tenantId: string, examId: string, subjects: seq<NewSubject>, uuid: nat -> string) returns (r: Result<(), Error>)
      modifies db`subjects
      ensures
        match WithSubjects(old(db.Contents()), dir, tenantId, examId, subjects, uuid)
        case Err(e) => r == Err(e)
        case Ok(after) => r == Ok(()) && db.Contents() == after
    {
      hide SubjectTaken;
      for i := 0 to |subjects|
        invariant db.exams == old(db.exams) && db.scores == old(db.scores) && db.imports == old(db.imports)
        invariant WithSubjects(old(db.Contents()), dir, tenantId, examId, subjects[..i], uuid) == Ok(db.Contents())
      {
        assert subjects[..i + 1][..i] == subjects[..i];
        var error: Option<Error> := None;
        if SubjectTaken(db.Contents(), uuid(i), tenantId, examId, subjects[i].courseId) {
          error := Some(UniqueViolation);
        } else if (tenantId, subjects[i].courseId) !in dir.courses {
          error := Some(ForeignKey);
        }
        if error.Some? {
          WithSubjectsFails(old(db.Contents()), dir, tenantId, examId, subjects, uuid, i + 1, error.value);
          return Err(error.value);
        }
        db.subjects := db.subjects[uuid(i) := Subject(tenantId, examId, subjects[i].courseId, subjects[i].maximumScore, i)];
      }
      assert subjects[..|subjects|] == subjects;
      return Ok(());
    }

    method UpdateOne(actor: Actor, examId: string, command: UpdateExam) returns (r: Result<(), Error>)
      modifies db`exams
      ensures (db.Contents(), r) == Update(old(db.Contents()), actor, examId, command)
    {
      var found := MutableExam(db.Contents(), actor, examId);
      if found.Err? { return Err(found.error); }
      var exam := found.value;
      if command.title.Some? { exam := exam.(title := command.title.value); }
      if command.kind.Some? { exam := exam.(kind := command.kind.value); }
      if command.examDate.Some? { exam := exam.(examDate := command.examDate.value); }
      db.exams := db.exams[examId := exam];
      return Ok(());
    }

    method PublishOne(actor: Actor, examId: string, now: int) returns (r: Result<(), Error>)
      modifies db`exams
      ensures (db.Contents(), r) == Publish(old(db.Contents()), actor, examId, now)
    {
      hide SubjectsOf;
      var found := MutableExam(db.Contents(), actor, examId);
      if found.Err? { return Err(found.error); }
      var subjectCount := |SubjectsOf(db.Contents(), actor.tenantId, examId)|;
      if subjectCount == 0 { return Err(NoSubjects); }
      db.exams := db.exams[examId := found.value.(status := Published, publishedAt := Some(now), withdrawnAt := None)];
      return Ok(());
    }

    method WithdrawOne(actor: Actor, examId: string, now: int) returns (r: Result<(), Error>)
      modifies db`exams
      ensures (db.Contents(), r) == Withdraw(old(db.Contents()), actor, examId, now)
    {
      var found := OwnedExam(db.Contents(), actor, examId);
      if found.Err? { return Err(found.error); }
      if found.value.status != Published { return Err(NotPublished); }
      db.exams := db.exams[examId := found.value.(status := Withdrawn, withdrawnAt := Some(now))];
      return Ok(());
    }
  }

  lemma {:induction false} WithSubjectsFails(db: ExamDb, dir: Directory, tenantId: string, examId: string, subjects: seq<NewSubject>, uuid: nat -> string, i: nat, e: Error)
    requires i <= |subjects| && WithSubjects(db, dir, tenantId, examId, subjects[..i], uuid) == Err(e)
    ensures WithSubjects(db, dir, tenantId, examId, subjects, uuid) == Err(e)
    decreases |subjects|
  {
    hide SubjectTaken;
    if i == |subjects| {
      assert subjects[..i] == subjects;
    } else {
      assert subjects[..|subjects| - 1][..i] == subjects[..i];
      WithSubjectsFails(db, dir, tenantId, examId, subjects[..|subjects| - 1], uuid, i, e);
    }
  }

  // ---- what create does ----

  predicate DistinctCourses(subjects: seq<NewSubject>) {
    forall i, j | 0 <= i < j < |subjects| :: subjects[i].courseId != subjects[j].courseId
  }

  /** Row ids that are new to the table and all different. */
  predicate NewIds(db: ExamDb, n: nat, uuid: nat -> string) {
    (forall i: nat | i < n :: uuid(i) !in db.subjects) && forall i: nat, j: nat | i < j < n :: uuid(i) != uuid(j)
  }

  predicate CoursesExist(dir: Directory, tenantId: string, subjects: seq<NewSubject>) {
    forall i | 0 <= i < |subjects| :: (tenantId, subjects[i].courseId) in dir.courses
  }

  /** The ids of the first n rows. */
  function IdsOf(uuid: nat -> string, n: nat): set<string> {
    set i: nat | i < n :: uuid(i)
  }

  function NewSubjectRow(tenantId: string, examId: string, subjects: seq<NewSubject>, i: nat): Subject
    requires i < |subjects|
  {
    Subject(tenantId, examId, subjects[i].courseId, subjects[i].maximumScore, i)
  }

  /** before with one row per requested subject, in the order requested, and nothing else. */
  predicate HasNewSubjects(before: ExamDb, after: ExamDb, tenantId: string, examId: string, subjects: seq<NewSubject>, uuid: nat -> string) {
    && after == before.(subjects := after.subjects)
    && after.subjects.Keys == before.subjects.Keys + IdsOf(uuid, |subjects|)
    && (forall i: nat | i < |subjects| :: uuid(i) in after.subjects && after.subjects[uuid(i)] == NewSubjectRow(tenantId, examId, subjects, i))
    && (forall s | s in before.subjects :: after.subjects[s] == before.subjects[s])
  }

  lemma NoNewSubjects(db: ExamDb, dir: Directory, tenantId: string, examId: string, uuid: nat -> string)
    ensures HasNewSubjects(db, db, tenantId, examId, [], uuid) && CoursesExist(dir, tenantId, []) && DistinctCourses([])
  {
    assert IdsOf(uuid, 0) == {};
  }

  lemma FewerNewIds(db: ExamDb, n: nat, uuid: nat -> string)
    requires NewIds(db, n + 1, uuid)
    ensures NewIds(db, n, uuid)
  {
  }

  lemma CoursesSnoc(dir: Directory, tenantId: string, subjects: seq<NewSubject>, n: nat)
    requires |subjects| == n + 1
    ensures CoursesExist(dir, tenantId, subjects) <==> CoursesExist(dir, tenantId, subjects[..n]) && (tenantId, subjects[n].courseId) in dir.courses
    ensures DistinctCourses(subjects)
       <==> DistinctCourses(subjects[..n]) && !exists i :: 0 <= i < n && subjects[i].courseId == subjects[n].courseId
  {
    assert forall i | 0 <= i < n :: subjects[..n][i] == subjects[i];
  }

  lemma {:induction false} WithSubjectsIff(db: ExamDb, dir: Directory, tenantId: string, examId: string, subjects: seq<NewSubject>, uuid: nat -> string)
    requires NewIds(db, |subjects|, uuid)
    requires forall s | s in db.subjects :: db.subjects[s].examId != examId
    ensures
      var w := WithSubjects(db, dir, tenantId, examId, subjects, uuid);
      && (w.Ok? <==> CoursesExist(dir, tenantId, subjects) && DistinctCourses(subjects))
      && (w.Ok? ==> HasNewSubjects(db, w.value, tenantId, examId, subjects, uuid))
  {
    hide HasNewSubjects, SubjectTaken, NewIds, CoursesExist, DistinctCourses, IdsOf;
    if subjects == [] {
      NoNewSubjects(db, dir, tenantId, examId, uuid);
    } else {
      var n := |subjects| - 1;
      FewerNewIds(db, n, uuid);
      WithSubjectsIff(db, dir, tenantId, examId, subjects[..n], uuid);
      CoursesSnoc(dir, tenantId, subjects, n);
      var w := WithSubjects(db, dir, tenantId, examId, subjects[..n], uuid);
      if w.Ok? {
        TakenIff(db, w.value, tenantId, examId, subjects, uuid);
        NewSubjectsSnoc(db, w.value, tenantId, examId, subjects, uuid);
      }
    }
  }

  lemma TakenIff(db: ExamDb, now: ExamDb, tenantId: string, examId: string, subjects: seq<NewSubject>, uuid: nat -> string)
    requires subjects != [] && NewIds(db, |subjects|, uuid)
    requires forall s | s in db.subjects :: db.subjects[s].examId != examId
    requires HasNewSubjects(db, now, tenantId, examId, subjects[..|subjects| - 1], uuid)
    ensures
      var n := |subjects| - 1;
      SubjectTaken(now, uuid(n), tenantId, examId, subjects[n].courseId)
      <==> exists i :: 0 <= i < n && subjects[i].courseId == subjects[n].courseId
  {
    var n := |subjects| - 1;
    var up := subjects[..n];
    assert forall i: nat | i < n :: up[i] == subjects[i] && now.subjects[uuid(i)].courseId == up[i].courseId;
    if i :| 0 <= i < n && subjects[i].courseId == subjects[n].courseId {
      var k: nat := i;
      assert uuid(k) in now.subjects;
    }
  }

  lemma IdsSnoc(uuid: nat -> string, n: nat)
    ensures IdsOf(uuid, n + 1) == IdsOf(uuid, n) + {uuid(n)}
  {
  }

  lemma NewSubjectsSnoc(db: ExamDb, now: ExamDb, tenantId: string, examId: string, subjects: seq<NewSubject>, uuid: nat -> string)
    requires subjects != [] && NewIds(db, |subjects|, uuid)
    requires HasNewSubjects(db, now, tenantId, examId, subjects[..|subjects| - 1], uuid)
    ensures
      var n := |subjects| - 1;
      HasNewSubjects(db, now.(subjects := now.subjects[uuid(n) := NewSubjectRow(tenantId, examId, subjects, n)]), tenantId, examId, subjects, uuid)
  {
    hide IdsOf;
    var n := |subjects| - 1;
    var up := subjects[..n];
    IdsSnoc(uuid, n);
    var after := now.(subjects := now.subjects[uuid(n) := NewSubjectRow(tenantId, examId, subjects, n)]);
    forall i: nat | i < |subjects| ensures uuid(i) in after.subjects && after.subjects[uuid(i)] == NewSubjectRow(tenantId, examId, subjects, i) {
      if i < n { assert up[i] == subjects[i] && uuid(i) != uuid(n); }
    }
  }

  lemma OnlySubjectsChange(before: ExamDb, after: ExamDb, tenantId: string, examId: string, subjects: seq<NewSubject>, uuid: nat -> string)
    requires HasNewSubjects(before, after, tenantId, examId, subjects, uuid)
    ensures after == before.(subjects := after.subjects)
  {
  }

  /**
   With new ids, an exam is created exactly when the actor is staff or an
   assigned teacher of every course, the class is usable, every course exists and
   none is named twice.  It is then a draft of the actor with one subject per
   entry of the command, in that order; otherwise nothing changes.
   */
  lemma CreateIff(db: ExamDb, dir: Directory, actor: Actor, command: CreateExam, examId: string, uuid: nat -> string)
    requires examId !in db.exams && NewIds(db, |command.subjects|, uuid)
    requires forall s | s in db.subjects :: db.subjects[s].examId in db.exams
    ensures
      var (after, r) := Create(db, dir, actor, command, examId, uuid);
      && (r.Ok? <==>
            IsStaffActor(actor) && ClassroomUsable(dir, actor.tenantId, command.classroomId)
            && MayTeachAll(dir, actor, command.classroomId, command.subjects)
            && PersonExists(dir, actor.tenantId, actor.personId)
            && CoursesExist(dir, actor.tenantId, command.subjects) && DistinctCourses(command.subjects))
      && (r.Err? ==> after == db)
      && (r.Ok? ==>
            && after.exams == db.exams[examId := NewExam(actor, command)]
            && HasNewSubjects(db.(exams := after.exams), after, actor.tenantId, examId, command.subjects, uuid))
  {
    hide MayTeachAll, PersonExists, CoursesExist, DistinctCourses, HasNewSubjects, WithSubjects;
    var withExam := db.(exams := db.exams[examId := NewExam(actor, command)]);
    WithSubjectsIff(withExam, dir, actor.tenantId, examId, command.subjects, uuid);
    var w := WithSubjects(withExam, dir, actor.tenantId, examId, command.subjects, uuid);
    if w.Ok? {
      OnlySubjectsChange(withExam, w.value, actor.tenantId, examId, command.subjects, uuid);
      assert w.value.exams == withExam.exams;
      assert db.(exams := w.value.exams) == withExam;
    }
  }
}
