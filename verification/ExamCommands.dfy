/** The four exam commands in plain terms: who may give them, when they are refused and as what, and which members change. */
module ExamCommands {
  import opened Prelude
  import opened ExamStore
  import opened Exams

  predicate Teaches(actor: Actor) {
    actor.identityType == Teacher || actor.identityType == Staff
  }

  predicate OfTenant(db: ExamDb, actor: Actor, examId: string) {
    examId in db.exams && db.exams[examId].tenantId == actor.tenantId
  }

  /** A teacher may change only exams they created. */
  predicate MayTouch(db: ExamDb, actor: Actor, examId: string)
    requires examId in db.exams
  {
    actor.identityType == Staff || db.exams[examId].creatorId == actor.personId
  }

  /** Only this exam's row differs. */
  predicate OnlyExam(before: ExamDb, after: ExamDb, examId: string) {
    && examId in before.exams && examId in after.exams
    && after == before.(exams := before.exams[examId := after.exams[examId]])
  }

  /** The refusals that update and publish share, in their order. */
  predicate RefusedChange(db: ExamDb, actor: Actor, examId: string, e: Error) {
    if !Teaches(actor) then e == NotStaff
    else if !OfTenant(db, actor, examId) then e == NoExam
    else if !MayTouch(db, actor, examId) then e == NotOwner
    else e == NotDraft && db.exams[examId].status != Draft
  }

  predicate Changeable(db: ExamDb, actor: Actor, examId: string) {
    Teaches(actor) && OfTenant(db, actor, examId) && MayTouch(db, actor, examId) && db.exams[examId].status == Draft
  }

  /** Update succeeds exactly on a draft the actor may change; title, kind and date take the values given and keep the others. */
  lemma UpdateIs(db: ExamDb, actor: Actor, examId: string, command: UpdateExam)
    ensures
      var (after, r) := Update(db, actor, examId, command);
      && (r.Ok? <==> Changeable(db, actor, examId))
      && (r.Err? ==> after == db && RefusedChange(db, actor, examId, r.error))
      && (r.Ok? ==>
            && OnlyExam(db, after, examId)
            && var a, b := db.exams[examId], after.exams[examId];
               && (command.title.Some? ==> b.title == command.title.value) && (command.title.None? ==> b.title == a.title)
               && (command.kind.Some? ==> b.kind == command.kind.value) && (command.kind.None? ==> b.kind == a.kind)
               && (command.examDate.Some? ==> b.examDate == command.examDate.value) && (command.examDate.None? ==> b.examDate == a.examDate)
               && (b.tenantId, b.creatorId, b.classroomId) == (a.tenantId, a.creatorId, a.classroomId)
               && (b.status, b.publishedAt, b.withdrawnAt) == (a.status, a.publishedAt, a.withdrawnAt))
  {
  }

  predicate HasSubject(db: ExamDb, actor: Actor, examId: string) {
    exists s :: s in db.subjects && db.subjects[s].tenantId == actor.tenantId && db.subjects[s].examId == examId
  }

  lemma HasSubjectIff(db: ExamDb, actor: Actor, examId: string)
    ensures HasSubject(db, actor, examId) <==> |SubjectsOf(db, actor.tenantId, examId)| > 0
  {
    var own := SubjectsOf(db, actor.tenantId, examId);
    if HasSubject(db, actor, examId) {
      var s :| s in db.subjects && db.subjects[s].tenantId == actor.tenantId && db.subjects[s].examId == examId;
      assert s in own;
      assert own.Keys != {};
    }
    if |own| > 0 {
      var s :| s in own.Keys;
    }
  }

  /** Publish succeeds exactly on such a draft with a subject, and stamps it. */
  lemma PublishIs(db: ExamDb, actor: Actor, examId: string, now: int)
    ensures
      var (after, r) := Publish(db, actor, examId, now);
      && (r.Ok? <==> Changeable(db, actor, examId) && HasSubject(db, actor, examId))
      && (r.Err? ==>
            after == db && if Changeable(db, actor, examId) then r.error == NoSubjects else RefusedChange(db, actor, examId, r.error))
      && (r.Ok? ==>
            && OnlyExam(db, after, examId)
            && var a, b := db.exams[examId], after.exams[examId];
               && b.status == Published && b.publishedAt == Some(now) && b.withdrawnAt == None
               && (b.tenantId, b.creatorId, b.classroomId) == (a.tenantId, a.creatorId, a.classroomId)
               && (b.title, b.kind, b.examDate) == (a.title, a.kind, a.examDate))
  {
    hide SubjectsOf, HasSubject;
    HasSubjectIff(db, actor, examId);
  }

  /** Withdraw succeeds exactly on a published exam the actor may change, and stamps it. */
  lemma WithdrawIs(db: ExamDb, actor: Actor, examId: string, now: int)
    ensures
      var (after, r) := Withdraw(db, actor, examId, now);
      && (r.Ok? <==> Teaches(actor) && OfTenant(db, actor, examId) && MayTouch(db, actor, examId) && db.exams[examId].status == Published)
      && (r.Err? ==>
            && after == db
            && if !Teaches(actor) then r.error == NotStaff
               else if !OfTenant(db, actor, examId) then r.error == NoExam
               else if !MayTouch(db, actor, examId) then r.error == NotOwner
               else r.error == NotPublished)
      && (r.Ok? ==>
            && OnlyExam(db, after, examId)
            && var a, b := db.exams[examId], after.exams[examId];
               && b.status == Withdrawn && b.withdrawnAt == Some(now) && b.publishedAt == a.publishedAt
               && (b.tenantId, b.creatorId, b.classroomId) == (a.tenantId, a.creatorId, a.classroomId)
               && (b.title, b.kind, b.examDate) == (a.title, a.kind, a.examDate))
  {
  }

  // ---- create ----

  predicate ActiveClass(dir: Directory, actor: Actor, classroomId: string) {
    classroomId in dir.classrooms && dir.classrooms[classroomId].tenantId == actor.tenantId && dir.classrooms[classroomId].active
  }

  /** A teacher needs an active assignment for every subject of the exam. */
  predicate TeachesAll(dir: Directory, actor: Actor, command: CreateExam) {
    actor.identityType == Teacher ==>
      forall i | 0 <= i < |command.subjects| ::
        Assignment(actor.tenantId, actor.personId, command.classroomId, command.subjects[i].courseId, true) in dir.assignments
  }

  predicate IsKnown(dir: Directory, actor: Actor) {
    exists e :: e in dir.people && e.0 == actor.tenantId && dir.people[e].id == actor.personId
  }

  /** Courses of the tenant, none named twice. */
  predicate CoursesFit(dir: Directory, actor: Actor, subjects: seq<NewSubject>) {
    && (forall i | 0 <= i < |subjects| :: (actor.tenantId, subjects[i].courseId) in dir.courses)
    && (forall i, j | 0 <= i < j < |subjects| :: subjects[i].courseId != subjects[j].courseId)
  }

  /** Create, with row ids that are new: the condition, the refusals in their order, and the rows it adds. */
  lemma CreateIs(db: ExamDb, dir: Directory, actor: Actor, command: CreateExam, examId: string, uuid: nat -> string)
    requires examId !in db.exams && NewIds(db, |command.subjects|, uuid)
    requires forall s | s in db.subjects :: db.subjects[s].examId in db.exams
    ensures
      var (after, r) := Create(db, dir, actor, command, examId, uuid);
      && (r.Ok? <==>
            && Teaches(actor) && ActiveClass(dir, actor, command.classroomId) && TeachesAll(dir, actor, command)
            && IsKnown(dir, actor) && CoursesFit(dir, actor, command.subjects))
      && (r == Err(NotStaff) <==> !Teaches(actor))
      && (r == Err(NoClassroom) <==> Teaches(actor) && !ActiveClass(dir, actor, command.classroomId))
      && (r == Err(NotAssigned) <==> Teaches(actor) && ActiveClass(dir, actor, command.classroomId) && !TeachesAll(dir, actor, command))
      && (r.Err? ==> after == db)
      && (r.Ok? ==>
            && r.value == examId && examId in after.exams && after.exams == db.exams[examId := after.exams[examId]]
            && after.scores == db.scores && after.imports == db.imports
            && var exam := after.exams[examId];
               && (exam.tenantId, exam.creatorId, exam.classroomId) == (actor.tenantId, actor.personId, command.classroomId)
               && (exam.title, exam.kind, exam.examDate) == (command.title, command.kind, command.examDate)
               && exam.status == Draft && exam.publishedAt.None? && exam.withdrawnAt.None?)
      && (r.Ok? ==>
            && (forall s | s in db.subjects :: s in after.subjects && after.subjects[s] == db.subjects[s])
            && (forall s | s in after.subjects :: s in db.subjects || exists i: nat :: i < |command.subjects| && uuid(i) == s)
            && forall i: nat | i < |command.subjects| ::
                 && uuid(i) in after.subjects
                 && var row := after.subjects[uuid(i)];
                    && (row.tenantId, row.examId, row.courseId) == (actor.tenantId, examId, command.subjects[i].courseId)
                    && row.maximumScore == command.subjects[i].maximumScore && row.displayOrder == i)
  {
    hide WithSubjects, NewIds, IsKnown, TeachesAll, CoursesFit, MayTeachAll, PersonExists, CoursesExist, DistinctCourses, HasNewSubjects;
    CreateIff(db, dir, actor, command, examId, uuid);
    CreateConditions(dir, actor, command);
    CreateErrors(db, dir, actor, command, examId, uuid);
    var (after, r) := Create(db, dir, actor, command, examId, uuid);
    if r.Ok? { CreatedRows(db.(exams := after.exams), after, actor, command, examId, uuid); }
  }

  lemma CreateConditions(dir: Directory, actor: Actor, command: CreateExam)
    ensures IsStaffActor(actor) <==> Teaches(actor)
    ensures ClassroomUsable(dir, actor.tenantId, command.classroomId) <==> ActiveClass(dir, actor, command.classroomId)
    ensures MayTeachAll(dir, actor, command.classroomId, command.subjects) <==> TeachesAll(dir, actor, command)
    ensures PersonExists(dir, actor.tenantId, actor.personId) <==> IsKnown(dir, actor)
    ensures CoursesExist(dir, actor.tenantId, command.subjects) && DistinctCourses(command.subjects) <==> CoursesFit(dir, actor, command.subjects)
  {
  }

  lemma CreateErrors(db: ExamDb, dir: Directory, actor: Actor, command: CreateExam, examId: string, uuid: nat -> string)
    ensures
      var r := Create(db, dir, actor, command, examId, uuid).1;
      && (r == Err(NotStaff) <==> !IsStaffActor(actor))
      && (r == Err(NoClassroom) <==> IsStaffActor(actor) && !ClassroomUsable(dir, actor.tenantId, command.classroomId))
      && (r == Err(NotAssigned) <==>
            IsStaffActor(actor) && ClassroomUsable(dir, actor.tenantId, command.classroomId)
            && !MayTeachAll(dir, actor, command.classroomId, command.subjects))
  {
    hide WithSubjects, MayTeachAll, PersonExists, ClassroomUsable;
    RowErrors(db.(exams := db.exams[examId := NewExam(actor, command)]), dir, actor.tenantId, examId, command.subjects, uuid);
  }

  lemma {:induction false} RowErrors(db: ExamDb, dir: Directory, tenantId: string, examId: string, subjects: seq<NewSubject>, uuid: nat -> string)
    ensures
      var w := WithSubjects(db, dir, tenantId, examId, subjects, uuid);
      w.Err? ==> w.error == UniqueViolation || w.error == ForeignKey
  {
    hide SubjectTaken;
    if subjects != [] { RowErrors(db, dir, tenantId, examId, subjects[..|subjects| - 1], uuid); }
  }

  lemma CreatedRows(before: ExamDb, after: ExamDb, actor: Actor, command: CreateExam, examId: string, uuid: nat -> string)
    requires HasNewSubjects(before, after, actor.tenantId, examId, command.subjects, uuid)
    ensures after.scores == before.scores && after.imports == before.imports
    ensures forall s | s in before.subjects :: s in after.subjects && after.subjects[s] == before.subjects[s]
    ensures forall s | s in after.subjects :: s in before.subjects || exists i: nat :: i < |command.subjects| && uuid(i) == s
    ensures
      forall i: nat | i < |command.subjects| ::
        && uuid(i) in after.subjects
        && var row := after.subjects[uuid(i)];
           && (row.tenantId, row.examId, row.courseId) == (actor.tenantId, examId, command.subjects[i].courseId)
           && row.maximumScore == command.subjects[i].maximumScore && row.displayOrder == i
  {
  }

  // ---- the two refusals of the database ----

  /** Subject i names a course some subject before it names. */
  predicate Repeats(subjects: seq<NewSubject>, i: nat)
    requires i < |subjects|
  {
    exists j :: 0 <= j < i && subjects[j].courseId == subjects[i].courseId
  }

  predicate Unknown(dir: Directory, tenantId: string, subjects: seq<NewSubject>, i: nat)
    requires i < |subjects|
  {
    (tenantId, subjects[i].courseId) !in dir.courses
  }

  /** Subject i is the first that cannot be inserted. */
  predicate FirstRefused(dir: Directory, tenantId: string, subjects: seq<NewSubject>, i: nat) {
    && i < |subjects| && (Repeats(subjects, i) || Unknown(dir, tenantId, subjects, i))
    && forall k: nat | k < i :: !Repeats(subjects, k) && !Unknown(dir, tenantId, subjects, k)
  }

  /** The first subject that cannot be inserted, and with what: a repeated course is a unique violation, an unknown one a foreign key. */
  predicate RefusedAt(dir: Directory, tenantId: string, subjects: seq<NewSubject>, i: nat, error: Error) {
    FirstRefused(dir, tenantId, subjects, i) && error == if Repeats(subjects, i) then UniqueViolation else ForeignKey
  }

  lemma FewerSubjects(dir: Directory, tenantId: string, subjects: seq<NewSubject>, n: nat, i: nat)
    requires i < n <= |subjects|
    ensures Repeats(subjects[..n], i) <==> Repeats(subjects, i)
    ensures Unknown(dir, tenantId, subjects[..n], i) <==> Unknown(dir, tenantId, subjects, i)
  {
    assert forall j | 0 <= j < n :: subjects[..n][j] == subjects[j];
  }

  lemma SameFirst(dir: Directory, tenantId: string, subjects: seq<NewSubject>, n: nat, i: nat, error: Error)
    requires n <= |subjects| && RefusedAt(dir, tenantId, subjects[..n], i, error)
    ensures RefusedAt(dir, tenantId, subjects, i, error)
  {
    hide Repeats, Unknown;
    forall k: nat | k <= i
      ensures Repeats(subjects[..n], k) <==> Repeats(subjects, k)
      ensures Unknown(dir, tenantId, subjects[..n], k) <==> Unknown(dir, tenantId, subjects, k)
    {
      FewerSubjects(dir, tenantId, subjects, n, k);
    }
  }

  lemma NoneRefused(dir: Directory, tenantId: string, subjects: seq<NewSubject>)
    requires CoursesExist(dir, tenantId, subjects) && DistinctCourses(subjects)
    ensures forall i: nat | i < |subjects| :: !Repeats(subjects, i) && !Unknown(dir, tenantId, subjects, i)
  {
  }

  /** The first subject that cannot be inserted decides. */
  lemma {:induction false} RefusedSubject(db: ExamDb, dir: Directory, tenantId: string, examId: string, subjects: seq<NewSubject>, uuid: nat -> string)
    requires NewIds(db, |subjects|, uuid)
    requires forall s | s in db.subjects :: db.subjects[s].examId != examId
    ensures
      var w := WithSubjects(db, dir, tenantId, examId, subjects, uuid);
      w.Err? ==> exists i: nat :: RefusedAt(dir, tenantId, subjects, i, w.error)
  {
    hide HasNewSubjects, SubjectTaken, NewIds, CoursesExist, DistinctCourses, IdsOf, Repeats, Unknown, RefusedAt;
    if subjects != [] {
      var n := |subjects| - 1;
      FewerNewIds(db, n, uuid);
      RefusedSubject(db, dir, tenantId, examId, subjects[..n], uuid);
      WithSubjectsIff(db, dir, tenantId, examId, subjects[..n], uuid);
      var before, w := WithSubjects(db, dir, tenantId, examId, subjects[..n], uuid), WithSubjects(db, dir, tenantId, examId, subjects, uuid);
      if before.Err? {
        var i: nat :| RefusedAt(dir, tenantId, subjects[..n], i, before.error);
        SameFirst(dir, tenantId, subjects, n, i, before.error);
      } else if w.Err? {
        NoneRefused(dir, tenantId, subjects[..n]);
        TakenIff(db, before.value, tenantId, examId, subjects, uuid);
        LastRefused(dir, tenantId, subjects, subjects[..n], w.error);
      }
    }
  }

  lemma LastRefused(dir: Directory, tenantId: string, subjects: seq<NewSubject>, up: seq<NewSubject>, error: Error)
    requires subjects != [] && up == subjects[..|subjects| - 1]
    requires forall i: nat | i < |up| :: !Repeats(up, i) && !Unknown(dir, tenantId, up, i)
    requires
      var n := |up|;
      if exists i :: 0 <= i < n && subjects[i].courseId == subjects[n].courseId then error == UniqueViolation
      else (tenantId, subjects[n].courseId) !in dir.courses && error == ForeignKey
    ensures RefusedAt(dir, tenantId, subjects, |up|, error)
  {
    forall k: nat | k < |up| ensures !Repeats(subjects, k) && !Unknown(dir, tenantId, subjects, k) {
      FewerSubjects(dir, tenantId, subjects, |up|, k);
    }
  }

  /** What the database refuses when the service's own checks pass: a taken exam id, an actor who is no person of the tenant, a subject. */
  lemma RefusedByTheDatabase(db: ExamDb, dir: Directory, actor: Actor, command: CreateExam, examId: string, uuid: nat -> string)
    requires Teaches(actor) && ActiveClass(dir, actor, command.classroomId) && TeachesAll(dir, actor, command)
    requires NewIds(db, |command.subjects|, uuid) && forall s | s in db.subjects :: db.subjects[s].examId in db.exams
    ensures
      var (after, r) := Create(db, dir, actor, command, examId, uuid);
      if examId in db.exams then r == Err(UniqueViolation) && after == db
      else if !IsKnown(dir, actor) then r == Err(ForeignKey) && after == db
      else r.Err? ==>
        || (r.error == UniqueViolation && exists i: nat :: i < |command.subjects| && Repeats(command.subjects, i))
        || (r.error == ForeignKey && exists i: nat :: i < |command.subjects| && Unknown(dir, actor.tenantId, command.subjects, i))
  {
    hide WithSubjects, NewIds, IsKnown, TeachesAll, MayTeachAll, PersonExists, CoursesExist, DistinctCourses, RefusedAt, Repeats, Unknown;
    CreateConditions(dir, actor, command);
    if examId !in db.exams {
      var withExam := db.(exams := db.exams[examId := NewExam(actor, command)]);
      SameNewIds(db, withExam, |command.subjects|, uuid);
      RefusedSubject(withExam, dir, actor.tenantId, examId, command.subjects, uuid);
      forall i: nat, e | RefusedAt(dir, actor.tenantId, command.subjects, i, e)
        ensures i < |command.subjects|
        ensures if e == UniqueViolation then Repeats(command.subjects, i) else e == ForeignKey && Unknown(dir, actor.tenantId, command.subjects, i)
      {
        RefusedAs(dir, actor.tenantId, command.subjects, i, e);
      }
    }
  }

  lemma RefusedAs(dir: Directory, tenantId: string, subjects: seq<NewSubject>, i: nat, error: Error)
    requires RefusedAt(dir, tenantId, subjects, i, error)
    ensures i < |subjects|
    ensures if error == UniqueViolation then Repeats(subjects, i) else error == ForeignKey && Unknown(dir, tenantId, subjects, i)
  {
  }

  lemma SameNewIds(db: ExamDb, withExam: ExamDb, n: nat, uuid: nat -> string)
    requires NewIds(db, n, uuid) && withExam.subjects == db.subjects
    ensures NewIds(withExam, n, uuid)
  {
  }
}
