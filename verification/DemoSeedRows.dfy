/** The rows the seeder makes or resets, written out, and what it refuses at each step. */
module DemoSeedRows {
  import opened Prelude
  import opened DemoBatch
  import opened StableSort
  import opened Upserts
  import opened DemoSeed
  import opened DemoSeedSteps
  import opened DemoSeedResults
  import Domain = ExamStore
  import Text

  /** The creator: staff under the demonstration name, active; a row that is there keeps its id and user. */
  lemma CreatorIs(t: Tables, uuid: string -> string)
    ensures
      var key, r := "demo-exams-20260924-v1:creator", MakeCreator(t, uuid);
      && (r.Err? <==> key !in t.people && exists p :: p in t.people && t.people[p].id == uuid(key))
      && (r.Err? ==> r.error == UniqueViolation)
      && (r.Ok? ==>
            && key in r.value.people && r.value == t.(people := t.people[key := r.value.people[key]])
            && var row := r.value.people[key];
               && row.kind == Domain.Staff && row.name == "【演示】成绩生成器" && row.active
               && row.id == (if key in t.people then t.people[key].id else uuid(key))
               && row.eduplusUserId == (if key in t.people then t.people[key].eduplusUserId else None))
  {
    assert BATCH_KEY + ":creator" == "demo-exams-20260924-v1:creator";
  }

  lemma ClassIs(t: Tables, uuid: string -> string)
    ensures
      var key, r := "demo-exams-20260924-v1:class", MakeClass(t, uuid);
      && (r.Err? <==> key !in t.classrooms && exists c :: c in t.classrooms && t.classrooms[c].id == uuid(key))
      && (r.Err? ==> r.error == UniqueViolation)
      && (r.Ok? ==>
            && key in r.value.classrooms && r.value == t.(classrooms := t.classrooms[key := r.value.classrooms[key]])
            && var row := r.value.classrooms[key];
               row.name == "【演示】全体学生组" && row.active && row.id == if key in t.classrooms then t.classrooms[key].id else uuid(key))
  {
    assert BATCH_KEY + ":class" == "demo-exams-20260924-v1:class";
  }

  /** A course: made with its code, or reset and left with the code it has; a code in use elsewhere is refused. */
  lemma CourseIs(t: Tables, j: Index, uuid: string -> string)
    ensures
      var key := ["demo-exams-20260924-v1:course:chinese", "demo-exams-20260924-v1:course:math", "demo-exams-20260924-v1:course:english"][j];
      var code, r := ["DEMO_CHINESE", "DEMO_MATH", "DEMO_ENGLISH"][j], MakeCourse(t, j, uuid);
      && (r.Err? <==> key !in t.courses && exists c :: c in t.courses && (t.courses[c].id == uuid(key) || t.courses[c].code == Some(code)))
      && (r.Err? ==> r.error == UniqueViolation)
      && (r.Ok? ==>
            && key in r.value.courses && r.value == t.(courses := t.courses[key := r.value.courses[key]])
            && var row := r.value.courses[key];
               && row.name == ["【演示】语文", "【演示】数学", "【演示】英语"][j] && row.active
               && row.id == (if key in t.courses then t.courses[key].id else uuid(key))
               && row.code == (if key in t.courses then t.courses[key].code else Some(code)))
  {
    CourseKeyIs(j);
    hide CourseKey;
  }

  lemma CourseKeyIs(j: Index)
    ensures CourseKey(j)
         == ["demo-exams-20260924-v1:course:chinese", "demo-exams-20260924-v1:course:math", "demo-exams-20260924-v1:course:english"][j]
  {
    assert BATCH_KEY + ":course:" == "demo-exams-20260924-v1:course:";
    assert "demo-exams-20260924-v1:course:" + "chinese" == "demo-exams-20260924-v1:course:chinese";
    assert "demo-exams-20260924-v1:course:" + "math" == "demo-exams-20260924-v1:course:math";
    assert "demo-exams-20260924-v1:course:" + "english" == "demo-exams-20260924-v1:course:english";
  }

  lemma ExamKeyIs(i: Index)
    ensures ExamKey(i) == ["demo-exams-20260924-v1:weekly", "demo-exams-20260924-v1:monthly", "demo-exams-20260924-v1:midterm"][i]
  {
    assert BATCH_KEY + ":" == "demo-exams-20260924-v1:";
    assert "demo-exams-20260924-v1:" + "weekly" == "demo-exams-20260924-v1:weekly";
    assert "demo-exams-20260924-v1:" + "monthly" == "demo-exams-20260924-v1:monthly";
    assert "demo-exams-20260924-v1:" + "midterm" == "demo-exams-20260924-v1:midterm";
  }

  /** An exam: its own and not withdrawn, and then left alone; anything else under its key is refused; a missing one is made as a draft. */
  lemma ExamIs(t: Tables, i: Index, uuid: string -> string)
    ensures
      var key := ["demo-exams-20260924-v1:weekly", "demo-exams-20260924-v1:monthly", "demo-exams-20260924-v1:midterm"][i];
      var title, r := ["【演示】周测", "【演示】月考", "【演示】阶段考试"][i], MakeExam(t, i, uuid);
      if key in t.exams then
        r == if t.exams[key].isDemo && t.exams[key].title == title && t.exams[key].status != Domain.Withdrawn then Ok(t) else Err(ExamConflict)
      else if uuid(key) in t.otherExams || (exists k :: k in t.exams && t.exams[k].id == uuid(key)) then r == Err(UniqueViolation)
      else
        && r.Ok? && key in r.value.exams && r.value == t.(exams := t.exams[key := r.value.exams[key]])
        && var row := r.value.exams[key];
           && row.id == uuid(key) && row.isDemo && row.title == title && row.kind == ["weekly", "monthly", "midterm"][i]
           && row.date == ["2026-08-20T00:00:00.000Z", "2026-09-05T00:00:00.000Z", "2026-09-20T00:00:00.000Z"][i]
           && row.status == Domain.Draft && row.publishedAt.None?
           && ("demo-exams-20260924-v1:creator" in t.people ==> row.creatorId == t.people["demo-exams-20260924-v1:creator"].id)
           && ("demo-exams-20260924-v1:class" in t.classrooms ==> row.classroomId == t.classrooms["demo-exams-20260924-v1:class"].id)
  {
    ExamKeyIs(i);
    assert BATCH_KEY + ":creator" == "demo-exams-20260924-v1:creator";
    assert BATCH_KEY + ":class" == "demo-exams-20260924-v1:class";
    hide ExamKey;
  }

  /** A subject of an exam: maximum 100.00, at the place of its course; another maximum is refused. */
  lemma SubjectIs(t: Tables, i: Index, j: Index, uuid: string -> string)
    requires ExamKey(i) in t.exams && CourseKey(j) in t.courses
    ensures
      var key, r := (t.exams[ExamKey(i)].id, t.courses[CourseKey(j)].id), MakeSubject(t, i, j, uuid);
      var id := uuid(["weekly", "monthly", "midterm"][i] + ":" + ["chinese", "math", "english"][j]);
      if key in t.subjects then r == if t.subjects[key].maximumScore == 10000 then Ok(t) else Err(SubjectConflict)
      else
        && (r.Err? <==> exists k :: k in t.subjects && t.subjects[k].id == id)
        && (r.Err? ==> r.error == UniqueViolation)
        && (r.Ok? ==> key in r.value.subjects && r.value.subjects[key].id == id)
        && (r.Ok? ==>
              && key in r.value.subjects && r.value == t.(subjects := t.subjects[key := r.value.subjects[key]])
              && r.value.subjects[key].maximumScore == 10000 && r.value.subjects[key].displayOrder == j
              && forall k | k in t.subjects :: t.subjects[k].id != r.value.subjects[key].id)
  {
    hide ExamKey, CourseKey;
  }

  /** A student's membership: in the demonstration class, active, under a key of its own. */
  lemma MembershipIs(t: Tables, students: seq<DemoStudent>, k: nat)
    requires k < |students| && "demo-exams-20260924-v1:class" in t.classrooms
    ensures MembershipRows(t, students)[k]
         == ("demo-exams-20260924-v1:membership:" + students[k].eduplusId,
             Membership(students[k].id, t.classrooms["demo-exams-20260924-v1:class"].id, true))
  {
    assert BATCH_KEY + ":class" == "demo-exams-20260924-v1:class";
    assert BATCH_KEY + ":membership:" == "demo-exams-20260924-v1:membership:";
  }

  /** A cell's score row: under its exam, subject and student, by the creator, present, in hundredths. */
  lemma ScoreIs(t: Tables, cells: seq<Cell>, k: nat)
    requires k < |cells| && ExamKey(cells[k].exam) in t.exams && CourseKey(cells[k].subject) in t.courses
    requires (t.exams[ExamKey(cells[k].exam)].id, t.courses[CourseKey(cells[k].subject)].id) in t.subjects
    requires "demo-exams-20260924-v1:creator" in t.people
    ensures
      var examId := t.exams[ExamKey(cells[k].exam)].id;
      var subjectId := t.subjects[(examId, t.courses[CourseKey(cells[k].subject)].id)].id;
      Expected(t, cells)[k]
      == (ScoreKey(examId, subjectId, cells[k].studentId), Score(t.people["demo-exams-20260924-v1:creator"].id, Some(100 * cells[k].value), false))
  {
    assert BATCH_KEY + ":creator" == "demo-exams-20260924-v1:creator";
    hide ExamKey, CourseKey;
  }

  predicate OfTheExams(t: Tables, k: ScoreKey) {
    exists i: Index :: k.examId == ExamId(t, i)
  }

  /** The row is that of some cell, with its value. */
  predicate IsCell(t: Tables, cells: seq<Cell>, k: ScoreKey, s: Score) {
    exists c :: 0 <= c < |cells| && k == KeyOf(t, cells[c]) && s.value == Some(100 * cells[c].value) && !s.absent
  }

  lemma DemoScoresAre(t: Tables, k: ScoreKey)
    ensures k in DemoScores(t) <==> k in t.scores && OfTheExams(t, k)
  {
    hide ExamId;
    if i: Index :| k.examId == ExamId(t, i) { assert i == 0 || i == 1 || i == 2; }
  }

  lemma CellFits(t: Tables, cells: seq<Cell>, k: ScoreKey)
    requires DistinctKeys(Expected(t, cells)) && k in t.scores
    ensures IsCell(t, cells, k, t.scores[k]) <==> k in KeySet(Expected(t, cells)) && ValueFits(t, Expected(t, cells), k)
  {
    hide DistinctKeys, KeyOf, CreatorId, LastFor;
    var expected := Expected(t, cells);
    if IsCell(t, cells, k, t.scores[k]) {
      var c :| 0 <= c < |cells| && k == KeyOf(t, cells[c]) && t.scores[k].value == Some(100 * cells[c].value) && !t.scores[k].absent;
      LastForDistinct(expected, c);
      assert expected[c].0 == k;
    } else if k in KeySet(expected) {
      var c :| 0 <= c < |expected| && expected[c].0 == k;
      assert k == KeyOf(t, cells[c]);
      LastForDistinct(expected, c);
    }
  }

  /** Absent, or not the value of its cell, or valued without a cell. */
  predicate Differs(t: Tables, cells: seq<Cell>, k: ScoreKey, s: Score) {
    || s.absent
    || (exists c :: 0 <= c < |cells| && k == KeyOf(t, cells[c]) && s.value != Some(100 * cells[c].value))
    || ((forall c | 0 <= c < |cells| :: k != KeyOf(t, cells[c])) && s.value.Some?)
  }

  lemma DiffersIff(t: Tables, cells: seq<Cell>, k: ScoreKey)
    requires DistinctKeys(Expected(t, cells)) && k in t.scores
    ensures Differs(t, cells, k, t.scores[k]) <==> !ValueFits(t, Expected(t, cells), k)
  {
    hide DistinctKeys, KeyOf, CreatorId, LastFor;
    var expected := Expected(t, cells);
    LastForMember(expected, k);
    if forall c | 0 <= c < |cells| :: k != KeyOf(t, cells[c]) {
      assert k !in KeySet(expected);
    } else {
      forall c | 0 <= c < |cells| && k == KeyOf(t, cells[c]) ensures ExpectedValue(expected, k) == Some(100 * cells[c].value) {
        LastForDistinct(expected, c);
      }
    }
  }

  /** A row that differs is refused as such before anything is written; whatever else is refused, the count refuses. */
  lemma ScoresRefused(t: Tables, cells: seq<Cell>, now: int)
    requires Rooted(t) && DistinctSlots(cells)
    ensures WriteScores(t, cells, now) == Err(ScoresDiffer) <==> exists k :: k in t.scores && OfTheExams(t, k) && Differs(t, cells, k, t.scores[k])
    ensures WriteScores(t, cells, now).Err? ==> WriteScores(t, cells, now).error in {ScoresDiffer, CountMismatch}
  {
    hide Rooted, DistinctSlots, DistinctKeys, DemoScores, ValueFits, Expected, AddScores, PublishAll, OfTheExams, Differs, DemoIds;
    ExpectedDistinct(t, cells);
    forall k ensures k in DemoScores(t) <==> k in t.scores && OfTheExams(t, k) { DemoScoresAre(t, k); }
    forall k | k in t.scores ensures Differs(t, cells, k, t.scores[k]) <==> !ValueFits(t, Expected(t, cells), k) { DiffersIff(t, cells, k); }
  }

  /** The rows of the three exams must be cells of the batch already; what other exams hold does not matter. */
  lemma ScoresAccepted(t: Tables, cells: seq<Cell>, now: int)
    requires Rooted(t) && DistinctSlots(cells)
    ensures WriteScores(t, cells, now).Ok? <==> forall k | k in t.scores && OfTheExams(t, k) :: IsCell(t, cells, k, t.scores[k])
  {
    hide Rooted, DistinctSlots, DistinctKeys, DemoScores, ValueFits, Expected, KeySet, AddScores, PublishAll, OfTheExams, IsCell, DemoIds;
    var expected := Expected(t, cells);
    ExpectedDistinct(t, cells);
    forall k ensures k in DemoScores(t) <==> k in t.scores && OfTheExams(t, k) { DemoScoresAre(t, k); }
    forall k | k in t.scores ensures IsCell(t, cells, k, t.scores[k]) <==> k in KeySet(expected) && ValueFits(t, expected, k) {
      CellFits(t, cells, k);
    }
    if ValuesFit(t, expected) { OnlyTheCountFindsStrangers(t, cells, now); }
    if forall k | k in t.scores && OfTheExams(t, k) :: IsCell(t, cells, k, t.scores[k]) {
      assert DemoScores(t).Keys <= KeySet(expected);
      assert ValuesFit(t, expected);
    }
  }

  /** Publication: a draft becomes published and stamped, any other exam stays as it is. */
  lemma PublicationIs(t: Tables, i: Index, now: int)
    requires ExamKey(i) in t.exams
    ensures
      var key, exam := ExamKey(i), t.exams[ExamKey(i)];
      PublishOne(t, i, now)
      == if exam.status == Domain.Draft then t.(exams := t.exams[key := exam.(status := Domain.Published, publishedAt := Some(now))]) else t
  {
    hide ExamKey;
  }

  /** The refusals of the transaction. */
  predicate OfTheRows(e: Error) {
    e in {ExamConflict, SubjectConflict, ScoresDiffer, CountMismatch, UniqueViolation}
  }

  /** The command: the tenant first, then the students; a dry run reports the nine cells a student it would write and writes nothing. */
  lemma CommandIs(t: Tables, tenantActive: bool, apply: bool, students: seq<DemoStudent>, le: (DemoStudent, DemoStudent) -> bool,
                  digest: string -> nat, uuid: string -> string, now: int)
    ensures
      var (after, r) := RunSeed(t, tenantActive, apply, students, le, digest, uuid, now);
      if !tenantActive then r == Err(NoTenant) && after == t
      else if CheckStudents(students).Err? then r == Err(BadStudents(CheckStudents(students).error)) && after == t
      else if !apply then r == Ok(Report(|students|, 3, 9, 9 * |students|, false)) && after == t
      else
        && (r.Ok? ==> r.value == Report(|students|, 3, 9, 9 * |students|, true))
        && (r.Err? ==> after == t && OfTheRows(r.error))
  {
    hide CheckStudents, CellsOf, Sort, Seed;
    if CheckStudents(students).Ok? {
      SortedLength(students, le);
      SeedErrors(t, students, CellsOf(digest, Sort(students, le)), uuid, now);
    }
  }

  lemma SortedLength(students: seq<DemoStudent>, le: (DemoStudent, DemoStudent) -> bool)
    ensures |Sort(students, le)| == |students|
  {
    assert |multiset(Sort(students, le))| == |multiset(students)|;
  }

  lemma SeedErrors(t: Tables, students: seq<DemoStudent>, cells: seq<Cell>, uuid: string -> string, now: int)
    ensures Seed(t, students, cells, uuid, now).Err? ==> OfTheRows(Seed(t, students, cells, uuid, now).error)
  {
    hide MakePeople, MakeExams, ValuesFit, DemoScores;
    PeopleErrors(t, students, uuid);
    if MakePeople(t, students, uuid).Ok? { ExamErrors(MakePeople(t, students, uuid).value, 3, uuid); }
  }

  lemma PeopleErrors(t: Tables, students: seq<DemoStudent>, uuid: string -> string)
    ensures MakePeople(t, students, uuid).Err? ==> MakePeople(t, students, uuid).error == UniqueViolation
  {
    hide MakeCourses, MembershipTaken;
    forall u: Tables ensures MakeCourses(u, 3, uuid).Err? ==> MakeCourses(u, 3, uuid).error == UniqueViolation { CourseErrors(u, 3, uuid); }
  }

  lemma {:induction false} CourseErrors(t: Tables, n: nat, uuid: string -> string)
    requires n <= 3
    ensures MakeCourses(t, n, uuid).Err? ==> MakeCourses(t, n, uuid).error == UniqueViolation
  {
    hide CourseKey;
    if n > 0 { CourseErrors(t, n - 1, uuid); }
  }

  lemma {:induction false} ExamErrors(t: Tables, n: nat, uuid: string -> string)
    requires n <= 3
    ensures MakeExams(t, n, uuid).Err? ==> OfTheRows(MakeExams(t, n, uuid).error)
  {
    hide MakeSubjects, ExamKey, ExamIdTaken;
    if n > 0 {
      ExamErrors(t, n - 1, uuid);
      forall u: Tables, i: Index ensures MakeSubjects(u, i, 3, uuid).Err? ==> OfTheRows(MakeSubjects(u, i, 3, uuid).error) { SubjectErrors(u, i, 3, uuid); }
    }
  }

  lemma {:induction false} SubjectErrors(t: Tables, i: Index, n: nat, uuid: string -> string)
    requires n <= 3
    ensures MakeSubjects(t, i, n, uuid).Err? ==> OfTheRows(MakeSubjects(t, i, n, uuid).error)
  {
    hide ExamId, CourseId;
    if n > 0 { SubjectErrors(t, i, n - 1, uuid); }
  }

  /** The students that are refused: none at all, or two bound to one user after trimming. */
  lemma StudentsRefused(students: seq<DemoStudent>)
    ensures CheckStudents(students) == Err(NoStudents) <==> |students| == 0
    ensures CheckStudents(students) == Err(DuplicateUser)
       <==> exists i, j :: 0 <= i < j < |students| && students[i].eduplusUserId.Some? && students[j].eduplusUserId.Some?
                           && !Text.Blank(students[i].eduplusUserId.value)
                           && Text.Trim(students[i].eduplusUserId.value) == Text.Trim(students[j].eduplusUserId.value)
    ensures CheckStudents(students).Ok? ==> CheckStudents(students).value == |students|
  {
    hide Text.Trim;
    forall i | 0 <= i < |students| && students[i].eduplusUserId.Some?
      ensures Text.Trim(students[i].eduplusUserId.value) == "" <==> Text.Blank(students[i].eduplusUserId.value)
    {
      Text.TrimEmptyIff(students[i].eduplusUserId.value);
    }
    if i, j :| 0 <= i < j < |students| && students[i].eduplusUserId.Some? && students[j].eduplusUserId.Some?
               && !Text.Blank(students[i].eduplusUserId.value)
               && Text.Trim(students[i].eduplusUserId.value) == Text.Trim(students[j].eduplusUserId.value)
    {
      assert BoundUser(students[i]).Some? && BoundUser(students[i]) == BoundUser(students[j]);
    }
    if ShareUser(students) {
      var i, j :| 0 <= i < j < |students| && BoundUser(students[i]).Some? && BoundUser(students[i]) == BoundUser(students[j]);
      assert students[i].eduplusUserId.Some? && students[j].eduplusUserId.Some?;
    }
  }
}
