/** What a teacher or a member of staff is answered, in plain terms: which exam, which of its scores, and with which figures. */
module TeacherView {
  import opened Prelude
  import opened Text
  import opened StableSort
  import opened Ranking
  import opened Results
  import opened TeacherResults
  import StudentResults

  /** The viewer teaches this course in this class; staff do everywhere. */
  predicate Teaches(v: Viewer, classroomId: string, courseId: string) {
    v.TeacherViewer? ==> Teaching(classroomId, courseId) in v.assignments
  }

  /** A published exam; for a teacher, one with a subject whose course they teach in the class of the exam. */
  predicate Concerns(v: Viewer, t: Taught) {
    t.exam.published && (v.TeacherViewer? ==> exists k :: 0 <= k < |t.courses| && Teaching(t.classroomId, t.courses[k]) in v.assignments)
  }

  /** No id holds a NUL, as text columns never do. */
  predicate PlainIds(v: Viewer, exams: seq<Taught>) {
    && (v.TeacherViewer? ==> forall a | a in v.assignments :: NUL !in a.courseId)
    && forall t | t in exams :: forall k | 0 <= k < |t.courses| :: NUL !in t.courses[k]
  }

  predicate AsNew(byId: IdOrder, t: Taught, u: Taught) {
    t.exam.examDate > u.exam.examDate || (t.exam.examDate == u.exam.examDate && byId(u.exam.id, t.exam.id))
  }

  /** Subject k and score i meet: the score is in the subject, and the subject is one the viewer teaches. */
  predicate IsPlace(v: Viewer, t: Taught, k: nat, i: nat) {
    && k < |t.courses| && i < |t.exam.scores|
    && t.exam.scores[i].subjectId == t.exam.subjects[k].id
    && Teaches(v, t.classroomId, t.courses[k])
  }

  /** A row is the score row itself, with its place among the scores of the subject. */
  ghost predicate ShowsScore(r: TeacherRow, t: Taught, k: nat, i: nat) {
    && k < |t.courses| && i < |t.exam.scores|
    && r.examId == t.exam.id && r.examTitle == t.exam.title && r.examDate == t.exam.examDate
    && r.subject == t.exam.subjects[k].name
    && r.studentId == t.exam.scores[i].studentId && r.score == t.exam.scores[i].value && r.absent == t.exam.scores[i].absent
    && r.rank == match t.exam.scores[i].value
                 case None => None
                 case Some(x) => Some(1 + |StudentResults.BetterIn(t.exam, t.exam.subjects[k].id, x)|)
  }

  /** One row for each place, subject by subject and within a subject in the order of the scores. */
  ghost predicate IsTable(v: Viewer, t: Taught, rows: seq<TeacherRow>) {
    exists places: seq<(nat, nat)> ::
      && |rows| == |places|
      && (forall k: nat, i: nat :: (k, i) in places <==> IsPlace(v, t, k, i))
      && (forall a, b | 0 <= a < b < |places| :: places[a].0 < places[b].0 || (places[a].0 == places[b].0 && places[a].1 < places[b].1))
      && forall a | 0 <= a < |places| :: ShowsScore(rows[a], t, places[a].0, places[a].1)
  }

  lemma EligibleIff(v: Viewer, t: Taught)
    ensures Eligible(v, t) <==> Concerns(v, t)
  {
    if v.TeacherViewer? {
      if a :| a in v.assignments && a.classroomId == t.classroomId && a.courseId in t.courses {
        var k :| 0 <= k < |t.courses| && t.courses[k] == a.courseId;
        assert a == Teaching(t.classroomId, t.courses[k]);
      }
    }
  }

  lemma VisibleIff(v: Viewer, exams: seq<Taught>, t: Taught, k: nat, i: nat)
    requires PlainIds(v, exams) && t in exams
    ensures Visible(v, t, k, i) <==> IsPlace(v, t, k, i)
  {
    hide MaySee;
    if k < |t.courses| { MaySeeIff(v, t.classroomId, t.courses[k]); }
  }

  lemma RowShows(v: Viewer, t: Taught, le: Collation, r: TeacherRow, k: nat, i: nat)
    requires OneScorePerCell(t.exam.scores) && RowIs(v, t, le, r, k, i)
    ensures ShowsScore(r, t, k, i)
  {
    hide SubjectResultOf, OneScorePerCell, MaySee;
    StudentResults.SubjectIsShown(t.exam, r.studentId, t.exam.subjects[k], le);
  }

  lemma TableIs(v: Viewer, exams: seq<Taught>, t: Taught, le: Collation, rows: seq<TeacherRow>)
    requires PlainIds(v, exams) && t in exams && OneScorePerCell(t.exam.scores)
    requires
      var places := Places(v, t, |t.courses|);
      && |rows| == |places|
      && (forall i | 0 <= i < |places| :: RowIs(v, t, le, rows[i], places[i].0, places[i].1))
      && (forall i, j | 0 <= i < j < |places| :: Before(places[i], places[j]))
      && (forall k: nat, i: nat :: (k, i) in places <==> Visible(v, t, k, i))
    ensures IsTable(v, t, rows)
  {
    hide OneScorePerCell, RowIs, Visible, IsPlace, ShowsScore, PlainIds, Places;
    var places := Places(v, t, |t.courses|);
    forall k: nat, i: nat ensures (k, i) in places <==> IsPlace(v, t, k, i) { VisibleIff(v, exams, t, k, i); }
    forall a | 0 <= a < |places| ensures ShowsScore(rows[a], t, places[a].0, places[a].1) {
      RowShows(v, t, le, rows[a], places[a].0, places[a].1);
    }
    forall a, b | 0 <= a < b < |places|
      ensures places[a].0 < places[b].0 || (places[a].0 == places[b].0 && places[a].1 < places[b].1)
    {
      assert Before(places[a], places[b]);
    }
  }

  lemma NewestFirstIs(byId: IdOrder, t: Taught, u: Taught)
    ensures NewestFirst(byId)(t, u) <==> AsNew(byId, t, u)
  {
    assert NewestFirst(byId)(t, u) <==> Descending(byId)(t.exam, u.exam);
    assert Descending(byId)(t.exam, u.exam) <==> Ascending(byId)(u.exam, t.exam);
  }

  lemma LatestConcerns(v: Viewer, exams: seq<Taught>, byId: IdOrder)
    ensures
      var latest := Latest(v, exams, byId);
      && (latest == [] <==> forall t | t in exams :: !Concerns(v, t))
      && (latest != [] ==> latest[0] in exams && Concerns(v, latest[0])
                           && forall u | u in exams && Concerns(v, u) :: AsNew(byId, latest[0], u))
  {
    hide Latest, Eligible, Concerns, NewestFirst, AsNew;
    LatestIsNewest(v, exams, byId);
    forall t | t in exams ensures Eligible(v, t) <==> Concerns(v, t) { EligibleIff(v, t); }
    var latest := Latest(v, exams, byId);
    if latest != [] {
      forall u | u in exams && Concerns(v, u) ensures AsNew(byId, latest[0], u) { NewestFirstIs(byId, latest[0], u); }
    }
  }

  lemma OnlyStaffAreAnswered(v: Viewer, exams: seq<Taught>, byId: IdOrder, le: Collation)
    ensures ForTeacher(v, exams, byId, le).None? <==> v.OtherViewer?
  {
    hide Latest, ExamRows;
  }

  /**
   Only teachers and staff are answered.  They see the table of one exam, the
   newest of those that concern them, with the greater id among exams of one
   day; and nothing when no exam concerns them.
   */
  lemma TheNewestExamIsShown(v: Viewer, exams: seq<Taught>, byId: IdOrder, le: Collation)
    requires PlainIds(v, exams) && forall t | t in exams :: OneScorePerCell(t.exam.scores)
    ensures
      match ForTeacher(v, exams, byId, le)
      case None => v.OtherViewer?
      case Some(rows) =>
        && !v.OtherViewer?
        && ((forall t | t in exams :: !Concerns(v, t)) ==> rows == [])
        && ((exists t :: t in exams && Concerns(v, t)) ==>
              exists t :: t in exams && Concerns(v, t) && (forall u | u in exams && Concerns(v, u) :: AsNew(byId, t, u)) && IsTable(v, t, rows))
  {
    hide OneScorePerCell, RowIs, Latest, Places, Visible, Concerns, AsNew, IsTable, PlainIds, ForTeacher, Before;
    OnlyStaffAreAnswered(v, exams, byId, le);
    if !v.OtherViewer? {
      RowsAreTheAssignedScores(v, exams, byId, le);
      LatestConcerns(v, exams, byId);
      var latest := Latest(v, exams, byId);
      if latest != [] { TableIs(v, exams, latest[0], le, ForTeacher(v, exams, byId, le).value); }
    }
  }
}
