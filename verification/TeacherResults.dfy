/** What a teacher sees of the latest published exam: the rows of the subjects they are assigned to. */
module TeacherResults {
  import opened Prelude
  import opened Text
  import opened StableSort
  import opened Ranking
  import opened Results

  /** An exam with its class and, for each of its subjects, the course. */
  datatype TaughtExam = TaughtExam(exam: Exam, classroomId: string, courses: seq<string>)

  type Taught = t: TaughtExam | |t.courses| == |t.exam.subjects|
    witness TaughtExam(Exam("", "", "", false, 0, false, [], []), "", [])

  /** An active assignment of the actor to an active class and course. */
  datatype Teaching = Teaching(classroomId: string, courseId: string)

  datatype Viewer = TeacherViewer(assignments: seq<Teaching>) | StaffViewer | OtherViewer

  datatype TeacherRow = TeacherRow(
    examId: string, examTitle: string, examDate: int, studentId: string, subject: string,
    score: Option<int>, absent: bool, rank: Option<nat>)

  // ---- which exam ----

  predicate Eligible(v: Viewer, t: Taught) {
    t.exam.published
    && (v.TeacherViewer? ==> exists a | a in v.assignments :: a.classroomId == t.classroomId && a.courseId in t.courses)
  }

  function EligibleOf(v: Viewer, exams: seq<Taught>): seq<Taught> {
    if exams == [] then [] else (if Eligible(v, exams[0]) then [exams[0]] else []) + EligibleOf(v, exams[1..])
  }

  lemma {:induction false} EligibleMembers(v: Viewer, exams: seq<Taught>, t: Taught)
    ensures t in EligibleOf(v, exams) <==> t in exams && Eligible(v, t)
  {
    if exams != [] {
      EligibleMembers(v, exams[1..], t);
      assert exams == [exams[0]] + exams[1..];
    }
  }

  function NewestFirst(byId: IdOrder): (Taught, Taught) -> bool {
    (a: Taught, b: Taught) => Descending(byId)(a.exam, b.exam)
  }

  function Latest(v: Viewer, exams: seq<Taught>, byId: IdOrder): seq<Taught> {
    Take(Sort(EligibleOf(v, exams), NewestFirst(byId)), 1)
  }

  // ---- which rows ----

  function AllowedKeys(assignments: seq<Teaching>): set<string> {
    set a | a in assignments :: Joined(a.classroomId, a.courseId)
  }

  predicate MaySee(v: Viewer, classroomId: string, courseId: string) {
    v.TeacherViewer? ==> Joined(classroomId, courseId) in AllowedKeys(v.assignments)
  }

  /** A Map built from pairs keeps the last one for a key. */
  function RankIn(rows: seq<RankedEntry>, id: string): Option<nat> {
    if rows == [] then None
    else if rows[|rows| - 1].id == id then Some(rows[|rows| - 1].rank)
    else RankIn(rows[..|rows| - 1], id)
  }

  function RowFor(exam: Exam, subject: Subject, ranks: seq<RankedEntry>, s: Score): TeacherRow {
    TeacherRow(exam.id, exam.title, exam.examDate, s.studentId, subject.name, s.value, s.absent, RankIn(ranks, s.studentId))
  }

  /** The positions of the first n scores that are in the subject. */
  function IndexesOf(scores: seq<Score>, subjectId: string, n: nat): seq<nat>
    requires n <= |scores|
  {
    if n == 0 then []
    else IndexesOf(scores, subjectId, n - 1) + if scores[n - 1].subjectId == subjectId then [n - 1] else []
  }

  lemma {:induction false} IndexesAre(scores: seq<Score>, subjectId: string, n: nat)
    requires n <= |scores|
    ensures
      var found := IndexesOf(scores, subjectId, n);
      && (forall i | 0 <= i < |found| :: found[i] < n && scores[found[i]].subjectId == subjectId)
      && (forall i, j | 0 <= i < j < |found| :: found[i] < found[j])
      && (forall k: nat | k < n && scores[k].subjectId == subjectId :: k in found)
  {
    if n > 0 {
      IndexesAre(scores, subjectId, n - 1);
      var up, found := IndexesOf(scores, subjectId, n - 1), IndexesOf(scores, subjectId, n);
      forall k: nat | k < n && scores[k].subjectId == subjectId ensures k in found {
        if k < n - 1 { assert k in up; } else { assert found[|up|] == k; }
      }
    }
  }

  function RowsAt(exam: Exam, subject: Subject, ranks: seq<RankedEntry>, indexes: seq<nat>): (rows: seq<TeacherRow>)
    requires forall i | 0 <= i < |indexes| :: indexes[i] < |exam.scores|
    ensures |rows| == |indexes|
  {
    seq(|indexes|, i requires 0 <= i < |indexes| => RowFor(exam, subject, ranks, exam.scores[indexes[i]]))
  }

  function SubjectRows(exam: Exam, subject: Subject, le: Collation): (rows: seq<TeacherRow>)
    ensures |rows| == |IndexesOf(exam.scores, subject.id, |exam.scores|)|
  {
    IndexesAre(exam.scores, subject.id, |exam.scores|);
    RowsAt(exam, subject, Ranks(SubjectEntries(exam.scores, subject.id), le), IndexesOf(exam.scores, subject.id, |exam.scores|))
  }

  /** flatMap over the first n subjects. */
  function ExamRows(v: Viewer, t: Taught, n: nat, le: Collation): seq<TeacherRow>
    requires n <= |t.courses|
  {
    if n == 0 then []
    else ExamRows(v, t, n - 1, le)
         + if MaySee(v, t.classroomId, t.courses[n - 1]) then SubjectRows(t.exam, t.exam.subjects[n - 1], le) else []
  }

  function ForTeacher(v: Viewer, exams: seq<Taught>, byId: IdOrder, le: Collation): Option<seq<TeacherRow>> {
    if v.OtherViewer? then None
    else if v.TeacherViewer? && v.assignments == [] then Some([])
    else
      var latest := Latest(v, exams, byId);
      Some(if latest == [] then [] else ExamRows(v, latest[0], |latest[0].courses|, le))
  }

  // ---- what the rows are ----

  /** Ids come from text columns, which hold no NUL; then the check is on the class and the course. */
  lemma MaySeeIff(v: Viewer, classroomId: string, courseId: string)
    requires NUL !in courseId && (v.TeacherViewer? ==> forall a | a in v.assignments :: NUL !in a.courseId)
    ensures MaySee(v, classroomId, courseId) <==> (v.TeacherViewer? ==> Teaching(classroomId, courseId) in v.assignments)
  {
    if v.TeacherViewer? {
      forall a | a in v.assignments
        ensures Joined(a.classroomId, a.courseId) == Joined(classroomId, courseId) <==> a == Teaching(classroomId, courseId)
      {
        JoinedIsInjective(a.classroomId, a.courseId, classroomId, courseId);
      }
      if Teaching(classroomId, courseId) in v.assignments {
        assert Joined(classroomId, courseId) in AllowedKeys(v.assignments);
      }
    }
  }

  lemma {:induction false} RankInAt(rows: seq<RankedEntry>, id: string)
    ensures RankIn(rows, id).None? <==> forall i | 0 <= i < |rows| :: rows[i].id != id
    ensures RankIn(rows, id).Some? ==> exists i | 0 <= i < |rows| :: rows[i].id == id && RankIn(rows, id) == Some(rows[i].rank)
  {
    if rows != [] && rows[|rows| - 1].id != id {
      RankInAt(rows[..|rows| - 1], id);
      assert forall i | 0 <= i < |rows| - 1 :: rows[i] == rows[..|rows| - 1][i];
    }
  }

  /** When no id repeats, looking a rank up in the Map is looking it up in the list. */
  lemma RankInIsFindRank(values: seq<Entry>, le: Collation, id: string)
    requires Ranking.DistinctIds(values)
    ensures RankIn(Ranks(values, le), id) == FindRank(Ranks(values, le), id)
  {
    hide RankIn, FindRank, Greater;
    var rows, sorted := Ranks(values, le), Sort(values, ByValueThenId(le));
    hide Sort;
    RankInAt(rows, id);
    FindRankAt(rows, id);
    if RankIn(rows, id).Some? {
      var i :| 0 <= i < |rows| && rows[i].id == id && RankIn(rows, id) == Some(rows[i].rank);
      var j :| 0 <= j < |rows| && rows[j].id == id && FindRank(rows, id) == Some(rows[j].rank);
      assert sorted[i] in multiset(values) && sorted[j] in multiset(values);
      var a :| 0 <= a < |values| && values[a] == sorted[i];
      var b :| 0 <= b < |values| && values[b] == sorted[j];
      assert a == b;
    }
  }

  /** Row r is the row of score i in subject n, and shows what the student is shown for that subject. */
  predicate RowIs(v: Viewer, t: Taught, le: Collation, r: TeacherRow, n: nat, i: nat) {
    && n < |t.courses| && i < |t.exam.scores|
    && MaySee(v, t.classroomId, t.courses[n])
    && t.exam.scores[i].subjectId == t.exam.subjects[n].id
    && r.examId == t.exam.id && r.examTitle == t.exam.title && r.examDate == t.exam.examDate
    && r.studentId == t.exam.scores[i].studentId && r.subject == t.exam.subjects[n].name
    && var own := SubjectResultOf(t.exam.scores, r.studentId, t.exam.subjects[n], le);
       (r.score, r.absent, r.rank) == (own.score, own.absent, own.rank)
  }

  lemma ViewsAgree(exam: Exam, subject: Subject, i: nat, le: Collation)
    requires OneScorePerCell(exam.scores) && i < |exam.scores| && exam.scores[i].subjectId == subject.id
    ensures
      var s := exam.scores[i];
      var own := SubjectResultOf(exam.scores, s.studentId, subject, le);
      && own.score == s.value && own.absent == s.absent
      && own.rank == RankIn(Ranks(SubjectEntries(exam.scores, subject.id), le), s.studentId)
  {
    hide RankIn, FindRank, Ranks, FindScore;
    CellIsUnique(exam.scores, exam.scores[i].studentId, subject.id, i);
    SubjectEntriesDistinct(exam.scores, subject.id);
    RankInIsFindRank(SubjectEntries(exam.scores, subject.id), le, exam.scores[i].studentId);
  }

  lemma SubjectRowIs(v: Viewer, t: Taught, n: nat, le: Collation, i: nat)
    requires OneScorePerCell(t.exam.scores) && n < |t.courses| && MaySee(v, t.classroomId, t.courses[n])
    requires i < |IndexesOf(t.exam.scores, t.exam.subjects[n].id, |t.exam.scores|)|
    ensures
      var found := IndexesOf(t.exam.scores, t.exam.subjects[n].id, |t.exam.scores|);
      RowIs(v, t, le, SubjectRows(t.exam, t.exam.subjects[n], le)[i], n, found[i])
  {
    hide OneScorePerCell, MaySee, FindScore, RankIn, FindRank, Ranks, SubjectEntries, IndexesOf;
    IndexesAre(t.exam.scores, t.exam.subjects[n].id, |t.exam.scores|);
    ViewsAgree(t.exam, t.exam.subjects[n], IndexesOf(t.exam.scores, t.exam.subjects[n].id, |t.exam.scores|)[i], le);
  }

  /** Subject k with each of its scores. */
  function PlacesIn(t: Taught, k: nat): (places: seq<(nat, nat)>)
    requires k < |t.courses|
    ensures |places| == |IndexesOf(t.exam.scores, t.exam.subjects[k].id, |t.exam.scores|)|
  {
    var found := IndexesOf(t.exam.scores, t.exam.subjects[k].id, |t.exam.scores|);
    seq(|found|, i requires 0 <= i < |found| => (k, found[i]))
  }

  /** Subject and score of every row, for the first n subjects. */
  function Places(v: Viewer, t: Taught, n: nat): seq<(nat, nat)>
    requires n <= |t.courses|
  {
    if n == 0 then []
    else Places(v, t, n - 1) + if MaySee(v, t.classroomId, t.courses[n - 1]) then PlacesIn(t, n - 1) else []
  }

  predicate Before(a: (nat, nat), b: (nat, nat)) {
    a.0 < b.0 || (a.0 == b.0 && a.1 < b.1)
  }

  /** A score in a subject the viewer may see. */
  predicate Visible(v: Viewer, t: Taught, k: nat, i: nat) {
    k < |t.courses| && i < |t.exam.scores| && MaySee(v, t.classroomId, t.courses[k]) && t.exam.scores[i].subjectId == t.exam.subjects[k].id
  }

  predicate InSubject(t: Taught, k: nat, i: nat)
    requires k < |t.courses|
  {
    i < |t.exam.scores| && t.exam.scores[i].subjectId == t.exam.subjects[k].id
  }

  lemma PlacesInAre(t: Taught, k: nat)
    requires k < |t.courses|
    ensures
      var places := PlacesIn(t, k);
      && (forall p | p in places :: p.0 == k && InSubject(t, k, p.1))
      && (forall i, j | 0 <= i < j < |places| :: Before(places[i], places[j]))
      && (forall i: nat :: InSubject(t, k, i) ==> (k, i) in places)
  {
    hide IndexesOf;
    var places, found := PlacesIn(t, k), IndexesOf(t.exam.scores, t.exam.subjects[k].id, |t.exam.scores|);
    IndexesAre(t.exam.scores, t.exam.subjects[k].id, |t.exam.scores|);
    forall i: nat | InSubject(t, k, i) ensures (k, i) in places {
      var j :| 0 <= j < |found| && found[j] == i;
      assert places[j] == (k, i);
    }
  }

  /** The places are the visible scores, each once, subject by subject and in the order of the scores. */
  lemma {:induction false} PlacesAre(v: Viewer, t: Taught, n: nat)
    requires n <= |t.courses|
    ensures
      var places := Places(v, t, n);
      && (forall p | p in places :: p.0 < n && Visible(v, t, p.0, p.1))
      && (forall i, j | 0 <= i < j < |places| :: Before(places[i], places[j]))
      && (forall k: nat, i: nat | k < n && Visible(v, t, k, i) :: (k, i) in places)
  {
    hide MaySee, PlacesIn;
    if n > 0 {
      PlacesAre(v, t, n - 1);
      PlacesInAre(t, n - 1);
      PlacesSnoc(v, t, n);
      var up, own, all := Places(v, t, n - 1), PlacesIn(t, n - 1), Places(v, t, n);
      forall i, j | 0 <= i < j < |all| ensures Before(all[i], all[j]) {
        if i < |up| <= j { assert all[i] in up && all[j] in own; }
      }
    }
  }

  lemma PlacesSnoc(v: Viewer, t: Taught, n: nat)
    requires 0 < n <= |t.courses|
    ensures Places(v, t, n) == Places(v, t, n - 1) + if MaySee(v, t.classroomId, t.courses[n - 1]) then PlacesIn(t, n - 1) else []
  {
  }

  lemma {:induction false} RowsFollowPlaces(v: Viewer, t: Taught, n: nat, le: Collation)
    requires OneScorePerCell(t.exam.scores) && n <= |t.courses|
    ensures
      var rows, places := ExamRows(v, t, n, le), Places(v, t, n);
      |rows| == |places| && forall i | 0 <= i < |rows| :: RowIs(v, t, le, rows[i], places[i].0, places[i].1)
  {
    hide OneScorePerCell, SubjectRows, IndexesOf, MaySee, RowIs;
    if n > 0 {
      RowsFollowPlaces(v, t, n - 1, le);
      if MaySee(v, t.classroomId, t.courses[n - 1]) {
        var found := IndexesOf(t.exam.scores, t.exam.subjects[n - 1].id, |t.exam.scores|);
        forall i: nat | i < |found| ensures RowIs(v, t, le, SubjectRows(t.exam, t.exam.subjects[n - 1], le)[i], n - 1, found[i]) {
          SubjectRowIs(v, t, n - 1, le, i);
        }
      }
    }
  }

  lemma NewestFirstIsPreorder(byId: IdOrder)
    ensures TotalPreorder(NewestFirst(byId))
  {
    OrdersArePreorders(byId);
    hide Descending;
    var f, g := NewestFirst(byId), Descending(byId);
    forall x, y ensures f(x, y) || f(y, x) { assert g(x.exam, y.exam) || g(y.exam, x.exam); }
    forall x, y, z | f(x, y) && f(y, z) ensures f(x, z) { assert g(x.exam, y.exam) && g(y.exam, z.exam); }
  }

  /** The exam shown is an eligible one and none that is eligible comes after it; nothing is shown when there is none. */
  lemma LatestIsNewest(v: Viewer, exams: seq<Taught>, byId: IdOrder)
    ensures
      var latest := Latest(v, exams, byId);
      && |latest| <= 1
      && (latest == [] <==> forall t | t in exams :: !Eligible(v, t))
      && (latest != [] ==> latest[0] in exams && Eligible(v, latest[0])
                           && forall t | t in exams && Eligible(v, t) :: NewestFirst(byId)(latest[0], t))
  {
    hide EligibleOf, Eligible, Sort, NewestFirst, TotalPreorder;
    var found := EligibleOf(v, exams);
    var sorted := Sort(found, NewestFirst(byId));
    NewestFirstIsPreorder(byId);
    SortIsSorted(found, NewestFirst(byId));
    forall t ensures t in sorted <==> t in exams && Eligible(v, t) {
      EligibleMembers(v, exams, t);
      assert t in multiset(sorted) <==> t in multiset(found);
    }
    if sorted != [] {
      assert sorted[0] in sorted;
      forall t | t in exams && Eligible(v, t) ensures NewestFirst(byId)(Latest(v, exams, byId)[0], t) {
        var i :| 0 <= i < |sorted| && sorted[i] == t;
        LessOrSame(byId, sorted[0]);
      }
    }
  }

  lemma LessOrSame(byId: IdOrder, t: Taught)
    ensures NewestFirst(byId)(t, t)
  {
    NewestFirstIsPreorder(byId);
  }

  /**
   A teacher's rows are exactly the scores, of the latest exam they teach in, of
   the subjects whose class and course they are assigned to: each once, subject
   by subject in display order and within a subject in the order of the scores,
   and each with the score, absence and rank its student is shown.  Staff see
   every subject.
   */
  lemma RowsAreTheAssignedScores(v: Viewer, exams: seq<Taught>, byId: IdOrder, le: Collation)
    requires forall t | t in exams :: OneScorePerCell(t.exam.scores)
    requires !v.OtherViewer?
    ensures
      var rows := ForTeacher(v, exams, byId, le);
      var latest := Latest(v, exams, byId);
      && rows.Some?
      && if latest == [] then rows.value == []
         else
           var t := latest[0];
           var places := Places(v, t, |t.courses|);
           && |rows.value| == |places|
           && (forall i | 0 <= i < |places| :: RowIs(v, t, le, rows.value[i], places[i].0, places[i].1))
           && (forall i, j | 0 <= i < j < |places| :: Before(places[i], places[j]))
           && (forall k: nat, i: nat :: (k, i) in places <==> Visible(v, t, k, i))
  {
    hide OneScorePerCell, RowIs, ExamRows, Latest, Places, Visible, Eligible;
    LatestIsNewest(v, exams, byId);
    var latest := Latest(v, exams, byId);
    if latest != [] {
      NoAssignmentNoExam(v, latest[0]);
      PlacesAre(v, latest[0], |latest[0].courses|);
      RowsFollowPlaces(v, latest[0], |latest[0].courses|, le);
      VisibleIsInRange(v, latest[0]);
    }
  }

  lemma NoAssignmentNoExam(v: Viewer, t: Taught)
    requires Eligible(v, t)
    ensures v.TeacherViewer? ==> v.assignments != []
  {
  }

  lemma VisibleIsInRange(v: Viewer, t: Taught)
    ensures forall k: nat, i: nat | Visible(v, t, k, i) :: k < |t.courses|
  {
  }
}
