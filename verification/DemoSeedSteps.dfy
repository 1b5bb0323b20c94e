/** What each step of the seeder settles, and that it leaves a settled batch alone. */
module DemoSeedSteps {
  import opened Prelude
  import opened Permutations
  import opened DemoBatch
  import opened DemoSeed
  import Domain = ExamStore

  // ---- the schema's primary keys, and the query for the students ----

  predicate UniqueExamIds(t: Tables) {
    (forall a, b | a in t.exams && b in t.exams && t.exams[a].id == t.exams[b].id :: a == b)
    && forall a | a in t.exams :: t.exams[a].id !in t.otherExams
  }

  predicate UniqueSubjectIds(t: Tables) {
    forall a, b | a in t.subjects && b in t.subjects && t.subjects[a].id == t.subjects[b].id :: a == b
  }

  predicate UniqueCourseIds(t: Tables) {
    forall a, b | a in t.courses && b in t.courses && t.courses[a].id == t.courses[b].id :: a == b
  }

  predicate UniquePeopleIds(t: Tables) {
    forall a, b | a in t.people && b in t.people && t.people[a].id == t.people[b].id :: a == b
  }

  predicate Valid(t: Tables) {
    UniqueExamIds(t) && UniqueSubjectIds(t) && UniqueCourseIds(t) && UniquePeopleIds(t)
  }

  predicate IsListed(t: Tables, e: string) {
    e in t.people && t.people[e].kind == Domain.Student && "student:" <= e
  }

  function StudentOf(t: Tables, e: string): DemoStudent
    requires e in t.people
  {
    DemoStudent(t.people[e].id, e, t.people[e].eduplusUserId)
  }

  /** The students of the tenant, each once, in any order. */
  ghost predicate Fetched(t: Tables, students: seq<DemoStudent>) {
    && (forall i | 0 <= i < |students| :: IsListed(t, students[i].eduplusId) && students[i] == StudentOf(t, students[i].eduplusId))
    && (forall i, j | 0 <= i < j < |students| :: students[i].eduplusId != students[j].eduplusId)
    && (forall e | IsListed(t, e) :: StudentOf(t, e) in students)
  }

  lemma FetchedAreDistinct(t: Tables, students: seq<DemoStudent>)
    requires UniquePeopleIds(t) && Fetched(t, students)
    ensures DistinctIds(students)
  {
    forall i, j | 0 <= i < j < |students| ensures students[i].id != students[j].id {
      assert IsListed(t, students[i].eduplusId) && IsListed(t, students[j].eduplusId);
      assert t.people[students[i].eduplusId].id == students[i].id && t.people[students[j].eduplusId].id == students[j].id;
    }
  }

  lemma DistinctIdsPermuted(students: seq<DemoStudent>, other: seq<DemoStudent>)
    requires multiset(students) == multiset(other) && DistinctIds(students)
    ensures DistinctIds(other)
  {
    assert forall i, j | 0 <= i < j < |students| && students[i] == students[j] :: students[i].id == students[j].id;
    PermutedAllDifferent(students, other);
    forall i, j | 0 <= i < j < |other| ensures other[i].id != other[j].id {
      var a := PermutedMember(students, other, i);
      var b := PermutedMember(students, other, j);
      assert a != b;
    }
  }

  // ---- keys ----

  lemma SuffixesDiffer(prefix: string, a: string, b: string)
    ensures prefix + a == prefix + b <==> a == b
  {
    assert (prefix + a)[|prefix|..] == a;
    assert (prefix + b)[|prefix|..] == b;
  }

  lemma KeysDiffer(i: Index, j: Index)
    ensures ExamKey(i) == ExamKey(j) <==> i == j
    ensures CourseKey(i) == CourseKey(j) <==> i == j
  {
    SuffixesDiffer(BATCH_KEY + ":", EXAM_KEYS[i], EXAM_KEYS[j]);
    SuffixesDiffer(BATCH_KEY + ":course:", SUBJECT_KEYS[i], SUBJECT_KEYS[j]);
    KeyWordsDiffer(i, j);
  }

  lemma KeyWordsDiffer(i: Index, j: Index)
    ensures EXAM_KEYS[i] == EXAM_KEYS[j] <==> i == j
    ensures SUBJECT_KEYS[i] == SUBJECT_KEYS[j] <==> i == j
  {
    assert "weekly"[0] == 'w' && "monthly"[0] == 'm' && "midterm"[0] == 'm' && "monthly"[1] == 'o' && "midterm"[1] == 'i';
    assert "chinese"[0] == 'c' && "math"[0] == 'm' && "english"[0] == 'e';
  }

  // ---- what the steps settle ----

  predicate CourseSettled(t: Tables, j: Index) {
    CourseKey(j) in t.courses && t.courses[CourseKey(j)].name == SUBJECT_NAMES[j] && t.courses[CourseKey(j)].active
  }

  predicate ExamSettled(t: Tables, i: Index) {
    ExamKey(i) in t.exams && t.exams[ExamKey(i)].isDemo && t.exams[ExamKey(i)].title == EXAM_TITLES[i]
    && t.exams[ExamKey(i)].status != Domain.Withdrawn
  }

  predicate SubjectSettled(t: Tables, i: Index, j: Index) {
    var k := (ExamId(t, i), CourseId(t, j));
    k in t.subjects && t.subjects[k].maximumScore == 100_00
  }

  predicate CreatorSettled(t: Tables) {
    CREATOR_KEY in t.people && t.people[CREATOR_KEY].kind == Domain.Staff && t.people[CREATOR_KEY].name == CREATOR_NAME
    && t.people[CREATOR_KEY].active
  }

  predicate ClassSettled(t: Tables) {
    CLASS_KEY in t.classrooms && t.classrooms[CLASS_KEY].name == CLASS_NAME && t.classrooms[CLASS_KEY].active
  }

  predicate PeopleSettled(t: Tables, students: seq<DemoStudent>) {
    && CreatorSettled(t) && ClassSettled(t)
    && (forall j: Index :: CourseSettled(t, j))
    && (forall k | 0 <= k < |students| ::
          MembershipTaken(t.memberships, MembershipRows(t, students)[k].0, MembershipRows(t, students)[k].1))
  }

  predicate ExamsSettled(t: Tables) {
    (forall i: Index :: ExamSettled(t, i)) && forall i: Index, j: Index :: SubjectSettled(t, i, j)
  }

  // people, class, courses, memberships

  /** A row whose id is its old one or belongs to no other course keeps the ids unique. */
  lemma PutCourse(t: Tables, key: string, row: Course)
    requires UniqueCourseIds(t)
    requires if key in t.courses then row.id == t.courses[key].id else forall c | c in t.courses :: t.courses[c].id != row.id
    ensures UniqueCourseIds(t.(courses := t.courses[key := row]))
  {
  }

  lemma CourseIsSettled(t: Tables, j: Index, uuid: string -> string)
    requires MakeCourse(t, j, uuid).Ok?
    ensures
      var after := MakeCourse(t, j, uuid).value;
      && after == t.(courses := after.courses) && CourseSettled(after, j)
      && forall k | k in t.courses && k != CourseKey(j) :: k in after.courses && after.courses[k] == t.courses[k]
  {
    hide CourseKey;
  }

  lemma CourseIdsStayUnique(t: Tables, j: Index, uuid: string -> string)
    requires UniqueCourseIds(t) && MakeCourse(t, j, uuid).Ok?
    ensures UniqueCourseIds(MakeCourse(t, j, uuid).value)
  {
    hide CourseKey, UniqueCourseIds;
    PutCourse(t, CourseKey(j), MakeCourse(t, j, uuid).value.courses[CourseKey(j)]);
  }

  lemma CourseStep(t: Tables, j: Index, uuid: string -> string)
    requires UniqueCourseIds(t) && MakeCourse(t, j, uuid).Ok?
    ensures
      var after := MakeCourse(t, j, uuid).value;
      && after == t.(courses := after.courses) && UniqueCourseIds(after) && CourseSettled(after, j)
      && forall i: Index | i != j && CourseSettled(t, i) :: CourseSettled(after, i)
  {
    hide CourseKey, UniqueCourseIds, MakeCourse;
    CourseIsSettled(t, j, uuid);
    CourseIdsStayUnique(t, j, uuid);
    forall i: Index | i != j && CourseSettled(t, i) ensures CourseSettled(MakeCourse(t, j, uuid).value, i) { KeysDiffer(i, j); }
  }

  lemma {:induction false} CoursesStep(t: Tables, n: nat, uuid: string -> string)
    requires n <= 3 && UniqueCourseIds(t) && MakeCourses(t, n, uuid).Ok?
    ensures
      var after := MakeCourses(t, n, uuid).value;
      && after == t.(courses := after.courses) && UniqueCourseIds(after)
      && forall j: Index | j < n :: CourseSettled(after, j)
  {
    hide MakeCourse, UniqueCourseIds, CourseSettled;
    if n > 0 {
      CoursesStep(t, n - 1, uuid);
      CourseStep(MakeCourses(t, n - 1, uuid).value, n - 1, uuid);
    }
  }

  lemma {:induction false} MembershipsStep(memberships: map<string, Membership>, rows: seq<(string, Membership)>, key: string, m: Membership)
    ensures MembershipTaken(memberships, key, m) || (key, m) in rows ==> MembershipTaken(AddMemberships(memberships, rows), key, m)
  {
    if rows != [] {
      var n := |rows| - 1;
      var before := AddMemberships(memberships, rows[..n]);
      MembershipsStep(memberships, rows[..n], key, m);
      TakenStays(before, rows[n].0, rows[n].1, key, m);
      assert rows == rows[..n] + [rows[n]];
    }
  }

  lemma TakenStays(memberships: map<string, Membership>, newKey: string, added: Membership, key: string, m: Membership)
    ensures
      var after := if MembershipTaken(memberships, newKey, added) then memberships else memberships[newKey := added];
      (MembershipTaken(memberships, key, m) ==> MembershipTaken(after, key, m)) && MembershipTaken(after, newKey, added)
  {
    var after := if MembershipTaken(memberships, newKey, added) then memberships else memberships[newKey := added];
    if key !in memberships && MembershipTaken(memberships, key, m) {
      var k :| k in memberships && memberships[k].studentId == m.studentId && memberships[k].classroomId == m.classroomId;
      assert k in after && after[k] == memberships[k];
    }
  }

  lemma ClassStep(t: Tables, uuid: string -> string)
    requires MakeClass(t, uuid).Ok?
    ensures
      var after := MakeClass(t, uuid).value;
      after == t.(classrooms := after.classrooms) && ClassSettled(after)
  {
  }

  lemma CourseSettledKeeps(a: Tables, b: Tables, j: Index)
    requires a.courses == b.courses && CourseSettled(a, j)
    ensures CourseSettled(b, j)
  {
  }

  lemma PeopleStep(t: Tables, students: seq<DemoStudent>, uuid: string -> string)
    requires Valid(t) && Fetched(t, students) && MakePeople(t, students, uuid).Ok?
    ensures
      var after := MakePeople(t, students, uuid).value;
      && Valid(after) && Fetched(after, students) && PeopleSettled(after, students)
      && after.exams == t.exams && after.otherExams == t.otherExams && after.subjects == t.subjects && after.scores == t.scores
  {
    hide MakeCreator, MakeClass, MakeCourses, UniqueExamIds, UniqueSubjectIds, UniqueCourseIds, UniquePeopleIds,
         Fetched, MembershipTaken, CourseSettled, CreatorSettled, ClassSettled, AddMemberships, MembershipRows;
    var t1 := MakeCreator(t, uuid).value;
    CreatorKeepsListing(t, students, uuid);
    SameIds(t, t1);
    ClassStep(t1, uuid);
    var t2 := MakeClass(t1, uuid).value;
    SameIds(t1, t2);
    CoursesStep(t2, 3, uuid);
    var t3 := MakeCourses(t2, 3, uuid).value;
    SameIds(t2, t3);
    var after := MakePeople(t, students, uuid).value;
    SameIds(t3, after);
    FetchedIgnores(t1, after, students);
    SettledRowsKeep(t1, t2, after);
    forall j: Index ensures CourseSettled(after, j) { CourseSettledKeeps(t3, after, j); }
    MembershipsSettled(t3, students);
  }

  lemma SettledRowsKeep(t1: Tables, t2: Tables, after: Tables)
    ensures CreatorSettled(t1) && after.people == t1.people ==> CreatorSettled(after)
    ensures ClassSettled(t2) && after.classrooms == t2.classrooms ==> ClassSettled(after)
  {
  }

  lemma MembershipsSettled(t: Tables, students: seq<DemoStudent>)
    ensures
      var rows := MembershipRows(t, students);
      var after := t.(memberships := AddMemberships(t.memberships, rows));
      && MembershipRows(after, students) == rows
      && forall k | 0 <= k < |rows| :: MembershipTaken(after.memberships, rows[k].0, rows[k].1)
  {
    hide MembershipTaken, AddMemberships;
    var rows := MembershipRows(t, students);
    var after := t.(memberships := AddMemberships(t.memberships, rows));
    assert MembershipRows(after, students) == rows;
    forall k | 0 <= k < |rows| ensures MembershipTaken(after.memberships, rows[k].0, rows[k].1) {
      MembershipsStep(t.memberships, rows, rows[k].0, rows[k].1);
    }
  }

  lemma SameIds(a: Tables, b: Tables)
    ensures a.exams == b.exams && a.otherExams == b.otherExams ==> UniqueExamIds(a) == UniqueExamIds(b)
    ensures a.subjects == b.subjects ==> UniqueSubjectIds(a) == UniqueSubjectIds(b)
    ensures a.courses == b.courses ==> UniqueCourseIds(a) == UniqueCourseIds(b)
    ensures a.people == b.people ==> UniquePeopleIds(a) == UniquePeopleIds(b)
  {
  }

  lemma FetchedIgnores(a: Tables, b: Tables, students: seq<DemoStudent>)
    requires a.people == b.people && Fetched(a, students)
    ensures Fetched(b, students)
  {
    forall e | IsListed(b, e) ensures StudentOf(b, e) in students { assert IsListed(a, e); }
    forall i | 0 <= i < |students| ensures IsListed(b, students[i].eduplusId) && students[i] == StudentOf(b, students[i].eduplusId) {
      assert IsListed(a, students[i].eduplusId);
    }
  }

  lemma PutPerson(t: Tables, key: string, row: Person)
    requires UniquePeopleIds(t)
    requires if key in t.people then row.id == t.people[key].id else forall p | p in t.people :: t.people[p].id != row.id
    ensures UniquePeopleIds(t.(people := t.people[key := row]))
  {
  }

  lemma CreatorIsSettled(t: Tables, uuid: string -> string)
    requires MakeCreator(t, uuid).Ok?
    ensures
      var after := MakeCreator(t, uuid).value;
      && CreatorSettled(after) && after == t.(people := t.people[CREATOR_KEY := after.people[CREATOR_KEY]])
      && if CREATOR_KEY in t.people then after.people[CREATOR_KEY].id == t.people[CREATOR_KEY].id
         else forall p | p in t.people :: t.people[p].id != after.people[CREATOR_KEY].id
  {
  }

  lemma CreatorStep(t: Tables, uuid: string -> string)
    requires UniquePeopleIds(t) && MakeCreator(t, uuid).Ok?
    ensures
      var after := MakeCreator(t, uuid).value;
      after == t.(people := after.people) && UniquePeopleIds(after) && CreatorSettled(after)
  {
    hide UniquePeopleIds, MakeCreator;
    CreatorIsSettled(t, uuid);
    PutPerson(t, CREATOR_KEY, MakeCreator(t, uuid).value.people[CREATOR_KEY]);
  }

  lemma CreatorIsNoStudent()
    ensures !("student:" <= CREATOR_KEY)
  {
    assert CREATOR_KEY[0] == 'd' && "student:"[0] == 's';
  }

  lemma CreatorKeepsListed(t: Tables, uuid: string -> string, e: string)
    requires MakeCreator(t, uuid).Ok?
    ensures IsListed(MakeCreator(t, uuid).value, e) <==> IsListed(t, e)
    ensures IsListed(t, e) ==> StudentOf(MakeCreator(t, uuid).value, e) == StudentOf(t, e)
  {
    CreatorIsNoStudent();
  }

  lemma CreatorKeepsListing(t: Tables, students: seq<DemoStudent>, uuid: string -> string)
    requires UniquePeopleIds(t) && Fetched(t, students) && MakeCreator(t, uuid).Ok?
    ensures
      var after := MakeCreator(t, uuid).value;
      after == t.(people := after.people) && UniquePeopleIds(after) && Fetched(after, students) && CreatorSettled(after)
  {
    hide MakeCreator, IsListed, StudentOf, UniquePeopleIds, CreatorSettled;
    CreatorStep(t, uuid);
    var after := MakeCreator(t, uuid).value;
    forall e | IsListed(after, e) ensures e in after.people && StudentOf(after, e) in students {
      CreatorKeepsListed(t, uuid, e);
      ListedIsThere(after, e);
      ListedIsThere(t, e);
    }
    forall i | 0 <= i < |students|
      ensures IsListed(after, students[i].eduplusId) && students[i].eduplusId in after.people
           && students[i] == StudentOf(after, students[i].eduplusId)
    {
      CreatorKeepsListed(t, uuid, students[i].eduplusId);
      ListedIsThere(after, students[i].eduplusId);
    }
  }

  lemma ListedIsThere(t: Tables, e: string)
    requires IsListed(t, e)
    ensures e in t.people
  {
  }

  // exams and their subjects

  lemma ExamStep(t: Tables, i: Index, uuid: string -> string)
    requires UniqueExamIds(t) && MakeExam(t, i, uuid).Ok?
    ensures
      var after := MakeExam(t, i, uuid).value;
      && after == t.(exams := after.exams) && UniqueExamIds(after) && ExamSettled(after, i)
      && (forall k: Index | k != i && ExamSettled(t, k) :: ExamSettled(after, k) && ExamId(after, k) == ExamId(t, k))
  {
    hide UniqueExamIds, ExamKey, ExamIdTaken;
    ExamIdsStayUnique(t, i, uuid);
    var after := MakeExam(t, i, uuid).value;
    forall k: Index | k != i && ExamSettled(t, k) ensures ExamSettled(after, k) && ExamId(after, k) == ExamId(t, k) {
      OtherExamStays(t, i, k, uuid);
    }
  }

  lemma OtherExamStays(t: Tables, i: Index, k: Index, uuid: string -> string)
    requires MakeExam(t, i, uuid).Ok? && k != i && ExamSettled(t, k)
    ensures
      var after := MakeExam(t, i, uuid).value;
      ExamSettled(after, k) && ExamId(after, k) == ExamId(t, k)
  {
    hide ExamKey, ExamIdTaken;
    KeysDiffer(i, k);
  }

  lemma PutExam(t: Tables, key: string, row: DemoExam)
    requires UniqueExamIds(t) && key !in t.exams && !ExamIdTaken(t, row.id)
    ensures UniqueExamIds(t.(exams := t.exams[key := row]))
  {
    var after := t.(exams := t.exams[key := row]);
    forall a, b | a in after.exams && b in after.exams && after.exams[a].id == after.exams[b].id ensures a == b {
      if a != key && b != key { assert t.exams[a].id == t.exams[b].id; }
    }
  }

  lemma ExamIdsStayUnique(t: Tables, i: Index, uuid: string -> string)
    requires UniqueExamIds(t) && MakeExam(t, i, uuid).Ok?
    ensures UniqueExamIds(MakeExam(t, i, uuid).value)
  {
    hide ExamKey, UniqueExamIds, ExamIdTaken;
    if ExamKey(i) !in t.exams { PutExam(t, ExamKey(i), MakeExam(t, i, uuid).value.exams[ExamKey(i)]); }
  }

  lemma PutSubject(t: Tables, key: (string, string), row: ExamSubject)
    requires UniqueSubjectIds(t) && key !in t.subjects && forall k | k in t.subjects :: t.subjects[k].id != row.id
    ensures UniqueSubjectIds(t.(subjects := t.subjects[key := row]))
  {
  }

  /** What one step does to the table: nothing, or one new row of maximum 100 with an id that was free. */
  lemma SubjectIsMade(t: Tables, i: Index, j: Index, uuid: string -> string)
    requires MakeSubject(t, i, j, uuid).Ok?
    ensures
      var after := MakeSubject(t, i, j, uuid).value;
      var key := (ExamId(t, i), CourseId(t, j));
      && key in after.subjects && after.subjects[key].maximumScore == 100_00
      && if key in t.subjects then after == t
         else after == t.(subjects := t.subjects[key := after.subjects[key]])
              && forall k | k in t.subjects :: t.subjects[k].id != after.subjects[key].id
  {
    hide ExamId, CourseId;
  }

  lemma SubjectStep(t: Tables, i: Index, j: Index, uuid: string -> string)
    requires UniqueSubjectIds(t) && MakeSubject(t, i, j, uuid).Ok?
    ensures
      var after := MakeSubject(t, i, j, uuid).value;
      && after == t.(subjects := after.subjects) && UniqueSubjectIds(after) && SubjectSettled(after, i, j)
      && (forall a: Index, b: Index | SubjectSettled(t, a, b) :: SubjectSettled(after, a, b))
  {
    hide MakeSubject, UniqueSubjectIds, ExamId, CourseId;
    SubjectIsMade(t, i, j, uuid);
    var after := MakeSubject(t, i, j, uuid).value;
    var key := (ExamId(t, i), CourseId(t, j));
    if key !in t.subjects { PutSubject(t, key, after.subjects[key]); }
    SubjectsOnly(t, after);
  }

  lemma SubjectsOnly(t: Tables, after: Tables)
    requires after == t.(subjects := after.subjects)
    ensures forall i: Index :: ExamId(after, i) == ExamId(t, i) && CourseId(after, i) == CourseId(t, i)
  {
    hide ExamKey, CourseKey;
  }

  lemma {:induction false} SubjectsStep(t: Tables, i: Index, n: nat, uuid: string -> string)
    requires n <= 3 && UniqueSubjectIds(t) && MakeSubjects(t, i, n, uuid).Ok?
    ensures
      var after := MakeSubjects(t, i, n, uuid).value;
      && after == t.(subjects := after.subjects) && UniqueSubjectIds(after)
      && (forall j: Index | j < n :: SubjectSettled(after, i, j))
      && (forall a: Index, b: Index | SubjectSettled(t, a, b) :: SubjectSettled(after, a, b))
  {
    hide MakeSubject, UniqueSubjectIds, SubjectSettled;
    if n > 0 {
      SubjectsStep(t, i, n - 1, uuid);
      SubjectStep(MakeSubjects(t, i, n - 1, uuid).value, i, n - 1, uuid);
    }
  }

  predicate ExamsSettledUpTo(t: Tables, n: nat) {
    (forall i: Index | i < n :: ExamSettled(t, i)) && forall i: Index, j: Index | i < n :: SubjectSettled(t, i, j)
  }

  lemma {:induction false} ExamsStep(t: Tables, n: nat, uuid: string -> string)
    requires n <= 3 && UniqueExamIds(t) && UniqueSubjectIds(t) && MakeExams(t, n, uuid).Ok?
    ensures
      var after := MakeExams(t, n, uuid).value;
      && after == t.(exams := after.exams, subjects := after.subjects) && UniqueExamIds(after) && UniqueSubjectIds(after)
      && ExamsSettledUpTo(after, n)
  {
    hide MakeExam, MakeSubjects, UniqueExamIds, UniqueSubjectIds, ExamSettled, SubjectSettled;
    if n > 0 {
      var before := MakeExams(t, n - 1, uuid).value;
      ExamsStep(t, n - 1, uuid);
      ExamStep(before, n - 1, uuid);
      var made := MakeExam(before, n - 1, uuid).value;
      SameIds(before, made);
      forall a: Index, b: Index | a < n - 1 ensures SubjectSettled(made, a, b) {
        assert ExamSettled(before, a) && SubjectSettled(before, a, b);
        SubjectSettledKeeps(before, made, a, b);
      }
      SubjectsStep(made, n - 1, 3, uuid);
      var after := MakeExams(t, n, uuid).value;
      SameIds(made, after);
      forall a: Index | a < n ensures ExamSettled(after, a) { ExamSettledKeeps(made, after, a); }
    }
  }

  lemma SubjectSettledKeeps(a: Tables, b: Tables, i: Index, j: Index)
    requires SubjectSettled(a, i, j) && b.subjects == a.subjects && b.courses == a.courses && ExamId(b, i) == ExamId(a, i)
    ensures SubjectSettled(b, i, j)
  {
    hide CourseKey;
  }

  lemma ExamSettledKeeps(a: Tables, b: Tables, i: Index)
    requires ExamSettled(a, i) && a.exams == b.exams
    ensures ExamSettled(b, i)
  {
  }

  // ---- a settled batch is left alone ----

  lemma {:induction false} SettledCourses(t: Tables, n: nat, uuid: string -> string)
    requires n <= 3 && forall j: Index :: CourseSettled(t, j)
    ensures MakeCourses(t, n, uuid) == Ok(t)
  {
    hide CourseSettled, MakeCourse;
    if n > 0 {
      SettledCourses(t, n - 1, uuid);
      SettledCourse(t, n - 1, uuid);
    }
  }

  lemma SettledCourse(t: Tables, j: Index, uuid: string -> string)
    requires CourseSettled(t, j)
    ensures MakeCourse(t, j, uuid) == Ok(t)
  {
    hide CourseKey;
    assert t.courses[CourseKey(j) := t.courses[CourseKey(j)]] == t.courses;
  }

  lemma {:induction false} TakenMemberships(memberships: map<string, Membership>, rows: seq<(string, Membership)>)
    requires forall k | 0 <= k < |rows| :: MembershipTaken(memberships, rows[k].0, rows[k].1)
    ensures AddMemberships(memberships, rows) == memberships
  {
    hide MembershipTaken;
    if rows != [] { TakenMemberships(memberships, rows[..|rows| - 1]); }
  }

  lemma SettledPeople(t: Tables, students: seq<DemoStudent>, uuid: string -> string)
    requires PeopleSettled(t, students)
    ensures MakePeople(t, students, uuid) == Ok(t)
  {
    hide MakeCourses, AddMemberships, CourseSettled, MembershipTaken, MembershipRows;
    assert t.people[CREATOR_KEY := t.people[CREATOR_KEY]] == t.people;
    assert t.classrooms[CLASS_KEY := t.classrooms[CLASS_KEY]] == t.classrooms;
    SettledCourses(t, 3, uuid);
    TakenMemberships(t.memberships, MembershipRows(t, students));
  }

  lemma {:induction false} SettledSubjects(t: Tables, i: Index, n: nat, uuid: string -> string)
    requires n <= 3 && forall j: Index :: SubjectSettled(t, i, j)
    ensures MakeSubjects(t, i, n, uuid) == Ok(t)
  {
    hide ExamId, CourseId;
    if n > 0 {
      SettledSubjects(t, i, n - 1, uuid);
      assert SubjectSettled(t, i, n - 1);
    }
  }

  lemma {:induction false} SettledExams(t: Tables, n: nat, uuid: string -> string)
    requires n <= 3 && ExamsSettled(t)
    ensures MakeExams(t, n, uuid) == Ok(t)
  {
    hide SubjectSettled, MakeSubjects, ExamKey;
    if n > 0 {
      SettledExams(t, n - 1, uuid);
      assert ExamSettled(t, n - 1);
      SettledSubjects(t, n - 1, 3, uuid);
    }
  }
}
