/** A successful seeding leaves exactly the batch, and seeding again changes nothing. */
module DemoSeedResults {
  import opened Prelude
  import opened Upserts
  import opened StableSort
  import opened DemoBatch
  import opened DemoSeed
  import opened DemoSeedSteps
  import Domain = ExamStore

  // ---- different cells are different rows ----

  /** All that the keys of the score rows rest on. */
  predicate Rooted(t: Tables) {
    UniqueExamIds(t) && UniqueSubjectIds(t) && UniqueCourseIds(t) && ExamsSettled(t) && forall j: Index :: CourseSettled(t, j)
  }

  lemma ExamIdsDiffer(t: Tables, i: Index, j: Index)
    requires UniqueExamIds(t) && ExamSettled(t, i) && ExamSettled(t, j)
    ensures ExamId(t, i) == ExamId(t, j) <==> i == j
  {
    hide ExamKey;
    KeysDiffer(i, j);
  }

  lemma CourseIdsDiffer(t: Tables, i: Index, j: Index)
    requires UniqueCourseIds(t) && CourseSettled(t, i) && CourseSettled(t, j)
    ensures CourseId(t, i) == CourseId(t, j) <==> i == j
  {
    hide CourseKey;
    KeysDiffer(i, j);
  }

  lemma SubjectIdsDiffer(t: Tables, i: Index, a: Index, b: Index)
    requires UniqueSubjectIds(t) && UniqueCourseIds(t) && CourseSettled(t, a) && CourseSettled(t, b)
    requires SubjectSettled(t, i, a) && SubjectSettled(t, i, b)
    ensures SubjectId(t, i, a) == SubjectId(t, i, b) <==> a == b
  {
    hide CourseId, ExamId;
    CourseIdsDiffer(t, a, b);
  }

  lemma KeysFollowSlots(t: Tables, a: Cell, b: Cell)
    requires Rooted(t)
    ensures KeyOf(t, a) == KeyOf(t, b) <==> SameSlot(a, b)
  {
    hide UniqueExamIds, UniqueSubjectIds, UniqueCourseIds, ExamSettled, SubjectSettled, CourseSettled, ExamId, SubjectId;
    ExamIdsDiffer(t, a.exam, b.exam);
    if a.exam == b.exam { SubjectIdsDiffer(t, a.exam, a.subject, b.subject); }
  }

  predicate DistinctSlots(cells: seq<Cell>) {
    forall a, b | 0 <= a < b < |cells| :: !SameSlot(cells[a], cells[b])
  }

  lemma ExpectedDistinct(t: Tables, cells: seq<Cell>)
    requires Rooted(t) && DistinctSlots(cells)
    ensures DistinctKeys(Expected(t, cells))
  {
    hide Rooted, KeyOf, SameSlot;
    forall a, b | 0 <= a < b < |cells| ensures Expected(t, cells)[a].0 != Expected(t, cells)[b].0 { KeysFollowSlots(t, cells[a], cells[b]); }
  }

  // ---- inserting what is missing ----

  lemma {:induction false} LastForMember<K, D>(rows: seq<(K, D)>, k: K)
    ensures LastFor(rows, k).Some? ==> exists i :: 0 <= i < |rows| && rows[i].0 == k
  {
    if rows != [] { LastForMember(rows[..|rows| - 1], k); }
  }

  lemma {:induction false} AddScoresAt(scores: map<ScoreKey, Score>, rows: seq<(ScoreKey, Score)>, k: ScoreKey)
    requires DistinctKeys(rows)
    ensures
      var after := AddScores(scores, rows);
      && (k in after <==> k in scores || LastFor(rows, k).Some?)
      && (k in after ==> after[k] == if k in scores then scores[k] else LastFor(rows, k).value)
  {
    if rows != [] {
      var n := |rows| - 1;
      AddScoresAt(scores, rows[..n], k);
      if rows[n].0 == k { LastForMember(rows[..n], k); }
    }
  }

  lemma {:induction false} AddScoresPresent(scores: map<ScoreKey, Score>, rows: seq<(ScoreKey, Score)>)
    requires forall i | 0 <= i < |rows| :: rows[i].0 in scores
    ensures AddScores(scores, rows) == scores
  {
    if rows != [] { AddScoresPresent(scores, rows[..|rows| - 1]); }
  }

  function KeySet(rows: seq<(ScoreKey, Score)>): set<ScoreKey> {
    set i | 0 <= i < |rows| :: rows[i].0
  }

  lemma {:induction false} KeySetSize(rows: seq<(ScoreKey, Score)>)
    requires DistinctKeys(rows)
    ensures |KeySet(rows)| == |rows|
  {
    if rows != [] {
      var n := |rows| - 1;
      KeySetSize(rows[..n]);
      assert KeySet(rows) == KeySet(rows[..n]) + {rows[n].0};
    }
  }

  lemma SubsetOfSameSize(a: set<ScoreKey>, b: set<ScoreKey>)
    requires a <= b
    ensures |a| <= |b| && (|a| == |b| ==> a == b)
  {
    assert b == a + (b - a);
  }

  // ---- publishing ----

  predicate IsPublished(t: Tables, i: Index) {
    ExamKey(i) in t.exams && t.exams[ExamKey(i)].status == Domain.Published
  }

  predicate AllPublished(t: Tables) {
    forall i: Index :: IsPublished(t, i)
  }

  /** Publishing changes the status and the stamp of demonstration exams only. */
  predicate OnlyPublishes(a: Tables, b: Tables) {
    && b == a.(exams := b.exams) && b.exams.Keys == a.exams.Keys
    && forall k | k in a.exams :: b.exams[k] == a.exams[k].(status := b.exams[k].status, publishedAt := b.exams[k].publishedAt)
  }

  lemma OnlyPublishesTwice(a: Tables, b: Tables, c: Tables)
    requires OnlyPublishes(a, b) && OnlyPublishes(b, c)
    ensures OnlyPublishes(a, c)
  {
  }

  lemma PublishStep(t: Tables, i: Index, now: int)
    requires ExamSettled(t, i)
    ensures
      var after := PublishOne(t, i, now);
      && OnlyPublishes(t, after) && IsPublished(after, i)
      && (forall j: Index :: IsPublished(t, j) ==> IsPublished(after, j))
      && (forall j: Index :: ExamSettled(t, j) ==> ExamSettled(after, j))
  {
    hide ExamKey, PublishOne, ExamSettled, IsPublished, OnlyPublishes;
    PublishOnlyPublishes(t, i, now);
    forall j: Index ensures IsPublished(t, j) ==> IsPublished(PublishOne(t, i, now), j) { StaysPublished(t, i, j, now); }
    forall j: Index ensures ExamSettled(t, j) ==> ExamSettled(PublishOne(t, i, now), j) { StaysSettled(t, i, j, now); }
  }

  lemma PublishOnlyPublishes(t: Tables, i: Index, now: int)
    requires ExamSettled(t, i)
    ensures OnlyPublishes(t, PublishOne(t, i, now)) && IsPublished(PublishOne(t, i, now), i)
  {
    hide ExamKey;
  }

  lemma StaysPublished(t: Tables, i: Index, j: Index, now: int)
    requires ExamSettled(t, i)
    ensures IsPublished(t, j) ==> IsPublished(PublishOne(t, i, now), j)
  {
    hide ExamKey;
  }

  lemma StaysSettled(t: Tables, i: Index, j: Index, now: int)
    requires ExamSettled(t, i)
    ensures ExamSettled(t, j) ==> ExamSettled(PublishOne(t, i, now), j)
  {
    hide ExamKey;
  }

  lemma {:induction false} PublishedUpTo(t: Tables, n: nat, now: int)
    requires n <= 3 && forall i: Index :: ExamSettled(t, i)
    ensures
      var after := PublishAll(t, n, now);
      && OnlyPublishes(t, after) && (forall i: Index :: ExamSettled(after, i))
      && forall i: Index | i < n :: IsPublished(after, i)
  {
    hide PublishOne, ExamSettled, IsPublished, OnlyPublishes;
    if n == 0 {
      PublishesNothing(t);
    } else {
      PublishedUpTo(t, n - 1, now);
      var before := PublishAll(t, n - 1, now);
      PublishStep(before, n - 1, now);
      OnlyPublishesTwice(t, before, PublishOne(before, n - 1, now));
    }
  }

  lemma PublishesNothing(t: Tables)
    ensures OnlyPublishes(t, t)
  {
  }

  lemma {:induction false} PublishedStay(t: Tables, n: nat, now: int)
    requires n <= 3 && AllPublished(t)
    ensures PublishAll(t, n, now) == t
  {
    hide ExamKey;
    if n > 0 {
      PublishedStay(t, n - 1, now);
      assert IsPublished(t, n - 1);
    }
  }

  lemma PublishingKeeps(a: Tables, b: Tables)
    requires OnlyPublishes(a, b) && Valid(a)
    ensures Valid(b)
    ensures forall i: Index :: ExamId(b, i) == ExamId(a, i)
    ensures forall i: Index, j: Index :: SubjectId(b, i, j) == SubjectId(a, i, j) && (SubjectSettled(a, i, j) ==> SubjectSettled(b, i, j))
    ensures DemoIds(b) == DemoIds(a) && DemoScores(b) == DemoScores(a)
  {
    hide ExamKey, CourseKey;
  }

  // ---- exactly the batch ----

  /** The three exams are published and their score rows are the cells, one row per cell and no other. */
  ghost predicate HoldsExactly(t: Tables, cells: seq<Cell>) {
    && AllPublished(t)
    && (forall c | 0 <= c < |cells| ::
          KeyOf(t, cells[c]) in t.scores
          && t.scores[KeyOf(t, cells[c])].value == Some(100 * cells[c].value) && !t.scores[KeyOf(t, cells[c])].absent)
    && DemoScores(t).Keys == (set c | 0 <= c < |cells| :: KeyOf(t, cells[c]))
    && |DemoScores(t)| == |cells|
  }

  /** The row of cell c after the insertion. */
  lemma WrittenCell(t: Tables, cells: seq<Cell>, c: nat)
    requires c < |cells| && DistinctKeys(Expected(t, cells)) && ValuesFit(t, Expected(t, cells))
    ensures
      var scores := AddScores(t.scores, Expected(t, cells));
      var k := KeyOf(t, cells[c]);
      k in scores && scores[k].value == Some(100 * cells[c].value) && !scores[k].absent && k.examId in DemoIds(t)
  {
    hide LastFor, AddScores, DistinctKeys, DemoIds, KeyOf, ValuesFit;
    var expected, k := Expected(t, cells), KeyOf(t, cells[c]);
    KeyIsDemo(t, cells[c]);
    AddScoresAt(t.scores, expected, k);
    LastForDistinct(expected, c);
    if k in t.scores { FittingRow(t, expected, k); }
  }

  lemma FittingRow(t: Tables, expected: seq<(ScoreKey, Score)>, k: ScoreKey)
    requires ValuesFit(t, expected) && k in t.scores && k.examId in DemoIds(t)
    ensures !t.scores[k].absent && t.scores[k].value == ExpectedValue(expected, k)
  {
    hide DemoIds, ExpectedValue;
    assert k in DemoScores(t);
  }

  /** The score rows of the three exams after the insertion are those before it and the expected ones. */
  lemma WrittenRows(t: Tables, cells: seq<Cell>)
    requires DistinctKeys(Expected(t, cells))
    ensures
      var expected := Expected(t, cells);
      DemoScores(t.(scores := AddScores(t.scores, expected))).Keys == DemoScores(t).Keys + KeySet(expected)
  {
    hide LastFor, AddScores, DistinctKeys, DemoIds, KeyOf;
    var expected := Expected(t, cells);
    var written := t.(scores := AddScores(t.scores, expected));
    SameIdsWritten(t, written);
    forall k ensures k in DemoScores(written).Keys <==> k in DemoScores(t).Keys + KeySet(expected) {
      AddScoresAt(t.scores, expected, k);
      LastForMember(expected, k);
      if k in KeySet(expected) {
        var c :| 0 <= c < |cells| && expected[c].0 == k;
        LastForDistinct(expected, c);
        KeyIsDemo(t, cells[c]);
      }
    }
  }

  lemma WrittenIsExact(t: Tables, cells: seq<Cell>)
    requires Rooted(t) && DistinctSlots(cells) && ValuesFit(t, Expected(t, cells))
    ensures
      var expected := Expected(t, cells);
      var written := t.(scores := AddScores(t.scores, expected));
      && |cells| <= |DemoScores(written)|
      && (|DemoScores(written)| == |cells| ==> DemoScores(written).Keys == KeySet(expected))
      && DemoScores(written).Keys == DemoScores(t).Keys + KeySet(expected)
      && (forall c | 0 <= c < |cells| ::
            KeyOf(t, cells[c]) in written.scores
            && written.scores[KeyOf(t, cells[c])].value == Some(100 * cells[c].value) && !written.scores[KeyOf(t, cells[c])].absent)
  {
    hide Rooted, DemoScores, AddScores, DistinctSlots, DistinctKeys, DemoIds, KeyOf, ValuesFit, KeySet;
    var expected := Expected(t, cells);
    var written := t.(scores := AddScores(t.scores, expected));
    ExpectedDistinct(t, cells);
    WrittenRows(t, cells);
    KeySetSize(expected);
    SubsetOfSameSize(KeySet(expected), DemoScores(written).Keys);
    assert |DemoScores(written)| == |DemoScores(written).Keys|;
    forall c | 0 <= c < |cells|
      ensures KeyOf(t, cells[c]) in written.scores
      ensures written.scores[KeyOf(t, cells[c])].value == Some(100 * cells[c].value) && !written.scores[KeyOf(t, cells[c])].absent
    {
      WrittenCell(t, cells, c);
    }
  }

  lemma SameIdsWritten(t: Tables, written: Tables)
    requires written == t.(scores := written.scores)
    ensures DemoIds(written) == DemoIds(t)
    ensures forall c: Cell :: KeyOf(written, c) == KeyOf(t, c)
  {
    hide ExamKey, CourseKey;
  }

  lemma KeyIsDemo(t: Tables, c: Cell)
    ensures KeyOf(t, c).examId in DemoIds(t)
  {
    hide ExamId;
  }

  lemma WriteScoresIsExact(t: Tables, cells: seq<Cell>, now: int)
    requires Valid(t) && Rooted(t) && DistinctSlots(cells) && WriteScores(t, cells, now).Ok?
    ensures
      var after := WriteScores(t, cells, now).value;
      && Valid(after) && Rooted(after) && HoldsExactly(after, cells)
      && after.people == t.people && after.classrooms == t.classrooms && after.courses == t.courses && after.memberships == t.memberships
      && DemoIds(after) == DemoIds(t)
      && forall k: ScoreKey | k.examId !in DemoIds(t) :: (k in after.scores <==> k in t.scores) && (k in t.scores ==> after.scores[k] == t.scores[k])
  {
    hide Valid, PublishAll, AddScores, Expected, ValuesFit, DemoScores, DemoIds, IsPublished, SubjectSettled, CourseSettled, ExamSettled,
         UniqueExamIds, UniqueSubjectIds, UniqueCourseIds, KeyOf, DistinctSlots, OnlyPublishes, LastFor;
    var expected := Expected(t, cells);
    var written := t.(scores := AddScores(t.scores, expected));
    WrittenIsExact(t, cells);
    SameIdsWritten(t, written);
    WrittenStaysRooted(t, written);
    PublishedUpTo(written, 3, now);
    var after := PublishAll(written, 3, now);
    OnlyPublishesTables(written, after);
    PublishingKeeps(written, after);
    PublishedIsRooted(written, after);
    PublishedKeys(written, after);
    assert |Expected(t, cells)| == |cells|;
    assert KeySet(expected) == (set c | 0 <= c < |cells| :: KeyOf(after, cells[c])) by { ExpectedKeySet(t, after, cells); }
    forall k: ScoreKey | k.examId !in DemoIds(t) ensures (k in after.scores <==> k in t.scores) && (k in t.scores ==> after.scores[k] == t.scores[k]) {
      ExpectedDistinct(t, cells);
      AddScoresAt(t.scores, expected, k);
      StrangerIsNotExpected(t, cells, k);
    }
  }

  lemma ExpectedKeySet(t: Tables, after: Tables, cells: seq<Cell>)
    requires forall c: Cell :: KeyOf(after, c) == KeyOf(t, c)
    ensures KeySet(Expected(t, cells)) == (set c | 0 <= c < |cells| :: KeyOf(after, cells[c]))
  {
    hide KeyOf;
    var expected := Expected(t, cells);
    forall c | 0 <= c < |cells| ensures expected[c].0 == KeyOf(after, cells[c]) {}
  }

  lemma StrangerIsNotExpected(t: Tables, cells: seq<Cell>, k: ScoreKey)
    requires k.examId !in DemoIds(t)
    ensures LastFor(Expected(t, cells), k).None?
  {
    hide LastFor, DemoIds, KeyOf;
    LastForMember(Expected(t, cells), k);
    forall c | 0 <= c < |cells| ensures Expected(t, cells)[c].0.examId in DemoIds(t) { KeyIsDemo(t, cells[c]); }
  }

  lemma OnlyPublishesTables(a: Tables, b: Tables)
    requires OnlyPublishes(a, b)
    ensures b == a.(exams := b.exams)
  {
  }

  lemma WrittenStaysRooted(t: Tables, written: Tables)
    requires Valid(t) && Rooted(t) && written == t.(scores := written.scores)
    ensures Valid(written) && Rooted(written) && forall i: Index :: ExamSettled(written, i)
  {
    hide CourseKey, ExamKey;
    forall i: Index, j: Index ensures SubjectSettled(written, i, j) { assert SubjectSettled(t, i, j); }
    forall i: Index ensures ExamSettled(written, i) { assert ExamSettled(t, i); }
    forall i: Index ensures CourseSettled(written, i) { assert CourseSettled(t, i); }
  }

  lemma PublishedIsRooted(a: Tables, b: Tables)
    requires Rooted(a) && Valid(b) && OnlyPublishes(a, b) && forall i: Index :: ExamSettled(b, i)
    requires forall i: Index, j: Index :: SubjectSettled(a, i, j) ==> SubjectSettled(b, i, j)
    ensures Rooted(b)
  {
    hide ExamKey, SubjectSettled, ExamSettled;
    forall j: Index ensures CourseSettled(b, j) { CourseSettledKeeps(a, b, j); }
  }

  lemma PublishedKeys(a: Tables, b: Tables)
    requires forall i: Index :: ExamId(b, i) == ExamId(a, i)
    requires forall i: Index, j: Index :: SubjectId(b, i, j) == SubjectId(a, i, j)
    ensures forall c: Cell :: KeyOf(b, c) == KeyOf(a, c)
  {
    hide ExamId, SubjectId;
  }

  // ---- a second time ----

  lemma WriteScoresAgain(t: Tables, cells: seq<Cell>, now: int)
    requires Rooted(t) && DistinctSlots(cells) && HoldsExactly(t, cells)
    ensures WriteScores(t, cells, now) == Ok(t)
  {
    hide Rooted, DistinctSlots, DemoScores, PublishAll, KeyOf, AllPublished, LastFor, AddScores, DistinctKeys;
    var expected := Expected(t, cells);
    ExpectedDistinct(t, cells);
    forall k | k in DemoScores(t) ensures ValueFits(t, expected, k) {
      var c :| 0 <= c < |cells| && k == KeyOf(t, cells[c]);
      LastForDistinct(expected, c);
    }
    AddScoresPresent(t.scores, expected);
    PublishedStay(t, 3, now);
  }

  // ---- the command ----

  /** What the command checks is what the query returned. */
  lemma BatchIsDistinct(t: Tables, students: seq<DemoStudent>, le: (DemoStudent, DemoStudent) -> bool, digest: string -> nat)
    requires UniquePeopleIds(t) && Fetched(t, students)
    ensures DistinctSlots(CellsOf(digest, Sort(students, le)))
  {
    hide Sort, CellsOf, SameSlot, Fetched, UniquePeopleIds;
    FetchedAreDistinct(t, students);
    DistinctIdsPermuted(students, Sort(students, le));
    BatchShape(digest, Sort(students, le));
  }

  lemma ValidPeople(t: Tables)
    requires Valid(t)
    ensures UniquePeopleIds(t) && UniqueExamIds(t) && UniqueSubjectIds(t) && UniqueCourseIds(t)
  {
  }

  lemma SeedIsExact(t: Tables, students: seq<DemoStudent>, cells: seq<Cell>, uuid: string -> string, now: int)
    requires Valid(t) && Fetched(t, students) && DistinctSlots(cells) && Seed(t, students, cells, uuid, now).Ok?
    ensures
      var after := Seed(t, students, cells, uuid, now).value;
      && Valid(after) && Rooted(after) && HoldsExactly(after, cells)
      && PeopleSettled(after, students) && Fetched(after, students)
      && forall k: ScoreKey | k.examId !in DemoIds(after) :: (k in after.scores <==> k in t.scores) && (k in t.scores ==> after.scores[k] == t.scores[k])
  {
    hide Valid, Fetched, MakePeople, MakeExams, WriteScores, HoldsExactly, PeopleSettled, DemoIds, UniqueExamIds, UniqueSubjectIds,
         UniqueCourseIds, UniquePeopleIds, DistinctSlots, ExamsSettledUpTo, CourseSettled;
    PeopleStep(t, students, uuid);
    var t1 := MakePeople(t, students, uuid).value;
    ValidPeople(t1);
    ExamsStep(t1, 3, uuid);
    var t2 := MakeExams(t1, 3, uuid).value;
    SettledIsRooted(t1, t2, students);
    WriteScoresIsExact(t2, cells, now);
    var after := WriteScores(t2, cells, now).value;
    PeopleSettledKeeps(t1, after, students);
    FetchedIgnores(t1, after, students);
  }

  lemma SettledIsRooted(t1: Tables, t2: Tables, students: seq<DemoStudent>)
    requires Valid(t1) && PeopleSettled(t1, students) && t2 == t1.(exams := t2.exams, subjects := t2.subjects)
    requires UniqueExamIds(t2) && UniqueSubjectIds(t2) && ExamsSettledUpTo(t2, 3)
    ensures Valid(t2) && Rooted(t2)
  {
    hide UniqueExamIds, UniqueSubjectIds, ExamSettled, SubjectSettled, CourseSettled;
    SameIds(t1, t2);
    forall j: Index ensures CourseSettled(t2, j) { CourseSettledKeeps(t1, t2, j); }
  }

  lemma PeopleSettledKeeps(a: Tables, b: Tables, students: seq<DemoStudent>)
    requires PeopleSettled(a, students)
    requires b.people == a.people && b.classrooms == a.classrooms && b.courses == a.courses && b.memberships == a.memberships
    ensures PeopleSettled(b, students)
  {
    hide MembershipTaken, CourseSettled;
    forall j: Index ensures CourseSettled(b, j) { CourseSettledKeeps(a, b, j); }
    assert MembershipRows(b, students) == MembershipRows(a, students);
  }

  lemma SeedAgain(t: Tables, students: seq<DemoStudent>, cells: seq<Cell>, uuid: string -> string, now: int)
    requires Rooted(t) && HoldsExactly(t, cells) && PeopleSettled(t, students) && DistinctSlots(cells)
    ensures Seed(t, students, cells, uuid, now) == Ok(t)
  {
    hide MakePeople, MakeExams, WriteScores, HoldsExactly, PeopleSettled, DistinctSlots, ExamsSettled, UniqueExamIds, UniqueSubjectIds, UniqueCourseIds, CourseSettled;
    SettledPeople(t, students, uuid);
    SettledExams(t, 3, uuid);
    WriteScoresAgain(t, cells, now);
  }

  /** A dry run, an inactive tenant, an unusable student list and a failed transaction all leave the tables as they were. */
  lemma OnlyAnAppliedRunWrites(t: Tables, active: bool, apply: bool, students: seq<DemoStudent>, le: (DemoStudent, DemoStudent) -> bool,
                               digest: string -> nat, uuid: string -> string, now: int)
    ensures
      var (after, r) := RunSeed(t, active, apply, students, le, digest, uuid, now);
      && (r.Err? || !apply ==> after == t)
      && (r.Ok? ==> active && !ShareUser(students) && students != [] && r.value == Report(|students|, 3, 9, 9 * |students|, apply))
  {
    hide Seed, ShareUser, Sort;
  }

  /**
   When an applied run returns, the score rows of the three exams are exactly
   the nine cells of every student, all three exams are published, no other
   score changed, and running it again, with whatever ids and clock, returns the
   same report and changes nothing.
   */
  lemma AppliedRunIsExactAndRepeatable(t: Tables, students: seq<DemoStudent>, le: (DemoStudent, DemoStudent) -> bool, digest: string -> nat,
                                       uuid: string -> string, now: int, uuid': string -> string, later: int)
    requires Valid(t) && Fetched(t, students)
    ensures
      var (after, r) := RunSeed(t, true, true, students, le, digest, uuid, now);
      r.Ok? ==>
      && HoldsExactly(after, CellsOf(digest, Sort(students, le)))
      && |DemoScores(after)| == 9 * |students| == r.value.scoreCount
      && (forall k: ScoreKey | k.examId !in DemoIds(after) :: (k in after.scores <==> k in t.scores) && (k in t.scores ==> after.scores[k] == t.scores[k]))
      && Valid(after) && Fetched(after, students)
      && RunSeed(after, true, true, students, le, digest, uuid', later) == (after, r)
  {
    hide Valid, Fetched, Seed, CheckStudents, CellsOf, Sort, DemoIds, DemoScores, PeopleSettled, Rooted, AllPublished, KeyOf, DistinctSlots;
    var cells := CellsOf(digest, Sort(students, le));
    ValidPeople(t);
    if RunSeed(t, true, true, students, le, digest, uuid, now).1.Ok? {
      BatchIsDistinct(t, students, le, digest);
      SeedIsExact(t, students, cells, uuid, now);
      var after := Seed(t, students, cells, uuid, now).value;
      SeedAgain(after, students, cells, uuid', later);
    }
  }

  /**
   Why the count is needed.  Rows that pass the value check and belong to no cell
   have no value; the write succeeds exactly when there is no such row, and only
   the count notices one.
   */
  lemma OnlyTheCountFindsStrangers(t: Tables, cells: seq<Cell>, now: int)
    requires Rooted(t) && DistinctSlots(cells) && ValuesFit(t, Expected(t, cells))
    ensures forall k | k in DemoScores(t) && k !in KeySet(Expected(t, cells)) :: t.scores[k].value.None? && !t.scores[k].absent
    ensures WriteScores(t, cells, now).Ok? <==> DemoScores(t).Keys <= KeySet(Expected(t, cells))
    ensures WriteScores(t, cells, now).Err? ==> WriteScores(t, cells, now) == Err(CountMismatch)
  {
    hide Rooted, DistinctSlots, DistinctKeys, DemoScores, AddScores, LastFor, PublishAll, ValueFits, Expected, KeySet;
    WrittenIsExact(t, cells);
    var expected := Expected(t, cells);
    forall k | k in DemoScores(t) && k !in KeySet(expected) ensures k in t.scores && t.scores[k].value.None? && !t.scores[k].absent {
      StrangerHasNoValue(t, expected, k);
    }
    ExpectedDistinct(t, cells);
    KeySetSize(expected);
    var written := t.(scores := AddScores(t.scores, expected));
    var all := DemoScores(written).Keys;
    assert |DemoScores(written)| == |all|;
    SubsetOfSameSize(KeySet(expected), all);
    if DemoScores(t).Keys <= KeySet(expected) { assert all == KeySet(expected); }
    if all == KeySet(expected) { assert DemoScores(t).Keys <= all; }
  }

  lemma StrangerHasNoValue(t: Tables, expected: seq<(ScoreKey, Score)>, k: ScoreKey)
    requires k in DemoScores(t) && k !in KeySet(expected) && ValuesFit(t, expected)
    ensures k in t.scores && t.scores[k].value.None? && !t.scores[k].absent
  {
    hide LastFor, DemoIds;
    LastForMember(expected, k);
    assert ValueFits(t, expected, k);
  }

  /** Any row outside the batch will do: a table that would be accepted without it, with it is refused, and only by the count. */
  lemma StrangerIsRefused(t: Tables, cells: seq<Cell>, now: int, k: ScoreKey, graderId: string)
    requires Rooted(t) && DistinctSlots(cells) && WriteScores(t, cells, now).Ok?
    requires k.examId in DemoIds(t) && k !in KeySet(Expected(t, cells)) && k !in t.scores
    ensures
      var with := t.(scores := t.scores[k := Score(graderId, None, false)]);
      && ValuesFit(with, Expected(with, cells))
      && WriteScores(with, cells, now) == Err(CountMismatch)
  {
    hide Rooted, DistinctSlots, DemoIds, KeyOf, AddScores, LastFor, PublishAll, KeySet;
    var with := t.(scores := t.scores[k := Score(graderId, None, false)]);
    SameIdsWritten(t, with);
    RootedIgnoresScores(t, with);
    assert Expected(with, cells) == Expected(t, cells);
    var expected := Expected(t, cells);
    NoExpectedRow(expected, k);
    forall o | o in DemoScores(with) ensures ValueFits(with, expected, o) {
      if o != k { assert o in DemoScores(t) && ValueFits(t, expected, o); }
    }
    OnlyTheCountFindsStrangers(with, cells, now);
    assert k in DemoScores(with).Keys;
  }

  lemma NoExpectedRow(expected: seq<(ScoreKey, Score)>, k: ScoreKey)
    requires k !in KeySet(expected)
    ensures LastFor(expected, k).None?
  {
    hide LastFor;
    LastForMember(expected, k);
  }

  lemma RootedIgnoresScores(t: Tables, with: Tables)
    requires Rooted(t) && with == t.(scores := with.scores)
    ensures Rooted(with)
  {
    hide CourseKey, ExamKey;
    forall i: Index, j: Index ensures SubjectSettled(with, i, j) { assert SubjectSettled(t, i, j); }
    forall i: Index ensures ExamSettled(with, i) { assert ExamSettled(t, i); }
    forall i: Index ensures CourseSettled(with, i) { assert CourseSettled(t, i); }
  }

  // ---- a table on which only the count speaks up ----

  function SampleId(i: Index, j: Index): string {
    [(('a' as int) + 3 * i + j) as char]
  }

  function SampleExam(i: Index): DemoExam {
    DemoExam(ExamKey(i), true, "creator", "class", EXAM_TITLES[i], EXAM_KEYS[i], EXAM_DATES[i], Domain.Draft, None)
  }

  function SampleCourse(j: Index): Course {
    Course(CourseKey(j), Some(COURSE_CODES[j]), SUBJECT_NAMES[j], true)
  }

  function SampleExams(): map<string, DemoExam> {
    map[ExamKey(0) := SampleExam(0), ExamKey(1) := SampleExam(1), ExamKey(2) := SampleExam(2)]
  }

  function SampleCourses(): map<string, Course> {
    map[CourseKey(0) := SampleCourse(0), CourseKey(1) := SampleCourse(1), CourseKey(2) := SampleCourse(2)]
  }

  function RowOfSubjects(i: Index): map<(string, string), ExamSubject> {
    map[(ExamKey(i), CourseKey(0)) := ExamSubject(SampleId(i, 0), 100_00, 0), (ExamKey(i), CourseKey(1)) := ExamSubject(SampleId(i, 1), 100_00, 1),
        (ExamKey(i), CourseKey(2)) := ExamSubject(SampleId(i, 2), 100_00, 2)]
  }

  /** The demonstration exams, courses and subjects, and no score. */
  function Sample(): Tables {
    Tables(map[], map[], SampleCourses(), map[], SampleExams(), {}, RowOfSubjects(0) + RowOfSubjects(1) + RowOfSubjects(2), map[])
  }

  lemma SampleExamAt(i: Index)
    ensures ExamKey(i) in SampleExams() && SampleExams()[ExamKey(i)] == SampleExam(i)
  {
    hide ExamKey;
    KeysDiffer(0, i);
    KeysDiffer(1, i);
    KeysDiffer(2, i);
  }

  lemma SampleCourseAt(j: Index)
    ensures CourseKey(j) in SampleCourses() && SampleCourses()[CourseKey(j)] == SampleCourse(j)
  {
    hide CourseKey;
    KeysDiffer(0, j);
    KeysDiffer(1, j);
    KeysDiffer(2, j);
  }

  lemma RowAt(i: Index, j: Index)
    ensures (ExamKey(i), CourseKey(j)) in RowOfSubjects(i)
    ensures RowOfSubjects(i)[(ExamKey(i), CourseKey(j))] == ExamSubject(SampleId(i, j), 100_00, j)
    ensures forall k | k in RowOfSubjects(i) :: k.0 == ExamKey(i) && exists b: Index :: k.1 == CourseKey(b)
  {
    hide ExamKey, CourseKey;
    KeysDiffer(0, j);
    KeysDiffer(1, j);
    KeysDiffer(2, j);
  }

  lemma SampleSubjectAt(i: Index, j: Index)
    ensures
      var k := (ExamKey(i), CourseKey(j));
      k in Sample().subjects && Sample().subjects[k] == ExamSubject(SampleId(i, j), 100_00, j)
  {
    hide ExamKey, CourseKey, RowOfSubjects, SampleExams, SampleCourses;
    RowAt(0, j);
    RowAt(1, j);
    RowAt(2, j);
    KeysDiffer(0, 1);
    KeysDiffer(0, 2);
    KeysDiffer(1, 2);
  }

  lemma SampleSubjectKeys(k: (string, string)) returns (i: Index, j: Index)
    requires k in Sample().subjects
    ensures k == (ExamKey(i), CourseKey(j))
  {
    hide ExamKey, CourseKey, RowOfSubjects, SampleExams, SampleCourses;
    RowAt(0, 0);
    RowAt(1, 0);
    RowAt(2, 0);
    i := if k in RowOfSubjects(0) then 0 else if k in RowOfSubjects(1) then 1 else 2;
    j :| k.1 == CourseKey(j);
  }

  lemma SampleIsRooted()
    ensures Rooted(Sample())
  {
    hide ExamKey, CourseKey, RowOfSubjects, SampleExams, SampleCourses, Sample, EXAM_TITLES, SUBJECT_NAMES;
    SampleTables();
    var t := Sample();
    forall a, b | a in t.subjects && b in t.subjects && t.subjects[a].id == t.subjects[b].id ensures a == b {
      var i, j := SampleSubjectKeys(a);
      var x, y := SampleSubjectKeys(b);
      SampleSubjectAt(i, j);
      SampleSubjectAt(x, y);
      SampleIdsDiffer(i, j, x, y);
    }
    forall i: Index ensures ExamSettled(t, i) && ExamId(t, i) == ExamKey(i) { SampleExamAt(i); }
    forall j: Index ensures CourseSettled(t, j) && CourseId(t, j) == CourseKey(j) { SampleCourseAt(j); }
    forall i: Index, j: Index ensures SubjectSettled(t, i, j) { SampleSubjectAt(i, j); }
  }

  lemma SampleIdsDiffer(i: Index, j: Index, x: Index, y: Index)
    ensures SampleId(i, j) == SampleId(x, y) <==> i == x && j == y
  {
    if SampleId(i, j) == SampleId(x, y) { assert SampleId(i, j)[0] == SampleId(x, y)[0]; }
  }

  lemma SampleTables()
    ensures Sample().exams == SampleExams() && Sample().courses == SampleCourses() && Sample().otherExams == {} && Sample().scores == map[]
    ensures UniqueExamIds(Sample()) && UniqueCourseIds(Sample())
  {
    hide ExamKey, CourseKey, RowOfSubjects;
  }

  /**
   A concrete case: the batch of one student is written to these tables, but with
   one row of another student that has no value it is refused, by the count.
   */
  lemma SampleStranger(s: DemoStudent, other: string, digest: string -> nat, now: int)
    requires other != s.id
    ensures
      var t, cells := Sample(), CellsOf(digest, [s]);
      var with := t.(scores := map[ScoreKey(ExamId(t, 0), SubjectId(t, 0, 0), other) := Score("teacher", None, false)]);
      && WriteScores(t, cells, now).Ok?
      && ValuesFit(with, Expected(with, cells)) && WriteScores(with, cells, now) == Err(CountMismatch)
  {
    hide Sample, Rooted, DemoIds, ExamId, SubjectId, WriteScores, ValuesFit, CellsOf, DistinctSlots;
    var t, cells := Sample(), CellsOf(digest, [s]);
    SampleTables();
    SampleIsRooted();
    BatchShape(digest, [s]);
    ShapeIsDistinct(cells);
    NoScoresFit(t, Expected(t, cells));
    OnlyTheCountFindsStrangers(t, cells, now);
    var k := ScoreKey(ExamId(t, 0), SubjectId(t, 0, 0), other);
    OtherStudent(t, digest, s, k);
    KeyIsDemo(t, Cell(other, 0, 0, 0));
    StrangerIsRefused(t, cells, now, k, "teacher");
  }

  lemma ShapeIsDistinct(cells: seq<Cell>)
    requires forall a, b | 0 <= a < b < |cells| :: !SameSlot(cells[a], cells[b])
    ensures DistinctSlots(cells)
  {
  }

  lemma NoScoresFit(t: Tables, expected: seq<(ScoreKey, Score)>)
    requires t.scores == map[]
    ensures ValuesFit(t, expected) && DemoScores(t).Keys <= KeySet(expected)
  {
    hide DemoIds;
  }

  lemma OtherStudent(t: Tables, digest: string -> nat, s: DemoStudent, k: ScoreKey)
    requires k.studentId != s.id
    ensures k !in KeySet(Expected(t, CellsOf(digest, [s])))
  {
    hide CellsOf, ExamId, SubjectId;
    var cells := CellsOf(digest, [s]);
    forall c | 0 <= c < |cells| ensures Expected(t, cells)[c].0.studentId == s.id { EveryCellIsOne(digest, [s], c); }
  }
}
