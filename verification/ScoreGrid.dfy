/** A saved grid in plain terms: which grids are saved, which error refuses the others, and what the score table then holds. */
module ScoreGrid {
  import opened Prelude
  import opened ExamStore
  import opened ScoreEntry
  import opened ScoreEntryResults

  // ---- acceptance ----

  /** A subject of this exam, and either no score or an amount of 0 to its maximum; nobody is absent with a score. */
  predicate FitsSubject(db: ExamDb, actor: Actor, examId: string, cell: ScoreCell) {
    && cell.subjectId in db.subjects
    && db.subjects[cell.subjectId].tenantId == actor.tenantId && db.subjects[cell.subjectId].examId == examId
    && match cell.score
       case None => true
       case Some(NotFinite) => false
       case Some(Finite(x)) => !cell.absent && 0.0 <= x && x <= db.subjects[cell.subjectId].maximumScore as real / 100.0
  }

  /** An active student of the exam's class. */
  predicate InItsClass(db: ExamDb, dir: Directory, actor: Actor, examId: string, cell: ScoreCell)
    requires examId in db.exams
  {
    var k := (actor.tenantId, cell.studentEduplusId);
    && k in dir.people && dir.people[k].kind == Student && dir.people[k].active
    && Membership(actor.tenantId, dir.people[k].id, db.exams[examId].classroomId, true) in dir.memberships
  }

  /** Staff may grade anything; a teacher needs an active assignment to the class and the subject's course. */
  predicate MayGrade(db: ExamDb, dir: Directory, actor: Actor, examId: string, cell: ScoreCell)
    requires examId in db.exams && cell.subjectId in db.subjects
  {
    || actor.identityType == Staff
    || (actor.identityType == Teacher
        && Assignment(actor.tenantId, actor.personId, db.exams[examId].classroomId, db.subjects[cell.subjectId].courseId, true) in dir.assignments)
  }

  predicate DraftOfActor(db: ExamDb, actor: Actor, examId: string) {
    && (actor.identityType == Staff || actor.identityType == Teacher)
    && examId in db.exams && db.exams[examId].tenantId == actor.tenantId && db.exams[examId].status == Draft
  }

  predicate OncePerPlace(cells: seq<ScoreCell>) {
    forall i, j | 0 <= i < j < |cells| :: cells[i].studentEduplusId != cells[j].studentEduplusId || cells[i].subjectId != cells[j].subjectId
  }

  predicate Grader(dir: Directory, actor: Actor) {
    exists e :: e in dir.people && e.0 == actor.tenantId && dir.people[e].id == actor.personId
  }

  /** Everything that is asked of a grid. */
  predicate Saved(db: ExamDb, dir: Directory, actor: Actor, examId: string, cells: seq<ScoreCell>) {
    && DraftOfActor(db, actor, examId) && OncePerPlace(cells) && (cells == [] || Grader(dir, actor))
    && forall i | 0 <= i < |cells| ::
         FitsSubject(db, actor, examId, cells[i]) && MayGrade(db, dir, actor, examId, cells[i]) && InItsClass(db, dir, actor, examId, cells[i])
  }

  lemma CellIs(db: ExamDb, dir: Directory, actor: Actor, examId: string, cell: ScoreCell)
    requires examId in db.exams && (actor.identityType == Staff || actor.identityType == Teacher)
    ensures CellAccepted(db, dir, actor, examId, cell)
       <==> FitsSubject(db, actor, examId, cell) && MayGrade(db, dir, actor, examId, cell) && InItsClass(db, dir, actor, examId, cell)
  {
  }

  lemma AcceptedIs(db: ExamDb, dir: Directory, actor: Actor, examId: string, cells: seq<ScoreCell>)
    ensures SaveAccepted(db, dir, actor, examId, cells) <==> Saved(db, dir, actor, examId, cells)
  {
    assert DistinctPlaces(cells) <==> OncePerPlace(cells) by {
      if DistinctPlaces(cells) {
        forall i, j | 0 <= i < j < |cells|
          ensures cells[i].studentEduplusId != cells[j].studentEduplusId || cells[i].subjectId != cells[j].subjectId
        {
          assert !SamePlace(cells[i], cells[j]);
        }
      }
    }
    hide CellAccepted, FitsSubject, MayGrade, InItsClass, DistinctPlaces, OncePerPlace;
    if DraftOfActor(db, actor, examId) {
      forall i | 0 <= i < |cells|
        ensures CellAccepted(db, dir, actor, examId, cells[i])
           <==> FitsSubject(db, actor, examId, cells[i]) && cells[i].subjectId in db.subjects
                && MayGrade(db, dir, actor, examId, cells[i]) && InItsClass(db, dir, actor, examId, cells[i])
      {
        FitsKnown(db, actor, examId, cells[i]);
        CellIs(db, dir, actor, examId, cells[i]);
      }
    }
  }

  lemma FitsKnown(db: ExamDb, actor: Actor, examId: string, cell: ScoreCell)
    ensures FitsSubject(db, actor, examId, cell) ==> cell.subjectId in db.subjects
  {
  }

  // ---- the table ----

  /** The row of a cell: its grader, its absence, and its score to the nearest hundredth, or none where the cell has none. */
  predicate Stores(row: Score, actor: Actor, cell: ScoreCell) {
    && row.graderId == actor.personId && row.absent == cell.absent
    && match cell.score
       case None => row.value.None?
       case Some(NotFinite) => false
       case Some(Finite(x)) =>
         && row.value.Some? && -0.5 <= row.value.value as real - 100.0 * x <= 0.5
         && (100.0 * x == (100.0 * x).Floor as real ==> row.value.value as real == 100.0 * x)
  }

  /** The key of a cell's row: the student by the row of people its external id names. */
  function PlaceOf(dir: Directory, actor: Actor, examId: string, cell: ScoreCell): ScoreKey
    requires (actor.tenantId, cell.studentEduplusId) in dir.people
  {
    ScoreKey(actor.tenantId, examId, dir.people[(actor.tenantId, cell.studentEduplusId)].id, cell.subjectId)
  }

  /** One row for each cell, and every other row as it was. */
  ghost predicate HoldsGrid(dir: Directory, actor: Actor, examId: string, cells: seq<ScoreCell>, before: map<ScoreKey, Score>, after: map<ScoreKey, Score>) {
    && (forall i | 0 <= i < |cells| ::
          && (actor.tenantId, cells[i].studentEduplusId) in dir.people
          && PlaceOf(dir, actor, examId, cells[i]) in after
          && Stores(after[PlaceOf(dir, actor, examId, cells[i])], actor, cells[i]))
    && (forall k | k in before.Keys + after.Keys ::
          || (exists i :: 0 <= i < |cells| && (actor.tenantId, cells[i].studentEduplusId) in dir.people && PlaceOf(dir, actor, examId, cells[i]) == k)
          || (k in before && k in after && after[k] == before[k]))
  }

  lemma RowStores(db: ExamDb, actor: Actor, examId: string, cell: ScoreCell)
    requires FitsSubject(db, actor, examId, cell)
    ensures Stores(RowFor(actor, cell), actor, cell)
  {
    match cell.score
    case Some(Finite(x)) => RoundingStaysInRange(x, db.subjects[cell.subjectId].maximumScore);
    case _ =>
  }

  lemma OverridesHold(db: ExamDb, dir: Directory, actor: Actor, examId: string, cells: seq<ScoreCell>, before: map<ScoreKey, Score>, after: map<ScoreKey, Score>)
    requires AllKnown(dir, actor.tenantId, cells) && Overrides(dir, actor, examId, cells, before, after)
    requires forall i | 0 <= i < |cells| :: FitsSubject(db, actor, examId, cells[i])
    ensures HoldsGrid(dir, actor, examId, cells, before, after)
  {
    hide FitsSubject, RowFor, Stores;
    forall i | 0 <= i < |cells|
      ensures
        && (actor.tenantId, cells[i].studentEduplusId) in dir.people
        && PlaceOf(dir, actor, examId, cells[i]) in after
        && Stores(after[PlaceOf(dir, actor, examId, cells[i])], actor, cells[i])
    {
      assert KnownStudent(dir, actor.tenantId, cells[i].studentEduplusId);
      assert KeyFor(dir, actor, examId, cells[i]) == PlaceOf(dir, actor, examId, cells[i]);
      RowStores(db, actor, examId, cells[i]);
    }
    forall k | k in before.Keys + after.Keys
      ensures
        || (exists i :: 0 <= i < |cells| && (actor.tenantId, cells[i].studentEduplusId) in dir.people && PlaceOf(dir, actor, examId, cells[i]) == k)
        || (k in before && k in after && after[k] == before[k])
    {
      if i :| 0 <= i < |cells| && KeyFor(dir, actor, examId, cells[i]) == k {
        assert PlaceOf(dir, actor, examId, cells[i]) == k;
      }
    }
  }

  /**
   Saving a grid, in full.  It succeeds exactly on the grids described above;
   then there is one row for each cell, which holds the cell's score rounded to
   hundredths, and every other row and table is as it was.  A refused grid
   changes nothing.
   */
  lemma SavedGrid(db: ExamDb, dir: Directory, actor: Actor, examId: string, cells: seq<ScoreCell>)
    requires UniquePeople(dir) && NoNul(SubjectsOf(db, actor.tenantId, examId))
    ensures
      var (after, r) := Save(db, dir, actor, examId, cells);
      && (r.Ok? <==> Saved(db, dir, actor, examId, cells))
      && (r.Err? ==> after == db)
      && (r.Ok? ==> r.value == |cells| && after == db.(scores := after.scores) && HoldsGrid(dir, actor, examId, cells, db.scores, after.scores))
  {
    hide Save, SubjectsOf, UniquePeople, Overrides, HoldsGrid, SaveAccepted, KeyFor, FitsSubject, MayGrade, InItsClass, AllKnown;
    SaveOverrides(db, dir, actor, examId, cells);
    AcceptedIs(db, dir, actor, examId, cells);
    if Saved(db, dir, actor, examId, cells) {
      OverridesHold(db, dir, actor, examId, cells, db.scores, Save(db, dir, actor, examId, cells).0.scores);
    }
  }

  // ---- refusals ----

  /** What is wrong with cell i, all cells before it being in order. */
  predicate FirstFault(db: ExamDb, actor: Actor, examId: string, cells: seq<ScoreCell>, i: nat, e: Error)
    requires i < |cells|
  {
    var cell := cells[i];
    var ours := cell.subjectId in db.subjects && db.subjects[cell.subjectId].tenantId == actor.tenantId && db.subjects[cell.subjectId].examId == examId;
    && (forall j | 0 <= j < i :: FitsSubject(db, actor, examId, cells[j]))
    && (if exists j :: 0 <= j < i && cells[j].studentEduplusId == cell.studentEduplusId && cells[j].subjectId == cell.subjectId
        then e == DuplicateCell
        else if !ours then e == UnknownSubject
        else if cell.absent && cell.score.Some? then e == AbsentWithScore
        else e == OutOfRange && !FitsSubject(db, actor, examId, cell))
  }

  lemma {:induction false} CellFault(db: ExamDb, actor: Actor, examId: string, cells: seq<ScoreCell>) returns (i: nat)
    requires NoNul(SubjectsOf(db, actor.tenantId, examId)) && CheckCells(cells, SubjectsOf(db, actor.tenantId, examId)).Some?
    requires forall j | 0 <= j < |cells| :: '\0' !in cells[j].subjectId
    ensures i < |cells| && FirstFault(db, actor, examId, cells, i, CheckCells(cells, SubjectsOf(db, actor.tenantId, examId)).value)
  {
    hide CellKeys, InRange, FitsSubject, CellFits, DistinctPlaces;
    var subjects := SubjectsOf(db, actor.tenantId, examId);
    var n := |cells| - 1;
    if CheckCells(cells[..n], subjects).Some? {
      i := CellFault(db, actor, examId, cells[..n]);
      FaultStays(db, actor, examId, cells, n, i, CheckCells(cells[..n], subjects).value);
    } else {
      i := n;
      CheckCellsIff(cells[..n], subjects);
      forall j | 0 <= j < n ensures FitsSubject(db, actor, examId, cells[j]) {
        assert CellFits(subjects, cells[..n][j]);
        FitsAlike(db, actor, examId, cells[j]);
      }
      LastFault(db, actor, examId, cells);
    }
  }

  lemma FaultStays(db: ExamDb, actor: Actor, examId: string, cells: seq<ScoreCell>, n: nat, i: nat, e: Error)
    requires i < n <= |cells| && FirstFault(db, actor, examId, cells[..n], i, e)
    ensures FirstFault(db, actor, examId, cells, i, e)
  {
    hide FitsSubject;
    assert forall j | 0 <= j < n :: cells[..n][j] == cells[j];
  }

  lemma FitsAlike(db: ExamDb, actor: Actor, examId: string, cell: ScoreCell)
    ensures CellFits(SubjectsOf(db, actor.tenantId, examId), cell) <==> FitsSubject(db, actor, examId, cell)
  {
  }

  lemma LastFault(db: ExamDb, actor: Actor, examId: string, cells: seq<ScoreCell>)
    requires cells != [] && forall j | 0 <= j < |cells| :: '\0' !in cells[j].subjectId
    requires forall j | 0 <= j < |cells| - 1 :: FitsSubject(db, actor, examId, cells[j])
    requires CheckCell(CellKeys(cells[..|cells| - 1]), cells[|cells| - 1], SubjectsOf(db, actor.tenantId, examId)).Some?
    ensures
      var n := |cells| - 1;
      FirstFault(db, actor, examId, cells, n, CheckCell(CellKeys(cells[..n]), cells[n], SubjectsOf(db, actor.tenantId, examId)).value)
  {
    hide FitsSubject, CellKey, InRange;
    var n := |cells| - 1;
    FitsAlike(db, actor, examId, cells[n]);
    forall j | 0 <= j < n ensures CellKey(cells[j]) == CellKey(cells[n]) <==> SamePlace(cells[j], cells[n]) {
      CellKeyIsInjective(cells[j], cells[n]);
    }
    if CellKey(cells[n]) in CellKeys(cells[..n]) {
      var j :| 0 <= j < n && CellKey(cells[..n][j]) == CellKey(cells[n]);
      assert SamePlace(cells[j], cells[n]);
    }
    if j :| 0 <= j < n && cells[j].studentEduplusId == cells[n].studentEduplusId && cells[j].subjectId == cells[n].subjectId {
      assert SamePlace(cells[j], cells[n]);
      assert CellKey(cells[..n][j]) in CellKeys(cells[..n]);
    }
  }

  predicate KnownSubject(db: ExamDb, actor: Actor, examId: string, cell: ScoreCell) {
    cell.subjectId in db.subjects && db.subjects[cell.subjectId].tenantId == actor.tenantId && db.subjects[cell.subjectId].examId == examId
  }

  /** Some cell is for a subject of the exam that the actor may not grade. */
  predicate Unassigned(db: ExamDb, dir: Directory, actor: Actor, examId: string, cells: seq<ScoreCell>)
    requires examId in db.exams
  {
    exists i :: 0 <= i < |cells| && KnownSubject(db, actor, examId, cells[i]) && !MayGrade(db, dir, actor, examId, cells[i])
  }

  predicate ActiveStudent(dir: Directory, actor: Actor, cell: ScoreCell) {
    var k := (actor.tenantId, cell.studentEduplusId);
    k in dir.people && dir.people[k].kind == Student && dir.people[k].active
  }

  /** The refusals in their order: who asks, the exam, its status, the assignments, the cells, the students, their class. */
  lemma RefusedGrid(db: ExamDb, dir: Directory, actor: Actor, examId: string, cells: seq<ScoreCell>)
    requires NoNul(SubjectsOf(db, actor.tenantId, examId)) && forall j | 0 <= j < |cells| :: '\0' !in cells[j].subjectId
    ensures
      var r := Validated(db, dir, actor, examId, cells);
      && (r == Err(NotStaff) <==> actor.identityType != Staff && actor.identityType != Teacher)
      && (r == Err(NoExam) <==>
            (actor.identityType == Staff || actor.identityType == Teacher) && (examId !in db.exams || db.exams[examId].tenantId != actor.tenantId))
      && (r == Err(NotDraft) <==>
            && (actor.identityType == Staff || actor.identityType == Teacher)
            && examId in db.exams && db.exams[examId].tenantId == actor.tenantId && db.exams[examId].status != Draft)
      && (r == Err(NotAssigned) <==> DraftOfActor(db, actor, examId) && Unassigned(db, dir, actor, examId, cells))
      && (r == Err(UnknownStudent) ==> exists i :: 0 <= i < |cells| && !ActiveStudent(dir, actor, cells[i]))
      && (r == Err(OutsideClass) ==> examId in db.exams && exists i :: 0 <= i < |cells| && ActiveStudent(dir, actor, cells[i]) && !InItsClass(db, dir, actor, examId, cells[i]))
      && (r.Err? && r.error in {DuplicateCell, UnknownSubject, AbsentWithScore, OutOfRange} ==>
            exists i :: 0 <= i < |cells| && FirstFault(db, actor, examId, cells, i, r.error))
      && (r.Err? ==> r.error in {NotStaff, NoExam, NotDraft, NotAssigned, UnknownStudent, OutsideClass,
                                 DuplicateCell, UnknownSubject, AbsentWithScore, OutOfRange})
  {
    hide CheckCells, FirstFault;
    if CheckCells(cells, SubjectsOf(db, actor.tenantId, examId)).Some? {
      var i := CellFault(db, actor, examId, cells);
      CheckCellsErrors(cells, SubjectsOf(db, actor.tenantId, examId));
    }
  }

  lemma {:induction false} CheckCellsErrors(cells: seq<ScoreCell>, subjects: map<string, Subject>)
    requires CheckCells(cells, subjects).Some?
    ensures CheckCells(cells, subjects).value in {DuplicateCell, UnknownSubject, AbsentWithScore, OutOfRange}
  {
    hide CellKeys, InRange, CellKey;
    if CheckCells(cells[..|cells| - 1], subjects).Some? { CheckCellsErrors(cells[..|cells| - 1], subjects); }
  }

  /** A grid in order fails only for a grader who is no person of the tenant, as a foreign key. */
  lemma RefusedGrader(db: ExamDb, dir: Directory, actor: Actor, examId: string, cells: seq<ScoreCell>)
    requires UniquePeople(dir) && NoNul(SubjectsOf(db, actor.tenantId, examId))
    ensures
      var validated, r := Validated(db, dir, actor, examId, cells), Save(db, dir, actor, examId, cells).1;
      && (validated.Err? ==> r == Err(validated.error))
      && (validated.Ok? && r.Err? ==> r.error == ForeignKey && cells != [] && !Grader(dir, actor))
  {
    hide Validated, Written, SaveAccepted, SubjectsOf, UniquePeople, Overrides, HoldsGrid, Saved, Grader;
    var validated := Validated(db, dir, actor, examId, cells);
    if validated.Ok? {
      WrittenErrors(db, dir, actor, examId, validated.value);
      SaveOverrides(db, dir, actor, examId, cells);
      if Save(db, dir, actor, examId, cells).1.Err? { NoGrader(db, dir, actor, examId, cells); }
    }
  }

  lemma NoGrader(db: ExamDb, dir: Directory, actor: Actor, examId: string, cells: seq<ScoreCell>)
    requires Validated(db, dir, actor, examId, cells).Ok? && !SaveAccepted(db, dir, actor, examId, cells)
    requires NoNul(SubjectsOf(db, actor.tenantId, examId))
    ensures cells != [] && !Grader(dir, actor)
  {
    hide Validated, SubjectsOf;
    ValidatedIff(db, dir, actor, examId, cells);
  }

  lemma {:induction false} WrittenErrors(db: ExamDb, dir: Directory, actor: Actor, examId: string, cells: seq<PreparedCell>)
    ensures Written(db, dir, actor, examId, cells).Err? ==> Written(db, dir, actor, examId, cells).error == ForeignKey
  {
    hide RowAllowed;
    if cells != [] { WrittenErrors(db, dir, actor, examId, cells[..|cells| - 1]); }
  }
}
