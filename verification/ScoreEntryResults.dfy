/** What an accepted grid is, and what it leaves in the score table. */
module ScoreEntryResults {
  import opened Prelude
  import opened Text
  import opened ExamStore
  import opened ScoreEntry
  import opened Permutations

  // ---- acceptance ----

  /** PostgreSQL text columns cannot hold a NUL. */
  predicate NoNul(subjects: map<string, Subject>) {
    forall s | s in subjects :: NUL !in s
  }

  /** Two cells share the joined key exactly when they share both ids, as long as the subject ids hold no NUL. */
  lemma CellKeyIsInjective(a: ScoreCell, b: ScoreCell)
    requires NUL !in a.subjectId && NUL !in b.subjectId
    ensures CellKey(a) == CellKey(b) <==> a.studentEduplusId == b.studentEduplusId && a.subjectId == b.subjectId
  {
    hide Joined;
    JoinedIsInjective(a.studentEduplusId, a.subjectId, b.studentEduplusId, b.subjectId);
  }

  predicate SamePlace(a: ScoreCell, b: ScoreCell) {
    a.studentEduplusId == b.studentEduplusId && a.subjectId == b.subjectId
  }

  predicate DistinctPlaces(cells: seq<ScoreCell>) {
    forall i, j | 0 <= i < j < |cells| :: !SamePlace(cells[i], cells[j])
  }

  /** A cell that is acceptable whatever stands beside it. */
  predicate CellFits(subjects: map<string, Subject>, cell: ScoreCell) {
    cell.subjectId in subjects
    && !(cell.absent && cell.score.Some?)
    && InRange(cell.score, subjects[cell.subjectId].maximumScore)
  }

  lemma {:induction false} CheckCellsIff(cells: seq<ScoreCell>, subjects: map<string, Subject>)
    requires NoNul(subjects)
    ensures CheckCells(cells, subjects).None?
       <==> DistinctPlaces(cells) && forall i | 0 <= i < |cells| :: CellFits(subjects, cells[i])
  {
    hide CellFits, InRange, CellKeys, SamePlace;
    if cells != [] {
      var n := |cells| - 1;
      CheckCellsIff(cells[..n], subjects);
      assert CellFits(subjects, cells[n]) ==> cells[n].subjectId in subjects by { CellFitsKnown(subjects, cells[n]); }
      if (forall i | 0 <= i < n :: CellFits(subjects, cells[i])) && cells[n].subjectId in subjects {
        SeenIff(cells, n, subjects);
      }
      CheckCellIff(CellKeys(cells[..n]), cells[n], subjects);
    }
  }

  lemma CellFitsKnown(subjects: map<string, Subject>, cell: ScoreCell)
    ensures CellFits(subjects, cell) ==> cell.subjectId in subjects
  {
  }

  lemma CheckCellIff(seen: set<string>, cell: ScoreCell, subjects: map<string, Subject>)
    ensures CheckCell(seen, cell, subjects).None? <==> CellKey(cell) !in seen && CellFits(subjects, cell)
  {
  }

  lemma SeenIff(cells: seq<ScoreCell>, n: nat, subjects: map<string, Subject>)
    requires NoNul(subjects) && n < |cells| && cells[n].subjectId in subjects
    requires forall i | 0 <= i < n :: CellFits(subjects, cells[i])
    ensures CellKey(cells[n]) in CellKeys(cells[..n]) <==> exists i :: 0 <= i < n && SamePlace(cells[i], cells[n])
  {
    hide InRange, CellKey;
    forall i | 0 <= i < n ensures CellKey(cells[i]) == CellKey(cells[n]) <==> SamePlace(cells[i], cells[n]) {
      CellKeyIsInjective(cells[i], cells[n]);
    }
    if CellKey(cells[n]) in CellKeys(cells[..n]) {
      var i :| 0 <= i < n && CellKey(cells[..n][i]) == CellKey(cells[n]);
      assert SamePlace(cells[i], cells[n]);
    }
    if i :| 0 <= i < n && SamePlace(cells[i], cells[n]) {
      assert CellKey(cells[..n][i]) in CellKeys(cells[..n]);
    }
  }

  /** The whole condition on one cell: the exam's subject, the range, the teaching assignment, the student. */
  predicate CellAccepted(db: ExamDb, dir: Directory, actor: Actor, examId: string, cell: ScoreCell)
    requires examId in db.exams
  {
    var subjects, classroomId := SubjectsOf(db, actor.tenantId, examId), db.exams[examId].classroomId;
    && CellFits(subjects, cell)
    && MayTeach(dir, actor, classroomId, subjects[cell.subjectId].courseId)
    && KnownStudent(dir, actor.tenantId, cell.studentEduplusId)
    && InClass(dir, actor.tenantId, cell.studentEduplusId, classroomId)
  }

  predicate GridOpen(db: ExamDb, actor: Actor, examId: string) {
    IsStaffActor(actor) && ExamVisible(db, actor.tenantId, examId) && db.exams[examId].status == Draft
  }

  /**
   A grid is accepted exactly when the exam is the actor's draft, no two cells
   are for the same student and subject, and every cell is acceptable by itself.
   */
  lemma ValidatedIff(db: ExamDb, dir: Directory, actor: Actor, examId: string, cells: seq<ScoreCell>)
    requires NoNul(SubjectsOf(db, actor.tenantId, examId))
    ensures Validated(db, dir, actor, examId, cells).Ok?
       <==> GridOpen(db, actor, examId) && DistinctPlaces(cells)
            && forall i | 0 <= i < |cells| :: CellAccepted(db, dir, actor, examId, cells[i])
  {
    hide CheckCells, SubjectsOf, DistinctPlaces, MayTeach, InClass, KnownStudent, InRange, Prepare;
    CheckCellsIff(cells, SubjectsOf(db, actor.tenantId, examId));
  }

  // ---- the rows ----

  /** The database key of a cell's student and subject. */
  function KeyFor(dir: Directory, actor: Actor, examId: string, cell: ScoreCell): ScoreKey
    requires KnownStudent(dir, actor.tenantId, cell.studentEduplusId)
  {
    ScoreKey(actor.tenantId, examId, dir.people[(actor.tenantId, cell.studentEduplusId)].id, cell.subjectId)
  }

  function RowFor(actor: Actor, cell: ScoreCell): Score {
    Score(actor.personId, StoredValue(Amount(cell.score)), cell.absent)
  }

  /** Different external ids are different rows of people, so different cells are different rows of scores. */
  lemma KeysLift(dir: Directory, actor: Actor, examId: string, a: ScoreCell, b: ScoreCell)
    requires UniquePeople(dir)
    requires KnownStudent(dir, actor.tenantId, a.studentEduplusId) && KnownStudent(dir, actor.tenantId, b.studentEduplusId)
    ensures KeyFor(dir, actor, examId, a) == KeyFor(dir, actor, examId, b) <==> SamePlace(a, b)
  {
  }

  /** after is before with one row per cell written over it. */
  ghost predicate Overrides(dir: Directory, actor: Actor, examId: string, cells: seq<ScoreCell>, before: map<ScoreKey, Score>, after: map<ScoreKey, Score>)
    requires AllKnown(dir, actor.tenantId, cells)
  {
    Hits(dir, actor, examId, cells, after) && Misses(dir, actor, examId, cells, before, after)
  }

  ghost predicate Hits(dir: Directory, actor: Actor, examId: string, cells: seq<ScoreCell>, after: map<ScoreKey, Score>)
    requires AllKnown(dir, actor.tenantId, cells)
  {
    forall i | 0 <= i < |cells| ::
      KeyFor(dir, actor, examId, cells[i]) in after
      && after[KeyFor(dir, actor, examId, cells[i])] == RowFor(actor, cells[i])
  }

  ghost predicate Misses(dir: Directory, actor: Actor, examId: string, cells: seq<ScoreCell>, before: map<ScoreKey, Score>, after: map<ScoreKey, Score>)
    requires AllKnown(dir, actor.tenantId, cells)
  {
    forall k | forall i | 0 <= i < |cells| :: KeyFor(dir, actor, examId, cells[i]) != k ::
      (k in after <==> k in before) && (k in before ==> after[k] == before[k])
  }

  lemma {:induction false} WrittenIff(db: ExamDb, dir: Directory, actor: Actor, examId: string, cells: seq<ScoreCell>)
    requires UniquePeople(dir) && AllKnown(dir, actor.tenantId, cells) && DistinctPlaces(cells)
    requires ExamVisible(db, actor.tenantId, examId)
    requires forall i | 0 <= i < |cells| :: cells[i].subjectId in SubjectsOf(db, actor.tenantId, examId)
    ensures
      var w := Written(db, dir, actor, examId, PrepareAll(dir, actor.tenantId, cells));
      && (w.Ok? <==> cells == [] || PersonExists(dir, actor.tenantId, actor.personId))
      && (w.Ok? ==> w.value == db.(scores := w.value.scores)
                    && Overrides(dir, actor, examId, cells, db.scores, w.value.scores))
  {
    hide KnownStudent, PersonExists, Overrides, UniquePeople, SubjectsOf;
    if cells == [] {
      OverridesNothing(dir, actor, examId, db.scores);
    } else {
      var n := |cells| - 1;
      var up := cells[..n];
      WrittenIff(db, dir, actor, examId, up);
      PreparedSnoc(dir, actor, cells);
      var w := Written(db, dir, actor, examId, PrepareAll(dir, actor.tenantId, up));
      if w.Ok? {
        StudentExists(dir, actor.tenantId, cells[n]);
        assert SubjectsOf(w.value, actor.tenantId, examId) == SubjectsOf(db, actor.tenantId, examId) by { SameSubjects(db, w.value, actor.tenantId, examId); }
        OverridesSnoc(dir, actor, examId, cells, db.scores, w.value.scores);
      }
    }
  }

  lemma SameSubjects(a: ExamDb, b: ExamDb, tenantId: string, examId: string)
    requires a.subjects == b.subjects
    ensures SubjectsOf(a, tenantId, examId) == SubjectsOf(b, tenantId, examId)
  {
  }

  lemma PreparedSnoc(dir: Directory, actor: Actor, cells: seq<ScoreCell>)
    requires cells != [] && AllKnown(dir, actor.tenantId, cells)
    ensures
      var n := |cells| - 1;
      var all := PrepareAll(dir, actor.tenantId, cells);
      && AllKnown(dir, actor.tenantId, cells[..n])
      && all[..n] == PrepareAll(dir, actor.tenantId, cells[..n])
      && all[n] == Prepare(dir, actor.tenantId, cells[n])
  {
    hide KnownStudent;
  }

  lemma StudentExists(dir: Directory, tenantId: string, cell: ScoreCell)
    requires KnownStudent(dir, tenantId, cell.studentEduplusId)
    ensures PersonExists(dir, tenantId, Prepare(dir, tenantId, cell).studentId)
  {
    assert (tenantId, cell.studentEduplusId) in dir.people;
  }

  lemma OverridesNothing(dir: Directory, actor: Actor, examId: string, scores: map<ScoreKey, Score>)
    ensures Overrides(dir, actor, examId, [], scores, scores)
  {
  }

  lemma HitsSnoc(dir: Directory, actor: Actor, examId: string, cells: seq<ScoreCell>, now: map<ScoreKey, Score>)
    requires UniquePeople(dir) && cells != [] && AllKnown(dir, actor.tenantId, cells) && DistinctPlaces(cells)
    requires Hits(dir, actor, examId, cells[..|cells| - 1], now)
    ensures
      var last := cells[|cells| - 1];
      Hits(dir, actor, examId, cells, now[KeyFor(dir, actor, examId, last) := RowFor(actor, last)])
  {
    hide KnownStudent, UniquePeople, KeyFor, RowFor;
    var n := |cells| - 1;
    forall i | 0 <= i < n ensures KeyFor(dir, actor, examId, cells[i]) != KeyFor(dir, actor, examId, cells[n]) {
      KeysLift(dir, actor, examId, cells[i], cells[n]);
    }
    assert forall i | 0 <= i < n :: cells[..n][i] == cells[i];
  }

  lemma MissesSnoc(dir: Directory, actor: Actor, examId: string, cells: seq<ScoreCell>, before: map<ScoreKey, Score>, now: map<ScoreKey, Score>)
    requires cells != [] && AllKnown(dir, actor.tenantId, cells)
    requires Misses(dir, actor, examId, cells[..|cells| - 1], before, now)
    ensures
      var last := cells[|cells| - 1];
      Misses(dir, actor, examId, cells, before, now[KeyFor(dir, actor, examId, last) := RowFor(actor, last)])
  {
    hide KnownStudent, KeyFor, RowFor;
    var n := |cells| - 1;
    var up, after := cells[..n], now[KeyFor(dir, actor, examId, cells[n]) := RowFor(actor, cells[n])];
    forall k | forall i | 0 <= i < |cells| :: KeyFor(dir, actor, examId, cells[i]) != k
      ensures (k in after <==> k in before) && (k in before ==> after[k] == before[k])
    {
      assert KeyFor(dir, actor, examId, cells[n]) != k;
      assert forall i | 0 <= i < n :: KeyFor(dir, actor, examId, up[i]) == KeyFor(dir, actor, examId, cells[i]);
    }
  }

  lemma OverridesSnoc(dir: Directory, actor: Actor, examId: string, cells: seq<ScoreCell>, before: map<ScoreKey, Score>, now: map<ScoreKey, Score>)
    requires UniquePeople(dir) && cells != [] && AllKnown(dir, actor.tenantId, cells) && DistinctPlaces(cells)
    requires Overrides(dir, actor, examId, cells[..|cells| - 1], before, now)
    ensures
      var last := cells[|cells| - 1];
      Overrides(dir, actor, examId, cells, before, now[KeyFor(dir, actor, examId, last) := RowFor(actor, last)])
  {
    hide Hits, Misses, UniquePeople, KeyFor, RowFor, DistinctPlaces;
    HitsSnoc(dir, actor, examId, cells, now);
    MissesSnoc(dir, actor, examId, cells, before, now);
  }

  predicate SaveAccepted(db: ExamDb, dir: Directory, actor: Actor, examId: string, cells: seq<ScoreCell>) {
    && GridOpen(db, actor, examId) && DistinctPlaces(cells)
    && (forall i | 0 <= i < |cells| :: CellAccepted(db, dir, actor, examId, cells[i]))
    && (cells == [] || PersonExists(dir, actor.tenantId, actor.personId))
  }

  /**
   Saving a grid.  It succeeds exactly on the grids above from a grader that
   exists; then there is one key per cell, all different, the table is the old
   one with those rows written over it, and nothing else changes.  A refused
   grid changes nothing at all.
   */
  lemma SaveOverrides(db: ExamDb, dir: Directory, actor: Actor, examId: string, cells: seq<ScoreCell>)
    requires UniquePeople(dir) && NoNul(SubjectsOf(db, actor.tenantId, examId))
    ensures
      var (after, r) := Save(db, dir, actor, examId, cells);
      && (r.Ok? <==> SaveAccepted(db, dir, actor, examId, cells))
      && (r.Err? ==> after == db)
      && (r.Ok? ==>
            && r.value == |cells|
            && after == db.(scores := after.scores)
            && AllKnown(dir, actor.tenantId, cells)
            && (forall i, j | 0 <= i < j < |cells| :: KeyFor(dir, actor, examId, cells[i]) != KeyFor(dir, actor, examId, cells[j]))
            && Overrides(dir, actor, examId, cells, db.scores, after.scores))
  {
    hide Validated, Written, SubjectsOf, InRange, MayTeach, InClass, KnownStudent, PersonExists, UniquePeople, Overrides, PrepareAll, KeyFor;
    ValidatedIff(db, dir, actor, examId, cells);
    if Validated(db, dir, actor, examId, cells).Ok? {
      ValidatedValue(db, dir, actor, examId, cells);
      WrittenIff(db, dir, actor, examId, cells);
      forall i, j | 0 <= i < j < |cells| ensures KeyFor(dir, actor, examId, cells[i]) != KeyFor(dir, actor, examId, cells[j]) {
        KeysLift(dir, actor, examId, cells[i], cells[j]);
      }
    }
  }

  lemma ValidatedValue(db: ExamDb, dir: Directory, actor: Actor, examId: string, cells: seq<ScoreCell>)
    requires Validated(db, dir, actor, examId, cells).Ok?
    ensures AllKnown(dir, actor.tenantId, cells)
    ensures Validated(db, dir, actor, examId, cells).value == PrepareAll(dir, actor.tenantId, cells)
  {
    hide CheckCells, SubjectsOf, MayTeach, InClass, KnownStudent;
  }

  // ---- order and repetition ----

  lemma DistinctPlacesPermuted(cells: seq<ScoreCell>, other: seq<ScoreCell>)
    requires multiset(cells) == multiset(other) && DistinctPlaces(cells)
    ensures DistinctPlaces(other)
  {
    assert forall i, j | 0 <= i < j < |cells| && cells[i] == cells[j] :: SamePlace(cells[i], cells[j]);
    PermutedAllDifferent(cells, other);
    forall i, j | 0 <= i < j < |other| ensures !SamePlace(other[i], other[j]) {
      var a := PermutedMember(cells, other, i);
      var b := PermutedMember(cells, other, j);
      assert a != b;
    }
  }

  lemma SaveAcceptedPermuted(db: ExamDb, dir: Directory, actor: Actor, examId: string, cells: seq<ScoreCell>, other: seq<ScoreCell>)
    requires multiset(cells) == multiset(other) && SaveAccepted(db, dir, actor, examId, cells)
    ensures SaveAccepted(db, dir, actor, examId, other)
  {
    hide CellAccepted, PersonExists, DistinctPlaces;
    DistinctPlacesPermuted(cells, other);
    forall i | 0 <= i < |other| ensures CellAccepted(db, dir, actor, examId, other[i]) {
      assert other[i] in multiset(other);
      assert other[i] in cells;
    }
    if cells == [] { assert |multiset(other)| == 0; }
  }

  lemma OverridesPermuted(dir: Directory, actor: Actor, examId: string, cells: seq<ScoreCell>, other: seq<ScoreCell>,
                          before: map<ScoreKey, Score>, a: map<ScoreKey, Score>, b: map<ScoreKey, Score>)
    requires multiset(cells) == multiset(other) && AllKnown(dir, actor.tenantId, cells) && AllKnown(dir, actor.tenantId, other)
    requires Overrides(dir, actor, examId, cells, before, a) && Overrides(dir, actor, examId, other, before, b)
    ensures a == b
  {
    hide KnownStudent, KeyFor, RowFor;
    forall k ensures k in a <==> k in b ensures k in a ==> a[k] == b[k] {
      if i :| 0 <= i < |cells| && KeyFor(dir, actor, examId, cells[i]) == k {
        assert cells[i] in multiset(other);
        var j :| 0 <= j < |other| && other[j] == cells[i];
        assert a[k] == RowFor(actor, cells[i]) && b[k] == RowFor(actor, other[j]);
      } else {
        forall j | 0 <= j < |other| ensures KeyFor(dir, actor, examId, other[j]) != k {
          assert other[j] in multiset(cells);
          var i :| 0 <= i < |cells| && cells[i] == other[j];
        }
      }
    }
  }

  /** The order of the cells decides neither whether a grid is saved nor what the table then holds. */
  lemma OrderIsImmaterial(db: ExamDb, dir: Directory, actor: Actor, examId: string, cells: seq<ScoreCell>, other: seq<ScoreCell>)
    requires UniquePeople(dir) && NoNul(SubjectsOf(db, actor.tenantId, examId))
    requires multiset(cells) == multiset(other)
    ensures Save(db, dir, actor, examId, cells).1.Ok? <==> Save(db, dir, actor, examId, other).1.Ok?
    ensures Save(db, dir, actor, examId, cells).0 == Save(db, dir, actor, examId, other).0
  {
    hide Save, SaveAccepted, SubjectsOf, NoNul, UniquePeople, Overrides, AllKnown, KeyFor;
    SaveOverrides(db, dir, actor, examId, cells);
    SaveOverrides(db, dir, actor, examId, other);
    if SaveAccepted(db, dir, actor, examId, cells) {
      SaveAcceptedPermuted(db, dir, actor, examId, cells, other);
      OverridesPermuted(dir, actor, examId, cells, other, db.scores,
                        Save(db, dir, actor, examId, cells).0.scores, Save(db, dir, actor, examId, other).0.scores);
    } else if SaveAccepted(db, dir, actor, examId, other) {
      SaveAcceptedPermuted(db, dir, actor, examId, other, cells);
    }
  }

  /** Saving an accepted grid again is accepted and changes nothing. */
  lemma SavingTwiceIsSavingOnce(db: ExamDb, dir: Directory, actor: Actor, examId: string, cells: seq<ScoreCell>)
    requires UniquePeople(dir) && NoNul(SubjectsOf(db, actor.tenantId, examId))
    requires Save(db, dir, actor, examId, cells).1.Ok?
    ensures
      var after := Save(db, dir, actor, examId, cells).0;
      Save(after, dir, actor, examId, cells) == (after, Ok(|cells|))
  {
    hide Save, SubjectsOf, NoNul, UniquePeople, Overrides, AllKnown, KeyFor, SaveAccepted;
    SaveOverrides(db, dir, actor, examId, cells);
    var after := Save(db, dir, actor, examId, cells).0;
    SameSubjects(db, after, actor.tenantId, examId);
    SaveAcceptedSame(db, after, dir, actor, examId, cells);
    SaveOverrides(after, dir, actor, examId, cells);
    OverridesTwice(dir, actor, examId, cells, after.scores, Save(after, dir, actor, examId, cells).0.scores, db.scores);
  }

  lemma SaveAcceptedSame(a: ExamDb, b: ExamDb, dir: Directory, actor: Actor, examId: string, cells: seq<ScoreCell>)
    requires a.exams == b.exams && a.subjects == b.subjects
    ensures SaveAccepted(a, dir, actor, examId, cells) <==> SaveAccepted(b, dir, actor, examId, cells)
  {
    hide DistinctPlaces, CellFits, KnownStudent, InClass, MayTeach, PersonExists, SubjectsOf;
    SameSubjects(a, b, actor.tenantId, examId);
  }

  lemma OverridesTwice(dir: Directory, actor: Actor, examId: string, cells: seq<ScoreCell>,
                       once: map<ScoreKey, Score>, twice: map<ScoreKey, Score>, before: map<ScoreKey, Score>)
    requires AllKnown(dir, actor.tenantId, cells)
    requires Overrides(dir, actor, examId, cells, before, once) && Overrides(dir, actor, examId, cells, once, twice)
    ensures twice == once
  {
    hide KnownStudent, KeyFor, RowFor;
    forall k ensures k in once <==> k in twice ensures k in once ==> once[k] == twice[k] {
      if i :| 0 <= i < |cells| && KeyFor(dir, actor, examId, cells[i]) == k {
        assert once[k] == RowFor(actor, cells[i]) && twice[k] == RowFor(actor, cells[i]);
      }
    }
  }
}
