/**
 Every serial run of the examination services: an exam only moves from DRAFT to
 PUBLISHED to WITHDRAWN, and what it held when it was published stays.
 */
module ExamLifecycle {
  import opened Prelude
  import opened ExamStore
  import opened ScoreEntry
  import opened ScoreEntryResults
  import opened CsvImport
  import opened CsvImportResults
  import opened Exams

  /** One call, with the directory as it is at that moment. */
  datatype Op =
    | CreateOp(dir: Directory, actor: Actor, command: CreateExam, examId: string, uuid: nat -> string)
    | UpdateOp(actor: Actor, examId: string, changes: UpdateExam)
    | PublishOp(actor: Actor, examId: string, now: int)
    | WithdrawOp(actor: Actor, examId: string, now: int)
    | SaveOp(dir: Directory, actor: Actor, examId: string, cells: seq<ScoreCell>)
    | ImportOp(dir: Directory, actor: Actor, examId: string, filename: string, source: string, toNumber: string -> Number, importId: string)

  function Step(db: ExamDb, op: Op): ExamDb {
    match op
    case CreateOp(dir, actor, command, examId, uuid) => Create(db, dir, actor, command, examId, uuid).0
    case UpdateOp(actor, examId, changes) => Update(db, actor, examId, changes).0
    case PublishOp(actor, examId, now) => Publish(db, actor, examId, now).0
    case WithdrawOp(actor, examId, now) => Withdraw(db, actor, examId, now).0
    case SaveOp(dir, actor, examId, cells) => Save(db, dir, actor, examId, cells).0
    case ImportOp(dir, actor, examId, filename, source, toNumber, importId) =>
      Import(db, dir, actor, examId, filename, source, toNumber, importId).0
  }

  function Run(db: ExamDb, ops: seq<Op>): ExamDb {
    if ops == [] then db else Step(Run(db, ops[..|ops| - 1]), ops[|ops| - 1])
  }

  lemma {:induction false} RunAppend(db: ExamDb, a: seq<Op>, b: seq<Op>)
    ensures Run(db, a + b) == Run(Run(db, a), b)
    decreases |b|
  {
    hide Step;
    if b == [] {
      assert a + b == a;
    } else {
      RunAppend(db, a, b[..|b| - 1]);
      assert (a + b)[..|a + b| - 1] == a + b[..|b| - 1];
    }
  }

  // ---- what every table satisfies ----

  function SubjectRows(db: ExamDb, examId: string): map<string, Subject> {
    map s | s in db.subjects && db.subjects[s].examId == examId :: db.subjects[s]
  }

  /** Publication stamps agree with the status, and only an exam with a subject was ever published. */
  predicate ExamOk(db: ExamDb, e: string)
    requires e in db.exams
  {
    var exam := db.exams[e];
    && (exam.status == Draft <==> exam.publishedAt.None?)
    && (exam.status == Withdrawn <==> exam.withdrawnAt.Some?)
    && (exam.status != Draft ==> |SubjectRows(db, e)| > 0)
  }

  /** A subject belongs to an exam of its tenant. */
  predicate SubjectOk(db: ExamDb, s: string)
    requires s in db.subjects
  {
    db.subjects[s].examId in db.exams && db.exams[db.subjects[s].examId].tenantId == db.subjects[s].tenantId
  }

  /** The table stays within the subject's exam and range, and an absent student has no value. */
  predicate ScoreOk(db: ExamDb, k: ScoreKey)
    requires k in db.scores
  {
    && k.subjectId in db.subjects
    && db.subjects[k.subjectId].tenantId == k.tenantId && db.subjects[k.subjectId].examId == k.examId
    && (db.scores[k].absent ==> db.scores[k].value.None?)
    && (db.scores[k].value.Some? ==> 0 <= db.scores[k].value.value <= db.subjects[k.subjectId].maximumScore)
  }

  /** An applied import has no errors and applied all its rows; any other has errors and applied none. */
  predicate ImportOk(db: ExamDb, i: string)
    requires i in db.imports
  {
    var row := db.imports[i];
    if row.status == ImportStatus.Applied then row.errors == [] && row.appliedRows == row.totalRows
    else row.status == ImportStatus.Failed && row.errors != [] && row.appliedRows == 0
  }

  predicate ExamsOk(db: ExamDb) { forall e | e in db.exams :: ExamOk(db, e) }

  predicate SubjectsOk(db: ExamDb) { forall s | s in db.subjects :: SubjectOk(db, s) }

  predicate ScoresOk(db: ExamDb) { forall k | k in db.scores :: ScoreOk(db, k) }

  predicate ImportsOk(db: ExamDb) { forall i | i in db.imports :: ImportOk(db, i) }

  predicate Inv(db: ExamDb) {
    ExamsOk(db) && SubjectsOk(db) && ScoresOk(db) && ImportsOk(db)
  }

  // ---- what a step may change ----

  function Rank(status: ExamStatus): nat {
    match status
    case Draft => 0
    case Published => 1
    case Withdrawn => 2
  }

  /** The exam is still there, has moved at most forward, and nothing else changed if it was no longer a draft. */
  predicate Kept(before: ExamDb, after: ExamDb, e: string)
    requires e in before.exams
  {
    && e in after.exams
    && Rank(before.exams[e].status) <= Rank(after.exams[e].status)
    && (before.exams[e].status != Draft ==>
          && after.exams[e] == before.exams[e].(status := after.exams[e].status, withdrawnAt := after.exams[e].withdrawnAt)
          && SubjectRows(after, e) == SubjectRows(before, e)
          && ScoresOf(after, e) == ScoresOf(before, e))
  }

  lemma KeptTransitive(a: ExamDb, b: ExamDb, c: ExamDb, e: string)
    requires e in a.exams && Kept(a, b, e) && Kept(b, c, e)
    ensures Kept(a, c, e)
  {
    hide SubjectRows, ScoresOf;
  }

  // create

  /** The subject rows a create adds: all of one exam, none replacing another. */
  predicate AddsSubjects(before: ExamDb, after: ExamDb, tenantId: string, examId: string) {
    && after == before.(subjects := after.subjects)
    && (forall s | s in before.subjects :: s in after.subjects && after.subjects[s] == before.subjects[s])
    && (forall s | s in after.subjects && s !in before.subjects :: after.subjects[s].tenantId == tenantId && after.subjects[s].examId == examId)
  }

  lemma {:induction false} WithSubjectsAdds(db: ExamDb, dir: Directory, tenantId: string, examId: string, subjects: seq<NewSubject>, uuid: nat -> string)
    ensures WithSubjects(db, dir, tenantId, examId, subjects, uuid).Ok? ==>
              AddsSubjects(db, WithSubjects(db, dir, tenantId, examId, subjects, uuid).value, tenantId, examId)
  {
    if subjects != [] { WithSubjectsAdds(db, dir, tenantId, examId, subjects[..|subjects| - 1], uuid); }
  }

  predicate CreateEffect(before: ExamDb, after: ExamDb, actor: Actor, command: CreateExam, examId: string) {
    && examId !in before.exams
    && after.exams == before.exams[examId := NewExam(actor, command)]
    && after.scores == before.scores && after.imports == before.imports
    && AddsSubjects(before.(exams := after.exams), after, actor.tenantId, examId)
  }

  lemma CreateHasEffect(db: ExamDb, dir: Directory, actor: Actor, command: CreateExam, examId: string, uuid: nat -> string)
    ensures
      var (after, r) := Create(db, dir, actor, command, examId, uuid);
      if r.Ok? then CreateEffect(db, after, actor, command, examId) else after == db
  {
    hide WithSubjects, MayTeachAll, PersonExists;
    WithSubjectsAdds(db.(exams := db.exams[examId := NewExam(actor, command)]), dir, actor.tenantId, examId, command.subjects, uuid);
  }

  lemma CreateExamsOk(before: ExamDb, after: ExamDb, actor: Actor, command: CreateExam, examId: string)
    requires ExamsOk(before) && CreateEffect(before, after, actor, command, examId)
    ensures ExamsOk(after)
  {
    forall e | e in after.exams ensures ExamOk(after, e) {
      if e != examId {
        assert ExamOk(before, e);
        assert SubjectRows(after, e) == SubjectRows(before, e);
      }
    }
  }

  lemma CreateSubjectsOk(before: ExamDb, after: ExamDb, actor: Actor, command: CreateExam, examId: string)
    requires SubjectsOk(before) && CreateEffect(before, after, actor, command, examId)
    ensures SubjectsOk(after)
  {
    forall s | s in after.subjects ensures SubjectOk(after, s) { if s in before.subjects { assert SubjectOk(before, s); } }
  }

  lemma CreateScoresOk(before: ExamDb, after: ExamDb, actor: Actor, command: CreateExam, examId: string)
    requires ScoresOk(before) && CreateEffect(before, after, actor, command, examId)
    ensures ScoresOk(after)
  {
    forall k | k in after.scores ensures ScoreOk(after, k) { assert ScoreOk(before, k); }
  }

  lemma CreateKeepsInv(before: ExamDb, after: ExamDb, actor: Actor, command: CreateExam, examId: string)
    requires Inv(before) && CreateEffect(before, after, actor, command, examId)
    ensures Inv(after)
  {
    assert ExamsOk(after) && SubjectsOk(after) && ScoresOk(after) by {
      hide ExamsOk, SubjectsOk, ScoresOk, ImportsOk, CreateEffect;
      CreateExamsOk(before, after, actor, command, examId);
      CreateSubjectsOk(before, after, actor, command, examId);
      CreateScoresOk(before, after, actor, command, examId);
    }
    hide ExamsOk, SubjectsOk, ScoresOk, AddsSubjects;
    forall i | i in after.imports ensures ImportOk(after, i) { assert ImportOk(before, i); }
  }

  lemma CreateKeeps(before: ExamDb, after: ExamDb, actor: Actor, command: CreateExam, examId: string, e: string)
    requires e in before.exams && CreateEffect(before, after, actor, command, examId)
    ensures Kept(before, after, e)
  {
    assert SubjectRows(after, e) == SubjectRows(before, e);
    assert ScoresOf(after, e) == ScoresOf(before, e);
  }

  // update, publish, withdraw

  /** One exam row changes, its identity and ownership stay, and the status moves as the lifecycle allows. */
  predicate RowEffect(before: ExamDb, after: ExamDb, examId: string) {
    && examId in before.exams && examId in after.exams
    && after == WithExam(before, examId, after.exams[examId])
    && var a, b := before.exams[examId], after.exams[examId];
       && b.tenantId == a.tenantId && b.creatorId == a.creatorId && b.classroomId == a.classroomId
       && ((a.status == b.status == Draft && b.publishedAt == a.publishedAt && b.withdrawnAt == a.withdrawnAt)
           || (a.status == Draft && b == a.(status := Published, publishedAt := b.publishedAt, withdrawnAt := None)
               && b.publishedAt.Some? && |SubjectsOf(before, a.tenantId, examId)| > 0)
           || (a.status == Published && b == a.(status := Withdrawn, withdrawnAt := b.withdrawnAt) && b.withdrawnAt.Some?))
  }

  lemma RowHasEffect(db: ExamDb, op: Op)
    requires op.UpdateOp? || op.PublishOp? || op.WithdrawOp?
    ensures Step(db, op) == db
         || (RowEffect(db, Step(db, op), op.examId) && IsStaffActor(op.actor)
             && ExamVisible(db, op.actor.tenantId, op.examId) && MayChange(op.actor, db.exams[op.examId]))
  {
    hide SubjectsOf;
  }

  lemma SubjectsAreRows(db: ExamDb, tenantId: string, examId: string)
    ensures |SubjectsOf(db, tenantId, examId)| > 0 ==> |SubjectRows(db, examId)| > 0
  {
    var own := SubjectsOf(db, tenantId, examId);
    if |own| > 0 {
      var s :| s in own;
      assert s in SubjectRows(db, examId);
    }
  }

  lemma RowKeepsInv(before: ExamDb, after: ExamDb, examId: string)
    requires Inv(before) && RowEffect(before, after, examId)
    ensures Inv(after)
  {
    assert ExamsOk(after) by {
      hide SubjectsOk, ScoresOk, ImportsOk, SubjectsOf;
      forall e | e in after.exams ensures ExamOk(after, e) {
        assert ExamOk(before, e);
        SubjectsAreRows(before, before.exams[e].tenantId, e);
        assert SubjectRows(after, e) == SubjectRows(before, e);
      }
    }
    assert SubjectsOk(after) by {
      hide ExamsOk, ScoresOk, ImportsOk, SubjectsOf;
      forall s | s in after.subjects ensures SubjectOk(after, s) { assert SubjectOk(before, s); }
    }
    assert ScoresOk(after) by {
      hide ExamsOk, SubjectsOk, ImportsOk, SubjectsOf;
      forall k | k in after.scores ensures ScoreOk(after, k) { assert ScoreOk(before, k); }
    }
    assert ImportsOk(after) by {
      hide ExamsOk, SubjectsOk, ScoresOk, SubjectsOf;
      forall i | i in after.imports ensures ImportOk(after, i) { assert ImportOk(before, i); }
    }
  }

  lemma RowKeeps(before: ExamDb, after: ExamDb, examId: string, e: string)
    requires e in before.exams && RowEffect(before, after, examId)
    ensures Kept(before, after, e)
  {
    hide SubjectsOf;
    assert SubjectRows(after, e) == SubjectRows(before, e);
    assert ScoresOf(after, e) == ScoresOf(before, e);
  }

  // save and import

  /** A cell whose row is within its subject's range, whatever the student. */
  predicate PreparedOk(subjects: map<string, Subject>, cell: PreparedCell) {
    && cell.subjectId in subjects
    && (cell.absent ==> cell.value.None?)
    && (cell.value.Some? ==> 0.0 <= cell.value.value && cell.value.value * 100.0 <= subjects[cell.subjectId].maximumScore as real)
  }

  /** Only rows of this exam change, and the new ones are in order. */
  predicate ScoreEffect(before: ExamDb, after: ExamDb, tenantId: string, examId: string) {
    && after == before.(scores := after.scores)
    && (forall k | k in before.scores :: k in after.scores)
    && (forall k | k in after.scores && (k.examId != examId || k.tenantId != tenantId) :: k in before.scores && after.scores[k] == before.scores[k])
    && (ScoresOk(before) ==> ScoresOk(after))
  }

  lemma UpsertKeepsScoresOk(db: ExamDb, actor: Actor, examId: string, cell: PreparedCell)
    requires PreparedOk(SubjectsOf(db, actor.tenantId, examId), cell)
    ensures ScoreEffect(db, Upserted(db, actor, examId, cell), actor.tenantId, examId)
  {
    var after := Upserted(db, actor, examId, cell);
    var key := KeyOf(actor, examId, cell);
    if cell.value.Some? { RoundingStaysInRange(cell.value.value, db.subjects[cell.subjectId].maximumScore); }
    hide Hundredths;
    if ScoresOk(db) {
      forall k | k in after.scores ensures ScoreOk(after, k) {
        if k != key { assert ScoreOk(db, k); }
      }
    }
  }

  lemma {:induction false} WrittenHasEffect(db: ExamDb, dir: Directory, actor: Actor, examId: string, cells: seq<PreparedCell>)
    requires forall i | 0 <= i < |cells| :: PreparedOk(SubjectsOf(db, actor.tenantId, examId), cells[i])
    requires Written(db, dir, actor, examId, cells).Ok?
    ensures ScoreEffect(db, Written(db, dir, actor, examId, cells).value, actor.tenantId, examId)
  {
    hide PreparedOk, RowAllowed, Upserted, ScoresOk, SubjectsOf;
    if cells != [] {
      var n := |cells| - 1;
      WrittenHasEffect(db, dir, actor, examId, cells[..n]);
      var before := Written(db, dir, actor, examId, cells[..n]).value;
      SameSubjects(db, before, actor.tenantId, examId);
      UpsertKeepsScoresOk(before, actor, examId, cells[n]);
    }
  }

  lemma {:induction false} CheckedCellsFit(cells: seq<ScoreCell>, subjects: map<string, Subject>)
    requires CheckCells(cells, subjects).None?
    ensures forall i | 0 <= i < |cells| :: CellFits(subjects, cells[i])
  {
    hide CellKey, InRange;
    if cells != [] { CheckedCellsFit(cells[..|cells| - 1], subjects); }
  }

  lemma FittingCellIsOk(dir: Directory, tenantId: string, subjects: map<string, Subject>, cell: ScoreCell)
    requires CellFits(subjects, cell) && KnownStudent(dir, tenantId, cell.studentEduplusId)
    ensures PreparedOk(subjects, Prepare(dir, tenantId, cell))
  {
  }

  lemma ValidatedCellsAreOk(db: ExamDb, dir: Directory, actor: Actor, examId: string, cells: seq<ScoreCell>)
    requires Validated(db, dir, actor, examId, cells).Ok?
    ensures ExamVisible(db, actor.tenantId, examId) && db.exams[examId].status == Draft
    ensures
      var prepared := Validated(db, dir, actor, examId, cells).value;
      forall i | 0 <= i < |prepared| :: PreparedOk(SubjectsOf(db, actor.tenantId, examId), prepared[i])
  {
    hide CheckCells, SubjectsOf, AllAssigned, AllInClass, KnownStudent, CellFits, PreparedOk, Prepare;
    var subjects := SubjectsOf(db, actor.tenantId, examId);
    CheckedCellsFit(cells, subjects);
    forall i | 0 <= i < |cells| ensures PreparedOk(subjects, Prepare(dir, actor.tenantId, cells[i])) {
      FittingCellIsOk(dir, actor.tenantId, subjects, cells[i]);
    }
  }

  /** A save that changes anything was on a draft of the actor's tenant. */
  lemma SaveHasEffect(db: ExamDb, dir: Directory, actor: Actor, examId: string, cells: seq<ScoreCell>)
    ensures
      var (after, r) := Save(db, dir, actor, examId, cells);
      if r.Err? then after == db
      else ExamVisible(db, actor.tenantId, examId) && db.exams[examId].status == Draft && ScoreEffect(db, after, actor.tenantId, examId)
  {
    hide Validated, Written, PreparedOk, SubjectsOf, ScoreEffect;
    if Validated(db, dir, actor, examId, cells).Ok? {
      ValidatedCellsAreOk(db, dir, actor, examId, cells);
      var prepared := Validated(db, dir, actor, examId, cells).value;
      if Written(db, dir, actor, examId, prepared).Ok? { WrittenHasEffect(db, dir, actor, examId, prepared); }
    }
  }

  lemma ScoresKeepInv(before: ExamDb, after: ExamDb, tenantId: string, examId: string)
    requires Inv(before) && ScoreEffect(before, after, tenantId, examId)
    ensures Inv(after)
  {
    hide ScoresOk;
    assert ExamsOk(after) by {
      hide SubjectsOk, ImportsOk;
      forall e | e in after.exams ensures ExamOk(after, e) {
        assert ExamOk(before, e);
        assert SubjectRows(after, e) == SubjectRows(before, e);
      }
    }
    assert SubjectsOk(after) by {
      hide ExamsOk, ImportsOk;
      forall s | s in after.subjects ensures SubjectOk(after, s) { assert SubjectOk(before, s); }
    }
    assert ImportsOk(after) by {
      hide ExamsOk, SubjectsOk;
      forall i | i in after.imports ensures ImportOk(after, i) { assert ImportOk(before, i); }
    }
  }

  lemma ScoresKeep(before: ExamDb, after: ExamDb, tenantId: string, examId: string, e: string)
    requires e in before.exams && ScoreEffect(before, after, tenantId, examId)
    requires examId in before.exams && before.exams[examId].status == Draft
    ensures Kept(before, after, e)
  {
    hide ScoresOk;
    assert SubjectRows(after, e) == SubjectRows(before, e);
    if e != examId { assert ScoresOf(after, e) == ScoresOf(before, e); }
  }

  /** An import is a save, or nothing, together with one new import row. */
  predicate ImportEffect(before: ExamDb, after: ExamDb, saved: ExamDb, importId: string, tenantId: string) {
    && importId !in before.imports && importId in after.imports
    && (after == saved.(imports := before.imports[importId := after.imports[importId]])
        || after == before.(imports := before.imports[importId := after.imports[importId]]))
    && ImportOk(after, importId)
    && after.imports[importId].tenantId == tenantId
  }

  lemma ImportHasEffect(db: ExamDb, dir: Directory, actor: Actor, examId: string, filename: string, source: string,
                        toNumber: string -> Number, importId: string)
    ensures
      var (after, r) := Import(db, dir, actor, examId, filename, source, toNumber, importId);
      var saved := Save(db, dir, actor, examId, Parse(toNumber, source).cells);
      if r.Err? then after == db else ImportEffect(db, after, saved.0, importId, actor.tenantId)
  {
    hide Parse, Save, Import, ScoresOk;
    ImportIsSaveOrNothing(db, dir, actor, examId, filename, source, toNumber, importId);
    SaveHasEffect(db, dir, actor, examId, Parse(toNumber, source).cells);
    var (after, r) := Import(db, dir, actor, examId, filename, source, toNumber, importId);
    var saved := Save(db, dir, actor, examId, Parse(toNumber, source).cells).0;
    if r.Ok? {
      assert importId !in db.imports;
      assert after.imports[importId] == r.value;
      assert ImportOk(after, importId);
      assert saved == db.(scores := saved.scores);
      assert after.scores == saved.scores || after.scores == db.scores;
    }
  }

  lemma ImportsKeepInv(db: ExamDb, importId: string, row: ScoreImport)
    requires Inv(db) && ImportOk(db.(imports := db.imports[importId := row]), importId)
    ensures Inv(db.(imports := db.imports[importId := row]))
  {
    var after := db.(imports := db.imports[importId := row]);
    assert ExamsOk(after) by {
      hide SubjectsOk, ScoresOk, ImportsOk;
      forall e | e in after.exams ensures ExamOk(after, e) {
        assert ExamOk(db, e);
        assert SubjectRows(after, e) == SubjectRows(db, e);
      }
    }
    assert SubjectsOk(after) by {
      hide ExamsOk, ScoresOk, ImportsOk;
      forall s | s in after.subjects ensures SubjectOk(after, s) { assert SubjectOk(db, s); }
    }
    assert ScoresOk(after) by {
      hide ExamsOk, SubjectsOk, ImportsOk;
      forall k | k in after.scores ensures ScoreOk(after, k) { assert ScoreOk(db, k); }
    }
    assert ImportsOk(after) by {
      hide ExamsOk, SubjectsOk, ScoresOk;
      forall i | i in after.imports ensures ImportOk(after, i) { if i != importId { assert ImportOk(db, i); } }
    }
  }

  // ---- one step ----

  lemma StepKeepsInv(db: ExamDb, op: Op)
    requires Inv(db)
    ensures Inv(Step(db, op))
  {
    hide Inv, Create, Save, Import, Parse, CreateEffect, RowEffect, ScoreEffect, ImportOk;
    match op
    case CreateOp(dir, actor, command, examId, uuid) =>
      CreateHasEffect(db, dir, actor, command, examId, uuid);
      if Step(db, op) != db { CreateKeepsInv(db, Step(db, op), actor, command, examId); }
    case SaveOp(dir, actor, examId, cells) =>
      SaveHasEffect(db, dir, actor, examId, cells);
      if Step(db, op) != db { ScoresKeepInv(db, Step(db, op), actor.tenantId, examId); }
    case ImportOp(dir, actor, examId, filename, source, toNumber, importId) =>
      ImportHasEffect(db, dir, actor, examId, filename, source, toNumber, importId);
      ImportKeepsInv(db, op);
    case _ =>
      hide Step;
      RowHasEffect(db, op);
      if Step(db, op) != db { RowKeepsInv(db, Step(db, op), op.examId); }
  }

  lemma ImportKeepsInv(db: ExamDb, op: Op)
    requires Inv(db) && op.ImportOp?
    ensures Inv(Step(db, op))
  {
    hide Inv, Save, Import, Parse, ScoreEffect, ImportOk;
    ImportHasEffect(db, op.dir, op.actor, op.examId, op.filename, op.source, op.toNumber, op.importId);
    var cells := Parse(op.toNumber, op.source).cells;
    var saved, after := Save(db, op.dir, op.actor, op.examId, cells).0, Step(db, op);
    SaveHasEffect(db, op.dir, op.actor, op.examId, cells);
    if saved != db { ScoresKeepInv(db, saved, op.actor.tenantId, op.examId); }
    if after != db {
      var row := after.imports[op.importId];
      SavedKeepsImports(db, op.dir, op.actor, op.examId, cells);
      if after == saved.(imports := db.imports[op.importId := row]) {
        ImportsKeepInv(saved, op.importId, row);
      } else {
        ImportsKeepInv(db, op.importId, row);
      }
    }
  }

  lemma SavedKeepsImports(db: ExamDb, dir: Directory, actor: Actor, examId: string, cells: seq<ScoreCell>)
    ensures
      var after := Save(db, dir, actor, examId, cells).0;
      after.exams == db.exams && after.subjects == db.subjects && after.imports == db.imports
  {
    hide Save, ScoresOk;
    SaveHasEffect(db, dir, actor, examId, cells);
  }

  lemma StepKeeps(db: ExamDb, op: Op, e: string)
    requires e in db.exams
    ensures Kept(db, Step(db, op), e)
  {
    hide Kept, Create, Save, Import, Parse, CreateEffect, RowEffect, ScoreEffect, ImportEffect;
    SameIsKept(db, e);
    match op
    case CreateOp(dir, actor, command, examId, uuid) =>
      CreateHasEffect(db, dir, actor, command, examId, uuid);
      if Step(db, op) != db { CreateKeeps(db, Step(db, op), actor, command, examId, e); }
    case SaveOp(dir, actor, examId, cells) =>
      SaveKeeps(db, dir, actor, examId, cells, e);
    case ImportOp(dir, actor, examId, filename, source, toNumber, importId) =>
      ImportHasEffect(db, dir, actor, examId, filename, source, toNumber, importId);
      var cells := Parse(toNumber, source).cells;
      SaveKeeps(db, dir, actor, examId, cells, e);
      if Step(db, op) != db { ImportKeeps(db, Step(db, op), Save(db, dir, actor, examId, cells).0, importId, actor.tenantId, e); }
    case _ =>
      hide Step;
      RowHasEffect(db, op);
      if Step(db, op) != db { RowKeeps(db, Step(db, op), op.examId, e); }
  }

  lemma SameIsKept(db: ExamDb, e: string)
    requires e in db.exams
    ensures Kept(db, db, e)
  {
  }

  lemma SaveKeeps(db: ExamDb, dir: Directory, actor: Actor, examId: string, cells: seq<ScoreCell>, e: string)
    requires e in db.exams
    ensures Kept(db, Save(db, dir, actor, examId, cells).0, e)
  {
    hide Kept, Save, ScoreEffect;
    SameIsKept(db, e);
    SaveHasEffect(db, dir, actor, examId, cells);
    if Save(db, dir, actor, examId, cells).0 != db { ScoresKeep(db, Save(db, dir, actor, examId, cells).0, actor.tenantId, examId, e); }
  }

  lemma ImportKeeps(before: ExamDb, after: ExamDb, saved: ExamDb, importId: string, tenantId: string, e: string)
    requires e in before.exams && Kept(before, saved, e) && ImportEffect(before, after, saved, importId, tenantId)
    ensures Kept(before, after, e)
  {
    hide ImportOk;
    assert SubjectRows(before, e) == SubjectRows(before.(imports := after.imports), e);
    assert SubjectRows(saved, e) == SubjectRows(saved.(imports := after.imports), e);
    assert ScoresOf(before, e) == ScoresOf(before.(imports := after.imports), e);
    assert ScoresOf(saved, e) == ScoresOf(saved.(imports := after.imports), e);
  }

  // ---- every run ----

  const EMPTY := ExamDb(map[], map[], map[], map[])

  /**
   In every reachable state: published and withdrawn exams have a subject, every
   stored value is within 0 and its subject's maximum, absent means no value,
   and applied imports applied all their rows.
   */
  lemma {:induction false} RunKeepsInv(db: ExamDb, ops: seq<Op>)
    requires Inv(db)
    ensures Inv(Run(db, ops))
  {
    hide Inv, Step;
    if ops != [] {
      RunKeepsInv(db, ops[..|ops| - 1]);
      StepKeepsInv(Run(db, ops[..|ops| - 1]), ops[|ops| - 1]);
    }
  }

  lemma ReachableFromEmpty(ops: seq<Op>)
    ensures Inv(Run(EMPTY, ops))
  {
    hide Step;
    assert Inv(EMPTY);
    RunKeepsInv(EMPTY, ops);
  }

  /**
   Exams never disappear and their status never moves back; once an exam is no
   longer a draft, its subjects, its scores and all of its row but the status and
   the withdrawal stamp stay as they are, whatever is called.
   */
  lemma {:induction false} RunKeeps(db: ExamDb, ops: seq<Op>, e: string)
    requires e in db.exams
    ensures Kept(db, Run(db, ops), e)
  {
    hide Kept, Step;
    SameIsKept(db, e);
    if ops != [] {
      var before := Run(db, ops[..|ops| - 1]);
      RunKeeps(db, ops[..|ops| - 1], e);
      KeptStays(db, before, e);
      StepKeeps(before, ops[|ops| - 1], e);
      KeptTransitive(db, before, Step(before, ops[|ops| - 1]), e);
    }
  }

  lemma KeptStays(before: ExamDb, after: ExamDb, e: string)
    requires e in before.exams && Kept(before, after, e)
    ensures e in after.exams
  {
  }

  /** The only step out of DRAFT is a publish by someone who may change the exam, and it touches neither subjects nor scores. */
  lemma OnlyPublishPublishes(db: ExamDb, op: Op, e: string)
    requires e in db.exams && db.exams[e].status == Draft
    requires e in Step(db, op).exams && Step(db, op).exams[e].status != Draft
    ensures op.PublishOp? && op.examId == e && MutableExam(db, op.actor, e).Ok?
    ensures SubjectRows(Step(db, op), e) == SubjectRows(db, e) && |SubjectsOf(db, op.actor.tenantId, e)| > 0
    ensures ScoresOf(Step(db, op), e) == ScoresOf(db, e)
  {
    match op
    case CreateOp(dir, actor, command, examId, uuid) =>
      hide Create, AddsSubjects;
      CreateHasEffect(db, dir, actor, command, examId, uuid);
    case SaveOp(dir, actor, examId, cells) =>
      hide Save;
      SavedKeepsImports(db, dir, actor, examId, cells);
    case ImportOp(dir, actor, examId, filename, source, toNumber, importId) =>
      hide Save, Import, Parse, ImportOk;
      ImportHasEffect(db, dir, actor, examId, filename, source, toNumber, importId);
      SavedKeepsImports(db, dir, actor, examId, Parse(toNumber, source).cells);
    case PublishOp(actor, examId, now) =>
      hide SubjectsOf;
      assert SubjectRows(Step(db, op), e) == SubjectRows(db, e);
      assert ScoresOf(Step(db, op), e) == ScoresOf(db, e);
    case _ =>
  }

  /** Step k of a run published exam e, and the subjects and scores e had then are those of the state after. */
  predicate PublishedAt(db: ExamDb, ops: seq<Op>, k: nat, e: string, after: ExamDb) {
    && k < |ops| && ops[k].PublishOp? && ops[k].examId == e
    && var before := Run(db, ops[..k]);
       && MutableExam(before, ops[k].actor, e).Ok?
       && SubjectRows(after, e) == SubjectRows(before, e)
       && ScoresOf(after, e) == ScoresOf(before, e)
  }

  /** An exam that is not a draft at the end of a run was published at some step, and still has the subjects and scores it had then. */
  lemma {:induction false} ScoresAreThoseAtPublication(db: ExamDb, ops: seq<Op>, e: string)
    requires e in db.exams && db.exams[e].status == Draft
    requires e in Run(db, ops).exams && Run(db, ops).exams[e].status != Draft
    ensures exists k: nat :: PublishedAt(db, ops, k, e, Run(db, ops))
  {
    hide Step, SubjectRows, ScoresOf, MutableExam;
    var n := |ops| - 1;
    var before, op := Run(db, ops[..n]), ops[n];
    RunKeeps(db, ops[..n], e);
    if before.exams[e].status == Draft {
      OnlyPublishPublishes(before, op, e);
      assert PublishedAt(db, ops, n, e, Run(db, ops));
    } else {
      ScoresAreThoseAtPublication(db, ops[..n], e);
      var k: nat :| PublishedAt(db, ops[..n], k, e, before);
      StepKeeps(before, op, e);
      assert ops[..n][..k] == ops[..k];
      assert PublishedAt(db, ops, k, e, Run(db, ops));
    }
  }

  // ---- who may change what ----

  /** The rows of every tenant but one. */
  function Elsewhere(db: ExamDb, tenantId: string): ExamDb {
    ExamDb(map e | e in db.exams && db.exams[e].tenantId != tenantId :: db.exams[e],
           map s | s in db.subjects && db.subjects[s].tenantId != tenantId :: db.subjects[s],
           map k | k in db.scores && k.tenantId != tenantId :: db.scores[k],
           map i | i in db.imports && db.imports[i].tenantId != tenantId :: db.imports[i])
  }

  /** No call changes a row of another tenant. */
  lemma TenantsAreIsolated(db: ExamDb, op: Op)
    ensures Elsewhere(Step(db, op), op.actor.tenantId) == Elsewhere(db, op.actor.tenantId)
  {
    hide Create, Save, Import, Parse, ImportOk, ScoresOk, SubjectsOf;
    match op
    case CreateOp(dir, actor, command, examId, uuid) =>
      hide Elsewhere;
      CreateHasEffect(db, dir, actor, command, examId, uuid);
      if Step(db, op) != db { CreateIsolated(db, Step(db, op), actor, command, examId); }
    case SaveOp(dir, actor, examId, cells) =>
      SaveIsolated(db, dir, actor, examId, cells);
    case ImportOp(dir, actor, examId, filename, source, toNumber, importId) =>
      hide Elsewhere, ImportEffect, ScoreEffect;
      var cells := Parse(toNumber, source).cells;
      ImportHasEffect(db, dir, actor, examId, filename, source, toNumber, importId);
      SaveIsolated(db, dir, actor, examId, cells);
      if Step(db, op) != db { ImportIsolated(db, Step(db, op), Save(db, dir, actor, examId, cells).0, importId, actor.tenantId); }
    case _ =>
      hide Step, Elsewhere;
      RowHasEffect(db, op);
      if Step(db, op) != db { RowIsolated(db, Step(db, op), op); }
  }

  lemma RowIsolated(before: ExamDb, after: ExamDb, op: Op)
    requires op.UpdateOp? || op.PublishOp? || op.WithdrawOp?
    requires RowEffect(before, after, op.examId) && before.exams[op.examId].tenantId == op.actor.tenantId
    ensures Elsewhere(after, op.actor.tenantId) == Elsewhere(before, op.actor.tenantId)
  {
  }

  lemma SaveIsolated(db: ExamDb, dir: Directory, actor: Actor, examId: string, cells: seq<ScoreCell>)
    ensures Elsewhere(Save(db, dir, actor, examId, cells).0, actor.tenantId) == Elsewhere(db, actor.tenantId)
  {
    hide Save, ScoresOk;
    SaveHasEffect(db, dir, actor, examId, cells);
    assert Elsewhere(Save(db, dir, actor, examId, cells).0, actor.tenantId).scores == Elsewhere(db, actor.tenantId).scores;
  }

  lemma CreateIsolated(before: ExamDb, after: ExamDb, actor: Actor, command: CreateExam, examId: string)
    requires CreateEffect(before, after, actor, command, examId)
    ensures Elsewhere(after, actor.tenantId) == Elsewhere(before, actor.tenantId)
  {
    assert Elsewhere(after, actor.tenantId).exams == Elsewhere(before, actor.tenantId).exams;
    assert Elsewhere(after, actor.tenantId).subjects == Elsewhere(before, actor.tenantId).subjects;
  }

  lemma ImportIsolated(before: ExamDb, after: ExamDb, saved: ExamDb, importId: string, tenantId: string)
    requires ImportEffect(before, after, saved, importId, tenantId)
    requires Elsewhere(saved, tenantId) == Elsewhere(before, tenantId)
    ensures Elsewhere(after, tenantId) == Elsewhere(before, tenantId)
  {
    hide ImportOk;
    assert Elsewhere(after, tenantId).imports == Elsewhere(before, tenantId).imports;
    if after.scores == saved.scores {
      assert Elsewhere(after, tenantId).scores == Elsewhere(saved, tenantId).scores;
    }
  }

  lemma SaveNeedsStaff(db: ExamDb, dir: Directory, actor: Actor, examId: string, cells: seq<ScoreCell>)
    ensures !IsStaffActor(actor) ==> Save(db, dir, actor, examId, cells).0 == db
  {
    hide Written, CheckCells, AllAssigned, AllKnown, SubjectsOf;
  }

  /** Students and parents change no exam, subject or score; a teacher changes the row of no exam but those they created. */
  lemma OnlyStaffAndOwners(db: ExamDb, op: Op, e: string)
    ensures !IsStaffActor(op.actor) ==>
              Step(db, op).exams == db.exams && Step(db, op).subjects == db.subjects && Step(db, op).scores == db.scores
    ensures e in db.exams && op.actor.identityType == Teacher && db.exams[e].creatorId != op.actor.personId ==>
              e in Step(db, op).exams && Step(db, op).exams[e] == db.exams[e]
  {
    hide Parse, ImportOk, ScoresOk, SubjectsOf;
    match op
    case CreateOp(dir, actor, command, examId, uuid) =>
      hide AddsSubjects;
      CreateHasEffect(db, dir, actor, command, examId, uuid);
    case SaveOp(dir, actor, examId, cells) =>
      hide Save;
      SavedKeepsImports(db, dir, actor, examId, cells);
      SaveNeedsStaff(db, dir, actor, examId, cells);
    case ImportOp(dir, actor, examId, filename, source, toNumber, importId) =>
      hide Import;
      ImportHasEffect(db, dir, actor, examId, filename, source, toNumber, importId);
      var cells := Parse(toNumber, source).cells;
      SavedKeepsImports(db, dir, actor, examId, cells);
      SaveNeedsStaff(db, dir, actor, examId, cells);
    case _ =>
      hide Step;
      RowHasEffect(db, op);
  }

  // ---- why serial ----

  lemma {:induction false} WrittenIgnoresStatus(db: ExamDb, published: ExamDb, dir: Directory, actor: Actor, examId: string, cells: seq<PreparedCell>)
    requires RowEffect(db, published, examId)
    ensures
      match Written(db, dir, actor, examId, cells)
      case Err(e) => Written(published, dir, actor, examId, cells) == Err(e)
      case Ok(after) => Written(published, dir, actor, examId, cells) == Ok(after.(exams := published.exams))
                        && after == db.(scores := after.scores)
  {
    hide PersonExists, SubjectsOf;
    if cells != [] {
      var n := |cells| - 1;
      WrittenIgnoresStatus(db, published, dir, actor, examId, cells[..n]);
      if Written(db, dir, actor, examId, cells[..n]).Ok? {
        var a := Written(db, dir, actor, examId, cells[..n]).value;
        SameSubjects(a, a.(exams := published.exams), actor.tenantId, examId);
      }
    }
  }

  /**
   The freeze holds for calls that do not overlap only: the status is checked
   before the transaction that writes.  For every grid that would be saved and
   every publish that would be accepted, checking the grid, then publishing, then
   writing the grid puts it into the published exam.
   */
  lemma OverlappingSaveWritesIntoPublishedExam(db: ExamDb, dir: Directory, actor: Actor, publisher: Actor, examId: string, cells: seq<ScoreCell>, now: int)
    requires Save(db, dir, actor, examId, cells).1.Ok? && Publish(db, publisher, examId, now).1.Ok?
    ensures
      var published := Publish(db, publisher, examId, now).0;
      var w := Written(published, dir, actor, examId, Validated(db, dir, actor, examId, cells).value);
      && published.exams[examId].status == Published
      && w == Ok(published.(scores := Save(db, dir, actor, examId, cells).0.scores))
  {
    hide Validated, Written, SubjectsOf;
    var op := PublishOp(publisher, examId, now);
    RowHasEffect(db, op);
    WrittenIgnoresStatus(db, Publish(db, publisher, examId, now).0, dir, actor, examId, Validated(db, dir, actor, examId, cells).value);
  }
}
