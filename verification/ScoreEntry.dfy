/**
 Entering scores: a grid of cells is validated as a whole against the exam and
 the directory, then written by upserts in one transaction.
 */
module ScoreEntry {
  import opened Prelude
  import opened Text
  import opened ExamStore

  /** A JavaScript number as far as the range check can tell. */
  datatype Number = Finite(value: real) | NotFinite

  datatype ScoreCell = ScoreCell(studentEduplusId: string, subjectId: string, score: Option<Number>, absent: bool)

  datatype PreparedCell = PreparedCell(studentId: string, subjectId: string, value: Option<real>, absent: bool)

  // ---- the Decimal(8,2) column ----

  /** Storing rounds to hundredths, halves away from zero; the values that get here are not negative. */
  function Hundredths(x: real): int {
    (x * 100.0 + 0.5).Floor
  }

  function StoredValue(v: Option<real>): Option<int> {
    match v
    case None => None
    case Some(x) => Some(Hundredths(x))
  }

  lemma FloorOfHalfUp(y: real, r: int, maximum: int)
    requires 0.0 <= y <= maximum as real
    requires r as real <= y + 0.5 < r as real + 1.0
    ensures 0 <= r <= maximum
    ensures -0.5 <= r as real - y <= 0.5
    ensures y == y.Floor as real ==> r == y.Floor
  {
  }

  /**
   Rounding never leaves a range whose ends are hundredths, is off by at most
   half a hundredth, and keeps what is already in hundredths.
   */
  lemma RoundingStaysInRange(x: real, maximum: int)
    requires 0.0 <= x * 100.0 <= maximum as real
    ensures 0 <= Hundredths(x) <= maximum
    ensures -0.5 <= Hundredths(x) as real - x * 100.0 <= 0.5
    ensures x * 100.0 == (x * 100.0).Floor as real ==> Hundredths(x) == (x * 100.0).Floor
  {
    FloorOfHalfUp(x * 100.0, Hundredths(x), maximum);
  }

  // ---- checking cells ----

  function CellKey(cell: ScoreCell): string {
    Joined(cell.studentEduplusId, cell.subjectId)
  }

  function CellKeys(cells: seq<ScoreCell>): set<string> {
    set i | 0 <= i < |cells| :: CellKey(cells[i])
  }

  predicate InRange(score: Option<Number>, maximum: int) {
    match score
    case None => true
    case Some(NotFinite) => false
    case Some(Finite(x)) => 0.0 <= x && x * 100.0 <= maximum as real
  }

  function CheckCell(seen: set<string>, cell: ScoreCell, subjects: map<string, Subject>): Option<Error> {
    if CellKey(cell) in seen then Some(DuplicateCell)
    else if cell.subjectId !in subjects then Some(UnknownSubject)
    else if cell.absent && cell.score.Some? then Some(AbsentWithScore)
    else if !InRange(cell.score, subjects[cell.subjectId].maximumScore) then Some(OutOfRange)
    else None
  }

  /** The first cell in order that fails decides the answer. */
  function CheckCells(cells: seq<ScoreCell>, subjects: map<string, Subject>): Option<Error> {
    if cells == [] then None
    else
      match CheckCells(cells[..|cells| - 1], subjects)
      case Some(e) => Some(e)
      case None => CheckCell(CellKeys(cells[..|cells| - 1]), cells[|cells| - 1], subjects)
  }

  predicate KnownStudent(dir: Directory, tenantId: string, eduplusId: string) {
    (tenantId, eduplusId) in dir.people
    && dir.people[(tenantId, eduplusId)].kind == Student && dir.people[(tenantId, eduplusId)].active
  }

  predicate InClass(dir: Directory, tenantId: string, eduplusId: string, classroomId: string)
    requires KnownStudent(dir, tenantId, eduplusId)
  {
    Membership(tenantId, dir.people[(tenantId, eduplusId)].id, classroomId, true) in dir.memberships
  }

  function Amount(score: Option<Number>): Option<real> {
    match score
    case Some(Finite(x)) => Some(x)
    case _ => None
  }

  function Prepare(dir: Directory, tenantId: string, cell: ScoreCell): PreparedCell
    requires KnownStudent(dir, tenantId, cell.studentEduplusId)
  {
    PreparedCell(dir.people[(tenantId, cell.studentEduplusId)].id, cell.subjectId, Amount(cell.score), cell.absent)
  }

  predicate AllKnown(dir: Directory, tenantId: string, cells: seq<ScoreCell>) {
    forall i | 0 <= i < |cells| :: KnownStudent(dir, tenantId, cells[i].studentEduplusId)
  }

  predicate AllInClass(dir: Directory, tenantId: string, classroomId: string, cells: seq<ScoreCell>)
    requires AllKnown(dir, tenantId, cells)
  {
    forall i | 0 <= i < |cells| :: InClass(dir, tenantId, cells[i].studentEduplusId, classroomId)
  }

  predicate AllAssigned(dir: Directory, actor: Actor, classroomId: string, subjects: map<string, Subject>, cells: seq<ScoreCell>) {
    forall i | 0 <= i < |cells| && cells[i].subjectId in subjects ::
      MayTeach(dir, actor, classroomId, subjects[cells[i].subjectId].courseId)
  }

  function PrepareAll(dir: Directory, tenantId: string, cells: seq<ScoreCell>): (r: seq<PreparedCell>)
    requires AllKnown(dir, tenantId, cells)
    ensures |r| == |cells|
  {
    seq(|cells|, i requires 0 <= i < |cells| => Prepare(dir, tenantId, cells[i]))
  }

  function Validated(db: ExamDb, dir: Directory, actor: Actor, examId: string, cells: seq<ScoreCell>): Result<seq<PreparedCell>, Error> {
    if !IsStaffActor(actor) then Err(NotStaff)
    else if !ExamVisible(db, actor.tenantId, examId) then Err(NoExam)
    else if db.exams[examId].status != Draft then Err(NotDraft)
    else
      var classroomId, subjects := db.exams[examId].classroomId, SubjectsOf(db, actor.tenantId, examId);
      if !AllAssigned(dir, actor, classroomId, subjects, cells) then Err(NotAssigned)
      else
        match CheckCells(cells, subjects)
        case Some(e) => Err(e)
        case None =>
          if !AllKnown(dir, actor.tenantId, cells) then Err(UnknownStudent)
          else if !AllInClass(dir, actor.tenantId, classroomId, cells) then Err(OutsideClass)
          else Ok(PrepareAll(dir, actor.tenantId, cells))
  }

  // ---- writing cells ----

  function KeyOf(actor: Actor, examId: string, cell: PreparedCell): ScoreKey {
    ScoreKey(actor.tenantId, examId, cell.studentId, cell.subjectId)
  }

  function RowOf(actor: Actor, cell: PreparedCell): Score {
    Score(actor.personId, StoredValue(cell.value), cell.absent)
  }

  /** The foreign keys of a score row; an update only sets graderId. */
  predicate RowAllowed(db: ExamDb, dir: Directory, actor: Actor, examId: string, cell: PreparedCell) {
    PersonExists(dir, actor.tenantId, actor.personId)
    && (KeyOf(actor, examId, cell) in db.scores
        || (ExamVisible(db, actor.tenantId, examId) && cell.subjectId in SubjectsOf(db, actor.tenantId, examId)
            && PersonExists(dir, actor.tenantId, cell.studentId)))
  }

  function Upserted(db: ExamDb, actor: Actor, examId: string, cell: PreparedCell): ExamDb {
    db.(scores := db.scores[KeyOf(actor, examId, cell) := RowOf(actor, cell)])
  }

  function Written(db: ExamDb, dir: Directory, actor: Actor, examId: string, cells: seq<PreparedCell>): Result<ExamDb, Error> {
    if cells == [] then Ok(db)
    else
      match Written(db, dir, actor, examId, cells[..|cells| - 1])
      case Err(e) => Err(e)
      case Ok(before) =>
        if RowAllowed(before, dir, actor, examId, cells[|cells| - 1])
        then Ok(Upserted(before, actor, examId, cells[|cells| - 1]))
        else Err(ForeignKey)
  }

  function Save(db: ExamDb, dir: Directory, actor: Actor, examId: string, cells: seq<ScoreCell>): (ExamDb, Result<nat, Error>) {
    match Validated(db, dir, actor, examId, cells)
    case Err(e) => (db, Err(e))
    case Ok(prepared) =>
      match Written(db, dir, actor, examId, prepared)
      case Err(e) => (db, Err(e))
      case Ok(after) => (after, Ok(|prepared|))
  }

  // ---- the service ----

  class ScoreEntryService {
    const db: Database

    constructor (db: Database)
      ensures this.db == db
    {
      this.db := db;
    }

    /** The loop over the cells, with the set of keys seen so far. */
    method CheckGrid(cells: seq<ScoreCell>, subjects: map<string, Subject>) returns (error: Option<Error>)
      ensures error == CheckCells(cells, subjects)
    {
      hide CheckCells, CellKeys;
      var seen: set<string> := {};
      NoCells(subjects);
      for i := 0 to |cells|
        invariant seen == CellKeys(cells[..i])
        invariant CheckCells(cells[..i], subjects) == None
      {
        var cell := cells[i];
        CheckStep(cells, i, subjects);
        var failed := CheckCell(seen, cell, subjects);
        if failed.Some? {
          FirstErrorDecides(cells, i + 1, subjects);
          return failed;
        }
        seen := seen + {CellKey(cell)};
      }
      assert cells[..|cells|] == cells;
      return None;
    }

    method Validate(dir: Directory, actor: Actor, examId: string, cells: seq<ScoreCell>) returns (r: Result<seq<PreparedCell>, Error>)
      ensures r == Validated(db.Contents(), dir, actor, examId, cells)
    {
      hide CheckCells, MayTeach, SubjectsOf, InClass, KnownStudent;
      if !IsStaffActor(actor) { return Err(NotStaff); }
      if !ExamVisible(db.Contents(), actor.tenantId, examId) { return Err(NoExam); }
      var exam := db.exams[examId];
      if exam.status != Draft { return Err(NotDraft); }
      var subjects := SubjectsOf(db.Contents(), actor.tenantId, examId);
      var courseIds := set i | 0 <= i < |cells| && cells[i].subjectId in subjects :: subjects[cells[i].subjectId].courseId;
      if exists c :: c in courseIds && !MayTeach(dir, actor, exam.classroomId, c) {
        return Err(NotAssigned);
      }
      assert AllAssigned(dir, actor, exam.classroomId, subjects, cells) by {
        forall i | 0 <= i < |cells| && cells[i].subjectId in subjects
          ensures MayTeach(dir, actor, exam.classroomId, subjects[cells[i].subjectId].courseId)
        {
          assert subjects[cells[i].subjectId].courseId in courseIds;
        }
      }
      var error := CheckGrid(cells, subjects);
      if error.Some? { return Err(error.value); }
      var externalIds := set i | 0 <= i < |cells| :: cells[i].studentEduplusId;
      var found := set e | e in externalIds && KnownStudent(dir, actor.tenantId, e);
      if exists e :: e in externalIds && e !in found { return Err(UnknownStudent); }
      assert forall i | 0 <= i < |cells| :: cells[i].studentEduplusId in externalIds;
      if exists e :: e in found && !InClass(dir, actor.tenantId, e, exam.classroomId) { return Err(OutsideClass); }
      return Ok(PrepareAll(dir, actor.tenantId, cells));
    }

    /** The upserts; an error leaves the rows written so far for the caller to roll back. */
    method Apply(dir: Directory, actor: Actor, examId: string, cells: seq<PreparedCell>) returns (r: Result<(), Error>)
      modifies db`scores
      ensures
        match Written(old(db.Contents()), dir, actor, examId, cells)
        case Err(e) => r == Err(e)
        case Ok(after) => r == Ok(()) && db.Contents() == after
    {
      hide RowAllowed;
      for i := 0 to |cells|
        invariant db.exams == old(db.exams) && db.subjects == old(db.subjects) && db.imports == old(db.imports)
        invariant Written(old(db.Contents()), dir, actor, examId, cells[..i]) == Ok(db.Contents())
      {
        assert cells[..i + 1][..i] == cells[..i];
        if !RowAllowed(db.Contents(), dir, actor, examId, cells[i]) {
          WrittenFails(old(db.Contents()), dir, actor, examId, cells, i + 1, ForeignKey);
          return Err(ForeignKey);
        }
        db.scores := db.scores[KeyOf(actor, examId, cells[i]) := RowOf(actor, cells[i])];
      }
      assert cells[..|cells|] == cells;
      return Ok(());
    }

    method SaveGrid(dir: Directory, actor: Actor, examId: string, cells: seq<ScoreCell>) returns (r: Result<nat, Error>)
      modifies db`scores
      ensures (db.Contents(), r) == Save(old(db.Contents()), dir, actor, examId, cells)
    {
      hide Validated, Written;
      var prepared := Validate(dir, actor, examId, cells);
      if prepared.Err? { return Err(prepared.error); }
      var before := db.scores;
      var applied := Apply(dir, actor, examId, prepared.value);
      if applied.Err? {
        db.scores := before;
        return Err(applied.error);
      }
      return Ok(|prepared.value|);
    }
  }

  lemma NoCells(subjects: map<string, Subject>)
    ensures CheckCells([], subjects) == None && CellKeys([]) == {}
  {
  }

  lemma CheckStep(cells: seq<ScoreCell>, i: nat, subjects: map<string, Subject>)
    requires i < |cells|
    ensures CellKeys(cells[..i + 1]) == CellKeys(cells[..i]) + {CellKey(cells[i])}
    ensures CheckCells(cells[..i], subjects) == None ==>
              CheckCells(cells[..i + 1], subjects) == CheckCell(CellKeys(cells[..i]), cells[i], subjects)
  {
    hide CheckCell, CellKey;
    var up := cells[..i + 1];
    assert up[..i] == cells[..i];
    forall k ensures k in CellKeys(up) <==> k in CellKeys(cells[..i]) + {CellKey(cells[i])} {
      if k in CellKeys(cells[..i]) {
        var j :| 0 <= j < i && CellKey(cells[..i][j]) == k;
        assert up[j] == cells[..i][j];
      }
      assert up[i] == cells[i];
    }
  }

  lemma {:induction false} FirstErrorDecides(cells: seq<ScoreCell>, i: nat, subjects: map<string, Subject>)
    requires i <= |cells| && CheckCells(cells[..i], subjects).Some?
    ensures CheckCells(cells, subjects) == CheckCells(cells[..i], subjects)
    decreases |cells|
  {
    hide CheckCell, CellKeys;
    if i == |cells| {
      assert cells[..i] == cells;
    } else {
      assert cells[..|cells| - 1][..i] == cells[..i];
      FirstErrorDecides(cells[..|cells| - 1], i, subjects);
    }
  }

  lemma {:induction false} WrittenFails(db: ExamDb, dir: Directory, actor: Actor, examId: string, cells: seq<PreparedCell>, i: nat, e: Error)
    requires i <= |cells| && Written(db, dir, actor, examId, cells[..i]) == Err(e)
    ensures Written(db, dir, actor, examId, cells) == Err(e)
    decreases |cells|
  {
    hide RowAllowed, Upserted;
    if i == |cells| {
      assert cells[..i] == cells;
    } else {
      assert cells[..|cells| - 1][..i] == cells[..i];
      WrittenFails(db, dir, actor, examId, cells[..|cells| - 1], i, e);
    }
  }
}
