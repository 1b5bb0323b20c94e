/** What an import reports: every fault of every row once, in the order of the rows, and the outcome recorded. */
module CsvReports {
  import opened Prelude
  import opened Text
  import opened CsvFormat
  import opened ExamStore
  import opened ScoreEntry
  import opened CsvImport
  import opened CsvImportResults

  // ---- one row ----

  predicate IsFlag(text: string) {
    Lower(text) == "true" || Lower(text) == "false"
  }

  /** Row i of the data has this fault. */
  predicate Faulty(toNumber: string -> Number, rows: seq<seq<string>>, i: nat, code: ImportCode)
    requires i < |rows|
  {
    var row := rows[i];
    match code
    case InvalidColumns => |row| != 4
    case InvalidAbsent => |row| == 4 && !IsFlag(row[3])
    case InvalidScore => |row| == 4 && row[2] != "" && toNumber(row[2]) == NotFinite
    case DuplicateRow =>
      |row| == 4 && exists j :: 0 <= j < i && |rows[j]| == 4 && rows[j][0] + "\0" + rows[j][1] == row[0] + "\0" + row[1]
    case _ => false
  }

  /** The report of a fault: rows are counted from two, as the header is the first. */
  function Report(rows: seq<seq<string>>, i: nat, code: ImportCode): ImportError
    requires i < |rows|
  {
    ImportError(i + 2, code, Some(rows[i]))
  }

  lemma SeenIs(rows: seq<seq<string>>, n: nat)
    requires n < |rows| && |rows[n]| == 4
    ensures RowKey(rows[n]) in SeenKeys(rows[..n])
       <==> exists j :: 0 <= j < n && |rows[j]| == 4 && rows[j][0] + "\0" + rows[j][1] == rows[n][0] + "\0" + rows[n][1]
  {
    assert [NUL] == "\0";
    if RowKey(rows[n]) in SeenKeys(rows[..n]) {
      var j :| 0 <= j < n && |rows[..n][j]| == 4 && RowKey(rows[..n][j]) == RowKey(rows[n]);
      assert rows[j][0] + "\0" + rows[j][1] == rows[n][0] + "\0" + rows[n][1];
    }
    if j :| 0 <= j < n && |rows[j]| == 4 && rows[j][0] + "\0" + rows[j][1] == rows[n][0] + "\0" + rows[n][1] {
      assert RowKey(rows[..n][j]) in SeenKeys(rows[..n]);
    }
  }

  /** The reports of one row are those of its faults. */
  lemma RowReports(toNumber: string -> Number, rows: seq<seq<string>>, n: nat, e: ImportError)
    requires n < |rows|
    ensures e in RowErrors(toNumber, SeenKeys(rows[..n]), rows[n], n + 2) <==> Faulty(toNumber, rows, n, e.code) && e == Report(rows, n, e.code)
  {
    hide SeenKeys, Lower, RowKey;
    if |rows[n]| == 4 { SeenIs(rows, n); }
  }

  // ---- all rows ----

  lemma FaultyPrefix(toNumber: string -> Number, rows: seq<seq<string>>, n: nat, i: nat, code: ImportCode)
    requires i < n <= |rows|
    ensures Faulty(toNumber, rows[..n], i, code) <==> Faulty(toNumber, rows, i, code)
    ensures Report(rows[..n], i, code) == Report(rows, i, code)
  {
    hide Lower;
    assert forall j | 0 <= j < n :: rows[..n][j] == rows[j];
  }

  /** An error is reported exactly for a fault of a row. */
  lemma {:induction false} ReportsAre(toNumber: string -> Number, rows: seq<seq<string>>, e: ImportError)
    ensures e in ErrorsOf(toNumber, rows) <==> exists i: nat :: i < |rows| && Faulty(toNumber, rows, i, e.code) && e == Report(rows, i, e.code)
  {
    hide RowErrors, SeenKeys, Faulty, Report;
    if rows != [] {
      var n := |rows| - 1;
      ReportsAre(toNumber, rows[..n], e);
      RowReports(toNumber, rows, n, e);
      if i: nat :| i < n && Faulty(toNumber, rows[..n], i, e.code) && e == Report(rows[..n], i, e.code) {
        FaultyPrefix(toNumber, rows, n, i, e.code);
      }
      if i: nat :| i < |rows| && Faulty(toNumber, rows, i, e.code) && e == Report(rows, i, e.code) {
        if i < n {
          FaultyPrefix(toNumber, rows, n, i, e.code);
        }
      }
    }
  }

  predicate InOrder(errors: seq<ImportError>, bound: nat) {
    && (forall a | 0 <= a < |errors| :: 2 <= errors[a].rowNumber < bound)
    && forall a, b | 0 <= a < b < |errors| :: errors[a].rowNumber <= errors[b].rowNumber
  }

  lemma NothingInOrder()
    ensures InOrder([], 2)
  {
  }

  lemma InOrderTogether(first: seq<ImportError>, last: seq<ImportError>, row: nat)
    requires 2 <= row && InOrder(first, row) && forall a | 0 <= a < |last| :: last[a].rowNumber == row
    ensures InOrder(first + last, row + 1)
  {
  }

  /** In the order of the rows. */
  lemma {:induction false} ReportsAreInOrder(toNumber: string -> Number, rows: seq<seq<string>>)
    ensures InOrder(ErrorsOf(toNumber, rows), |rows| + 2)
  {
    hide RowErrors, SeenKeys, Faulty, InOrder;
    if rows == [] {
      NothingInOrder();
    } else {
      var n := |rows| - 1;
      var first, last := ErrorsOf(toNumber, rows[..n]), RowErrors(toNumber, SeenKeys(rows[..n]), rows[n], n + 2);
      ReportsAreInOrder(toNumber, rows[..n]);
      forall a | 0 <= a < |last| ensures last[a].rowNumber == n + 2 {
        assert last[a] in last;
        RowReports(toNumber, rows, n, last[a]);
      }
      InOrderTogether(first, last, n + 2);
      assert ErrorsOf(toNumber, rows) == first + last;
    }
  }

  // ---- the outcome ----

  /** A file without the header reports only that, and no cells are read from it. */
  lemma HeaderIs(toNumber: string -> Number, source: string)
    ensures
      var rows, parsed := Rows(source), Parse(toNumber, source);
      if rows != [] && Join(rows[0]) == "student_id,subject_id,score,absent" then
        parsed == Parsed(rows[1..], CellsOf(toNumber, rows[1..]), ErrorsOf(toNumber, rows[1..]))
      else parsed == Parsed(if rows == [] then [] else rows[1..], [], [ImportError(1, InvalidHeader, None)])
  {
    hide Rows, Join, CellsOf, ErrorsOf;
  }

  /** No import row is made for an id in use, an actor who is no person of the tenant, or an exam that is not the tenant's; and then nothing changes. */
  lemma ImportRefused(db: ExamDb, dir: Directory, actor: Actor, examId: string, filename: string, source: string,
                      toNumber: string -> Number, importId: string)
    ensures
      var (after, r) := Import(db, dir, actor, examId, filename, source, toNumber, importId);
      && (r == Err(UniqueViolation) <==> importId in db.imports)
      && (r == Err(ForeignKey) <==>
            && importId !in db.imports
            && ((forall e | e in dir.people && e.0 == actor.tenantId :: dir.people[e].id != actor.personId)
                || examId !in db.exams || db.exams[examId].tenantId != actor.tenantId))
      && (r.Err? ==> r.error in {UniqueViolation, ForeignKey} && after == db)
  {
    hide Parse, Validated, Written;
  }

  /** The refusals that are reported by name; any other is reported without one. */
  predicate IsNamed(e: Error) {
    e in {DuplicateCell, UnknownSubject, AbsentWithScore, OutOfRange, UnknownStudent, OutsideClass}
  }

  /**
   The import row in full.  It names the actor, the exam and the file; a file with
   faults is recorded with them, cells that are refused with the refusal, and
   cells that are saved with the counts.
   */
  lemma RecordedImport(db: ExamDb, dir: Directory, actor: Actor, examId: string, filename: string, source: string,
                       toNumber: string -> Number, importId: string)
    requires Import(db, dir, actor, examId, filename, source, toNumber, importId).1.Ok?
    ensures
      var parsed := Parse(toNumber, source);
      var (after, r) := Import(db, dir, actor, examId, filename, source, toNumber, importId);
      var (saved, answer) := Save(db, dir, actor, examId, parsed.cells);
      && importId in after.imports && after.imports == db.imports[importId := r.value]
      && (r.value.tenantId, r.value.examId, r.value.createdById, r.value.filename) == (actor.tenantId, examId, actor.personId, filename)
      && r.value.totalRows == |parsed.rows|
      && (parsed.errors != [] ==>
            r.value.status == ImportStatus.Failed && r.value.errors == parsed.errors && r.value.appliedRows == 0 && after.scores == db.scores)
      && (parsed.errors == [] && answer.Err? ==>
            && r.value.status == ImportStatus.Failed && r.value.appliedRows == 0 && after.scores == db.scores
            && r.value.errors == [ImportError(0, ValidationFailed(if IsNamed(answer.error) then Some(answer.error) else None), None)])
      && (parsed.errors == [] && answer.Ok? ==>
            && r.value.status == ImportStatus.Applied && r.value.errors == [] && after.scores == saved.scores
            && r.value.appliedRows == answer.value)
  {
    hide Parse, Validated, Written, PersonExists;
    ImportIsSaveOrNothing(db, dir, actor, examId, filename, source, toNumber, importId);
    var parsed := Parse(toNumber, source);
    var row := ScoreImport(actor.tenantId, examId, actor.personId, filename, Validating, 0, 0, []);
    ImportTableIsIrrelevant(db, dir, actor, examId, importId, row, parsed.cells);
    if Validated(db, dir, actor, examId, parsed.cells).Ok? {
      WrittenKeepsImports(db, importId, row, dir, actor, examId, Validated(db, dir, actor, examId, parsed.cells).value);
    }
  }
}
