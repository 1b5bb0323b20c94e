/**
 Importing a score file: every row is checked, and either all cells are saved
 and the import is recorded as applied, or none is and it is recorded as failed.
 */
module CsvImport {
  import opened Prelude
  import opened Text
  import opened CsvFormat
  import opened ExamStore
  import opened ScoreEntry

  const HEADER := "student_id,subject_id,score,absent"

  datatype Parsed = Parsed(rows: seq<seq<string>>, cells: seq<ScoreCell>, errors: seq<ImportError>)

  // ---- rows ----

  /** The lines that are not white space only. */
  function NonBlank(lines: seq<string>): seq<string> {
    if lines == [] then []
    else NonBlank(lines[..|lines| - 1]) + if Trim(lines[|lines| - 1]) == "" then [] else [lines[|lines| - 1]]
  }

  function ParseAll(lines: seq<string>): (r: seq<seq<string>>)
    ensures |r| == |lines|
  {
    seq(|lines|, i requires 0 <= i < |lines| => ParseRow(lines[i]))
  }

  function Rows(source: string): seq<seq<string>> {
    ParseAll(NonBlank(SplitLines(source)))
  }

  function Join(fields: seq<string>): string {
    if fields == [] then "" else if |fields| == 1 then fields[0] else fields[0] + "," + Join(fields[1..])
  }

  predicate HasHeader(rows: seq<seq<string>>) {
    rows != [] && Join(rows[0]) == HEADER
  }

  // ---- one row ----

  function RowKey(row: seq<string>): string
    requires |row| == 4
  {
    Joined(row[0], row[1])
  }

  /** The keys of the rows that have four columns. */
  function SeenKeys(rows: seq<seq<string>>): set<string> {
    set i | 0 <= i < |rows| && |rows[i]| == 4 :: RowKey(rows[i])
  }

  function ScoreOf(toNumber: string -> Number, raw: string): Option<Number> {
    if raw == "" then None else Some(toNumber(raw))
  }

  function CellOf(toNumber: string -> Number, row: seq<string>): ScoreCell
    requires |row| == 4
  {
    ScoreCell(row[0], row[1], ScoreOf(toNumber, row[2]), Lower(row[3]) == "true")
  }

  function When(condition: bool, rowNumber: nat, code: ImportCode, row: seq<string>): seq<ImportError> {
    if condition then [ImportError(rowNumber, code, Some(row))] else []
  }

  function RowErrors(toNumber: string -> Number, seen: set<string>, row: seq<string>, rowNumber: nat): seq<ImportError> {
    if |row| != 4 then [ImportError(rowNumber, InvalidColumns, Some(row))]
    else
      When(Lower(row[3]) != "true" && Lower(row[3]) != "false", rowNumber, InvalidAbsent, row)
      + When(ScoreOf(toNumber, row[2]) == Some(NotFinite), rowNumber, InvalidScore, row)
      + When(RowKey(row) in seen, rowNumber, DuplicateRow, row)
  }

  // ---- all rows; the first data row is row 2 of the file ----

  function ErrorsOf(toNumber: string -> Number, rows: seq<seq<string>>): seq<ImportError> {
    if rows == [] then []
    else
      var n := |rows| - 1;
      ErrorsOf(toNumber, rows[..n]) + RowErrors(toNumber, SeenKeys(rows[..n]), rows[n], n + 2)
  }

  function CellsOf(toNumber: string -> Number, rows: seq<seq<string>>): seq<ScoreCell> {
    if rows == [] then []
    else
      var n := |rows| - 1;
      CellsOf(toNumber, rows[..n]) + if |rows[n]| == 4 then [CellOf(toNumber, rows[n])] else []
  }

  /** rows is what is left after the first row is shifted off. */
  function Parse(toNumber: string -> Number, source: string): Parsed {
    var rows := Rows(source);
    var data := if rows == [] then [] else rows[1..];
    if !HasHeader(rows) then Parsed(data, [], [ImportError(1, InvalidHeader, None)])
    else Parsed(data, CellsOf(toNumber, data), ErrorsOf(toNumber, data))
  }

  // ---- the import ----

  predicate IsBadRequest(e: Error) {
    e.DuplicateCell? || e.UnknownSubject? || e.AbsentWithScore? || e.OutOfRange? || e.UnknownStudent? || e.OutsideClass?
  }

  function FailedImport(row: ScoreImport, totalRows: nat, errors: seq<ImportError>): ScoreImport {
    row.(status := ImportStatus.Failed, totalRows := totalRows, errors := errors)
  }

  function RejectedImport(row: ScoreImport, totalRows: nat, e: Error): ScoreImport {
    FailedImport(row, totalRows, [ImportError(0, ValidationFailed(if IsBadRequest(e) then Some(e) else None), None)])
  }

  function WithImport(db: ExamDb, importId: string, row: ScoreImport): ExamDb {
    db.(imports := db.imports[importId := row])
  }

  function Import(db: ExamDb, dir: Directory, actor: Actor, examId: string, filename: string, source: string,
                  toNumber: string -> Number, importId: string): (ExamDb, Result<ScoreImport, Error>)
  {
    if importId in db.imports then (db, Err(UniqueViolation))
    else if !PersonExists(dir, actor.tenantId, actor.personId) || !ExamVisible(db, actor.tenantId, examId) then (db, Err(ForeignKey))
    else
      var row := ScoreImport(actor.tenantId, examId, actor.personId, filename, Validating, 0, 0, []);
      var started := WithImport(db, importId, row);
      var parsed := Parse(toNumber, source);
      if parsed.errors != [] then
        var failed := FailedImport(row, |parsed.rows|, parsed.errors);
        (WithImport(started, importId, failed), Ok(failed))
      else
        match Validated(started, dir, actor, examId, parsed.cells)
        case Err(e) =>
          var failed := RejectedImport(row, |parsed.rows|, e);
          (WithImport(started, importId, failed), Ok(failed))
        case Ok(prepared) =>
          match Written(started, dir, actor, examId, prepared)
          case Err(e) =>
            var failed := RejectedImport(row, |parsed.rows|, e);
            (WithImport(started, importId, failed), Ok(failed))
          case Ok(after) =>
            var applied := row.(status := ImportStatus.Applied, totalRows := |parsed.rows|, appliedRows := |prepared|);
            (WithImport(after, importId, applied), Ok(applied))
  }

  // ---- the service ----

  class CsvImportService {
    const db: Database
    const scoreEntry: ScoreEntryService

    constructor (db: Database, scoreEntry: ScoreEntryService)
      requires scoreEntry.db == db
      ensures this.db == db && this.scoreEntry == scoreEntry
    {
      this.db := db;
      this.scoreEntry := scoreEntry;
    }

    /** The loop over the data rows. */
    method ParseRows(toNumber: string -> Number, rows: seq<seq<string>>) returns (cells: seq<ScoreCell>, errors: seq<ImportError>)
      ensures cells == CellsOf(toNumber, rows) && errors == ErrorsOf(toNumber, rows)
    {
      hide SeenKeys, ErrorsOf, CellsOf, Lower, RowKey, ScoreOf;
      cells, errors := [], [];
      var seen: set<string> := {};
      NoRows(toNumber);
      for index := 0 to |rows|
        invariant cells == CellsOf(toNumber, rows[..index])
        invariant errors == ErrorsOf(toNumber, rows[..index])
        invariant seen == SeenKeys(rows[..index])
      {
        var row, rowNumber := rows[index], index + 2;
        RowsSnoc(toNumber, rows, index);
        if |row| != 4 {
          errors := errors + [ImportError(rowNumber, InvalidColumns, Some(row))];
          continue;
        }
        var rowErrors: seq<ImportError> := [];
        var absent := Lower(row[3]) == "true";
        if !absent && Lower(row[3]) != "false" { rowErrors := rowErrors + [ImportError(rowNumber, InvalidAbsent, Some(row))]; }
        var score := ScoreOf(toNumber, row[2]);
        if score == Some(NotFinite) { rowErrors := rowErrors + [ImportError(rowNumber, InvalidScore, Some(row))]; }
        var key := RowKey(row);
        if key in seen { rowErrors := rowErrors + [ImportError(rowNumber, DuplicateRow, Some(row))]; }
        seen := seen + {key};
        errors := errors + rowErrors;
        cells := cells + [ScoreCell(row[0], row[1], score, absent)];
      }
      assert rows[..|rows|] == rows;
    }

    method ParseFile(toNumber: string -> Number, source: string) returns (parsed: Parsed)
      ensures parsed == Parse(toNumber, source)
    {
      hide ParseRow, NonBlank, SplitLines, Join, CellsOf, ErrorsOf;
      var lines := NonBlank(SplitLines(source));
      var rows: seq<seq<string>> := [];
      for i := 0 to |lines|
        invariant |rows| == i && forall j | 0 <= j < i :: rows[j] == ParseRow(lines[j])
      {
        var row := ParseCsvRow(lines[i]);
        rows := rows + [row];
      }
      assert rows == Rows(source);
      if rows == [] { return Parsed([], [], [ImportError(1, InvalidHeader, None)]); }
      var header, data := rows[0], rows[1..];
      if Join(header) != HEADER { return Parsed(data, [], [ImportError(1, InvalidHeader, None)]); }
      var cells, errors := ParseRows(toNumber, data);
      return Parsed(data, cells, errors);
    }

    method Fail(importId: string, totalRows: nat, errors: seq<ImportError>) returns (row: ScoreImport)
      requires importId in db.imports
      modifies db`imports
      ensures row == FailedImport(old(db.imports)[importId], totalRows, errors)
      ensures db.imports == old(db.imports)[importId := row]
    {
      row := db.imports[importId].(status := ImportStatus.Failed, totalRows := totalRows, errors := errors);
      db.imports := db.imports[importId := row];
    }

    method ImportFile(dir: Directory, actor: Actor, examId: string, filename: string, source: string,
                      toNumber: string -> Number, importId: string) returns (r: Result<ScoreImport, Error>)
      requires scoreEntry.db == db
      modifies db`imports, db`scores
      ensures (db.Contents(), r) == Import(old(db.Contents()), dir, actor, examId, filename, source, toNumber, importId)
    {
      hide Parse, Validated, Written, PersonExists;
      if importId in db.imports { return Err(UniqueViolation); }
      if !PersonExists(dir, actor.tenantId, actor.personId) || !ExamVisible(db.Contents(), actor.tenantId, examId) {
        return Err(ForeignKey);
      }
      var row := ScoreImport(actor.tenantId, examId, actor.personId, filename, Validating, 0, 0, []);
      db.imports := db.imports[importId := row];
      var parsed := ParseFile(toNumber, source);
      if parsed.errors != [] {
        row := Fail(importId, |parsed.rows|, parsed.errors);
        return Ok(row);
      }
      var prepared := scoreEntry.Validate(dir, actor, examId, parsed.cells);
      var failure: Error;
      if prepared.Ok? {
        var scores := db.scores;
        var applied := scoreEntry.Apply(dir, actor, examId, prepared.value);
        if applied.Ok? {
          row := row.(status := ImportStatus.Applied, totalRows := |parsed.rows|, appliedRows := |prepared.value|);
          WrittenKeepsImports(old(db.Contents()), importId, row.(status := Validating, totalRows := 0, appliedRows := 0), dir, actor, examId, prepared.value);
          db.imports := db.imports[importId := row];
          return Ok(row);
        }
        db.scores := scores;
        failure := applied.error;
      } else {
        failure := prepared.error;
      }
      row := Fail(importId, |parsed.rows|, [ImportError(0, ValidationFailed(if IsBadRequest(failure) then Some(failure) else None), None)]);
      return Ok(row);
    }
  }

  lemma NoRows(toNumber: string -> Number)
    ensures SeenKeys([]) == {} && ErrorsOf(toNumber, []) == [] && CellsOf(toNumber, []) == []
  {
  }

  lemma RowsSnoc(toNumber: string -> Number, rows: seq<seq<string>>, n: nat)
    requires n < |rows|
    ensures SeenKeys(rows[..n + 1]) == SeenKeys(rows[..n]) + if |rows[n]| == 4 then {RowKey(rows[n])} else {}
    ensures ErrorsOf(toNumber, rows[..n + 1]) == ErrorsOf(toNumber, rows[..n]) + RowErrors(toNumber, SeenKeys(rows[..n]), rows[n], n + 2)
    ensures CellsOf(toNumber, rows[..n + 1]) == CellsOf(toNumber, rows[..n]) + if |rows[n]| == 4 then [CellOf(toNumber, rows[n])] else []
  {
    hide RowKey, RowErrors, CellOf;
    var up := rows[..n + 1];
    assert up[..n] == rows[..n];
    assert forall i | 0 <= i < n :: up[i] == rows[..n][i];
    forall k ensures k in SeenKeys(up) <==> k in SeenKeys(rows[..n]) + if |rows[n]| == 4 then {RowKey(rows[n])} else {} {
      if k in SeenKeys(rows[..n]) {
        var i :| 0 <= i < n && |rows[..n][i]| == 4 && RowKey(rows[..n][i]) == k;
        assert up[i] == rows[..n][i];
      }
    }
  }

  /** Neither checking nor writing a grid looks at the import table, and writing touches the score table only. */
  lemma {:induction false} WrittenKeepsImports(db: ExamDb, importId: string, row: ScoreImport, dir: Directory, actor: Actor, examId: string, cells: seq<PreparedCell>)
    ensures
      var started := WithImport(db, importId, row);
      match Written(db, dir, actor, examId, cells)
      case Err(e) => Written(started, dir, actor, examId, cells) == Err(e)
      case Ok(after) => after == db.(scores := after.scores)
                        && Written(started, dir, actor, examId, cells) == Ok(WithImport(after, importId, row))
  {
    hide PersonExists;
    if cells != [] { WrittenKeepsImports(db, importId, row, dir, actor, examId, cells[..|cells| - 1]); }
  }
}
