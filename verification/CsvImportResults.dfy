/** What an import does to the tables, and that a written grid reads back as itself. */
module CsvImportResults {
  import opened Prelude
  import opened Text
  import opened CsvFormat
  import opened ExamStore
  import opened ScoreEntry
  import opened ScoreEntryResults
  import opened CsvImport

  // ---- accepted rows ----

  /** A row that has no error of its own. */
  predicate GoodRow(toNumber: string -> Number, row: seq<string>) {
    && |row| == 4
    && Lower(row[3]) in {"true", "false"}
    && ScoreOf(toNumber, row[2]) != Some(NotFinite)
  }

  predicate DistinctKeys(rows: seq<seq<string>>) {
    forall i, j | 0 <= i < j < |rows| && |rows[i]| == 4 && |rows[j]| == 4 :: RowKey(rows[i]) != RowKey(rows[j])
  }

  lemma RowErrorsIff(toNumber: string -> Number, seen: set<string>, row: seq<string>, rowNumber: nat)
    ensures RowErrors(toNumber, seen, row, rowNumber) == [] <==> GoodRow(toNumber, row) && RowKey(row) !in seen
  {
    hide Lower, RowKey, ScoreOf;
  }

  lemma DistinctKeysSnoc(rows: seq<seq<string>>)
    requires rows != [] && |rows[|rows| - 1]| == 4
    ensures
      var n := |rows| - 1;
      DistinctKeys(rows) <==> DistinctKeys(rows[..n]) && RowKey(rows[n]) !in SeenKeys(rows[..n])
  {
    hide RowKey;
    var n := |rows| - 1;
    var up := rows[..n];
    assert forall i | 0 <= i < n :: up[i] == rows[i];
    if RowKey(rows[n]) !in SeenKeys(up) {
      forall i | 0 <= i < n && |rows[i]| == 4 ensures RowKey(rows[i]) != RowKey(rows[n]) {
        assert RowKey(up[i]) in SeenKeys(up);
      }
    }
  }

  predicate AllGood(toNumber: string -> Number, rows: seq<seq<string>>) {
    forall i | 0 <= i < |rows| :: GoodRow(toNumber, rows[i])
  }

  /** One cell per row, in order. */
  predicate CellEach(toNumber: string -> Number, rows: seq<seq<string>>, cells: seq<ScoreCell>) {
    |cells| == |rows| && forall i | 0 <= i < |rows| :: |rows[i]| == 4 && cells[i] == CellOf(toNumber, rows[i])
  }

  lemma AllGoodSnoc(toNumber: string -> Number, rows: seq<seq<string>>)
    requires rows != []
    ensures AllGood(toNumber, rows) <==> AllGood(toNumber, rows[..|rows| - 1]) && GoodRow(toNumber, rows[|rows| - 1])
  {
    hide GoodRow;
    var up := rows[..|rows| - 1];
    assert forall i | 0 <= i < |up| :: up[i] == rows[i];
  }

  lemma {:induction false} CellCount(toNumber: string -> Number, rows: seq<seq<string>>)
    requires AllGood(toNumber, rows)
    ensures |CellsOf(toNumber, rows)| == |rows|
  {
    hide CellOf, GoodRow;
    if rows != [] {
      AllGoodSnoc(toNumber, rows);
      GoodRowWidth(toNumber, rows[|rows| - 1]);
      CellCount(toNumber, rows[..|rows| - 1]);
    }
  }

  lemma {:induction false} CellAt(toNumber: string -> Number, rows: seq<seq<string>>, i: nat)
    requires AllGood(toNumber, rows) && i < |rows|
    ensures |CellsOf(toNumber, rows)| == |rows| && |rows[i]| == 4 && CellsOf(toNumber, rows)[i] == CellOf(toNumber, rows[i])
  {
    hide CellOf, AllGood, GoodRow;
    var n := |rows| - 1;
    AllGoodSnoc(toNumber, rows);
    GoodRowWidth(toNumber, rows[n]);
    CellCount(toNumber, rows[..n]);
    if i < n { CellAt(toNumber, rows[..n], i); }
  }

  lemma ErrorsSnoc(toNumber: string -> Number, rows: seq<seq<string>>)
    requires rows != []
    ensures
      var n := |rows| - 1;
      ErrorsOf(toNumber, rows) == [] <==>
        ErrorsOf(toNumber, rows[..n]) == [] && GoodRow(toNumber, rows[n]) && RowKey(rows[n]) !in SeenKeys(rows[..n])
  {
    hide RowErrors, SeenKeys, GoodRow, RowKey;
    var n := |rows| - 1;
    RowErrorsIff(toNumber, SeenKeys(rows[..n]), rows[n], n + 2);
  }

  /**
   No error is reported exactly when every row is good and no key repeats; then
   there is one cell per row, in order.
   */
  lemma NoErrorsIff(toNumber: string -> Number, rows: seq<seq<string>>)
    ensures ErrorsOf(toNumber, rows) == [] <==> DistinctKeys(rows) && AllGood(toNumber, rows)
    ensures ErrorsOf(toNumber, rows) == [] ==> CellEach(toNumber, rows, CellsOf(toNumber, rows))
  {
    ErrorsIff(toNumber, rows);
    if ErrorsOf(toNumber, rows) == [] {
      hide ErrorsOf, CellsOf, DistinctKeys, AllGood, GoodRow;
      CellCount(toNumber, rows);
      forall i | 0 <= i < |rows| ensures |rows[i]| == 4 && CellsOf(toNumber, rows)[i] == CellOf(toNumber, rows[i]) {
        CellAt(toNumber, rows, i);
      }
    }
  }

  lemma {:induction false} ErrorsIff(toNumber: string -> Number, rows: seq<seq<string>>)
    ensures ErrorsOf(toNumber, rows) == [] <==> DistinctKeys(rows) && AllGood(toNumber, rows)
  {
    if rows == [] {
      NoDistinctKeys();
    } else {
      hide ErrorsOf, SeenKeys, DistinctKeys, AllGood, GoodRow, RowKey;
      var n := |rows| - 1;
      ErrorsIff(toNumber, rows[..n]);
      ErrorsSnoc(toNumber, rows);
      AllGoodSnoc(toNumber, rows);
      if GoodRow(toNumber, rows[n]) {
        GoodRowWidth(toNumber, rows[n]);
        DistinctKeysSnoc(rows);
      }
    }
  }

  lemma NoDistinctKeys()
    ensures DistinctKeys([])
  {
  }

  // ---- what an import does ----

  lemma ImportTableIsIrrelevant(db: ExamDb, dir: Directory, actor: Actor, examId: string, importId: string, row: ScoreImport, cells: seq<ScoreCell>)
    ensures Validated(WithImport(db, importId, row), dir, actor, examId, cells) == Validated(db, dir, actor, examId, cells)
  {
    hide AllAssigned, AllKnown, AllInClass, CheckCells, PrepareAll, SubjectsOf;
    SameSubjects(db, WithImport(db, importId, row), actor.tenantId, examId);
  }

  predicate ImportStarts(db: ExamDb, dir: Directory, actor: Actor, examId: string, importId: string) {
    importId !in db.imports && PersonExists(dir, actor.tenantId, actor.personId) && ExamVisible(db, actor.tenantId, examId)
  }

  /**
   An import that cannot start changes nothing.  One that starts leaves exactly
   one new import row.  It is APPLIED exactly when the file has no error and its
   cells would be saved as a grid; then the scores are those of that save, and
   the rows counted, the rows applied and the data rows of the file are equally
   many.  Otherwise it is FAILED with at least one error, and no score changes.
   */
  lemma ImportIsSaveOrNothing(db: ExamDb, dir: Directory, actor: Actor, examId: string, filename: string, source: string,
                              toNumber: string -> Number, importId: string)
    ensures
      var (after, r) := Import(db, dir, actor, examId, filename, source, toNumber, importId);
      var parsed := Parse(toNumber, source);
      var saved := Save(db, dir, actor, examId, parsed.cells);
      && (r.Ok? <==> ImportStarts(db, dir, actor, examId, importId))
      && (r.Err? ==> after == db)
      && (r.Ok? ==>
            && after == db.(scores := after.scores, imports := db.imports[importId := r.value])
            && (r.value.tenantId, r.value.examId, r.value.createdById, r.value.filename) == (actor.tenantId, examId, actor.personId, filename)
            && r.value.totalRows == |parsed.rows|
            && (r.value.status == ImportStatus.Applied || r.value.status == ImportStatus.Failed)
            && (r.value.status == ImportStatus.Applied <==> parsed.errors == [] && saved.1.Ok?)
            && (r.value.status == ImportStatus.Applied ==>
                  r.value.errors == [] && after.scores == saved.0.scores
                  && r.value.appliedRows == r.value.totalRows == |parsed.rows|)
            && (r.value.status == ImportStatus.Failed ==> r.value.errors != [] && after.scores == db.scores && r.value.appliedRows == 0))
  {
    hide Parse, Validated, Written, PersonExists, WithImport;
    var parsed := Parse(toNumber, source);
    var row := ScoreImport(actor.tenantId, examId, actor.personId, filename, Validating, 0, 0, []);
    ImportTableIsIrrelevant(db, dir, actor, examId, importId, row, parsed.cells);
    WithImportIs(db, importId, row);
    forall x ensures WithImport(WithImport(db, importId, row), importId, x) == WithImport(db, importId, x) {
      WithImportTwice(db, importId, row, x);
    }
    forall x ensures WithImport(db, importId, x) == db.(imports := db.imports[importId := x]) { WithImportIs(db, importId, x); }
    if Validated(db, dir, actor, examId, parsed.cells).Ok? {
      var prepared := Validated(db, dir, actor, examId, parsed.cells).value;
      WrittenKeepsImports(db, importId, row, dir, actor, examId, prepared);
      ValidatedLength(db, dir, actor, examId, parsed.cells);
      if Written(db, dir, actor, examId, prepared).Ok? {
        var after := Written(db, dir, actor, examId, prepared).value;
        forall x ensures WithImport(WithImport(after, importId, row), importId, x) == after.(imports := db.imports[importId := x]) {
          WithImportTwice(after, importId, row, x);
          WithImportIs(after, importId, x);
        }
      }
    }
    if parsed.errors == [] { CellPerRow(toNumber, source); }
  }

  lemma WithImportIs(db: ExamDb, importId: string, row: ScoreImport)
    ensures WithImport(db, importId, row) == db.(imports := db.imports[importId := row])
  {
  }

  lemma WithImportTwice(db: ExamDb, importId: string, row: ScoreImport, x: ScoreImport)
    ensures WithImport(WithImport(db, importId, row), importId, x) == WithImport(db, importId, x)
  {
    assert db.imports[importId := row][importId := x] == db.imports[importId := x];
  }

  lemma ValidatedLength(db: ExamDb, dir: Directory, actor: Actor, examId: string, cells: seq<ScoreCell>)
    requires Validated(db, dir, actor, examId, cells).Ok?
    ensures |Validated(db, dir, actor, examId, cells).value| == |cells|
  {
    ValidatedValue(db, dir, actor, examId, cells);
  }

  lemma CellPerRow(toNumber: string -> Number, source: string)
    requires Parse(toNumber, source).errors == []
    ensures |Parse(toNumber, source).cells| == |Parse(toNumber, source).rows|
  {
    hide ErrorsOf, CellsOf, Rows, HasHeader;
    NoErrorsIff(toNumber, Parse(toNumber, source).rows);
  }

  // ---- writing a grid as a file ----

  const HEADER_FIELDS := ["student_id", "subject_id", "score", "absent"]

  function ScoreText(toText: Number -> string, score: Option<Number>): string {
    match score
    case None => ""
    case Some(n) => toText(n)
  }

  function FieldsOf(toText: Number -> string, cell: ScoreCell): seq<string> {
    [cell.studentEduplusId, cell.subjectId, ScoreText(toText, cell.score), if cell.absent then "true" else "false"]
  }

  function AllFields(toText: Number -> string, cells: seq<ScoreCell>): (r: seq<seq<string>>)
    ensures |r| == |cells| + 1
  {
    [HEADER_FIELDS] + seq(|cells|, i requires 0 <= i < |cells| => FieldsOf(toText, cells[i]))
  }

  /** lines is the printed table with blank lines anywhere, including none. */
  predicate Prints(lines: seq<string>, fields: seq<seq<string>>, quoting: seq<seq<bool>>) {
    && |quoting| == |fields|
    && (forall i | 0 <= i < |fields| :: Quoting(fields[i], quoting[i]))
    && NonBlank(lines) == seq(|fields|, i requires 0 <= i < |fields| && |quoting[i]| == |fields[i]| => PrintRow(fields[i], quoting[i]))
  }

  function FileOf(mark: bool, lines: seq<string>, crlf: seq<bool>): string
    requires |crlf| == |lines|
  {
    (if mark then [BYTE_ORDER_MARK] else []) + JoinLines(lines, crlf)
  }

  /** Number and String are inverse on this score, and its text is an ordinary one. */
  predicate Writable(toText: Number -> string, toNumber: string -> Number, score: Option<Number>) {
    score.Some? ==>
      score.value.Finite? && toNumber(toText(score.value)) == score.value
      && toText(score.value) != "" && Trimmed(toText(score.value)) && LINE_FEED !in toText(score.value)
  }

  /** A cell whose ids are trimmed and whose score can be written. */
  predicate WritableCell(toText: Number -> string, toNumber: string -> Number, cell: ScoreCell) {
    Trimmed(cell.studentEduplusId) && Trimmed(cell.subjectId) && NUL !in cell.subjectId && Writable(toText, toNumber, cell.score)
  }

  predicate AllWritable(toText: Number -> string, toNumber: string -> Number, cells: seq<ScoreCell>) {
    forall i | 0 <= i < |cells| :: WritableCell(toText, toNumber, cells[i])
  }

  predicate NoLineFeeds(cells: seq<ScoreCell>) {
    forall i | 0 <= i < |cells| :: LINE_FEED !in cells[i].studentEduplusId && LINE_FEED !in cells[i].subjectId
  }

  /** Every blank line is one line, and the file does not start with a mark that is not meant as one. */
  predicate PlainBlanks(mark: bool, lines: seq<string>) {
    && (forall i | 0 <= i < |lines| && Trim(lines[i]) == "" :: IsLine(lines[i]))
    && (!mark && lines != [] ==> WithoutMark(lines[0]) == lines[0])
  }

  // the fields of one cell

  lemma FieldsReadBack(toText: Number -> string, toNumber: string -> Number, cell: ScoreCell)
    requires WritableCell(toText, toNumber, cell)
    ensures
      var fields := FieldsOf(toText, cell);
      && TrimAll(fields) == fields && GoodRow(toNumber, fields) && CellOf(toNumber, fields) == cell
      && RowKey(fields) == CellKey(cell)
  {
    LowerWords();
    var fields := FieldsOf(toText, cell);
    hide Trim, Lower;
    forall i | 0 <= i < 4 ensures Trim(fields[i]) == fields[i] { TrimFixed(fields[i]); }
    assert TrimAll(fields) == fields;
  }

  lemma LowerWords()
    ensures Lower("true") == "true" && Lower("false") == "false" && "true" != "false"
  {
    assert "true"[1..] == "rue" && "rue"[1..] == "ue" && "ue"[1..] == "e" && "e"[1..] == "";
    assert "false"[1..] == "alse" && "alse"[1..] == "lse" && "lse"[1..] == "se" && "se"[1..] == "e";
    assert Lower("e") == "e" && Lower("ue") == "ue" && Lower("rue") == "rue";
    assert Lower("se") == "se" && Lower("lse") == "lse" && Lower("alse") == "alse";
  }

  lemma JoinStep(first: string, rest: seq<string>)
    requires rest != []
    ensures Join([first] + rest) == first + "," + Join(rest)
  {
    assert ([first] + rest)[1..] == rest;
  }

  lemma HeaderReadsBack()
    ensures TrimAll(HEADER_FIELDS) == HEADER_FIELDS && Join(HEADER_FIELDS) == HEADER
  {
    hide Trim, Join;
    forall i | 0 <= i < 4 ensures Trim(HEADER_FIELDS[i]) == HEADER_FIELDS[i] { TrimFixed(HEADER_FIELDS[i]); }
    assert TrimAll(HEADER_FIELDS) == HEADER_FIELDS;
    HeaderJoins();
  }

  lemma JoinOne(field: string)
    ensures Join([field]) == field
  {
  }

  lemma HeaderJoins()
    ensures Join(HEADER_FIELDS) == HEADER
  {
    hide *;
    JoinOne("absent");
    JoinStep("score", ["absent"]);
    assert ["score"] + ["absent"] == ["score", "absent"];
    JoinStep("subject_id", ["score", "absent"]);
    assert ["subject_id"] + ["score", "absent"] == ["subject_id", "score", "absent"];
    JoinStep("student_id", ["subject_id", "score", "absent"]);
    assert ["student_id"] + ["subject_id", "score", "absent"] == ["student_id", "subject_id", "score", "absent"];
    HeaderIs();
  }

  lemma HeaderIs()
    ensures HEADER_FIELDS == ["student_id", "subject_id", "score", "absent"]
    ensures HEADER == "student_id" + "," + ("subject_id" + "," + ("score" + "," + "absent"))
  {
  }

  // the data rows

  lemma DataRowsReadBack(toText: Number -> string, toNumber: string -> Number, cells: seq<ScoreCell>)
    requires AllWritable(toText, toNumber, cells) && DistinctPlaces(cells)
    ensures ErrorsOf(toNumber, AllFields(toText, cells)[1..]) == [] && CellsOf(toNumber, AllFields(toText, cells)[1..]) == cells
  {
    hide WritableCell, FieldsOf, ErrorsOf, CellsOf, GoodRow, RowKey, CellOf, TrimAll, CellKey, SamePlace;
    var rows := AllFields(toText, cells)[1..];
    forall i | 0 <= i < |rows|
      ensures rows[i] == FieldsOf(toText, cells[i]) && GoodRow(toNumber, rows[i]) && |rows[i]| == 4
      ensures CellOf(toNumber, rows[i]) == cells[i] && RowKey(rows[i]) == CellKey(cells[i])
    {
      FieldsReadBack(toText, toNumber, cells[i]);
      GoodRowWidth(toNumber, rows[i]);
    }
    forall i, j | 0 <= i < j < |rows| ensures RowKey(rows[i]) != RowKey(rows[j]) {
      WritableCellSubject(toText, toNumber, cells[i]);
      WritableCellSubject(toText, toNumber, cells[j]);
      CellKeyIsInjective(cells[i], cells[j]);
      NotSamePlace(cells, i, j);
    }
    NoErrorsIff(toNumber, rows);
    assert CellsOf(toNumber, rows) == cells;
  }

  lemma GoodRowWidth(toNumber: string -> Number, row: seq<string>)
    requires GoodRow(toNumber, row)
    ensures |row| == 4
  {
  }

  lemma WritableCellSubject(toText: Number -> string, toNumber: string -> Number, cell: ScoreCell)
    requires WritableCell(toText, toNumber, cell)
    ensures NUL !in cell.subjectId
  {
  }

  lemma NotSamePlace(cells: seq<ScoreCell>, i: nat, j: nat)
    requires DistinctPlaces(cells) && i < j < |cells|
    ensures !(cells[i].studentEduplusId == cells[j].studentEduplusId && cells[i].subjectId == cells[j].subjectId)
  {
    assert !SamePlace(cells[i], cells[j]);
  }

  // the lines

  lemma {:induction false} DoubledWithout(c: char, field: string)
    requires c !in field && c != QUOTE
    ensures c !in Doubled(field)
  {
    if field != "" { DoubledWithout(c, field[1..]); }
  }

  lemma {:induction false} PrintedWithout(c: char, fields: seq<string>, quoting: seq<bool>)
    requires |quoting| == |fields| && c != QUOTE && c != COMMA && Without(c, fields)
    ensures c !in PrintRow(fields, quoting)
  {
    if fields != [] {
      DoubledWithout(c, fields[0]);
      PrintedWithout(c, fields[1..], quoting[1..]);
    }
  }

  /** A printed row ends in a quote or in the last character of its last field. */
  lemma {:induction false} PrintedEnd(fields: seq<string>, quoting: seq<bool>)
    requires fields != [] && |quoting| == |fields|
    requires var last := fields[|fields| - 1]; last != "" && last[|last| - 1] != CARRIAGE_RETURN
    ensures WithoutCarriageReturn(PrintRow(fields, quoting)) == PrintRow(fields, quoting)
    ensures PrintRow(fields, quoting) != ""
  {
    hide Doubled;
    if |fields| > 1 { PrintedEnd(fields[1..], quoting[1..]); }
  }

  lemma CommaInPrinted(fields: seq<string>, quoting: seq<bool>)
    requires |fields| > 1 && |quoting| == |fields|
    ensures Trim(PrintRow(fields, quoting)) != ""
  {
    hide PrintField;
    var line := PrintRow(fields, quoting);
    assert line[|PrintField(fields[0], quoting[0])|] == COMMA;
    TrimEmptyIff(line);
  }

  lemma FieldsWithoutLineFeed(toText: Number -> string, toNumber: string -> Number, cells: seq<ScoreCell>, i: nat)
    requires AllWritable(toText, toNumber, cells) && NoLineFeeds(cells) && i <= |cells|
    ensures
      var fields := AllFields(toText, cells)[i];
      && |fields| == 4 && Without(LINE_FEED, fields)
      && (fields[3] == "absent" || fields[3] == "true" || fields[3] == "false")
  {
    hide Trim;
    if i > 0 {
      assert WritableCell(toText, toNumber, cells[i - 1]);
      assert AllFields(toText, cells)[i] == FieldsOf(toText, cells[i - 1]);
    }
  }

  lemma FieldsArePrintable(toText: Number -> string, toNumber: string -> Number, cells: seq<ScoreCell>, i: nat, quoting: seq<bool>)
    requires AllWritable(toText, toNumber, cells) && NoLineFeeds(cells) && i <= |cells| && |quoting| == 4
    ensures
      var fields := AllFields(toText, cells)[i];
      |fields| == 4 && IsLine(PrintRow(fields, quoting)) && Trim(PrintRow(fields, quoting)) != ""
  {
    hide PrintRow, WithoutCarriageReturn, Trim, AllFields, AllWritable, NoLineFeeds, Without;
    var fields := AllFields(toText, cells)[i];
    FieldsWithoutLineFeed(toText, toNumber, cells, i);
    PrintedWithout(LINE_FEED, fields, quoting);
    PrintedEnd(fields, quoting);
    CommaInPrinted(fields, quoting);
  }

  /** Every line of a list is a blank one or one of its non-blank lines. */
  lemma {:induction false} LinesAre(lines: seq<string>, i: nat)
    requires i < |lines|
    ensures Trim(lines[i]) == "" || lines[i] in NonBlank(lines)
  {
    hide Trim;
    if i < |lines| - 1 { LinesAre(lines[..|lines| - 1], i); }
  }

  lemma {:induction false} NonBlankLinesAre(lines: seq<string>, line: string)
    requires line in NonBlank(lines)
    ensures line in lines
  {
    hide Trim;
    if lines != [] && line in NonBlank(lines[..|lines| - 1]) { NonBlankLinesAre(lines[..|lines| - 1], line); }
  }

  lemma PrintedLinesAreLines(toText: Number -> string, toNumber: string -> Number, cells: seq<ScoreCell>, mark: bool, lines: seq<string>, quoting: seq<seq<bool>>)
    requires AllWritable(toText, toNumber, cells) && NoLineFeeds(cells)
    requires Prints(lines, AllFields(toText, cells), quoting) && PlainBlanks(mark, lines)
    ensures lines != [] && forall i | 0 <= i < |lines| :: IsLine(lines[i])
  {
    hide AllWritable, NoLineFeeds, AllFields, Quoting, PrintRow, IsLine, Trim, NonBlank;
    var fields := AllFields(toText, cells);
    if lines == [] { NoLines(); assert false; }
    forall i | 0 <= i < |lines| ensures IsLine(lines[i]) {
      LinesAre(lines, i);
      if Trim(lines[i]) != "" {
        var k :| 0 <= k < |fields| && NonBlank(lines)[k] == lines[i];
        QuotingWidth(fields[k], quoting[k]);
        AllFieldsWidth(toText, cells, k);
        FieldsArePrintable(toText, toNumber, cells, k, quoting[k]);
      }
    }
  }

  lemma NoLines()
    ensures NonBlank([]) == []
  {
  }

  lemma QuotingWidth(fields: seq<string>, quoting: seq<bool>)
    requires Quoting(fields, quoting)
    ensures |quoting| == |fields|
  {
  }

  lemma AllFieldsWidth(toText: Number -> string, cells: seq<ScoreCell>, k: nat)
    requires k <= |cells|
    ensures |AllFields(toText, cells)[k]| == 4
  {
  }

  lemma MarkIsStripped(mark: bool, lines: seq<string>, crlf: seq<bool>)
    requires lines != [] && |crlf| == |lines| && (!mark ==> WithoutMark(lines[0]) == lines[0])
    ensures WithoutMark(FileOf(mark, lines, crlf)) == JoinLines(lines, crlf)
  {
    var text := JoinLines(lines, crlf);
    if mark {
      assert ([BYTE_ORDER_MARK] + text)[1..] == text;
    } else {
      assert [] + text == text;
      assert lines[0] != "" ==> text[0] == lines[0][0];
      assert |WithoutMark(lines[0])| == |lines[0]|;
    }
  }

  lemma RowsReadBack(toText: Number -> string, toNumber: string -> Number, cells: seq<ScoreCell>, lines: seq<string>, quoting: seq<seq<bool>>)
    requires AllWritable(toText, toNumber, cells) && Prints(lines, AllFields(toText, cells), quoting)
    ensures ParseAll(NonBlank(lines)) == AllFields(toText, cells)
  {
    hide Quoting, PrintRow, ParseRow, NonBlank, AllWritable, AllFields, TrimAll;
    var fields := AllFields(toText, cells);
    forall k | 0 <= k < |fields| ensures ParseRow(NonBlank(lines)[k]) == fields[k] {
      AllFieldsWidth(toText, cells, k);
      QuotingWidth(fields[k], quoting[k]);
      ParsePrinted(fields[k], quoting[k]);
      FieldsAreTrimmed(toText, toNumber, cells, k);
    }
  }

  lemma FieldsAreTrimmed(toText: Number -> string, toNumber: string -> Number, cells: seq<ScoreCell>, k: nat)
    requires AllWritable(toText, toNumber, cells) && k <= |cells|
    ensures TrimAll(AllFields(toText, cells)[k]) == AllFields(toText, cells)[k]
  {
    hide WritableCell, FieldsOf, TrimAll, GoodRow;
    HeaderReadsBack();
    if k > 0 { FieldsReadBack(toText, toNumber, cells[k - 1]); }
  }

  /**
   Reading back a written grid.  A file whose non-blank lines are the header and
   one line per cell, each field quoted or not as the writer likes where it may,
   with or without a byte order mark, with either kind of line end and blank
   lines anywhere, parses without error to exactly the cells that were written.
   */
  lemma FileReadsBack(toText: Number -> string, toNumber: string -> Number, cells: seq<ScoreCell>,
                      mark: bool, lines: seq<string>, crlf: seq<bool>, quoting: seq<seq<bool>>)
    requires AllWritable(toText, toNumber, cells) && DistinctPlaces(cells) && NoLineFeeds(cells)
    requires |crlf| == |lines| && Prints(lines, AllFields(toText, cells), quoting) && PlainBlanks(mark, lines)
    ensures Parse(toNumber, FileOf(mark, lines, crlf)) == Parsed(AllFields(toText, cells)[1..], cells, [])
  {
    hide AllWritable, DistinctPlaces, NoLineFeeds, Prints, IsLine, FileOf, JoinLines, WithoutMark, SplitFrom, NonBlank, ParseAll, FieldsOf, ErrorsOf, CellsOf, Trim, Join;
    var fields := AllFields(toText, cells);
    PrintedLinesAreLines(toText, toNumber, cells, mark, lines, quoting);
    MarkIsStripped(mark, lines, crlf);
    SplitJoined(lines, crlf);
    RowsReadBack(toText, toNumber, cells, lines, quoting);
    HeaderReadsBack();
    DataRowsReadBack(toText, toNumber, cells);
  }

  // what cannot be read back

  lemma NonBlankWithout(c: char, lines: seq<string>)
    requires Without(c, lines)
    ensures Without(c, NonBlank(lines))
  {
    hide NonBlank;
    forall i | 0 <= i < |NonBlank(lines)| ensures c !in NonBlank(lines)[i] {
      NonBlankLinesAre(lines, NonBlank(lines)[i]);
      var j :| 0 <= j < |lines| && lines[j] == NonBlank(lines)[i];
    }
  }

  lemma {:induction false} CellsWithout(c: char, toNumber: string -> Number, rows: seq<seq<string>>)
    requires forall i | 0 <= i < |rows| :: Without(c, rows[i])
    ensures forall k | 0 <= k < |CellsOf(toNumber, rows)| ::
              c !in CellsOf(toNumber, rows)[k].studentEduplusId && c !in CellsOf(toNumber, rows)[k].subjectId
  {
    if rows != [] { CellsWithout(c, toNumber, rows[..|rows| - 1]); }
  }

  /** No cell ever read from a file holds a line feed in its ids. */
  lemma ParsedWithoutLineFeeds(toNumber: string -> Number, source: string)
    ensures NoLineFeeds(Parse(toNumber, source).cells)
  {
    hide SplitFrom, WithoutMark, NonBlank, ParseRow, CellsOf, ErrorsOf, Join, Without;
    var lines := SplitLines(source);
    SplitWithoutLineFeed(WithoutMark(source), "");
    NonBlankWithout(LINE_FEED, lines);
    var rows := Rows(source);
    forall i | 0 <= i < |rows| ensures Without(LINE_FEED, rows[i]) {
      WithoutAt(LINE_FEED, NonBlank(lines), i);
      ParseWithout(LINE_FEED, NonBlank(lines)[i]);
    }
    if rows != [] { CellsWithout(LINE_FEED, toNumber, rows[1..]); }
  }

  lemma WithoutAt(c: char, fields: seq<string>, i: nat)
    requires Without(c, fields) && i < |fields|
    ensures c !in fields[i]
  {
  }

  /**
   RFC 4180 lets a quoted field hold a line break; this reader splits lines
   first.  So a written grid is read back if and only if no id holds a line feed.
   */
  lemma ReadsBackIffNoLineFeeds(toText: Number -> string, toNumber: string -> Number, cells: seq<ScoreCell>,
                                mark: bool, lines: seq<string>, crlf: seq<bool>, quoting: seq<seq<bool>>)
    requires AllWritable(toText, toNumber, cells) && DistinctPlaces(cells)
    requires |crlf| == |lines| && Prints(lines, AllFields(toText, cells), quoting) && PlainBlanks(mark, lines)
    ensures Parse(toNumber, FileOf(mark, lines, crlf)).cells == cells <==> NoLineFeeds(cells)
  {
    hide Parse, AllWritable, DistinctPlaces, NoLineFeeds, Prints, PlainBlanks, FileOf, AllFields;
    ParsedWithoutLineFeeds(toNumber, FileOf(mark, lines, crlf));
    if NoLineFeeds(cells) { FileReadsBack(toText, toNumber, cells, mark, lines, crlf, quoting); }
  }

  /**
   Uploading a written grid is saving the grid: the import is applied exactly
   when the save would be accepted, and the score table ends the same.
   */
  lemma ImportingAWrittenGridIsSavingIt(db: ExamDb, dir: Directory, actor: Actor, examId: string, filename: string, importId: string,
                                        toText: Number -> string, toNumber: string -> Number, cells: seq<ScoreCell>,
                                        mark: bool, lines: seq<string>, crlf: seq<bool>, quoting: seq<seq<bool>>)
    requires AllWritable(toText, toNumber, cells) && DistinctPlaces(cells) && NoLineFeeds(cells)
    requires |crlf| == |lines| && Prints(lines, AllFields(toText, cells), quoting) && PlainBlanks(mark, lines)
    requires ImportStarts(db, dir, actor, examId, importId)
    ensures
      var (after, r) := Import(db, dir, actor, examId, filename, FileOf(mark, lines, crlf), toNumber, importId);
      var (saved, s) := Save(db, dir, actor, examId, cells);
      && r.Ok? && (r.value.status == ImportStatus.Applied <==> s.Ok?)
      && after.scores == saved.scores
      && (s.Ok? ==> r.value.appliedRows == r.value.totalRows == |cells|)
  {
    hide Parse, Save, AllWritable, DistinctPlaces, NoLineFeeds, Prints, PlainBlanks, FileOf, Import, ImportStarts;
    FileReadsBack(toText, toNumber, cells, mark, lines, crlf, quoting);
    ImportIsSaveOrNothing(db, dir, actor, examId, filename, FileOf(mark, lines, crlf), toNumber, importId);
    RejectedSaveChangesNothing(db, dir, actor, examId, cells);
  }

  lemma RejectedSaveChangesNothing(db: ExamDb, dir: Directory, actor: Actor, examId: string, cells: seq<ScoreCell>)
    ensures Save(db, dir, actor, examId, cells).1.Err? ==> Save(db, dir, actor, examId, cells).0 == db
  {
    hide Validated, Written;
  }
}
