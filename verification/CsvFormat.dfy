/**
 The line format of a score import: one row read by a quoting automaton, and a
 file split into lines.  The writer beside it follows rules 5 to 7 of section 2
 of RFC 4180 and is the reference the reader is proved against.
 */
module CsvFormat {
  import opened Text

  const QUOTE := '"'

  const COMMA := ','

  const LINE_FEED := '\n'

  const CARRIAGE_RETURN := '\r'

  const BYTE_ORDER_MARK := '\U{FEFF}'

  // ---- reading one row ----

  /** What the reader makes of the rest of a line in a given state. */
  function Scan(rest: string, quoted: bool, value: string, values: seq<string>): seq<string>
    decreases |rest|
  {
    if rest == "" then values + [value]
    else if rest[0] == QUOTE then
      if quoted && |rest| > 1 && rest[1] == QUOTE then Scan(rest[2..], quoted, value + [QUOTE], values)
      else Scan(rest[1..], !quoted, value, values)
    else if rest[0] == COMMA && !quoted then Scan(rest[1..], quoted, "", values + [value])
    else Scan(rest[1..], quoted, value + [rest[0]], values)
  }

  function TrimAll(fields: seq<string>): (r: seq<string>)
    ensures |r| == |fields|
  {
    seq(|fields|, i requires 0 <= i < |fields| => Trim(fields[i]))
  }

  function ParseRow(line: string): seq<string> {
    TrimAll(Scan(line, false, "", []))
  }

  method ParseCsvRow(line: string) returns (row: seq<string>)
    ensures row == ParseRow(line)
  {
    var values: seq<string>, value, quoted, index := [], "", false, 0;
    while index < |line|
      invariant 0 <= index <= |line|
      invariant Scan(line[index..], quoted, value, values) == Scan(line, false, "", [])
    {
      var character := line[index];
      assert line[index..][1..] == line[index + 1..];
      if character == QUOTE {
        if quoted && index + 1 < |line| && line[index + 1] == QUOTE {
          assert line[index..][2..] == line[index + 2..];
          value, index := value + [QUOTE], index + 1;
        } else {
          quoted := !quoted;
        }
      } else if character == COMMA && !quoted {
        values, value := values + [value], "";
      } else {
        value := value + [character];
      }
      index := index + 1;
    }
    assert line[index..] == "";
    values := values + [value];
    return TrimAll(values);
  }

  // ---- writing one row ----

  predicate Plain(field: string) {
    QUOTE !in field && COMMA !in field
  }

  function Doubled(field: string): string {
    if field == "" then ""
    else (if field[0] == QUOTE then [QUOTE, QUOTE] else [field[0]]) + Doubled(field[1..])
  }

  function PrintField(field: string, quoting: bool): string {
    if quoting then [QUOTE] + Doubled(field) + [QUOTE] else field
  }

  /** Which fields are quoted is up to the writer, but one that holds a quote or a comma must be. */
  predicate Quoting(fields: seq<string>, quoting: seq<bool>) {
    |quoting| == |fields| && forall i | 0 <= i < |fields| :: quoting[i] || Plain(fields[i])
  }

  function PrintRow(fields: seq<string>, quoting: seq<bool>): string
    requires |quoting| == |fields|
  {
    if fields == [] then ""
    else if |fields| == 1 then PrintField(fields[0], quoting[0])
    else PrintField(fields[0], quoting[0]) + [COMMA] + PrintRow(fields[1..], quoting[1..])
  }

  lemma {:induction false} ScanPlain(field: string, rest: string, value: string, values: seq<string>)
    requires Plain(field)
    ensures Scan(field + rest, false, value, values) == Scan(rest, false, value + field, values)
  {
    if field == "" {
      assert field + rest == rest && value + field == value;
    } else {
      assert (field + rest)[1..] == field[1..] + rest;
      assert value + field == (value + [field[0]]) + field[1..];
      ScanPlain(field[1..], rest, value + [field[0]], values);
    }
  }

  /** One character of a quoted field, doubled if it is a quote, adds itself. */
  lemma ScanOneQuoted(c: char, more: string, value: string, values: seq<string>)
    ensures Scan((if c == QUOTE then [QUOTE, QUOTE] else [c]) + more, true, value, values) == Scan(more, true, value + [c], values)
  {
    if c == QUOTE {
      var text := [QUOTE, QUOTE] + more;
      assert text[2..] == more;
    } else {
      assert ([c] + more)[1..] == more;
    }
  }

  /** Inside quotes every character stands for itself, a doubled quote for one, up to the closing quote. */
  lemma {:induction false} ScanQuoted(field: string, rest: string, value: string, values: seq<string>)
    requires rest == "" || rest[0] != QUOTE
    ensures Scan(Doubled(field) + ([QUOTE] + rest), true, value, values) == Scan(rest, false, value + field, values)
  {
    var tail := [QUOTE] + rest;
    if field == "" {
      assert Doubled(field) + tail == tail && value + field == value;
      assert tail[1..] == rest;
    } else {
      hide Scan;
      var c := field[0];
      var more := Doubled(field[1..]) + tail;
      assert value + field == (value + [c]) + field[1..];
      assert Doubled(field) + tail == (if c == QUOTE then [QUOTE, QUOTE] else [c]) + more;
      ScanOneQuoted(c, more, value, values);
      ScanQuoted(field[1..], rest, value + [c], values);
    }
  }

  lemma ScanField(field: string, quoting: bool, rest: string, values: seq<string>)
    requires quoting || Plain(field)
    requires rest == "" || rest[0] != QUOTE
    ensures Scan(PrintField(field, quoting) + rest, false, "", values) == Scan(rest, false, field, values)
  {
    hide Plain;
    assert "" + field == field;
    if quoting {
      var text := PrintField(field, quoting) + rest;
      assert text[1..] == Doubled(field) + ([QUOTE] + rest);
      ScanQuoted(field, rest, "", values);
    } else {
      ScanPlain(field, rest, "", values);
    }
  }

  lemma {:induction false} ScanPrinted(fields: seq<string>, quoting: seq<bool>, values: seq<string>)
    requires fields != [] && Quoting(fields, quoting)
    ensures Scan(PrintRow(fields, quoting), false, "", values) == values + fields
  {
    hide Plain, PrintField;
    var first := PrintField(fields[0], quoting[0]);
    if |fields| == 1 {
      assert first + "" == first;
      ScanField(fields[0], quoting[0], "", values);
      assert fields == [fields[0]];
    } else {
      var tail := PrintRow(fields[1..], quoting[1..]);
      var rest := [COMMA] + tail;
      assert PrintRow(fields, quoting) == first + rest;
      ScanField(fields[0], quoting[0], rest, values);
      assert rest[1..] == tail;
      ScanPrinted(fields[1..], quoting[1..], values + [fields[0]]);
      assert values + [fields[0]] + fields[1..] == values + fields;
    }
  }

  /**
   Reading back what was written: whatever the fields hold and however they are
   quoted, the reader returns them, trimmed.
   */
  lemma ParsePrinted(fields: seq<string>, quoting: seq<bool>)
    requires fields != [] && Quoting(fields, quoting)
    ensures ParseRow(PrintRow(fields, quoting)) == TrimAll(fields)
  {
    hide Scan, PrintRow, Quoting;
    ScanPrinted(fields, quoting, []);
    assert [] + fields == fields;
  }

  // ---- any line ----

  /** The commas outside quotes: those after an even number of quote characters. */
  function OpenCommas(line: string, even: bool): nat {
    if line == "" then 0
    else if line[0] == QUOTE then OpenCommas(line[1..], !even)
    else (if line[0] == COMMA && even then 1 else 0) + OpenCommas(line[1..], even)
  }

  lemma {:induction false} ScanCount(rest: string, quoted: bool, value: string, values: seq<string>)
    ensures |Scan(rest, quoted, value, values)| == |values| + 1 + OpenCommas(rest, !quoted)
    decreases |rest|
  {
    if rest == "" {
    } else if rest[0] == QUOTE {
      if quoted && |rest| > 1 && rest[1] == QUOTE {
        assert rest[1..][1..] == rest[2..];
        assert OpenCommas(rest, !quoted) == OpenCommas(rest[2..], !quoted);
        ScanCount(rest[2..], quoted, value + [QUOTE], values);
      } else {
        ScanCount(rest[1..], !quoted, value, values);
      }
    } else if rest[0] == COMMA && !quoted {
      ScanCount(rest[1..], quoted, "", values + [value]);
    } else {
      ScanCount(rest[1..], quoted, value + [rest[0]], values);
    }
  }

  /** Even on malformed lines, a comma separates two fields exactly when the number of quotes before it is even. */
  lemma FieldCount(line: string)
    ensures |ParseRow(line)| == OpenCommas(line, true) + 1
  {
    ScanCount(line, false, "", []);
  }

  predicate Without(c: char, fields: seq<string>) {
    forall i | 0 <= i < |fields| :: c !in fields[i]
  }

  lemma {:induction false} ScanWithout(c: char, rest: string, quoted: bool, value: string, values: seq<string>)
    requires c !in rest && c !in value && Without(c, values)
    ensures Without(c, Scan(rest, quoted, value, values))
    decreases |rest|
  {
    if rest == "" {
    } else if rest[0] == QUOTE {
      if quoted && |rest| > 1 && rest[1] == QUOTE {
        ScanWithout(c, rest[2..], quoted, value + [QUOTE], values);
      } else {
        ScanWithout(c, rest[1..], !quoted, value, values);
      }
    } else if rest[0] == COMMA && !quoted {
      ScanWithout(c, rest[1..], quoted, "", values + [value]);
    } else {
      ScanWithout(c, rest[1..], quoted, value + [rest[0]], values);
    }
  }

  lemma {:induction false} TrimWithout(c: char, s: string)
    requires c !in s
    ensures c !in Trim(s)
  {
    TrimStartWithout(c, s);
    TrimEndWithout(c, TrimStart(s));
  }

  lemma {:induction false} TrimStartWithout(c: char, s: string)
    requires c !in s
    ensures c !in TrimStart(s)
  {
    if s != "" && IsSpace(s[0]) { TrimStartWithout(c, s[1..]); }
  }

  lemma {:induction false} TrimEndWithout(c: char, s: string)
    requires c !in s
    ensures c !in TrimEnd(s)
  {
    if s != "" && IsSpace(s[|s| - 1]) { TrimEndWithout(c, s[..|s| - 1]); }
  }

  /** The reader invents no character. */
  lemma ParseWithout(c: char, line: string)
    requires c !in line
    ensures Without(c, ParseRow(line))
  {
    hide Scan, Trim;
    ScanWithout(c, line, false, "", []);
    var fields := Scan(line, false, "", []);
    forall i | 0 <= i < |fields| ensures c !in ParseRow(line)[i] { TrimWithout(c, fields[i]); }
  }

  // ---- lines ----

  function WithoutCarriageReturn(line: string): string {
    if line != "" && line[|line| - 1] == CARRIAGE_RETURN then line[..|line| - 1] else line
  }

  /** Splitting on a line feed with at most one carriage return before it; current is the line being read. */
  function SplitFrom(source: string, current: string): seq<string> {
    if source == "" then [current]
    else if source[0] == LINE_FEED then [WithoutCarriageReturn(current)] + SplitFrom(source[1..], "")
    else SplitFrom(source[1..], current + [source[0]])
  }

  function WithoutMark(source: string): string {
    if source != "" && source[0] == BYTE_ORDER_MARK then source[1..] else source
  }

  function SplitLines(source: string): seq<string> {
    SplitFrom(WithoutMark(source), "")
  }

  /** A line as written: no line feed in it and no carriage return at its end. */
  predicate IsLine(line: string) {
    LINE_FEED !in line && WithoutCarriageReturn(line) == line
  }

  function EndOfLine(crlf: bool): string {
    if crlf then [CARRIAGE_RETURN, LINE_FEED] else [LINE_FEED]
  }

  /** The lines of a file with an end of line between any two, each of either kind. */
  function JoinLines(lines: seq<string>, crlf: seq<bool>): string
    requires |crlf| == |lines|
  {
    if lines == [] then ""
    else if |lines| == 1 then lines[0]
    else lines[0] + EndOfLine(crlf[0]) + JoinLines(lines[1..], crlf[1..])
  }

  lemma {:induction false} SplitOne(line: string, rest: string, current: string)
    requires LINE_FEED !in line
    ensures SplitFrom(line + rest, current) == SplitFrom(rest, current + line)
  {
    if line == "" {
      assert line + rest == rest && current + line == current;
    } else {
      assert (line + rest)[1..] == line[1..] + rest;
      assert current + line == (current + [line[0]]) + line[1..];
      SplitOne(line[1..], rest, current + [line[0]]);
    }
  }

  lemma SplitEnd(line: string, crlf: bool, rest: string)
    requires IsLine(line)
    ensures SplitFrom(EndOfLine(crlf) + rest, line) == [line] + SplitFrom(rest, "")
  {
    var text := EndOfLine(crlf) + rest;
    if crlf {
      var ended := line + [CARRIAGE_RETURN];
      assert text[0] == CARRIAGE_RETURN && text[1..] == [LINE_FEED] + rest;
      assert text[1..][1..] == rest;
      assert ended[..|ended| - 1] == line;
    } else {
      assert text[1..] == rest;
    }
  }

  /** Splitting what was joined returns the lines. */
  lemma {:induction false} SplitJoined(lines: seq<string>, crlf: seq<bool>)
    requires lines != [] && |crlf| == |lines| && forall i | 0 <= i < |lines| :: IsLine(lines[i])
    ensures SplitFrom(JoinLines(lines, crlf), "") == lines
  {
    hide EndOfLine;
    var line := lines[0];
    assert "" + line == line && IsLine(line);
    if |lines| == 1 {
      SplitOne(line, "", "");
      assert line + "" == line && lines == [line];
    } else {
      var rest := JoinLines(lines[1..], crlf[1..]);
      SplitOne(line, EndOfLine(crlf[0]) + rest, "");
      assert JoinLines(lines, crlf) == line + (EndOfLine(crlf[0]) + rest);
      SplitEnd(line, crlf[0], rest);
      SplitJoined(lines[1..], crlf[1..]);
      assert lines == [line] + lines[1..];
    }
  }

  /** No line the splitter returns holds a line feed. */
  lemma {:induction false} SplitWithoutLineFeed(source: string, current: string)
    requires LINE_FEED !in current
    ensures Without(LINE_FEED, SplitFrom(source, current))
  {
    if source == "" {
    } else if source[0] == LINE_FEED {
      SplitWithoutLineFeed(source[1..], "");
    } else {
      SplitWithoutLineFeed(source[1..], current + [source[0]]);
    }
  }
}
