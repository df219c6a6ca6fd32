/**
 The CSV printer and reader.

 A field is quoted when it holds a quote, a comma or a newline. The reader takes lines apart with a
 one-character state machine. On single lines the two are inverse for all fields; on files they are
 inverse when no record is broken across lines.
 */
module Csv {
  import opened Strings

  // ----- one line -----

  predicate NeedsQuotes(value: string) {
    exists i :: 0 <= i < |value| && value[i] in {'"', ',', '\n'}
  }

  function EscapeCsv(value: string): string {
    if NeedsQuotes(value) then ['"'] + DoubleQuotes(value) + ['"'] else value
  }

  function EscapeAll(values: seq<string>): seq<string> {
    seq(|values|, i requires 0 <= i < |values| => EscapeCsv(values[i]))
  }

  function PrintLine(values: seq<string>): string {
    Join(EscapeAll(values), ',')
  }

  /** A field is quoted exactly if it has to be, and then stands between two quotes. */
  lemma QuotedOnlyIfNeeded(value: string)
    ensures EscapeCsv(value) == value <==> Free(value, '"') && Free(value, ',') && Free(value, '\n')
    ensures EscapeCsv(value) != value ==>
      var e := EscapeCsv(value); |e| >= |value| + 2 && e[0] == '"' && e[|e| - 1] == '"'
  {
    DoubledIsLonger(value);
  }

  lemma {:induction false} DoubledIsLonger(value: string)
    ensures |DoubleQuotes(value)| >= |value|
  {
    if value != "" {
      DoubledIsLonger(value[1..]);
    }
  }

  /** The state machine of the reader: the field read so far, and whether it is inside quotes. */
  function Scan(line: string, current: string, inQuotes: bool): (values: seq<string>)
    ensures values != []
    decreases |line|
  {
    if line == [] then [current]
    else if line[0] == '"' then
      if inQuotes && |line| > 1 && line[1] == '"' then Scan(line[2..], current + ['"'], true)
      else Scan(line[1..], current, !inQuotes)
    else if line[0] == ',' && !inQuotes then [current] + Scan(line[1..], "", false)
    else Scan(line[1..], current + [line[0]], inQuotes)
  }

  function LineToValues(line: string): seq<string> {
    Scan(line, "", false)
  }

  method CsvLineToValues(line: string) returns (values: seq<string>)
    ensures values == LineToValues(line)
  {
    values := [];
    var current, inQuotes, index := "", false, 0;
    while index < |line|
      invariant index <= |line|
      invariant values + Scan(line[index..], current, inQuotes) == LineToValues(line)
    {
      ghost var rest := line[index..];
      assert rest[0] == line[index] && rest[1..] == line[index + 1..];
      assert index + 1 < |line| ==> rest[1] == line[index + 1] && rest[2..] == line[index + 2..];
      if line[index] == '"' {
        if inQuotes && index + 1 < |line| && line[index + 1] == '"' {
          current := current + ['"'];
          index := index + 2;
          continue;
        }
        inQuotes := !inQuotes;
      } else if line[index] == ',' && !inQuotes {
        values := values + [current];
        current := "";
      } else {
        current := current + [line[index]];
      }
      index := index + 1;
    }
    values := values + [current];
  }

  /** What follows a field on its line. */
  predicate EndsField(rest: string) {
    rest == [] || rest[0] == ','
  }

  lemma {:induction false} ScanPlain(value: string, rest: string, current: string)
    requires !NeedsQuotes(value)
    ensures Scan(value + rest, current, false) == Scan(rest, current + value, false)
    decreases |value|
  {
    if value == [] {
      assert value + rest == rest && current + value == current;
    } else {
      assert value[0] !in {'"', ','};
      assert forall i :: 0 <= i < |value| - 1 ==> value[1..][i] == value[i + 1];
      assert (value + rest)[1..] == value[1..] + rest;
      ScanPlain(value[1..], rest, current + [value[0]]);
      assert current + [value[0]] + value[1..] == current + value;
    }
  }

  lemma {:induction false} ScanBody(value: string, rest: string, current: string)
    requires EndsField(rest)
    ensures Scan(DoubleQuotes(value) + (['"'] + rest), current, true) == Scan(rest, current + value, false)
    decreases |value|
  {
    var text := DoubleQuotes(value) + (['"'] + rest);
    if value == [] {
      assert text == ['"'] + rest;
      assert text[1..] == rest;
      assert current + value == current;
    } else {
      var after := DoubleQuotes(value[1..]) + (['"'] + rest);
      assert text == (if value[0] == '"' then ['"', '"'] else [value[0]]) + after;
      ScanBody(value[1..], rest, current + [value[0]]);
      assert current + [value[0]] + value[1..] == current + value;
      if value[0] == '"' {
        assert text[2..] == after;
      } else {
        assert text[1..] == after;
      }
    }
  }

  lemma ScanQuoted(value: string, rest: string)
    requires EndsField(rest)
    ensures Scan(['"'] + DoubleQuotes(value) + ['"'] + rest, "", false) == Scan(rest, value, false)
  {
    var text := ['"'] + DoubleQuotes(value) + ['"'] + rest;
    assert text[1..] == DoubleQuotes(value) + (['"'] + rest);
    ScanBody(value, rest, "");
    assert "" + value == value;
  }

  lemma ScanField(value: string, rest: string)
    requires EndsField(rest)
    ensures Scan(EscapeCsv(value) + rest, "", false) == Scan(rest, value, false)
  {
    if NeedsQuotes(value) {
      ScanQuoted(value, rest);
    } else {
      ScanPlain(value, rest, "");
      assert "" + value == value;
    }
  }

  /** Reading a printed line gives back its fields, whatever they hold. */
  lemma {:induction false} LineRoundTrip(values: seq<string>)
    requires values != []
    ensures LineToValues(PrintLine(values)) == values
    decreases |values|
  {
    var escaped := EscapeAll(values);
    if |values| == 1 {
      ScanField(values[0], []);
      assert PrintLine(values) == EscapeCsv(values[0]) + [];
      assert values == [values[0]];
    } else {
      assert escaped[1..] == EscapeAll(values[1..]);
      var tail := [','] + PrintLine(values[1..]);
      assert PrintLine(values) == EscapeCsv(values[0]) + tail;
      ScanField(values[0], tail);
      assert tail[1..] == PrintLine(values[1..]);
      LineRoundTrip(values[1..]);
      assert values == [values[0]] + values[1..];
    }
  }

  // ----- files -----

  datatype Result<T> = Ok(value: T) | NoRows | NoHeaders

  /** White space and line terminators of ECMAScript, sections 12.2 and 12.3. */
  predicate IsBlank(c: char) {
    || c in {' ', '\t', '\n', '\r', '\U{0B}', '\U{0C}', '\U{A0}', '\U{1680}', '\U{2028}', '\U{2029}',
             '\U{202F}', '\U{205F}', '\U{3000}', '\U{FEFF}'}
    || '\U{2000}' <= c <= '\U{200A}'
  }

  function TrimStart(s: string): string {
    if s != [] && IsBlank(s[0]) then TrimStart(s[1..]) else s
  }

  function TrimEnd(s: string): string {
    if s != [] && IsBlank(s[|s| - 1]) then TrimEnd(s[..|s| - 1]) else s
  }

  function Trim(s: string): string {
    TrimEnd(TrimStart(s))
  }

  function StripCr(line: string): string {
    if line != [] && line[|line| - 1] == '\r' then line[..|line| - 1] else line
  }

  /** `split(/\r?\n/)`: every piece but the last loses one carriage return at its end. */
  function SplitLines(s: string): seq<string> {
    var parts := Split(s, '\n');
    seq(|parts|, i requires 0 <= i < |parts| => if i < |parts| - 1 then StripCr(parts[i]) else parts[i])
  }

  /** `Object.fromEntries` of the first `n` headers; a missing value is the empty string. */
  function FromEntries(headers: seq<string>, values: seq<string>, n: nat): map<string, string>
    requires n <= |headers|
  {
    if n == 0 then map[]
    else FromEntries(headers, values, n - 1)[headers[n - 1] := if n - 1 < |values| then values[n - 1] else ""]
  }

  function ReadRow(headers: seq<string>, line: string): map<string, string> {
    FromEntries(headers, LineToValues(line), |headers|)
  }

  function ReadRows(headers: seq<string>, lines: seq<string>): seq<map<string, string>> {
    seq(|lines|, i requires 0 <= i < |lines| => ReadRow(headers, lines[i]))
  }

  function PrintRows(rows: seq<seq<string>>): seq<string> {
    seq(|rows|, i requires 0 <= i < |rows| => PrintLine(rows[i]))
  }

  function ReadCsvRows(csv: string): Result<seq<map<string, string>>> {
    var lines := SplitLines(Trim(csv));
    if |lines| < 2 then NoRows
    else if lines[0] == "" then NoHeaders
    else
      Ok(ReadRows(LineToValues(lines[0]), lines[1..]))
  }

  function RecordLines(headers: seq<string>, rows: seq<seq<string>>): seq<string> {
    [Join(headers, ',')] + PrintRows(rows)
  }

  /** The file as it is written: the header line unescaped, every line ended by a newline. */
  function WriteCsv(headers: seq<string>, rows: seq<seq<string>>): string {
    WriteLines(RecordLines(headers, rows), |rows| + 1)
  }

  function WriteLines(lines: seq<string>, n: nat): string
    requires n <= |lines|
  {
    if n == 0 then "" else WriteLines(lines, n - 1) + lines[n - 1] + ['\n']
  }

  method StreamCsvRows(headers: seq<string>, rows: seq<seq<string>>) returns (file: string)
    ensures file == WriteCsv(headers, rows)
  {
    ghost var lines := RecordLines(headers, rows);
    file := Join(headers, ',') + ['\n'];
    assert WriteLines(lines, 0) == "" && "" + lines[0] == lines[0];
    for i := 0 to |rows|
      invariant file == WriteLines(lines, i + 1)
    {
      assert lines[i + 1] == PrintLine(rows[i]);
      file := file + (PrintLine(rows[i]) + ['\n']);
      assert WriteLines(lines, i + 1) + (lines[i + 1] + ['\n']) == WriteLines(lines, i + 1) + lines[i + 1] + ['\n'];
    }
  }

  lemma {:induction false} WriteLinesIsJoin(lines: seq<string>, n: nat)
    requires 0 < n <= |lines|
    ensures WriteLines(lines, n) == Join(lines[..n], '\n') + ['\n']
  {
    if n == 1 {
      assert lines[..1] == [lines[0]];
      assert WriteLines(lines, 0) + lines[0] == lines[0];
    } else {
      WriteLinesIsJoin(lines, n - 1);
      JoinSnoc(lines[..n - 1], lines[n - 1], '\n');
      assert lines[..n] == lines[..n - 1] + [lines[n - 1]];
    }
  }

  lemma {:induction false} JoinSnoc(parts: seq<string>, last: string, sep: char)
    requires parts != []
    ensures Join(parts + [last], sep) == Join(parts, sep) + [sep] + last
    decreases |parts|
  {
    if |parts| == 1 {
      assert (parts + [last])[1..] == [last];
    } else {
      assert (parts + [last])[1..] == parts[1..] + [last];
      JoinSnoc(parts[1..], last, sep);
      assert parts[0] + [sep] + (Join(parts[1..], sep) + [sep] + last)
          == (parts[0] + [sep] + Join(parts[1..], sep)) + [sep] + last;
    }
  }

  lemma TrimFinalNewline(s: string)
    requires s != [] && !IsBlank(s[0]) && !IsBlank(s[|s| - 1])
    ensures Trim(s + ['\n']) == s
  {
    var text := s + ['\n'];
    assert TrimStart(text) == text;
    assert text[..|text| - 1] == s;
    assert TrimEnd(text) == TrimEnd(s) == s;
  }

  /** Headers that print as they are, and rows of the same width without line breaks. */
  predicate Storable(headers: seq<string>, rows: seq<seq<string>>) {
    && headers != [] && rows != []
    && (forall i :: 0 <= i < |headers| ==> !NeedsQuotes(headers[i]))
    && (forall i, j :: 0 <= i < j < |headers| ==> headers[i] != headers[j])
    && (forall r :: 0 <= r < |rows| ==> |rows[r]| == |headers|)
    && (forall r, i :: 0 <= r < |rows| && 0 <= i < |headers| ==> Free(rows[r][i], '\n'))
  }

  /** No line but the last ends in a carriage return, and the file has no blank space at either end. */
  predicate CleanEdges(lines: seq<string>) {
    && lines != []
    && (forall i :: 0 <= i < |lines| - 1 ==> StripCr(lines[i]) == lines[i])
    && lines[0] != "" && !IsBlank(lines[0][0])
    && lines[|lines| - 1] != "" && !IsBlank(lines[|lines| - 1][|lines[|lines| - 1]| - 1])
  }

  lemma {:induction false} DoubleQuotesFree(value: string)
    ensures Free(value, '\n') ==> Free(DoubleQuotes(value), '\n')
  {
    if value != [] {
      DoubleQuotesFree(value[1..]);
      assert forall i :: 0 <= i < |value| - 1 ==> value[1..][i] == value[i + 1];
    }
  }

  lemma PlainLine(headers: seq<string>)
    requires forall i :: 0 <= i < |headers| ==> !NeedsQuotes(headers[i])
    ensures Join(headers, ',') == PrintLine(headers)
  {
    assert EscapeAll(headers) == headers;
  }

  lemma LineHasNoBreak(values: seq<string>)
    requires values != [] && forall i :: 0 <= i < |values| ==> Free(values[i], '\n')
    ensures Free(PrintLine(values), '\n')
  {
    forall i | 0 <= i < |values|
      ensures Free(EscapeAll(values)[i], '\n')
    {
      DoubleQuotesFree(values[i]);
    }
    JoinFree(EscapeAll(values), ',', '\n');
  }

  lemma {:induction false} JoinEnds(lines: seq<string>, sep: char)
    requires lines != [] && lines[0] != "" && lines[|lines| - 1] != ""
    ensures var s := Join(lines, sep);
      s != [] && s[0] == lines[0][0] && s[|s| - 1] == lines[|lines| - 1][|lines[|lines| - 1]| - 1]
  {
    if |lines| > 1 {
      var last := lines[|lines| - 1];
      assert lines == lines[..|lines| - 1] + [last];
      JoinSnoc(lines[..|lines| - 1], last, sep);
    }
  }

  lemma JoinedLines(lines: seq<string>)
    requires lines != [] && forall i :: 0 <= i < |lines| ==> Free(lines[i], '\n')
    requires forall i :: 0 <= i < |lines| - 1 ==> StripCr(lines[i]) == lines[i]
    ensures SplitLines(Join(lines, '\n')) == lines
  {
    SplitJoin(lines, '\n');
  }

  lemma TrimmedFile(lines: seq<string>)
    requires CleanEdges(lines)
    ensures Trim(WriteLines(lines, |lines|)) == Join(lines, '\n')
  {
    WriteLinesIsJoin(lines, |lines|);
    assert lines[..|lines|] == lines;
    JoinEnds(lines, '\n');
    TrimFinalNewline(Join(lines, '\n'));
  }

  /** A written file is taken apart into the lines it was written from. */
  lemma FileLines(lines: seq<string>)
    requires CleanEdges(lines) && forall i :: 0 <= i < |lines| ==> Free(lines[i], '\n')
    ensures SplitLines(Trim(WriteLines(lines, |lines|))) == lines
  {
    TrimmedFile(lines);
    JoinedLines(lines);
  }

  /** A record with too few values gives empty strings for the rest, and one with too many loses them. */
  lemma {:induction false} UnevenRow(headers: seq<string>, values: seq<string>, n: nat, i: nat)
    requires i < n <= |headers|
    requires forall j, k :: 0 <= j < k < |headers| ==> headers[j] != headers[k]
    ensures var row := FromEntries(headers, values, n);
      headers[i] in row && row[headers[i]] == if i < |values| then values[i] else ""
  {
    if i < n - 1 {
      UnevenRow(headers, values, n - 1, i);
    }
  }

  lemma {:induction false} FromEntriesLooksUp(headers: seq<string>, values: seq<string>, n: nat, i: nat)
    requires i < n <= |headers| == |values|
    requires forall j, k :: 0 <= j < k < |headers| ==> headers[j] != headers[k]
    ensures var row := FromEntries(headers, values, n); headers[i] in row && row[headers[i]] == values[i]
  {
    if i < n - 1 {
      FromEntriesLooksUp(headers, values, n - 1, i);
    }
  }

  lemma RowRoundTrip(headers: seq<string>, values: seq<string>, i: nat)
    requires i < |headers| == |values|
    requires forall j, k :: 0 <= j < k < |headers| ==> headers[j] != headers[k]
    ensures var row := ReadRow(headers, PrintLine(values)); headers[i] in row && row[headers[i]] == values[i]
  {
    LineRoundTrip(values);
    FromEntriesLooksUp(headers, values, |headers|, i);
  }

  lemma RecordsHaveNoBreaks(headers: seq<string>, rows: seq<seq<string>>)
    requires Storable(headers, rows)
    ensures forall i :: 0 <= i < |rows| + 1 ==> Free(RecordLines(headers, rows)[i], '\n')
  {
    PlainLine(headers);
    forall i | 0 <= i < |rows| + 1
      ensures Free(RecordLines(headers, rows)[i], '\n')
    {
      LineHasNoBreak(if i == 0 then headers else rows[i - 1]);
    }
  }

  /** The reader sees the headers and the printed lines as they were written. */
  lemma FileIsRead(headers: seq<string>, rows: seq<seq<string>>)
    requires Storable(headers, rows) && CleanEdges(RecordLines(headers, rows))
    ensures ReadCsvRows(WriteCsv(headers, rows)) == Ok(ReadRows(headers, PrintRows(rows)))
  {
    var lines := RecordLines(headers, rows);
    RecordsHaveNoBreaks(headers, rows);
    FileLines(lines);
    PlainLine(headers);
    LineRoundTrip(headers);
    assert lines[1..] == PrintRows(rows);
  }

  /** Every field of a row read back stands under its header. */
  predicate Restores(headers: seq<string>, values: seq<string>, row: map<string, string>)
    requires |values| == |headers|
  {
    forall i :: 0 <= i < |headers| ==> headers[i] in row && row[headers[i]] == values[i]
  }

  /**
   Reading back a written file restores every field of every row under its header, provided no field
   holds a newline, no line ends in a carriage return and the text has no outer blank space.
   */
  lemma FileRoundTrip(headers: seq<string>, rows: seq<seq<string>>)
    requires Storable(headers, rows) && CleanEdges(RecordLines(headers, rows))
    ensures var result := ReadCsvRows(WriteCsv(headers, rows));
      && result.Ok? && |result.value| == |rows|
      && forall r :: 0 <= r < |rows| ==> Restores(headers, rows[r], result.value[r])
  {
    FileIsRead(headers, rows);
    forall r | 0 <= r < |rows|
      ensures Restores(headers, rows[r], ReadRow(headers, PrintLine(rows[r])))
    {
      forall i | 0 <= i < |headers|
        ensures var row := ReadRow(headers, PrintLine(rows[r])); headers[i] in row && row[headers[i]] == rows[r][i]
      {
        RowRoundTrip(headers, rows[r], i);
      }
    }
  }
}
