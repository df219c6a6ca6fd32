/**
 Copying and pasting tables as tab-separated text.

 The grid prints a table by joining cells with tabs and rows with newlines, and nothing is escaped. On
 paste the parser has to put rows back together that newlines inside cells have broken: it takes the
 largest number of tabs on a line for the width of the table and joins lines until a row has that many.
 This module says for exactly which tables that works.
 */
module TsvGrid {
  import opened Strings

  type Row = seq<string>

  // ----- printing -----

  function PrintRow(row: Row): string {
    Join(row, '\t')
  }

  function RowTexts(table: seq<Row>): seq<string> {
    seq(|table|, i requires 0 <= i < |table| => PrintRow(table[i]))
  }

  function PrintTable(table: seq<Row>): string {
    Join(RowTexts(table), '\n')
  }

  /** The query result printer: a header line, then the rows. */
  function FormatQueryResults(columns: Row, rows: seq<Row>): string {
    PrintRow(columns) + ['\n'] + PrintTable(rows)
  }

  // ----- joining lines into rows -----

  datatype Joiner = Joiner(rows: seq<Row>, buf: string, bufTabs: nat)

  /** One line of text, with `expected` tabs making a full row. */
  function Feed(st: Joiner, line: string, expected: nat): Joiner {
    var tabs := Count(line, '\t');
    if tabs == expected then
      var flushed := if st.buf != "" && st.bufTabs == expected then st.rows + [Split(st.buf, '\t')] else st.rows;
      Joiner(flushed + [Split(line, '\t')], "", 0)
    else
      var buf := if st.buf != "" then st.buf + ['\n'] + line else line;
      if st.bufTabs + tabs == expected then Joiner(st.rows + [Split(buf, '\t')], "", 0)
      else Joiner(st.rows, buf, st.bufTabs + tabs)
  }

  function FeedAll(st: Joiner, lines: seq<string>, expected: nat): Joiner
    decreases |lines|
  {
    if lines == [] then st else FeedAll(Feed(st, lines[0], expected), lines[1..], expected)
  }

  function MaxTabs(lines: seq<string>): (m: nat)
    ensures forall i :: 0 <= i < |lines| ==> Count(lines[i], '\t') <= m
    ensures m > 0 ==> exists i :: 0 <= i < |lines| && Count(lines[i], '\t') == m
  {
    if lines == [] then 0
    else
      var last := Count(lines[|lines| - 1], '\t');
      var before := MaxTabs(lines[..|lines| - 1]);
      if last > before then last else before
  }

  function SplitNonEmpty(lines: seq<string>): seq<Row> {
    if lines == [] then []
    else (if lines[0] != "" then [Split(lines[0], '\t')] else []) + SplitNonEmpty(lines[1..])
  }

  function Flush(st: Joiner, expected: nat): seq<Row> {
    if st.buf != "" && st.bufTabs == expected then st.rows + [Split(st.buf, '\t')] else st.rows
  }

  /** The parser for text without quoted fields. */
  function ParseLines(text: string, fallbackColumns: int): seq<Row> {
    var lines := Split(text, '\n');
    var columns := if MaxTabs(lines) > 0 then MaxTabs(lines) + 1 else fallbackColumns;
    if columns <= 0 then []
    else
      var rows := Flush(FeedAll(Joiner([], "", 0), lines, columns - 1), columns - 1);
      if rows != [] then rows else SplitNonEmpty(lines)
  }

  // ----- quoted fields -----

  function Keep(row: Row): seq<Row> {
    if |row| > 1 || exists i :: 0 <= i < |row| && |row[i]| > 0 then [row] else []
  }

  /** The parser for text with quoted fields, character by character. */
  function ScanQuoted(text: string, row: Row, field: string, inQuotes: bool): seq<Row>
    decreases |text|
  {
    if text == [] then Keep(row + [field])
    else if inQuotes then
      if text[0] == '"' && |text| > 1 && text[1] == '"' then ScanQuoted(text[2..], row, field + ['"'], true)
      else if text[0] == '"' then ScanQuoted(text[1..], row, field, false)
      else ScanQuoted(text[1..], row, field + [text[0]], true)
    else if text[0] == '"' && field == "" then ScanQuoted(text[1..], row, field, true)
    else if text[0] == '\t' then ScanQuoted(text[1..], row + [field], "", false)
    else if text[0] == '\n' then Keep(row + [field]) + ScanQuoted(text[1..], [], "", false)
    else if text[0] == '\r' && |text| > 1 && text[1] == '\n' then
      Keep(row + [field]) + ScanQuoted(text[2..], [], "", false)
    else ScanQuoted(text[1..], row, field + [text[0]], false)
  }

  predicate HasQuotedField(text: string) {
    (text != [] && text[0] == '"') || exists i :: 0 <= i < |text| - 1 && text[i] == '\t' && text[i + 1] == '"'
  }

  function ParseTsv(text: string, fallbackColumns: int): seq<Row> {
    if HasQuotedField(text) then ScanQuoted(text, [], "", false) else ParseLines(text, fallbackColumns)
  }

  // ----- the parser's loops -----

  method CountTabs(s: string) returns (n: nat)
    ensures n == Count(s, '\t')
  {
    n := 0;
    for i := 0 to |s|
      invariant n + Count(s[i..], '\t') == Count(s, '\t')
    {
      if s[i] == '\t' {
        n := n + 1;
      }
    }
  }

  method WidestLine(lines: seq<string>) returns (maxTabCount: nat)
    ensures maxTabCount == MaxTabs(lines)
  {
    maxTabCount := 0;
    for i := 0 to |lines|
      invariant maxTabCount == MaxTabs(lines[..i])
    {
      var n := CountTabs(lines[i]);
      assert lines[..i + 1][..i] == lines[..i];
      if n > maxTabCount {
        maxTabCount := n;
      }
    }
    assert lines[..|lines|] == lines;
  }

  method JoinLines(lines: seq<string>, expected: nat) returns (rows: seq<Row>)
    ensures rows == Flush(FeedAll(Joiner([], "", 0), lines, expected), expected)
  {
    rows := [];
    var buf, bufTabCount := "", 0;
    for i := 0 to |lines|
      invariant FeedAll(Joiner(rows, buf, bufTabCount), lines[i..], expected)
        == FeedAll(Joiner([], "", 0), lines, expected)
    {
      ghost var before := Joiner(rows, buf, bufTabCount);
      var line := lines[i];
      var tc := CountTabs(line);
      if tc == expected {
        if buf != "" && bufTabCount == expected {
          rows := rows + [Split(buf, '\t')];
        }
        buf, bufTabCount := "", 0;
        rows := rows + [Split(line, '\t')];
      } else {
        buf := if buf != "" then buf + ['\n'] + line else line;
        bufTabCount := bufTabCount + tc;
        if bufTabCount == expected {
          rows := rows + [Split(buf, '\t')];
          buf, bufTabCount := "", 0;
        }
      }
      assert Joiner(rows, buf, bufTabCount) == Feed(before, line, expected);
      FeedStep(before, lines, i, expected);
    }
    if buf != "" && bufTabCount == expected {
      rows := rows + [Split(buf, '\t')];
    }
  }

  lemma FeedStep(st: Joiner, lines: seq<string>, i: nat, expected: nat)
    requires i < |lines|
    ensures FeedAll(st, lines[i..], expected) == FeedAll(Feed(st, lines[i], expected), lines[i + 1..], expected)
  {
    assert lines[i..][1..] == lines[i + 1..];
  }

  method ParseUnquoted(text: string, fallbackColumns: int) returns (rows: seq<Row>)
    ensures rows == ParseLines(text, fallbackColumns)
  {
    var lines := Split(text, '\n');
    var maxTabCount := WidestLine(lines);
    var columnCount := if maxTabCount > 0 then maxTabCount + 1 else fallbackColumns;
    if columnCount <= 0 {
      return [];
    }
    rows := JoinLines(lines, columnCount - 1);
    if rows == [] {
      rows := SplitNonEmpty(lines);
    }
  }

  method ParseTsvText(text: string, fallbackColumns: int) returns (rows: seq<Row>)
    ensures rows == ParseTsv(text, fallbackColumns)
  {
    if !HasQuotedField(text) {
      rows := ParseUnquoted(text, fallbackColumns);
      return;
    }
    rows := [];
    var currentRow: Row, currentField, inQuotes, i := [], "", false, 0;
    while i < |text|
      invariant i <= |text|
      invariant rows + ScanQuoted(text[i..], currentRow, currentField, inQuotes) == ScanQuoted(text, [], "", false)
    {
      var c := text[i];
      var next := if i + 1 < |text| then [text[i + 1]] else "";
      ghost var rest := text[i..];
      assert rest[0] == c && rest[1..] == text[i + 1..];
      assert i + 1 < |text| ==> rest[1] == text[i + 1] && rest[2..] == text[i + 2..];
      if inQuotes {
        if c == '"' && next == "\"" {
          currentField := currentField + ['"'];
          i := i + 2;
        } else if c == '"' {
          inQuotes := false;
          i := i + 1;
        } else {
          currentField := currentField + [c];
          i := i + 1;
        }
      } else if c == '"' && currentField == "" {
        inQuotes := true;
        i := i + 1;
      } else if c == '\t' {
        currentRow, currentField := currentRow + [currentField], "";
        i := i + 1;
      } else if c == '\n' || (c == '\r' && next == "\n") {
        rows := rows + Keep(currentRow + [currentField]);
        currentRow, currentField := [], "";
        i := if c == '\n' then i + 1 else i + 2;
      } else {
        currentField := currentField + [c];
        i := i + 1;
      }
    }
    rows := rows + Keep(currentRow + [currentField]);
  }
}
