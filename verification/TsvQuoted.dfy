/**
 Pasting text with quoted cells, as spreadsheets write it: the other branch of the parser. Any cell may be quoted, and
 then tabs, newlines and quotes inside it are no obstacle; a line may end in a newline or in a carriage return and one.
 */
module TsvQuoted {
  import opened Strings
  import opened TsvGrid

  /** A cell as it is written. */
  datatype Written = Written(cell: string, quoted: bool)

  /** A row as it is written, and whether a carriage return stands before the newline at its end. */
  datatype Line = Line(cells: seq<Written>, crlf: bool)

  function QuoteCell(cell: string): string {
    ['"'] + DoubleQuotes(cell) + ['"']
  }

  /** A cell that needs no quotes. */
  predicate IsPlain(cell: string) {
    Free(cell, '\t') && Free(cell, '\n') && (cell == "" || (cell[0] != '"' && cell[|cell| - 1] != '\r'))
  }

  predicate Writable(lines: seq<Line>) {
    && lines != []
    && forall i :: 0 <= i < |lines| ==> lines[i].cells != [] && AllWritable(lines[i].cells)
  }

  predicate AllWritable(cells: seq<Written>) {
    forall j :: 0 <= j < |cells| ==> cells[j].quoted || IsPlain(cells[j].cell)
  }

  function WriteCell(w: Written): string {
    if w.quoted then QuoteCell(w.cell) else w.cell
  }

  function WriteRow(cells: seq<Written>): string
    requires cells != []
  {
    if |cells| == 1 then WriteCell(cells[0]) else WriteCell(cells[0]) + (['\t'] + WriteRow(cells[1..]))
  }

  function LineEnd(crlf: bool): string {
    if crlf then "\r\n" else "\n"
  }

  function WriteLines(lines: seq<Line>): string
    requires Writable(lines)
  {
    if |lines| == 1 then WriteRow(lines[0].cells)
    else WriteRow(lines[0].cells) + (LineEnd(lines[0].crlf) + WriteLines(lines[1..]))
  }

  function CellsOf(cells: seq<Written>): Row {
    seq(|cells|, j requires 0 <= j < |cells| => cells[j].cell)
  }

  // ----- reading it back -----

  /** What follows a cell: the end of the text, a tab or a line end. */
  predicate EndsCell(rest: string) {
    rest == [] || rest[0] == '\t' || EndsRow(rest)
  }

  predicate EndsRow(rest: string) {
    LineEnd(false) <= rest || LineEnd(true) <= rest
  }

  lemma {:induction false} ScanQuotedBody(cell: string, rest: string, row: Row, field: string)
    requires EndsCell(rest)
    ensures ScanQuoted(DoubleQuotes(cell) + (['"'] + rest), row, field, true)
      == ScanQuoted(rest, row, field + cell, false)
    decreases |cell|
  {
    var text := DoubleQuotes(cell) + (['"'] + rest);
    if cell == [] {
      assert text == ['"'] + rest;
      assert text[1..] == rest;
      assert field + cell == field;
    } else {
      var after := DoubleQuotes(cell[1..]) + (['"'] + rest);
      assert text == (if cell[0] == '"' then ['"', '"'] else [cell[0]]) + after;
      ScanQuotedBody(cell[1..], rest, row, field + [cell[0]]);
      assert field + [cell[0]] + cell[1..] == field + cell;
      if cell[0] == '"' {
        assert text[2..] == after;
      } else {
        assert text[1..] == after;
      }
    }
  }

  lemma {:induction false} ScanPlainBody(cell: string, rest: string, row: Row, field: string)
    requires EndsCell(rest) && Free(cell, '\t') && Free(cell, '\n')
    requires cell == "" || ((field != "" || cell[0] != '"') && cell[|cell| - 1] != '\r')
    ensures ScanQuoted(cell + rest, row, field, false) == ScanQuoted(rest, row, field + cell, false)
    decreases |cell|
  {
    if cell == "" {
      assert cell + rest == rest && field + cell == field;
    } else {
      var text := cell + rest;
      assert text[1..] == cell[1..] + rest;
      assert text[0] == '\r' ==> |cell| > 1 && text[1] == cell[1];
      ScanPlainBody(cell[1..], rest, row, field + [cell[0]]);
      assert field + [cell[0]] + cell[1..] == field + cell;
    }
  }

  lemma ScanCell(w: Written, rest: string, row: Row)
    requires EndsCell(rest) && (w.quoted || IsPlain(w.cell))
    ensures ScanQuoted(WriteCell(w) + rest, row, "", false) == ScanQuoted(rest, row, w.cell, false)
  {
    var text := WriteCell(w) + rest;
    assert "" + w.cell == w.cell;
    if w.quoted {
      assert text[0] == '"' && text[1..] == DoubleQuotes(w.cell) + (['"'] + rest);
      ScanQuotedBody(w.cell, rest, row, "");
    } else {
      ScanPlainBody(w.cell, rest, row, "");
    }
  }

  /** What is left of a text behind a line end. */
  function Behind(rest: string): string
    requires EndsRow(rest)
  {
    if rest[0] == '\n' then rest[1..] else rest[2..]
  }

  lemma Associates(a: string, b: string, c: string, d: string)
    ensures (a + (b + c)) + d == a + (b + (c + d))
  {
  }

  /** A cell with more of its row behind it. */
  lemma ScanOneCell(cells: seq<Written>, rest: string, row: Row)
    requires |cells| > 1 && AllWritable(cells)
    ensures ScanQuoted(WriteRow(cells) + rest, row, "", false)
      == ScanQuoted(WriteRow(cells[1..]) + rest, row + [cells[0].cell], "", false)
  {
    var later := WriteRow(cells[1..]) + rest;
    var tail := ['\t'] + later;
    Associates(WriteCell(cells[0]), ['\t'], WriteRow(cells[1..]), rest);
    ScanCell(cells[0], tail, row);
    assert tail[0] == '\t' && tail[1..] == later;
  }

  lemma ScanLastCell(w: Written, rest: string, row: Row)
    requires (w.quoted || IsPlain(w.cell)) && (rest == [] || EndsRow(rest))
    ensures ScanQuoted(WriteCell(w) + rest, row, "", false)
      == Keep(row + [w.cell]) + (if rest == [] then [] else ScanQuoted(Behind(rest), [], "", false))
  {
    ScanCell(w, rest, row);
  }

  /** A row is read back whole, however its cells are written. */
  lemma {:induction false} ScanRow(cells: seq<Written>, rest: string, row: Row)
    requires cells != [] && AllWritable(cells) && (rest == [] || EndsRow(rest))
    ensures ScanQuoted(WriteRow(cells) + rest, row, "", false)
      == Keep(row + CellsOf(cells)) + (if rest == [] then [] else ScanQuoted(Behind(rest), [], "", false))
    decreases |cells|
  {
    var first := cells[0].cell;
    if |cells| == 1 {
      ScanLastCell(cells[0], rest, row);
      assert row + [first] == row + CellsOf(cells);
    } else {
      ScanOneCell(cells, rest, row);
      ScanRow(cells[1..], rest, row + [first]);
      assert row + [first] + CellsOf(cells[1..]) == row + CellsOf(cells);
    }
  }

  function KeptRows(table: seq<Row>): seq<Row> {
    if table == [] then [] else Keep(table[0]) + KeptRows(table[1..])
  }

  function RowsOf(lines: seq<Line>): seq<Row> {
    seq(|lines|, i requires 0 <= i < |lines| => CellsOf(lines[i].cells))
  }

  lemma {:induction false} ScanLines(lines: seq<Line>)
    requires Writable(lines)
    ensures ScanQuoted(WriteLines(lines), [], "", false) == KeptRows(RowsOf(lines))
    decreases |lines|
  {
    var row := CellsOf(lines[0].cells);
    assert [] + row == row && RowsOf(lines)[1..] == RowsOf(lines[1..]);
    if |lines| == 1 {
      assert WriteLines(lines) == WriteRow(lines[0].cells) + [];
      ScanRow(lines[0].cells, [], []);
    } else {
      var later := WriteLines(lines[1..]);
      var tail := LineEnd(lines[0].crlf) + later;
      assert Behind(tail) == later;
      ScanRow(lines[0].cells, tail, []);
      ScanLines(lines[1..]);
    }
  }

  // ----- which texts are read this way -----

  predicate HasTabQuote(text: string) {
    exists i :: 0 <= i < |text| - 1 && text[i] == '\t' && text[i + 1] == '"'
  }

  lemma TabQuoteWithin(a: string, b: string)
    requires HasTabQuote(a) || HasTabQuote(b)
    ensures HasTabQuote(a + b)
  {
    var text := a + b;
    if HasTabQuote(a) {
      var i :| 0 <= i < |a| - 1 && a[i] == '\t' && a[i + 1] == '"';
      assert text[i] == '\t' && text[i + 1] == '"';
    } else {
      var i :| 0 <= i < |b| - 1 && b[i] == '\t' && b[i + 1] == '"';
      assert text[|a| + i] == '\t' && text[|a| + i + 1] == '"';
    }
  }

  lemma StartsQuoted(cells: seq<Written>)
    requires cells != [] && cells[0].quoted
    ensures WriteRow(cells) != "" && WriteRow(cells)[0] == '"'
  {
  }

  lemma {:induction false} RowHasTabQuote(cells: seq<Written>, j: nat)
    requires 0 < j < |cells| && cells[j].quoted
    ensures HasTabQuote(WriteRow(cells))
    decreases |cells|
  {
    var later := WriteRow(cells[1..]);
    var tail := ['\t'] + later;
    if j == 1 {
      StartsQuoted(cells[1..]);
      assert tail[0] == '\t' && tail[1] == '"';
    } else {
      RowHasTabQuote(cells[1..], j - 1);
      TabQuoteWithin(['\t'], later);
    }
    TabQuoteWithin(WriteCell(cells[0]), tail);
  }

  lemma {:induction false} LinesHaveTabQuote(lines: seq<Line>, i: nat, j: nat)
    requires Writable(lines) && i < |lines| && 0 < j < |lines[i].cells| && lines[i].cells[j].quoted
    ensures HasTabQuote(WriteLines(lines))
    decreases |lines|
  {
    if i == 0 {
      RowHasTabQuote(lines[0].cells, j);
      if |lines| > 1 {
        TabQuoteWithin(WriteRow(lines[0].cells), LineEnd(lines[0].crlf) + WriteLines(lines[1..]));
      }
    } else {
      LinesHaveTabQuote(lines[1..], i - 1, j);
      TabQuoteWithin(LineEnd(lines[0].crlf), WriteLines(lines[1..]));
      TabQuoteWithin(WriteRow(lines[0].cells), LineEnd(lines[0].crlf) + WriteLines(lines[1..]));
    }
  }

  /** The parser notices a quoted cell at the very start, or behind a tab; not one that merely starts a later line. */
  predicate ShowsQuotes(lines: seq<Line>)
    requires Writable(lines)
  {
    lines[0].cells[0].quoted || HasTabQuote(WriteLines(lines))
  }

  lemma QuotesAreNoticed(lines: seq<Line>, i: nat, j: nat)
    requires Writable(lines) && i < |lines| && j < |lines[i].cells| && lines[i].cells[j].quoted && (i == 0 || j > 0)
    ensures ShowsQuotes(lines)
  {
    if j > 0 {
      LinesHaveTabQuote(lines, i, j);
    }
  }

  /** Whatever mixture of quoted and plain cells and of line ends, the rows come back, but for single empty cells. */
  lemma {:induction false} WrittenRoundTrip(lines: seq<Line>, fallbackColumns: int)
    requires Writable(lines) && ShowsQuotes(lines)
    ensures ParseTsv(WriteLines(lines), fallbackColumns) == KeptRows(RowsOf(lines))
    ensures ParseTsv(WriteLines(lines), fallbackColumns) == RowsOf(lines)
      <==> forall i :: 0 <= i < |lines| ==> RowsOf(lines)[i] != [""]
  {
    ScanLines(lines);
    if lines[0].cells[0].quoted {
      StartsQuoted(lines[0].cells);
    }
    KeptRowsSize(RowsOf(lines));
  }

  function AllQuoted(table: seq<Row>): seq<Line> {
    seq(|table|, i requires 0 <= i < |table| => Line(QuotedCells(table[i]), false))
  }

  function QuotedCells(row: Row): seq<Written> {
    seq(|row|, j requires 0 <= j < |row| => Written(row[j], true))
  }

  /** A fully quoted table comes back exactly if no row is a single empty cell, whatever else its cells hold. */
  lemma QuotedRoundTrip(table: seq<Row>, fallbackColumns: int)
    requires table != [] && forall i :: 0 <= i < |table| ==> table[i] != []
    ensures Writable(AllQuoted(table))
    ensures ParseTsv(WriteLines(AllQuoted(table)), fallbackColumns) == table
      <==> forall i :: 0 <= i < |table| ==> table[i] != [""]
  {
    var lines := AllQuoted(table);
    assert forall i :: 0 <= i < |table| ==> CellsOf(lines[i].cells) == table[i];
    assert RowsOf(lines) == table;
    WrittenRoundTrip(lines, fallbackColumns);
  }

  lemma {:induction false} KeptRowsSize(table: seq<Row>)
    requires forall i :: 0 <= i < |table| ==> table[i] != []
    ensures |KeptRows(table)| <= |table|
    ensures if forall i :: 0 <= i < |table| ==> table[i] != [""] then KeptRows(table) == table
      else |KeptRows(table)| < |table|
  {
    if table != [] {
      KeptRowsSize(table[1..]);
      assert Keep(table[0]) == if table[0] == [""] then [] else [table[0]] by {
        if |table[0]| == 1 && |table[0][0]| == 0 {
          assert table[0] == [""];
        }
      }
      assert forall i :: 0 < i < |table| ==> table[i] == table[1..][i - 1];
      assert forall i :: 0 <= i < |table| - 1 ==> table[1..][i] == table[i + 1];
      assert [table[0]] + table[1..] == table;
    }
  }
}
