/**
 What becomes of pasted text that was not printed from a table of the grid: words and lines without tabs, and tables
 that another program has written.
 */
module TsvPlain {
  import opened Strings
  import opened TsvGrid
  import opened TsvRoundTrip

  /** One cell to a line. */
  function Column(lines: seq<string>): seq<Row> {
    seq(|lines|, i requires 0 <= i < |lines| => [lines[i]])
  }

  function NonEmpty(lines: seq<string>): seq<string> {
    if lines == [] then []
    else if lines[0] == "" then NonEmpty(lines[1..])
    else [lines[0]] + NonEmpty(lines[1..])
  }

  predicate Tabless(lines: seq<string>) {
    forall i :: 0 <= i < |lines| ==> Free(lines[i], '\t')
  }

  lemma LinesAreTabless(text: string)
    requires Free(text, '\t')
    ensures Tabless(Split(text, '\n')) && MaxTabs(Split(text, '\n')) == 0
  {
    var lines := Split(text, '\n');
    JoinSplit(text, '\n');
    JoinFree(lines, '\n', '\t');
    forall i | 0 <= i < |lines| ensures Count(lines[i], '\t') == 0 {
      FreeCount(lines[i], '\t');
    }
  }

  /** In a grid of one column every line is a row. */
  lemma {:induction false} FeedColumn(rows: seq<Row>, lines: seq<string>)
    requires Tabless(lines)
    ensures FeedAll(Joiner(rows, "", 0), lines, 0) == Joiner(rows + Column(lines), "", 0)
    decreases |lines|
  {
    if lines == [] {
      assert rows + Column(lines) == rows;
    } else {
      FreeCount(lines[0], '\t');
      SplitFree(lines[0], '\t');
      FeedColumn(rows + [[lines[0]]], lines[1..]);
      assert Column(lines) == [[lines[0]]] + Column(lines[1..]);
      assert rows + Column(lines) == rows + [[lines[0]]] + Column(lines[1..]);
    }
  }

  /** In a wider grid no line without tabs completes a row. */
  lemma {:induction false} FeedNothing(st: Joiner, lines: seq<string>, expected: nat)
    requires Tabless(lines) && expected > 0 && st.bufTabs == 0
    ensures var st' := FeedAll(st, lines, expected); st'.rows == st.rows && st'.bufTabs == 0
    decreases |lines|
  {
    if lines != [] {
      FreeCount(lines[0], '\t');
      FeedNothing(Feed(st, lines[0], expected), lines[1..], expected);
    }
  }

  lemma {:induction false} SplitTabless(lines: seq<string>)
    requires Tabless(lines)
    ensures SplitNonEmpty(lines) == Column(NonEmpty(lines))
    decreases |lines|
  {
    if lines != [] {
      SplitFree(lines[0], '\t');
      SplitTabless(lines[1..]);
      assert lines[0] != "" ==> Column(NonEmpty(lines)) == [[lines[0]]] + Column(NonEmpty(lines[1..]));
    }
  }

  lemma IntoOneColumn(lines: seq<string>)
    requires Tabless(lines)
    ensures Flush(FeedAll(Joiner([], "", 0), lines, 0), 0) == Column(lines)
  {
    FeedColumn([], lines);
    assert [] + Column(lines) == Column(lines);
  }

  lemma IntoMoreColumns(lines: seq<string>, expected: nat)
    requires Tabless(lines) && expected > 0
    ensures Flush(FeedAll(Joiner([], "", 0), lines, expected), expected) == []
  {
    FeedNothing(Joiner([], "", 0), lines, expected);
  }

  /**
   Pasting text without tabs: into one column every line, an empty one too, is a row; into more columns every
   non-empty line is a row of one cell; and into none nothing comes.
   */
  lemma {:induction false} PastedLines(text: string, fallbackColumns: int)
    requires Free(text, '\t') && !(text != "" && text[0] == '"')
    ensures ParseTsv(text, fallbackColumns) ==
      if fallbackColumns == 1 then Column(Split(text, '\n'))
      else if fallbackColumns > 1 then Column(NonEmpty(Split(text, '\n')))
      else []
  {
    NotQuoted(text);
    LinesAreTabless(text);
    ParsedLines(text, fallbackColumns, Split(text, '\n'));
  }

  lemma NotQuoted(text: string)
    requires Free(text, '\t') && !(text != "" && text[0] == '"')
    ensures !HasQuotedField(text)
  {
  }

  lemma {:induction false} ParsedLines(text: string, fallbackColumns: int, lines: seq<string>)
    requires lines == Split(text, '\n') && Tabless(lines) && MaxTabs(lines) == 0
    ensures ParseLines(text, fallbackColumns) ==
      if fallbackColumns == 1 then Column(lines)
      else if fallbackColumns > 1 then Column(NonEmpty(lines))
      else []
  {
    if fallbackColumns == 1 {
      IntoOneColumn(lines);
    } else if fallbackColumns > 1 {
      IntoMoreColumns(lines, fallbackColumns - 1);
      SplitTabless(lines);
    }
  }

  lemma {:induction false} SplitNonEmptyKeeps(lines: seq<string>, i: nat)
    requires i < |lines| && lines[i] != ""
    ensures SplitNonEmpty(lines) != []
    decreases |lines|
  {
    if lines[0] == "" {
      SplitNonEmptyKeeps(lines[1..], i - 1);
    }
  }

  /** No text with something on some line is thrown away whole. */
  lemma PasteIsNeverLost(text: string, fallbackColumns: int, i: nat)
    requires !HasQuotedField(text) && fallbackColumns > 0
    requires i < |Split(text, '\n')| && Split(text, '\n')[i] != ""
    ensures ParseTsv(text, fallbackColumns) != []
  {
    SplitNonEmptyKeeps(Split(text, '\n'), i);
  }

  lemma {:induction false} FullLinePushed(st: Joiner, lines: seq<string>, expected: nat, i: nat)
    requires i < |lines| && Count(lines[i], '\t') == expected
    ensures Split(lines[i], '\t') in FeedAll(st, lines, expected).rows
    decreases |lines|
  {
    var first := Feed(st, lines[0], expected);
    if i == 0 {
      RowsGrow(first, lines[1..], expected);
      assert first.rows[|first.rows| - 1] == Split(lines[0], '\t');
      assert Split(lines[0], '\t') in first.rows;
    } else {
      FullLinePushed(first, lines[1..], expected, i - 1);
    }
  }

  lemma FedWidths(lines: seq<string>, most: nat)
    ensures var rows := Flush(FeedAll(Joiner([], "", 0), lines, most), most);
      forall k :: 0 <= k < |rows| ==> |rows[k]| == most + 1
  {
    PushedWidths(Joiner([], "", 0), lines, most);
    SplitSize(FeedAll(Joiner([], "", 0), lines, most).buf, '\t');
  }

  lemma FullLineIsThere(lines: seq<string>, most: nat, i: nat)
    requires i < |lines| && Count(lines[i], '\t') == most
    ensures Split(lines[i], '\t') in Flush(FeedAll(Joiner([], "", 0), lines, most), most)
  {
    FullLinePushed(Joiner([], "", 0), lines, most, i);
  }

  /** With a tab in the text, the rows are what the joiner makes of the lines, whatever the grid's width. */
  lemma JoinedRows(text: string, fallbackColumns: int, lines: seq<string>, most: nat)
    requires !HasQuotedField(text) && lines == Split(text, '\n') && most == MaxTabs(lines) > 0
    ensures ParseTsv(text, fallbackColumns) == Flush(FeedAll(Joiner([], "", 0), lines, most), most)
  {
    var widest :| 0 <= widest < |lines| && Count(lines[widest], '\t') == most;
    FullLineIsThere(lines, most, widest);
  }

  /**
   Any other text: with tabs but no quoted field the rows are all as wide as the widest line, the grid's own width plays
   no part, and every line of that width is a row of its own.
   */
  lemma {:induction false} PastedTable(text: string, fallbackColumns: int, i: nat)
    requires !HasQuotedField(text) && !Free(text, '\t') && i < |Split(text, '\n')|
    ensures var lines, rows := Split(text, '\n'), ParseTsv(text, fallbackColumns);
      && rows == ParseTsv(text, 0)
      && (forall k :: 0 <= k < |rows| ==> |rows[k]| == MaxTabs(lines) + 1)
      && (Count(lines[i], '\t') == MaxTabs(lines) ==> Split(lines[i], '\t') in rows)
  {
    var lines := Split(text, '\n');
    var most := MaxTabs(lines);
    SomeLineHasTabs(text);
    JoinedRows(text, fallbackColumns, lines, most);
    JoinedRows(text, 0, lines, most);
    FedWidths(lines, most);
    if Count(lines[i], '\t') == most {
      FullLineIsThere(lines, most, i);
    }
  }

  lemma SomeLineHasTabs(text: string)
    requires !Free(text, '\t')
    ensures MaxTabs(Split(text, '\n')) > 0
  {
    var lines := Split(text, '\n');
    JoinSplit(text, '\n');
    JoinFree(lines, '\n', '\t');
    var i :| 0 <= i < |lines| && !Free(lines[i], '\t');
    FreeCount(lines[i], '\t');
  }
}
