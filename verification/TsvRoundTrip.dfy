/**
 Which tables survive being printed and pasted.
 */
module TsvRoundTrip {
  import opened Strings
  import opened TsvGrid

  // ----- lines and tabs -----

  function Tabs(lines: seq<string>): nat {
    if lines == [] then 0 else Count(lines[0], '\t') + Tabs(lines[1..])
  }

  lemma {:induction false} TabsOfJoin(lines: seq<string>)
    ensures Count(Join(lines, '\n'), '\t') == Tabs(lines)
    decreases |lines|
  {
    if |lines| > 1 {
      TabsOfJoin(lines[1..]);
      CountConcat(lines[0] + ['\n'], Join(lines[1..], '\n'), '\t');
      CountConcat(lines[0], ['\n'], '\t');
    } else if |lines| == 1 {
      assert lines[1..] == [];
    }
  }

  lemma TabsOfSplit(s: string)
    ensures Tabs(Split(s, '\n')) == Count(s, '\t')
  {
    TabsOfJoin(Split(s, '\n'));
    JoinSplit(s, '\n');
  }

  lemma {:induction false} OneLineAtMost(lines: seq<string>, i: nat)
    requires i < |lines|
    ensures Count(lines[i], '\t') <= Tabs(lines)
  {
    if i > 0 {
      OneLineAtMost(lines[1..], i - 1);
    }
  }

  lemma {:induction false} TabsConcat(a: seq<string>, b: seq<string>)
    ensures Tabs(a + b) == Tabs(a) + Tabs(b)
    decreases |a|
  {
    if a == [] {
      assert a + b == b;
    } else {
      assert (a + b)[1..] == a[1..] + b;
      TabsConcat(a[1..], b);
    }
  }

  // ----- the joiner, fed one row's lines -----

  /** The text still to be pushed: what is buffered, then the lines to come. */
  function Pending(buf: string, rest: seq<string>): string {
    if buf != "" then buf + ['\n'] + Join(rest, '\n') else Join(rest, '\n')
  }

  /** The joiner pushes the row at its last line and nothing before, and loses no newline. */
  predicate Whole(buf: string, tabs: nat, rest: seq<string>, expected: nat)
    decreases |rest|
  {
    rest != [] &&
    var tc := Count(rest[0], '\t');
    if |rest| == 1 then buf == "" || tc != expected
    else
      && tc != expected && tabs + tc != expected
      && (buf != "" || rest[0] != "")
      && Whole(if buf != "" then buf + ['\n'] + rest[0] else rest[0], tabs + tc, rest[1..], expected)
  }

  lemma {:induction false} RowsGrow(st: Joiner, lines: seq<string>, expected: nat)
    ensures st.rows <= FeedAll(st, lines, expected).rows
    decreases |lines|
  {
    if lines != [] {
      RowsGrow(Feed(st, lines[0], expected), lines[1..], expected);
    }
  }

  /**
   Fed the lines of one row, the joiner pushes some text first. If the row is `Whole` that text is the
   row and the joiner is empty again; otherwise the text is shorter than the row.
   */
  lemma {:induction false} FirstPush(rows: seq<Row>, buf: string, tabs: nat, rest: seq<string>, expected: nat)
    returns (pushed: string)
    requires rest != [] && tabs < expected && tabs + Tabs(rest) == expected && (buf == "" ==> tabs == 0)
    ensures rows + [Split(pushed, '\t')] <= FeedAll(Joiner(rows, buf, tabs), rest, expected).rows
    ensures Whole(buf, tabs, rest, expected) ==>
      pushed == Pending(buf, rest)
      && FeedAll(Joiner(rows, buf, tabs), rest, expected) == Joiner(rows + [Split(pushed, '\t')], "", 0)
    ensures !Whole(buf, tabs, rest, expected) ==> |pushed| < |Pending(buf, rest)|
    decreases |rest|
  {
    var st := Joiner(rows, buf, tabs);
    var line, tc := rest[0], Count(rest[0], '\t');
    var st' := Feed(st, line, expected);
    RowsGrow(st', rest[1..], expected);
    assert |rest| == 1 ==> rest[1..] == [];
    if tc == expected || tabs + tc == expected {
      pushed := if tc == expected || buf == "" then line else buf + ['\n'] + line;
    } else {
      pushed := FirstPush(rows, st'.buf, st'.bufTabs, rest[1..], expected);
      if buf != "" {
        assert (buf + ['\n'] + line) + ['\n'] + Join(rest[1..], '\n')
            == buf + ['\n'] + (line + ['\n'] + Join(rest[1..], '\n'));
      }
    }
  }

  // ----- rows and tables -----

  predicate WellFormedRow(row: Row, columns: nat) {
    |row| == columns && forall i :: 0 <= i < |row| ==> Free(row[i], '\t')
  }

  predicate WellFormedTable(table: seq<Row>, columns: nat) {
    forall i :: 0 <= i < |table| ==> WellFormedRow(table[i], columns)
  }

  function RowLines(row: Row): seq<string> {
    Split(PrintRow(row), '\n')
  }

  function TableLines(table: seq<Row>): seq<string> {
    if table == [] then [] else RowLines(table[0]) + TableLines(table[1..])
  }

  predicate Survives(row: Row, columns: nat)
    requires columns > 0
  {
    Whole("", 0, RowLines(row), columns - 1)
  }

  lemma RowText(row: Row, columns: nat)
    requires columns > 0 && WellFormedRow(row, columns)
    ensures Count(PrintRow(row), '\t') == Tabs(RowLines(row)) == columns - 1
    ensures Split(PrintRow(row), '\t') == row
    ensures Pending("", RowLines(row)) == PrintRow(row)
  {
    SplitJoin(row, '\t');
    JoinCount(row, '\t');
    TabsOfSplit(PrintRow(row));
    JoinSplit(PrintRow(row), '\n');
  }

  lemma {:induction false} TableText(table: seq<Row>)
    requires table != []
    ensures Split(PrintTable(table), '\n') == TableLines(table)
    decreases |table|
  {
    var texts := RowTexts(table);
    if |table| == 1 {
      assert table[1..] == [];
      assert TableLines(table) == RowLines(table[0]) + [];
    } else {
      TableText(table[1..]);
      assert texts[1..] == RowTexts(table[1..]);
      SplitAtSeparator(texts[0], PrintTable(table[1..]), '\n');
    }
  }

  lemma {:induction false} FeedConcat(st: Joiner, a: seq<string>, b: seq<string>, expected: nat)
    ensures FeedAll(st, a + b, expected) == FeedAll(FeedAll(st, a, expected), b, expected)
    decreases |a|
  {
    if a == [] {
      assert a + b == b;
    } else {
      assert (a + b)[1..] == a[1..] + b;
      FeedConcat(Feed(st, a[0], expected), a[1..], b, expected);
    }
  }

  predicate AllSurvive(table: seq<Row>, columns: nat)
    requires columns > 0
  {
    forall i :: 0 <= i < |table| ==> Survives(table[i], columns)
  }

  lemma OneRowFeeds(done: seq<Row>, row: Row, columns: nat)
    requires columns > 1 && WellFormedRow(row, columns)
    ensures var st := FeedAll(Joiner(done, "", 0), RowLines(row), columns - 1);
      if Survives(row, columns) then st == Joiner(done + [row], "", 0)
      else |st.rows| > |done| && st.rows[|done|] != row
  {
    RowText(row, columns);
    var pushed := FirstPush(done, "", 0, RowLines(row), columns - 1);
    if !Survives(row, columns) {
      WrongText(pushed, row);
      var rows := FeedAll(Joiner(done, "", 0), RowLines(row), columns - 1).rows;
      assert rows[|done|] == (done + [Split(pushed, '\t')])[|done|];
    }
  }

  /** A surviving first row is consumed and leaves the joiner empty. */
  lemma FirstRowConsumed(done: seq<Row>, table: seq<Row>, columns: nat)
    requires columns > 1 && table != [] && WellFormedRow(table[0], columns) && Survives(table[0], columns)
    ensures FeedAll(Joiner(done, "", 0), TableLines(table), columns - 1)
      == FeedAll(Joiner(done + [table[0]], "", 0), TableLines(table[1..]), columns - 1)
  {
    OneRowFeeds(done, table[0], columns);
    FeedConcat(Joiner(done, "", 0), RowLines(table[0]), TableLines(table[1..]), columns - 1);
  }

  /** If the remaining rows survive, the joiner returns the table. */
  lemma {:induction false} GoodRowsFeed(table: seq<Row>, columns: nat, i: nat, n: nat)
    requires columns > 1 && i <= n <= |table| && WellFormedTable(table, columns)
    requires forall k :: 0 <= k < n ==> Survives(table[k], columns)
    ensures FeedAll(Joiner(table[..i], "", 0), TableLines(table[i..n]), columns - 1) == Joiner(table[..n], "", 0)
    decreases n - i
  {
    if i < n {
      FirstRowConsumed(table[..i], table[i..n], columns);
      assert table[..i] + [table[i]] == table[..i + 1];
      assert table[i..n][1..] == table[i + 1..n];
      GoodRowsFeed(table, columns, i + 1, n);
    }
  }

  /** If some row does not survive, the first such row comes back wrong. */
  lemma BadTableFeeds(table: seq<Row>, columns: nat, i: nat)
    requires columns > 1 && WellFormedTable(table, columns)
    requires i < |table| && !Survives(table[i], columns)
    requires forall k :: 0 <= k < i ==> Survives(table[k], columns)
    ensures var rows := FeedAll(Joiner([], "", 0), TableLines(table), columns - 1).rows;
      |rows| > i && rows[i] != table[i]
  {
    var good, bad, later := TableLines(table[..i]), RowLines(table[i]), TableLines(table[i + 1..]);
    TableLinesSplit(table, i);
    assert table[..0] == [] && table[0..i] == table[..i];
    GoodRowsFeed(table, columns, 0, i);
    OneRowFeeds(table[..i], table[i], columns);
    FeedConcat(Joiner([], "", 0), good, bad + later, columns - 1);
    FeedConcat(Joiner(table[..i], "", 0), bad, later, columns - 1);
    RowsGrow(FeedAll(Joiner(table[..i], "", 0), bad, columns - 1), later, columns - 1);
  }

  lemma {:induction false} TableLinesSplit(table: seq<Row>, i: nat)
    requires i < |table|
    ensures TableLines(table) == TableLines(table[..i]) + (RowLines(table[i]) + TableLines(table[i + 1..]))
    decreases i
  {
    if i == 0 {
      assert table[..0] == [];
    } else {
      TableLinesSplit(table[1..], i - 1);
      assert table[..i][1..] == table[1..][..i - 1];
      assert table[1..][i..] == table[i + 1..];
    }
  }

  /** A text shorter than the printed row does not split into the row. */
  lemma WrongText(text: string, row: Row)
    requires |text| < |PrintRow(row)|
    ensures Split(text, '\t') != row
  {
    JoinSplit(text, '\t');
  }

  // ----- the width of the table -----

  predicate OneLine(row: Row) {
    forall i :: 0 <= i < |row| ==> Free(row[i], '\n')
  }

  lemma {:induction false} LinesHoldAtMost(table: seq<Row>, columns: nat, l: nat)
    requires columns > 1 && WellFormedTable(table, columns) && l < |TableLines(table)|
    ensures Count(TableLines(table)[l], '\t') <= columns - 1
    decreases |table|
  {
    RowText(table[0], columns);
    var first := RowLines(table[0]);
    if l < |first| {
      OneLineAtMost(first, l);
    } else {
      LinesHoldAtMost(table[1..], columns, l - |first|);
    }
  }

  /** A line with a full set of tabs, in a table whose rows survive, is a row without newlines. */
  lemma {:induction false} FullLineIsARow(table: seq<Row>, columns: nat, l: nat)
    requires columns > 1 && WellFormedTable(table, columns) && AllSurvive(table, columns)
    requires l < |TableLines(table)| && Count(TableLines(table)[l], '\t') == columns - 1
    ensures exists i :: 0 <= i < |table| && |RowLines(table[i])| == 1
    decreases |table|
  {
    var first := RowLines(table[0]);
    if l < |first| {
      RowText(table[0], columns);
      if |first| > 1 {
        WholeRow(first, columns - 1);
        assert false;
      }
    } else {
      assert AllSurvive(table[1..], columns);
      FullLineIsARow(table[1..], columns, l - |first|);
      var i :| 0 <= i < |table[1..]| && |RowLines(table[1..][i])| == 1;
      assert |RowLines(table[i + 1])| == 1;
    }
  }

  lemma {:induction false} RowIsAFullLine(table: seq<Row>, columns: nat, i: nat)
    requires columns > 1 && WellFormedTable(table, columns) && i < |table| && |RowLines(table[i])| == 1
    ensures exists l :: 0 <= l < |TableLines(table)| && Count(TableLines(table)[l], '\t') == columns - 1
  {
    TableLinesSplit(table, i);
    RowText(table[i], columns);
    var before := TableLines(table[..i]);
    assert RowLines(table[i])[1..] == [];
    assert TableLines(table)[|before|] == RowLines(table[i])[0];
  }

  // ----- which rows survive, line by line -----

  /** With something buffered: the last line must bring a tab, and no line may hold all of them. */
  lemma {:induction false} WholeTail(buf: string, tabs: nat, rest: seq<string>, expected: nat)
    requires buf != "" && rest != [] && tabs < expected && tabs + Tabs(rest) == expected
    ensures Whole(buf, tabs, rest, expected) <==>
      Count(rest[|rest| - 1], '\t') > 0 && forall i :: 0 <= i < |rest| ==> Count(rest[i], '\t') != expected
    decreases |rest|
  {
    var tc := Count(rest[0], '\t');
    if |rest| == 1 {
      assert rest[1..] == [];
    } else if tabs + tc == expected {
      OneLineAtMost(rest[1..], |rest| - 2);
    } else if tc != expected {
      WholeTail(buf + ['\n'] + rest[0], tabs + tc, rest[1..], expected);
      assert forall i :: 0 < i < |rest| ==> rest[i] == rest[1..][i - 1];
      assert forall i :: 0 <= i < |rest| - 1 ==> rest[1..][i] == rest[i + 1];
    }
  }

  /**
   A row broken into several lines survives exactly if its first line is not empty, its last brings a tab, and none
   holds all tabs.
   */
  lemma WholeRow(lines: seq<string>, expected: nat)
    requires |lines| > 1 && expected > 0 && Tabs(lines) == expected
    ensures Whole("", 0, lines, expected) <==>
      && lines[0] != "" && Count(lines[|lines| - 1], '\t') > 0
      && forall i :: 0 <= i < |lines| ==> Count(lines[i], '\t') != expected
  {
    var tc, rest := Count(lines[0], '\t'), lines[1..];
    if tc != expected && lines[0] != "" {
      OneLineAtMost(lines, 0);
      WholeTail(lines[0], tc, rest, expected);
      assert forall i :: 0 < i < |lines| ==> lines[i] == rest[i - 1];
      assert forall i :: 0 <= i < |rest| ==> rest[i] == lines[i + 1];
    }
  }

  // ----- which rows survive, cell by cell -----

  /** Newlines anywhere but in the last cell and at the very start, and at least one strictly inside. */
  predicate Rejoinable(row: Row) {
    || OneLine(row)
    || (|row| > 2
        && Free(row[|row| - 1], '\n')
        && !(row[0] != "" && row[0][0] == '\n')
        && exists i :: 0 < i < |row| - 1 && !Free(row[i], '\n'))
  }

  lemma {:induction false} JoinConcat(a: Row, b: Row, sep: char)
    requires a != [] && b != []
    ensures Join(a + b, sep) == Join(a, sep) + [sep] + Join(b, sep)
    decreases |a|
  {
    if |a| == 1 {
      assert (a + b)[1..] == b;
    } else {
      assert (a + b)[1..] == a[1..] + b;
      JoinConcat(a[1..], b, sep);
      assert a[0] + [sep] + (Join(a[1..], sep) + [sep] + Join(b, sep))
          == (a[0] + [sep] + Join(a[1..], sep)) + [sep] + Join(b, sep);
    }
  }

  lemma OneLineRow(row: Row)
    requires row != []
    ensures |RowLines(row)| == 1 <==> OneLine(row)
  {
    JoinFree(row, '\t', '\n');
    FreeCount(PrintRow(row), '\n');
    SplitSize(PrintRow(row), '\n');
  }

  lemma FirstLineEmpty(row: Row)
    requires |row| > 1
    ensures RowLines(row)[0] == "" <==> row[0] != "" && row[0][0] == '\n'
  {
    assert PrintRow(row) == row[0] + ['\t'] + PrintRow(row[1..]);
    assert PrintRow(row)[0] == if row[0] != "" then row[0][0] else '\t';
  }

  lemma {:induction false} GlueLast(x: seq<string>, y: seq<string>)
    requires x != [] && y != []
    ensures var parts := Glue(x, y);
      parts[|parts| - 1] == if |y| == 1 then x[|x| - 1] + y[0] else y[|y| - 1]
    decreases |x|
  {
    if |x| > 1 {
      GlueLast(x[1..], y);
    }
  }

  function LastPiece(s: string): string {
    Split(s, '\n')[|Split(s, '\n')| - 1]
  }

  /** The last line of `a` and `b` put together, when `b` has no newline. */
  lemma LastLineExtended(a: string, b: string)
    requires Free(b, '\n')
    ensures Count(LastPiece(a + b), '\t') == Count(LastPiece(a), '\t') + Count(b, '\t')
  {
    SplitFree(b, '\n');
    SplitGlue(a, b, '\n');
    GlueLast(Split(a, '\n'), [b]);
    CountConcat(LastPiece(a), b, '\t');
  }

  /** And when it has one. */
  lemma LastLineReplaced(a: string, b: string)
    requires !Free(b, '\n')
    ensures LastPiece(a + b) == LastPiece(b)
  {
    FreeCount(b, '\n');
    SplitSize(b, '\n');
    SplitGlue(a, b, '\n');
    GlueLast(Split(a, '\n'), Split(b, '\n'));
  }

  lemma LinesOfCell(cell: string, i: nat)
    requires Free(cell, '\t') && i < |Split(cell, '\n')|
    ensures Count(Split(cell, '\n')[i], '\t') == 0
  {
    TabsOfSplit(cell);
    FreeCount(cell, '\t');
    OneLineAtMost(Split(cell, '\n'), i);
  }

  lemma LastLineHasTab(row: Row, columns: nat)
    requires columns > 1 && WellFormedRow(row, columns)
    ensures Count(RowLines(row)[|RowLines(row)| - 1], '\t') > 0 <==> Free(row[columns - 1], '\n')
  {
    var front, last := row[..columns - 1], row[columns - 1];
    assert row == front + [last];
    JoinConcat(front, [last], '\t');
    var a, b := Join(front, '\t'), ['\t'] + last;
    assert PrintRow(row) == a + b;
    CountConcat(['\t'], last, '\t');
    assert forall i :: 0 <= i < |last| ==> b[i + 1] == last[i];
    if Free(last, '\n') {
      LastLineExtended(a, b);
    } else {
      assert !Free(b, '\n');
      LastLineReplaced(a, b);
      LastLineReplaced(['\t'], last);
      LinesOfCell(last, |Split(last, '\n')| - 1);
    }
  }

  /** If some middle cell holds a newline, the tabs before and after it are on different lines. */
  lemma MiddleNewlineSplitsTabs(row: Row, columns: nat, j: nat, l: nat)
    requires columns > 1 && WellFormedRow(row, columns)
    requires 0 < j < columns - 1 && !Free(row[j], '\n') && l < |RowLines(row)|
    ensures Count(RowLines(row)[l], '\t') < columns - 1
  {
    var cell := row[j];
    var k :| 0 <= k < |cell| && cell[k] == '\n';
    var p, q := cell[..k], cell[k + 1..];
    var before, after := row[..j], row[j + 1..];
    assert row == before + ([cell] + after);
    JoinConcat(before, [cell] + after, '\t');
    JoinConcat([cell], after, '\t');
    var a, b := Join(before, '\t') + ['\t'] + p, q + ['\t'] + Join(after, '\t');
    assert cell == p + ['\n'] + q;
    assert PrintRow(row) == a + ['\n'] + b;
    SplitAtSeparator(a, b, '\n');
    RowText(row, columns);
    TabsOfSplit(a);
    TabsOfSplit(b);
    TabsConcat(Split(a, '\n'), Split(b, '\n'));
    CountConcat(Join(before, '\t') + ['\t'], p, '\t');
    CountConcat(Join(before, '\t'), ['\t'], '\t');
    CountConcat(q + ['\t'], Join(after, '\t'), '\t');
    CountConcat(q, ['\t'], '\t');
    if l < |Split(a, '\n')| {
      OneLineAtMost(Split(a, '\n'), l);
    } else {
      OneLineAtMost(Split(b, '\n'), l - |Split(a, '\n')|);
    }
  }

  /** If only the first cell holds newlines, all tabs are on the last line. */
  lemma LastLineHoldsAll(row: Row, columns: nat)
    requires columns > 1 && WellFormedRow(row, columns) && OneLine(row[1..])
    ensures Count(RowLines(row)[|RowLines(row)| - 1], '\t') == columns - 1
  {
    var a, b := row[0], ['\t'] + PrintRow(row[1..]);
    assert PrintRow(row) == a + b;
    JoinFree(row[1..], '\t', '\n');
    assert Free(b, '\n');
    LastLineExtended(a, b);
    LinesOfCell(a, |Split(a, '\n')| - 1);
    RowText(row, columns);
    CountConcat(a, b, '\t');
    FreeCount(a, '\t');
  }

  /** A row survives exactly if it is `Rejoinable`. */
  lemma SurvivesIffRejoinable(row: Row, columns: nat)
    requires columns > 1 && WellFormedRow(row, columns)
    ensures Survives(row, columns) <==> Rejoinable(row)
  {
    var lines := RowLines(row);
    OneLineRow(row);
    RowText(row, columns);
    if |lines| > 1 {
      WholeRow(lines, columns - 1);
      FirstLineEmpty(row);
      LastLineHasTab(row, columns);
      if Free(row[columns - 1], '\n') {
        NoLineHoldsAll(row, columns);
      }
    }
  }

  /** A broken row whose last cell has no newline holds all its tabs on one line exactly if no middle cell is broken. */
  lemma NoLineHoldsAll(row: Row, columns: nat)
    requires columns > 1 && WellFormedRow(row, columns) && Free(row[columns - 1], '\n')
    ensures (forall l :: 0 <= l < |RowLines(row)| ==> Count(RowLines(row)[l], '\t') != columns - 1)
       <==> exists j :: 0 < j < columns - 1 && !Free(row[j], '\n')
  {
    var lines := RowLines(row);
    if j :| 0 < j < columns - 1 && !Free(row[j], '\n') {
      forall l | 0 <= l < |lines|
        ensures Count(lines[l], '\t') != columns - 1
      {
        MiddleNewlineSplitsTabs(row, columns, j, l);
      }
    } else {
      assert forall i :: 0 <= i < |row| - 1 ==> row[1..][i] == row[i + 1];
      LastLineHoldsAll(row, columns);
    }
  }

  // ----- the theorems -----

  lemma FirstBadRow(table: seq<Row>, columns: nat) returns (i: nat)
    requires columns > 0 && !AllSurvive(table, columns)
    ensures i < |table| && !Survives(table[i], columns)
    ensures forall k :: 0 <= k < i ==> Survives(table[k], columns)
  {
    i := 0;
    while Survives(table[i], columns)
      invariant i < |table| && forall k :: 0 <= k < i ==> Survives(table[k], columns)
      decreases |table| - i
    {
      i := i + 1;
    }
  }

  /** When the widest line has as many tabs as the table needs. */
  lemma RightWidth(table: seq<Row>, columns: nat, fallbackColumns: int)
    requires columns > 1 && table != [] && WellFormedTable(table, columns)
    requires MaxTabs(TableLines(table)) == columns - 1
    ensures ParseLines(PrintTable(table), fallbackColumns) == table <==> AllSurvive(table, columns)
  {
    TableText(table);
    if AllSurvive(table, columns) {
      GoodRowsFeed(table, columns, 0, |table|);
      assert table[0..|table|] == table && table[..|table|] == table && table[..0] == [];
    } else {
      var i := FirstBadRow(table, columns);
      BadTableFeeds(table, columns, i);
    }
  }

  /** Every row the joiner pushes has one cell more than the expected tabs. */
  lemma {:induction false} PushedWidths(st: Joiner, lines: seq<string>, expected: nat)
    requires forall i :: 0 <= i < |st.rows| ==> |st.rows[i]| == expected + 1
    requires st.bufTabs == Count(st.buf, '\t')
    ensures var st' := FeedAll(st, lines, expected);
      && (forall i :: 0 <= i < |st'.rows| ==> |st'.rows[i]| == expected + 1)
      && st'.bufTabs == Count(st'.buf, '\t')
    decreases |lines|
  {
    if lines != [] {
      var line := lines[0];
      SplitSize(line, '\t');
      SplitSize(st.buf, '\t');
      CountConcat(st.buf + ['\n'], line, '\t');
      CountConcat(st.buf, ['\n'], '\t');
      SplitSize(st.buf + ['\n'] + line, '\t');
      PushedWidths(Feed(st, line, expected), lines[1..], expected);
    }
  }

  lemma {:induction false} FallbackWidths(lines: seq<string>, i: nat)
    requires i < |SplitNonEmpty(lines)|
    ensures |SplitNonEmpty(lines)[i]| <= MaxTabs(lines) + 1
    decreases |lines|
  {
    var rows := SplitNonEmpty(lines);
    if lines[0] != "" && i == 0 {
      SplitSize(lines[0], '\t');
    } else {
      var k := if lines[0] != "" then i - 1 else i;
      FallbackWidths(lines[1..], k);
      MaxTabsTail(lines);
    }
  }

  lemma MaxTabsTail(lines: seq<string>)
    requires lines != []
    ensures MaxTabs(lines[1..]) <= MaxTabs(lines)
  {
    if MaxTabs(lines[1..]) > 0 {
      var i :| 0 <= i < |lines[1..]| && Count(lines[1..][i], '\t') == MaxTabs(lines[1..]);
      assert Count(lines[i + 1], '\t') <= MaxTabs(lines);
    }
  }

  /** When the widest line is too narrow, no row can come back whole. */
  lemma WrongWidth(table: seq<Row>, columns: nat, fallbackColumns: int)
    requires columns > 1 && table != [] && WellFormedTable(table, columns)
    requires 0 < MaxTabs(TableLines(table)) < columns - 1
    ensures ParseLines(PrintTable(table), fallbackColumns) != table
  {
    TableText(table);
    var lines := TableLines(table);
    var expected := MaxTabs(lines);
    PushedWidths(Joiner([], "", 0), lines, expected);
    var st := FeedAll(Joiner([], "", 0), lines, expected);
    SplitSize(st.buf, '\t');
    var rows := Flush(st, expected);
    if rows != [] {
      assert |rows[0]| == expected + 1;
    } else if SplitNonEmpty(lines) != [] {
      FallbackWidths(lines, 0);
    }
    assert WellFormedRow(table[0], columns);
  }

  lemma SomeTab(table: seq<Row>, columns: nat)
    requires columns > 1 && table != [] && WellFormedTable(table, columns)
    ensures 0 < MaxTabs(TableLines(table)) <= columns - 1
  {
    var lines := TableLines(table);
    RowText(table[0], columns);
    SomeLineHasTab(RowLines(table[0]));
    var i :| 0 <= i < |RowLines(table[0])| && Count(RowLines(table[0])[i], '\t') > 0;
    assert lines[i] == RowLines(table[0])[i];
    var l :| 0 <= l < |lines| && Count(lines[l], '\t') == MaxTabs(lines);
    LinesHoldAtMost(table, columns, l);
  }

  lemma {:induction false} SomeLineHasTab(lines: seq<string>)
    ensures Tabs(lines) > 0 ==> exists i :: 0 <= i < |lines| && Count(lines[i], '\t') > 0
  {
    if lines != [] {
      SomeLineHasTab(lines[1..]);
      if i :| 0 <= i < |lines[1..]| && Count(lines[1..][i], '\t') > 0 {
        assert Count(lines[i + 1], '\t') > 0;
      }
    }
  }

  /**
   A table without tabs in its cells, of two columns or more, comes back from print and parse if and only
   if every row is `Rejoinable` and some row has no newline at all.
   */
  lemma RoundTripIff(table: seq<Row>, columns: nat, fallbackColumns: int)
    requires columns > 1 && table != [] && WellFormedTable(table, columns)
    requires !HasQuotedField(PrintTable(table))
    ensures ParseTsv(PrintTable(table), fallbackColumns) == table <==>
      && (forall i :: 0 <= i < |table| ==> Rejoinable(table[i]))
      && (exists i :: 0 <= i < |table| && OneLine(table[i]))
  {
    var lines := TableLines(table);
    forall i | 0 <= i < |table|
      ensures Survives(table[i], columns) <==> Rejoinable(table[i])
      ensures |RowLines(table[i])| == 1 <==> OneLine(table[i])
    {
      SurvivesIffRejoinable(table[i], columns);
      OneLineRow(table[i]);
    }
    SomeTab(table, columns);
    if MaxTabs(lines) == columns - 1 {
      RightWidth(table, columns, fallbackColumns);
      if AllSurvive(table, columns) {
        var l :| 0 <= l < |lines| && Count(lines[l], '\t') == columns - 1;
        FullLineIsARow(table, columns, l);
      }
    } else {
      WrongWidth(table, columns, fallbackColumns);
      if i :| 0 <= i < |table| && OneLine(table[i]) {
        RowIsAFullLine(table, columns, i);
        assert false;
      }
    }
  }

  /** The same for a query result with at least one row: header and rows come back as one table. */
  lemma QueryResultRoundTrip(columnNames: Row, rows: seq<Row>, fallbackColumns: int)
    requires |columnNames| > 1 && rows != [] && WellFormedTable([columnNames] + rows, |columnNames|)
    requires !HasQuotedField(FormatQueryResults(columnNames, rows))
    requires OneLine(columnNames)
    ensures ParseTsv(FormatQueryResults(columnNames, rows), fallbackColumns) == [columnNames] + rows <==>
      forall i :: 0 <= i < |rows| ==> Rejoinable(rows[i])
  {
    var table := [columnNames] + rows;
    assert RowTexts(table)[1..] == RowTexts(rows);
    assert FormatQueryResults(columnNames, rows) == PrintTable(table);
    RoundTripIff(table, |columnNames|, fallbackColumns);
    assert table[0] == columnNames;
    assert forall i :: 0 <= i < |rows| ==> table[i + 1] == rows[i];
    assert forall i :: 0 < i < |table| ==> table[i] == rows[i - 1];
  }
}
