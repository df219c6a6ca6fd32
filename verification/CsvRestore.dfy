/**
 Which files come back: the reader trims the file and drops carriage returns at line ends, and a file is restored
 exactly if there is nothing for it to trim or drop but the final newline.
 */
module CsvRestore {
  import opened Strings
  import opened Csv

  predicate AllBlank(s: string) {
    forall i :: 0 <= i < |s| ==> IsBlank(s[i])
  }

  // ----- what trimming takes away -----

  lemma {:induction false} TrimStartTakes(s: string) returns (p: string)
    ensures s == p + TrimStart(s) && AllBlank(p)
    ensures TrimStart(s) != "" ==> !IsBlank(TrimStart(s)[0])
    decreases |s|
  {
    p := "";
    if s != [] && IsBlank(s[0]) {
      var rest := TrimStartTakes(s[1..]);
      p := [s[0]] + rest;
      assert s == [s[0]] + s[1..];
    }
  }

  lemma {:induction false} TrimEndTakes(s: string) returns (q: string)
    ensures s == TrimEnd(s) + q && AllBlank(q)
    ensures TrimEnd(s) != "" ==> !IsBlank(TrimEnd(s)[|TrimEnd(s)| - 1]) && TrimEnd(s)[0] == s[0]
    decreases |s|
  {
    q := "";
    if s != [] && IsBlank(s[|s| - 1]) {
      var rest := TrimEndTakes(s[..|s| - 1]);
      q := rest + [s[|s| - 1]];
      assert s == s[..|s| - 1] + [s[|s| - 1]];
    }
  }

  lemma TrimTakes(s: string) returns (p: string, q: string)
    ensures s == p + Trim(s) + q && AllBlank(p) && AllBlank(q)
    ensures var t := Trim(s); t != "" ==> !IsBlank(t[0]) && !IsBlank(t[|t| - 1])
  {
    p := TrimStartTakes(s);
    q := TrimEndTakes(TrimStart(s));
    assert p + (Trim(s) + q) == p + Trim(s) + q;
  }

  // ----- pieces with something before the first and behind the last -----

  predicate Framed(whole: seq<string>, p: string, parts: seq<string>, q: string) {
    && |whole| == |parts| > 0
    && forall i :: 0 <= i < |parts| ==>
      whole[i] == (if i == 0 then p else "") + parts[i] + (if i == |parts| - 1 then q else "")
  }

  lemma {:induction false} GlueBehind(x: seq<string>, q: string)
    requires x != []
    ensures forall i :: 0 <= i < |x| ==> Glue(x, [q])[i] == x[i] + (if i == |x| - 1 then q else "")
    decreases |x|
  {
    if |x| > 1 {
      GlueBehind(x[1..], q);
      assert x[0] + "" == x[0];
    }
  }

  lemma SplitFramed(p: string, t: string, q: string, sep: char)
    requires Free(p, sep) && Free(q, sep)
    ensures Framed(Split(p + t + q, sep), p, Split(t, sep), q)
  {
    SplitFree(p, sep);
    SplitFree(q, sep);
    SplitGlue(p, t, sep);
    SplitGlue(p + t, q, sep);
    var parts, front := Split(t, sep), Split(p + t, sep);
    assert front == [p + parts[0]] + parts[1..];
    GlueBehind(front, q);
    assert forall i :: 0 < i < |parts| ==> front[i] == parts[i] == "" + parts[i];
  }

  lemma BlankIsFree(s: string, c: char)
    requires AllBlank(s) && !IsBlank(c)
    ensures Free(s, c)
  {
  }

  lemma {:induction false} SplitEnds(s: string, sep: char)
    requires s != "" && s[0] != sep && s[|s| - 1] != sep
    ensures var parts := Split(s, sep);
      && parts[0] != "" && parts[0][0] == s[0]
      && parts[|parts| - 1] != "" && parts[|parts| - 1][|parts[|parts| - 1]| - 1] == s[|s| - 1]
  {
    var parts := Split(s, sep);
    JoinSplit(s, sep);
    if parts[0] == "" {
      JoinStartsWithSeparator(parts, sep);
      assert false;
    }
    if parts[|parts| - 1] == "" {
      JoinEndsWithSeparator(parts, sep);
      assert false;
    }
    JoinEnds(parts, sep);
  }

  lemma JoinStartsWithSeparator(parts: seq<string>, sep: char)
    requires parts != [] && parts[0] == "" && Join(parts, sep) != ""
    ensures Join(parts, sep)[0] == sep
  {
  }

  lemma JoinEndsWithSeparator(parts: seq<string>, sep: char)
    requires parts != [] && parts[|parts| - 1] == "" && Join(parts, sep) != ""
    ensures Join(parts, sep)[|Join(parts, sep)| - 1] == sep
  {
    if |parts| > 1 {
      assert parts == parts[..|parts| - 1] + [""];
      JoinSnoc(parts[..|parts| - 1], "", sep);
    }
  }

  // ----- the lines the reader sees -----

  lemma EndIsTaken(p: string, t: string, s: string, text: string)
    requires text == p + t + s && text != "" && text[|text| - 1] == '\n'
    requires t != "" && !IsBlank(t[|t| - 1])
    ensures s != "" && s[|s| - 1] == '\n'
  {
    if s == "" {
      LastOf(p, t, s, text);
      assert false;
    }
  }

  lemma LastOf(p: string, t: string, s: string, text: string)
    requires t != "" && s == "" && text == p + t + s
    ensures text[|text| - 1] == t[|t| - 1]
  {
    assert text == p + t;
  }

  lemma SameFront(a: string, b: string, c: char)
    requires a + [c] == b + [c]
    ensures a == b
  {
    assert a == (a + [c])[..|a|] && b == (b + [c])[..|b|];
  }

  /** If the number of lines is right, trimming has taken the final newline and no other. */
  lemma TrimmedLines(lines: seq<string>, text: string) returns (p: string, q: string)
    requires |lines| > 1 && forall i :: 0 <= i < |lines| ==> Free(lines[i], '\n')
    requires text == WriteLines(lines, |lines|) && |Split(Trim(text), '\n')| == |lines|
    ensures AllBlank(p) && AllBlank(q) && Framed(lines, p, Split(Trim(text), '\n'), q)
    ensures var t := Trim(text); t != "" && !IsBlank(t[0]) && !IsBlank(t[|t| - 1])
  {
    var t, joined := Trim(text), Join(lines, '\n');
    WriteLinesIsJoin(lines, |lines|);
    assert lines[..|lines|] == lines;
    var s;
    p, s := TrimTakes(text);
    SplitSize(t, '\n');
    JoinCount(lines, '\n');
    CountConcat(joined, ['\n'], '\n');
    CountConcat(p, t, '\n');
    CountConcat(p + t, s, '\n');
    assert Count(['\n'], '\n') == 1;
    EndIsTaken(p, t, s, text);
    q := s[..|s| - 1];
    assert s == q + ['\n'];
    CountConcat(q, ['\n'], '\n');
    FreeCount(p, '\n');
    FreeCount(q, '\n');
    assert joined + ['\n'] == p + t + (q + ['\n']) == (p + t + q) + ['\n'];
    SameFront(joined, p + t + q, '\n');
    SplitFramed(p, t, q, '\n');
    SplitJoin(lines, '\n');
  }

  // ----- a header line -----

  lemma PlainSplit(line: string)
    requires Free(line, '"') && Free(line, '\n')
    ensures LineToValues(line) == Split(line, ',')
  {
    var parts := Split(line, ',');
    JoinSplit(line, ',');
    JoinFree(parts, ',', '"');
    JoinFree(parts, ',', '\n');
    SplitPiecesFree(line, ',');
    assert forall i :: 0 <= i < |parts| ==> !NeedsQuotes(parts[i]);
    PlainLine(parts);
    LineRoundTrip(parts);
  }

  lemma {:induction false} SplitPiecesFree(s: string, sep: char)
    ensures forall i :: 0 <= i < |Split(s, sep)| ==> Free(Split(s, sep)[i], sep)
  {
    if s != "" {
      SplitPiecesFree(s[1..], sep);
    }
  }

  predicate Distinct(headers: seq<string>) {
    forall i, j :: 0 <= i < j < |headers| ==> headers[i] != headers[j]
  }

  /** Distinct headers are all found again only if nothing was cut off the line. */
  lemma CutHeadersAreMissing(headers: seq<string>, p: string, found: seq<string>, c: string)
    requires Distinct(headers) && Framed(headers, p, found, c)
    requires forall i :: 0 <= i < |headers| ==> headers[i] in found
    ensures p == "" && c == ""
  {
    var last := |headers| - 1;
    assert headers[0] in found && headers[last] in found;
    forall i | 0 < i < last ensures found[i] == headers[i] {
      assert "" + found[i] + "" == found[i];
    }
    assert |headers[0]| >= |p| + |found[0]| && |headers[last]| >= |found[last]| + |c|;
  }

  lemma {:induction false} KeysAreHeaders(headers: seq<string>, values: seq<string>, n: nat, key: string)
    requires n <= |headers| && key in FromEntries(headers, values, n)
    ensures key in headers
  {
    if n > 0 && key != headers[n - 1] {
      KeysAreHeaders(headers, values, n - 1, key);
    }
  }

  // ----- a record line -----

  /** What a record's line holds before its last field. */
  function FrontOf(values: seq<string>): string
    requires values != []
  {
    if |values| == 1 then "" else PrintLine(values[..|values| - 1]) + [',']
  }

  lemma LastFieldOfLine(values: seq<string>)
    requires values != []
    ensures PrintLine(values) == FrontOf(values) + EscapeCsv(values[|values| - 1])
  {
    var front, last := values[..|values| - 1], values[|values| - 1];
    assert EscapeAll(values) == EscapeAll(front) + [EscapeCsv(last)];
    if front != [] {
      JoinSnoc(EscapeAll(front), EscapeCsv(last), ',');
    }
  }

  lemma Overlap(x: string, e: string, r: string, q: string)
    requires x + e == r + q && |x| > |r|
    ensures q != "" && q[|x| - 1 - |r|] == x[|x| - 1]
  {
    assert (x + e)[|x| - 1] == (r + q)[|x| - 1];
  }

  lemma SameEnd(x: string, e: string, r: string, q: string)
    requires x + e == r + q && e != "" && q != ""
    ensures e[|e| - 1] == q[|q| - 1]
  {
    assert (x + e)[|x + e| - 1] == (r + q)[|r + q| - 1];
  }

  /** What is blank at the end of a line lies in its last field, which is then not quoted. */
  lemma BlankIsInLast(x: string, last: string, r: string, q: string)
    requires x + EscapeCsv(last) == r + q && q != "" && AllBlank(q) && (x != "" ==> x[|x| - 1] == ',')
    ensures !NeedsQuotes(last) && |q| <= |last|
  {
    if |x| > |r| {
      Overlap(x, EscapeCsv(last), r, q);
      assert false;
    }
    SameEnd(x, EscapeCsv(last), r, q);
  }

  /** Blank space cut off the end of a record is cut off its last field. */
  lemma CutRecord(values: seq<string>, r: string, q: string)
    requires values != [] && PrintLine(values) == r + q && q != "" && AllBlank(q)
    ensures |LineToValues(r)| == |values| && LineToValues(r)[|values| - 1] != values[|values| - 1]
  {
    var front, last, x := values[..|values| - 1], values[|values| - 1], FrontOf(values);
    LastFieldOfLine(values);
    BlankIsInLast(x, last, r, q);
    var kept := last[..|last| - |q|];
    assert r == (x + last)[..|x + last| - |q|] == x + kept;
    CutLine(front, kept, r, x);
  }

  lemma CutLine(front: seq<string>, kept: string, r: string, x: string)
    requires r == x + kept && !NeedsQuotes(kept)
    requires x == if front == [] then "" else PrintLine(front) + [',']
    ensures LineToValues(r) == front + [kept]
  {
    assert EscapeAll(front + [kept]) == EscapeAll(front) + [kept];
    if front != [] {
      JoinSnoc(EscapeAll(front), kept, ',');
    }
    assert PrintLine(front + [kept]) == r;
    LineRoundTrip(front + [kept]);
  }

  // ----- which files come back -----

  /** Reading the written file gives every row again, with every field under its header. */
  predicate ComesBack(headers: seq<string>, rows: seq<seq<string>>)
    requires Storable(headers, rows)
  {
    var result := ReadCsvRows(WriteCsv(headers, rows));
    && result.Ok? && |result.value| == |rows|
    && forall r :: 0 <= r < |rows| ==> Restores(headers, rows[r], result.value[r])
  }

  /** What the end of a line loses to the search for line ends. */
  function Dropped(line: string): (c: string)
    ensures line == StripCr(line) + c && AllBlank(c) && Free(c, ',')
  {
    if line != [] && line[|line| - 1] == '\r' then "\r" else ""
  }

  /** The header line was left alone, or some header is not found any more. */
  lemma HeadersAreWhole(headers: seq<string>, p: string, line: string, row: map<string, string>, values: seq<string>)
    requires headers != [] && Distinct(headers) && forall i :: 0 <= i < |headers| ==> !NeedsQuotes(headers[i])
    requires Join(headers, ',') == p + line && AllBlank(p)
    requires var found := LineToValues(StripCr(line)); row == FromEntries(found, values, |found|)
    requires forall i :: 0 <= i < |headers| ==> headers[i] in row
    ensures p == "" && StripCr(line) == line && LineToValues(line) == headers
  {
    var t, c := StripCr(line), Dropped(line);
    var found := LineToValues(t);
    assert p + line == p + t + c;
    HeaderLineIsPlain(headers);
    assert Free(t, '"') && Free(t, '\n') by {
      assert forall i :: 0 <= i < |t| ==> (p + t + c)[|p| + i] == t[i];
    }
    PlainSplit(t);
    SplitFramed(p, t, c, ',');
    forall i | 0 <= i < |headers| ensures headers[i] in found {
      KeysAreHeaders(found, values, |found|, headers[i]);
    }
    CutHeadersAreMissing(headers, p, found, c);
    assert p + t + c == t;
  }

  lemma HeaderLineIsPlain(headers: seq<string>)
    requires headers != [] && forall i :: 0 <= i < |headers| ==> !NeedsQuotes(headers[i])
    ensures var line := Join(headers, ',');
      Free(line, '"') && Free(line, '\n') && Split(line, ',') == headers
  {
    assert forall i :: 0 <= i < |headers| ==> Free(headers[i], '"') && Free(headers[i], ',') && Free(headers[i], '\n');
    JoinFree(headers, ',', '"');
    JoinFree(headers, ',', '\n');
    SplitJoin(headers, ',');
  }

  /** A record of which something was cut off is not the one that was written. */
  lemma CutIsSeen(headers: seq<string>, values: seq<string>, r: string, q: string)
    requires headers != [] && |values| == |headers| && Distinct(headers)
    requires PrintLine(values) == r + q && AllBlank(q) && q != ""
    ensures !Restores(headers, values, ReadRow(headers, r))
  {
    CutRecord(values, r, q);
    FromEntriesLooksUp(headers, LineToValues(r), |headers|, |headers| - 1);
  }

  /** The line of a restored record was left alone. */
  lemma RecordIsWhole(
    headers: seq<string>, values: seq<string>, part: string, isLast: bool, q: string, seen: string)
    requires headers != [] && |values| == |headers| && Distinct(headers) && AllBlank(q)
    requires PrintLine(values) == part + (if isLast then q else "")
    requires seen == (if isLast then part else StripCr(part)) && Restores(headers, values, ReadRow(headers, seen))
    ensures PrintLine(values) == part && seen == part
  {
    var cut := if isLast then q else Dropped(part);
    assert PrintLine(values) == seen + cut;
    if cut != "" {
      CutIsSeen(headers, values, seen, cut);
    }
  }

  lemma RecordsAreWhole(
    headers: seq<string>, rows: seq<seq<string>>, lines: seq<string>, parts: seq<string>, seen: seq<string>,
    p: string, q: string, i: nat)
    requires Storable(headers, rows) && lines == RecordLines(headers, rows) && |seen| == |lines|
    requires Framed(lines, p, parts, q) && AllBlank(q) && 0 < i < |lines|
    requires seen[i] == if i < |lines| - 1 then StripCr(parts[i]) else parts[i]
    requires Restores(headers, rows[i - 1], ReadRow(headers, seen[i]))
    ensures lines[i] == parts[i] == seen[i]
  {
    assert lines[i] == PrintLine(rows[i - 1]) && "" + parts[i] == parts[i];
    RecordIsWhole(headers, rows[i - 1], parts[i], i == |lines| - 1, q, seen[i]);
  }

  lemma RestoredLines(
    headers: seq<string>, rows: seq<seq<string>>, lines: seq<string>, t: string, p: string, q: string)
    requires Storable(headers, rows) && lines == RecordLines(headers, rows)
    requires Framed(lines, p, Split(t, '\n'), q) && AllBlank(p) && AllBlank(q)
    requires var seen := SplitLines(t); var found := LineToValues(seen[0]);
      && |seen| == |rows| + 1
      && forall i :: 0 <= i < |rows| ==> Restores(headers, rows[i], ReadRow(found, seen[i + 1]))
    ensures Split(t, '\n') == lines && forall i :: 0 <= i < |lines| - 1 ==> StripCr(lines[i]) == lines[i]
  {
    var parts, seen := Split(t, '\n'), SplitLines(t);
    assert lines[0] == p + parts[0] + "" == p + parts[0];
    assert Restores(headers, rows[0], ReadRow(LineToValues(seen[0]), seen[1]));
    HeadersAreWhole(
      headers, p, parts[0], ReadRow(LineToValues(seen[0]), seen[1]), LineToValues(seen[1]));
    assert lines[0] == parts[0] == seen[0];
    forall i | 0 < i < |lines| ensures lines[i] == parts[i] == seen[i] {
      assert Restores(headers, rows[i - 1], ReadRow(headers, seen[i - 1 + 1]));
      RecordsAreWhole(headers, rows, lines, parts, seen, p, q, i);
    }
    assert forall i :: 0 <= i < |lines| - 1 ==> seen[i] == StripCr(parts[i]);
  }

  lemma RestoredIsClean(headers: seq<string>, rows: seq<seq<string>>)
    requires Storable(headers, rows) && ComesBack(headers, rows)
    ensures CleanEdges(RecordLines(headers, rows))
  {
    var lines, text := RecordLines(headers, rows), WriteCsv(headers, rows);
    var t := Trim(text);
    var seen, result := SplitLines(t), ReadCsvRows(text).value;
    RecordsHaveNoBreaks(headers, rows);
    var p, q := TrimmedLines(lines, text);
    forall i | 0 <= i < |rows| ensures Restores(headers, rows[i], ReadRow(LineToValues(seen[0]), seen[i + 1])) {
      assert result[i] == ReadRow(LineToValues(seen[0]), seen[i + 1]);
    }
    RestoredLines(headers, rows, lines, t, p, q);
    SplitEnds(t, '\n');
  }

  /**
   A file whose fields hold no newline comes back if and only if the reader has nothing to trim or drop: no line but
   the last ends in a carriage return, and there is no blank space at either end but the final newline.
   */
  lemma FileRoundTripIff(headers: seq<string>, rows: seq<seq<string>>)
    requires Storable(headers, rows)
    ensures ComesBack(headers, rows) <==> CleanEdges(RecordLines(headers, rows))
  {
    if CleanEdges(RecordLines(headers, rows)) {
      FileRoundTrip(headers, rows);
    }
    if ComesBack(headers, rows) {
      RestoredIsClean(headers, rows);
    }
  }

  // ----- lines and files that nobody printed -----

  lemma {:induction false} ScanPlainQuoted(y: string, rest: string, current: string, inQuotes: bool)
    requires Free(y, '"') && (inQuotes || Free(y, ','))
    ensures Scan(y + rest, current, inQuotes) == Scan(rest, current + y, inQuotes)
    decreases |y|
  {
    if y == "" {
      assert y + rest == rest && current + y == current;
    } else {
      assert (y + rest)[1..] == y[1..] + rest;
      ScanPlainQuoted(y[1..], rest, current + [y[0]], inQuotes);
      assert current + [y[0]] + y[1..] == current + y;
    }
  }

  /** Quotes are taken off wherever they stand in a field, and between them commas do not separate. */
  lemma QuotesAnywhere(x: string, y: string, z: string)
    requires Free(x, '"') && Free(x, ',') && Free(y, '"') && Free(z, '"') && Free(z, ',')
    ensures LineToValues(x + (['"'] + (y + (['"'] + z)))) == [x + y + z]
  {
    var behind := ['"'] + z;
    var inside := y + behind;
    ScanPlainQuoted(x, ['"'] + inside, "", false);
    assert (['"'] + inside)[1..] == inside;
    ScanPlainQuoted(y, behind, x, true);
    assert behind[1..] == z && (|behind| > 1 ==> behind[1] != '"');
    ScanPlainQuoted(z, "", x + y, false);
    assert z + "" == z && "" + x == x;
  }

  /** A quote that is never closed takes in the rest of the line. */
  lemma UnclosedQuote(x: string, y: string)
    requires Free(x, '"') && Free(x, ',') && Free(y, '"')
    ensures LineToValues(x + (['"'] + y)) == [x + y]
  {
    ScanPlainQuoted(x, ['"'] + y, "", false);
    assert (['"'] + y)[1..] == y && "" + x == x;
    ScanPlainQuoted(y, "", x, true);
    assert y + "" == y;
  }

  /** The reader's one error: what is left after trimming has no second line. A missing header line never shows. */
  lemma ReadsUnlessOneLine(csv: string)
    ensures ReadCsvRows(csv) == NoRows <==> Free(Trim(csv), '\n')
    ensures ReadCsvRows(csv) != NoHeaders
  {
    var t := Trim(csv);
    SplitSize(t, '\n');
    FreeCount(t, '\n');
    if !Free(t, '\n') {
      var p, q := TrimTakes(csv);
      SplitEnds(t, '\n');
      var parts := Split(t, '\n');
      assert parts[0] != "" && !IsBlank(parts[0][0]);
      assert StripCr(parts[0]) != "";
    }
  }
}
