/**
 The paths under which a transparency log serves its tiles (C2SP tlog-tiles, section 'Merkle Tree').

 A tile's index is written in groups of three decimal digits, all but the last marked with an `x`; a tile that
 is not full adds the number of its hashes.
 */
module TilePaths {
  import opened Options
  import opened Decimals
  import opened Strings
  import opened TileLayout

  // ----- the index of a tile -----

  function Group(n: nat): (s: string)
    requires n < 1000
    ensures |s| == 3 && AllDigits(s)
  {
    ThreeDigits(n);
    PadStart(Decimal(n), 3)
  }

  function Groups(index: nat): (parts: seq<string>)
    ensures parts != []
  {
    if index < 1000 then [Group(index)] else Groups(index / 1000) + [Group(index % 1000)]
  }

  /** Every part but the last one gets its `x`. */
  function Marked(parts: seq<string>): seq<string> {
    seq(|parts|, i requires 0 <= i < |parts| => if i < |parts| - 1 then "x" + parts[i] else parts[i])
  }

  function TileIndex(index: nat): string {
    Join(Marked(Groups(index)), '/')
  }

  method FormatTileIndex(index: nat) returns (path: string)
    ensures path == TileIndex(index)
  {
    var parts, remaining := [Group(index % 1000)], index / 1000;
    while remaining > 0
      invariant if remaining > 0 then Groups(remaining) + parts == Groups(index) else parts == Groups(index)
    {
      parts := [Group(remaining % 1000)] + parts;
      remaining := remaining / 1000;
    }
    path := Join(Marked(parts), '/');
  }

  // ----- reading it back -----

  /** Three digits to a group, and no leading group of zeros. */
  predicate IsGrouping(parts: seq<string>) {
    && parts != []
    && (forall i :: 0 <= i < |parts| ==> |parts[i]| == 3 && AllDigits(parts[i]))
    && (|parts| > 1 ==> parts[0] != "000")
  }

  /** The number the first `n` groups write in base 1000. */
  function Number(parts: seq<string>, n: nat): nat
    requires n <= |parts| && forall i :: 0 <= i < |parts| ==> AllDigits(parts[i])
  {
    if n == 0 then 0 else 1000 * Number(parts, n - 1) + Value(parts[n - 1])
  }

  /** The parts without their marks, when the marks are where they belong. */
  function Unmarked(parts: seq<string>): Option<seq<string>> {
    if forall i :: 0 <= i < |parts| - 1 ==> parts[i] != [] && parts[i][0] == 'x'
    then Some(seq(|parts|, i requires 0 <= i < |parts| => if i < |parts| - 1 then parts[i][1..] else parts[i]))
    else None
  }

  /** The index a path names, or nothing when it names none. */
  function ReadTileIndex(path: string): Option<nat> {
    var parts := Unmarked(Split(path, '/'));
    if parts.Some? && IsGrouping(parts.value) then Some(Number(parts.value, |parts.value|)) else None
  }

  lemma GroupValue(n: nat)
    requires n < 1000
    ensures Value(Group(n)) == n
  {
    ThreeDigits(n);
    ThreeDigitValue(Group(n));
  }

  lemma DigitsOf(a: nat, b: nat, c: nat, n: nat)
    requires a < 10 && b < 10 && c < 10 && n == 100 * a + 10 * b + c
    ensures n / 100 == a && n / 10 % 10 == b && n % 10 == c
  {
    assert n / 10 == 10 * a + b;
  }

  lemma ValueGroup(s: string)
    requires |s| == 3 && AllDigits(s)
    ensures Value(s) < 1000 && Group(Value(s)) == s
  {
    var a, b, c := DigitValue(s[0]), DigitValue(s[1]), DigitValue(s[2]);
    ThreeDigitValue(s);
    ThreeDigits(Value(s));
    DigitsOf(a, b, c, Value(s));
  }

  lemma {:induction false} NumberAppend(parts: seq<string>, more: seq<string>, n: nat)
    requires n <= |parts| && forall i :: 0 <= i < |parts| ==> AllDigits(parts[i])
    requires forall i :: 0 <= i < |more| ==> AllDigits(more[i])
    ensures Number(parts + more, n) == Number(parts, n)
  {
    if n > 0 {
      NumberAppend(parts, more, n - 1);
    }
  }

  lemma {:induction false} NumberOfGroups(index: nat)
    ensures IsGrouping(Groups(index)) && Number(Groups(index), |Groups(index)|) == index
    ensures index > 0 ==> Groups(index)[0] != "000"
  {
    if index < 1000 {
      GroupValue(index);
      GroupValue(0);
      ThreeDigits(0);
      assert Number(Groups(index), 0) == 0;
    } else {
      var front, last := Groups(index / 1000), Group(index % 1000);
      NumberOfGroups(index / 1000);
      GroupValue(index % 1000);
      NumberAppend(front, [last], |front|);
    }
  }

  lemma FirstGroup(parts: seq<string>)
    requires IsGrouping(parts)
    ensures Number(parts, 0) == 0 && Number(parts, 1) == Value(parts[0])
    ensures parts[0] != "000" ==> Value(parts[0]) > 0
  {
    ThreeDigits(0);
    ValueGroup(parts[0]);
  }

  lemma Base1000(front: nat, last: nat)
    requires last < 1000
    ensures (1000 * front + last) / 1000 == front && (1000 * front + last) % 1000 == last
  {
  }

  lemma GroupsStep(front: nat, last: string, number: nat)
    requires |last| == 3 && AllDigits(last) && number == 1000 * front + Value(last)
    ensures Groups(number) == if front == 0 then [last] else Groups(front) + [last]
  {
    ValueGroup(last);
    Base1000(front, Value(last));
  }

  lemma {:induction false} GroupsOfNumber(parts: seq<string>, n: nat)
    requires IsGrouping(parts) && 0 < n <= |parts|
    ensures Groups(Number(parts, n)) == parts[..n]
    ensures parts[0] != "000" ==> Number(parts, n) > 0
  {
    GroupsStep(Number(parts, n - 1), parts[n - 1], Number(parts, n));
    if n == 1 {
      FirstGroup(parts);
    } else {
      GroupsOfNumber(parts, n - 1);
      assert parts[..n] == parts[..n - 1] + [parts[n - 1]];
    }
  }

  lemma UnmarkedMarked(parts: seq<string>)
    ensures Unmarked(Marked(parts)) == Some(parts)
  {
    var marked := Marked(parts);
    assert forall i :: 0 <= i < |parts| - 1 ==> marked[i] == "x" + parts[i];
    assert forall i :: 0 <= i < |parts| - 1 ==> marked[i][1..] == parts[i];
    assert Unmarked(marked).value == parts;
  }

  lemma MarkedUnmarked(parts: seq<string>)
    requires Unmarked(parts).Some?
    ensures Marked(Unmarked(parts).value) == parts
  {
    var bare := Unmarked(parts).value;
    forall i | 0 <= i < |parts| ensures Marked(bare)[i] == parts[i] {
      if i < |parts| - 1 {
        assert "x" + parts[i][1..] == parts[i];
      }
    }
  }

  /** No character other than a digit, the mark and the slash occurs in an index. */
  lemma TileIndexIsPlain(index: nat, c: char)
    requires c != '/' && c != 'x' && !IsDigit(c)
    ensures Free(TileIndex(index), c)
  {
    NumberOfGroups(index);
    JoinFree(Marked(Groups(index)), '/', c);
  }

  /** Every index reads back from its own path. */
  lemma TileIndexReadsBack(index: nat)
    ensures ReadTileIndex(TileIndex(index)) == Some(index)
  {
    var parts := Groups(index);
    NumberOfGroups(index);
    SplitJoin(Marked(parts), '/');
    UnmarkedMarked(parts);
  }

  /** Every path that names an index is the one path written for it. */
  lemma TileIndexIsCanonical(path: string)
    requires ReadTileIndex(path).Some?
    ensures TileIndex(ReadTileIndex(path).value) == path
  {
    var marked := Split(path, '/');
    var parts := Unmarked(marked).value;
    GroupsOfNumber(parts, |parts|);
    assert parts[..|parts|] == parts;
    MarkedUnmarked(marked);
    JoinSplit(path, '/');
  }

  // ----- the last tile of level zero -----

  /** A tile of level zero; a width of 0 stands for a full one. */
  function TilePath(index: nat, width: nat): string {
    if width > 0 then "0/" + TileIndex(index) + ".p/" + Decimal(width) else "0/" + TileIndex(index)
  }

  function LevelZeroTilePath(treeSize: Option<int>): string {
    if treeSize.None? || treeSize.value < 1 then ""
    else TilePath((treeSize.value - 1) / WIDTH, treeSize.value % WIDTH)
  }

  /** The tree size whose last tile of level zero has the path: a full tile ends its tree, a partial one counts on. */
  function ReadTreeSize(path: string): Option<nat> {
    if |path| < 2 then None
    else
      var parts := Split(path[2..], '.');
      var index := ReadTileIndex(parts[0]);
      if index.None? then None
      else if |parts| == 1 then Some((index.value + 1) * WIDTH)
      else if |parts| == 2 && |parts[1]| > 2 && AllDigits(parts[1][2..])
      then Some(index.value * WIDTH + Value(parts[1][2..]))
      else None
  }

  lemma LastTile(treeSize: nat)
    requires treeSize >= 1
    ensures var index, partial := (treeSize - 1) / WIDTH, treeSize % WIDTH;
      treeSize == if partial > 0 then index * WIDTH + partial else (index + 1) * WIDTH
  {
  }

  lemma FullTileReadsBack(index: nat)
    ensures ReadTreeSize("0/" + TileIndex(index)) == Some((index + 1) * WIDTH)
  {
    var name := TileIndex(index);
    assert ("0/" + name)[2..] == name;
    TileIndexIsPlain(index, '.');
    SplitFree(name, '.');
    TileIndexReadsBack(index);
  }

  lemma PathAfterLevel(name: string, width: string)
    ensures ("0/" + name + ".p/" + width)[2..] == name + ['.'] + ("p/" + width)
  {
  }

  lemma PartialTileReadsBack(index: nat, width: nat)
    ensures ReadTreeSize("0/" + TileIndex(index) + ".p/" + Decimal(width)) == Some(index * WIDTH + width)
  {
    var name, tail := TileIndex(index), "p/" + Decimal(width);
    PathAfterLevel(name, Decimal(width));
    TileIndexIsPlain(index, '.');
    SplitFree(name, '.');
    SplitFree(tail, '.');
    SplitAtSeparator(name, tail, '.');
    TileIndexReadsBack(index);
    assert tail[2..] == Decimal(width);
    ValueOfDecimal(width);
  }

  lemma TilePathReadsBack(index: nat, width: nat)
    ensures ReadTreeSize(TilePath(index, width))
      == Some(if width > 0 then index * WIDTH + width else (index + 1) * WIDTH)
  {
    if width > 0 {
      PartialTileReadsBack(index, width);
    } else {
      FullTileReadsBack(index);
    }
  }

  /** The path determines the tree size; there is none exactly when there is no tree. */
  lemma TreeSizeReadsBack(treeSize: int)
    ensures ReadTreeSize(LevelZeroTilePath(Some(treeSize))) == if treeSize < 1 then None else Some(treeSize)
  {
    if treeSize >= 1 {
      LastTile(treeSize);
      TilePathReadsBack((treeSize - 1) / WIDTH, treeSize % WIDTH);
    }
  }

  lemma DifferentTreesDifferentPaths(a: int, b: int)
    requires a >= 1 && LevelZeroTilePath(Some(a)) == LevelZeroTilePath(Some(b))
    ensures a == b
  {
    TreeSizeReadsBack(a);
    TreeSizeReadsBack(b);
  }

  lemma GroupIs(n: nat, s: string)
    requires n < 1000 && s == [Digit(n / 100), Digit(n / 10 % 10), Digit(n % 10)]
    ensures Group(n) == s
  {
    ThreeDigits(n);
  }

  lemma ExampleGroups()
    ensures Groups(1234067) == ["001", "234", "067"]
  {
    GroupIs(1, "001");
    GroupIs(234, "234");
    GroupIs(67, "067");
    assert Groups(1) == ["001"];
    assert Groups(1234) == ["001"] + ["234"];
    assert Groups(1234067) == ["001", "234"] + ["067"];
  }

  lemma JoinThree(a: string, b: string, c: string, sep: char)
    ensures Join([a, b, c], sep) == a + [sep] + (b + [sep] + c)
  {
    assert [a, b, c][1..] == [b, c] && [b, c][1..] == [c];
    assert Join([c], sep) == c;
    assert Join([b, c], sep) == b + [sep] + c;
  }

  lemma MarkThree(a: string, b: string, c: string)
    ensures Marked([a, b, c]) == ["x" + a, "x" + b, c]
  {
  }

  /** The example of the standard. */
  lemma ExampleIndex()
    ensures TileIndex(1234067) == "x001/x234/067"
  {
    ExampleGroups();
    MarkThree("001", "234", "067");
    JoinThree("x001", "x234", "067", '/');
  }

  lemma ShortIndex(n: nat, s: string)
    requires n < 1000 && s == [Digit(n / 100), Digit(n / 10 % 10), Digit(n % 10)]
    ensures TileIndex(n) == s
  {
    GroupIs(n, s);
    assert Groups(n) == [s] && Marked([s]) == [s];
  }

  lemma ExampleWidth()
    ensures Decimal(112) == "112"
  {
    assert Decimal(1) == "1";
    assert Decimal(11) == "1" + "1";
    assert Decimal(112) == "11" + "2";
  }

  /** The last tiles of a log of 70000 entries and of 512; no tile without a tree. */
  lemma ExamplePaths()
    ensures LevelZeroTilePath(Some(70000)) == "0/273.p/112"
    ensures LevelZeroTilePath(Some(512)) == "0/001"
    ensures LevelZeroTilePath(None) == "" && LevelZeroTilePath(Some(0)) == ""
  {
    ShortIndex(273, "273");
    ShortIndex(1, "001");
    ExampleWidth();
  }
}
