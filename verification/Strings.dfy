/** Splitting, joining and counting, as the text formats of the repository use them. */
module Strings {

  /** JavaScript's `split` by a one-character separator. */
  function Split(s: string, sep: char): (parts: seq<string>)
    ensures parts != []
  {
    if s == [] then [""]
    else
      var rest := Split(s[1..], sep);
      if s[0] == sep then [""] + rest else [[s[0]] + rest[0]] + rest[1..]
  }

  function Join(parts: seq<string>, sep: char): string {
    if parts == [] then ""
    else if |parts| == 1 then parts[0]
    else parts[0] + [sep] + Join(parts[1..], sep)
  }

  function Count(s: string, c: char): nat {
    if s == [] then 0 else (if s[0] == c then 1 else 0) + Count(s[1..], c)
  }

  /** Every double quote written twice. */
  function DoubleQuotes(s: string): string {
    if s == [] then []
    else (if s[0] == '"' then ['"', '"'] else [s[0]]) + DoubleQuotes(s[1..])
  }

  predicate Free(s: string, c: char) {
    forall i :: 0 <= i < |s| ==> s[i] != c
  }

  function Concat<T>(parts: seq<seq<T>>): seq<T> {
    if parts == [] then [] else parts[0] + Concat(parts[1..])
  }

  lemma {:induction false} CountConcat(a: string, b: string, c: char)
    ensures Count(a + b, c) == Count(a, c) + Count(b, c)
  {
    if a == [] {
      assert a + b == b;
    } else {
      assert (a + b)[1..] == a[1..] + b;
      CountConcat(a[1..], b, c);
    }
  }

  lemma {:induction false} FreeCount(s: string, c: char)
    ensures Free(s, c) <==> Count(s, c) == 0
  {
    if s != [] {
      FreeCount(s[1..], c);
      if Free(s[1..], c) && s[0] != c {
        assert forall i :: 0 < i < |s| ==> s[i] == s[1..][i - 1];
      }
    }
  }

  lemma {:induction false} SplitSize(s: string, sep: char)
    ensures |Split(s, sep)| == Count(s, sep) + 1
  {
    if s != [] {
      SplitSize(s[1..], sep);
    }
  }

  lemma {:induction false} SplitFree(s: string, sep: char)
    requires Free(s, sep)
    ensures Split(s, sep) == [s]
  {
    if s != [] {
      assert Free(s[1..], sep);
      SplitFree(s[1..], sep);
      assert s == [s[0]] + s[1..];
    }
  }

  /** The pieces of a concatenation: the last piece of the one half is glued to the first of the other. */
  function Glue(x: seq<string>, y: seq<string>): (parts: seq<string>)
    requires x != [] && y != []
    ensures |parts| == |x| + |y| - 1
    decreases |x|
  {
    if |x| == 1 then [x[0] + y[0]] + y[1..] else [x[0]] + Glue(x[1..], y)
  }

  lemma {:induction false} SplitGlue(a: string, b: string, sep: char)
    ensures Split(a + b, sep) == Glue(Split(a, sep), Split(b, sep))
  {
    var y := Split(b, sep);
    if a == [] {
      assert a + b == b;
      assert "" + y[0] == y[0];
    } else {
      assert (a + b)[1..] == a[1..] + b;
      SplitGlue(a[1..], b, sep);
      GlueHead(Split(a[1..], sep), y, a[0], sep);
    }
  }

  lemma GlueHead(x: seq<string>, y: seq<string>, c: char, sep: char)
    requires x != [] && y != []
    ensures Glue([""] + x, y) == [""] + Glue(x, y)
    ensures Glue([[c] + x[0]] + x[1..], y) == [[c] + Glue(x, y)[0]] + Glue(x, y)[1..]
  {
    assert ([""] + x)[1..] == x;
    assert ([[c] + x[0]] + x[1..])[1..] == x[1..];
    assert ([c] + x[0]) + y[0] == [c] + (x[0] + y[0]);
  }

  lemma {:induction false} GlueEmpty(x: seq<string>, y: seq<string>)
    requires x != []
    ensures Glue(x, [""] + y) == x + y
    decreases |x|
  {
    var z := [""] + y;
    assert z[0] == "" && z[1..] == y;
    if |x| == 1 {
      assert x[0] + z[0] == x[0];
      assert x == [x[0]];
    } else {
      GlueEmpty(x[1..], y);
      assert [x[0]] + (x[1..] + y) == x + y;
    }
  }

  /** Splitting at a separator between two halves. */
  lemma SplitAtSeparator(a: string, b: string, sep: char)
    ensures Split(a + [sep] + b, sep) == Split(a, sep) + Split(b, sep)
  {
    assert a + ([sep] + b) == a + [sep] + b;
    assert ([sep] + b)[1..] == b;
    SplitGlue(a, [sep] + b, sep);
    GlueEmpty(Split(a, sep), Split(b, sep));
  }

  lemma {:induction false} JoinSplit(s: string, sep: char)
    ensures Join(Split(s, sep), sep) == s
  {
    if s != [] {
      JoinSplit(s[1..], sep);
      var rest := Split(s[1..], sep);
      if s[0] == sep {
        assert ([""] + rest)[1..] == rest;
        assert "" + [sep] + s[1..] == s;
      } else {
        var parts := [[s[0]] + rest[0]] + rest[1..];
        assert parts[1..] == rest[1..];
        assert s == [s[0]] + s[1..];
        if |rest| > 1 {
          assert ([s[0]] + rest[0]) + [sep] + Join(rest[1..], sep) == [s[0]] + (rest[0] + [sep] + Join(rest[1..], sep));
        }
      }
    }
  }

  lemma {:induction false} SplitJoin(parts: seq<string>, sep: char)
    requires parts != [] && forall i :: 0 <= i < |parts| ==> Free(parts[i], sep)
    ensures Split(Join(parts, sep), sep) == parts
    decreases |parts|
  {
    SplitFree(parts[0], sep);
    if |parts| > 1 {
      SplitJoin(parts[1..], sep);
      SplitAtSeparator(parts[0], Join(parts[1..], sep), sep);
      assert parts == [parts[0]] + parts[1..];
    } else {
      assert parts == [parts[0]];
    }
  }

  /** Splitting a joined text whose parts contain the separator splits every part. */
  lemma {:induction false} SplitJoined(parts: seq<string>, sep: char)
    requires parts != []
    ensures Split(Join(parts, sep), sep) == Concat(seq(|parts|, i requires 0 <= i < |parts| => Split(parts[i], sep)))
    decreases |parts|
  {
    var split := seq(|parts|, i requires 0 <= i < |parts| => Split(parts[i], sep));
    if |parts| > 1 {
      SplitJoined(parts[1..], sep);
      SplitAtSeparator(parts[0], Join(parts[1..], sep), sep);
      assert split[1..] == seq(|parts| - 1, i requires 0 <= i < |parts| - 1 => Split(parts[1..][i], sep));
    } else {
      assert split == [Split(parts[0], sep)];
      assert split[1..] == [];
      assert Concat(split) == Split(parts[0], sep) + [];
    }
  }

  lemma {:induction false} JoinCount(parts: seq<string>, sep: char)
    requires parts != [] && forall i :: 0 <= i < |parts| ==> Free(parts[i], sep)
    ensures Count(Join(parts, sep), sep) == |parts| - 1
    decreases |parts|
  {
    SplitJoin(parts, sep);
    SplitSize(Join(parts, sep), sep);
  }

  /** A joined text is free of a character exactly if all its parts are. */
  lemma {:induction false} JoinFree(parts: seq<string>, sep: char, c: char)
    requires parts != [] && c != sep
    ensures Free(Join(parts, sep), c) <==> forall i :: 0 <= i < |parts| ==> Free(parts[i], c)
    decreases |parts|
  {
    if |parts| > 1 {
      JoinFree(parts[1..], sep, c);
      var text, tail := Join(parts, sep), Join(parts[1..], sep);
      assert text == parts[0] + [sep] + tail;
      assert forall i :: 0 <= i < |parts[0]| ==> text[i] == parts[0][i];
      assert forall i :: 0 <= i < |tail| ==> text[|parts[0]| + 1 + i] == tail[i];
      assert forall i :: 0 < i < |parts| ==> parts[i] == parts[1..][i - 1];
      assert forall i :: 0 <= i < |parts| - 1 ==> parts[1..][i] == parts[i + 1];
    }
  }
}
