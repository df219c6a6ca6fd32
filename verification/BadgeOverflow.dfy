/**
 How many badges a cell shows: they are packed greedily, in order, into a number of lines.

 A badge's width is measured elsewhere and is an input here; widths are reals.
 */
module BadgeOverflow {

  datatype Badge = Badge(text: string, width: real)

  datatype Layout = Layout(containerWidth: real, lineCount: int, badgeGap: real, overflowBadgeWidth: real)

  // ----- the packing loop -----

  function Padded(badge: Badge, layout: Layout): real {
    badge.width + layout.badgeGap
  }

  /** After `packed` badges: the line they reached, where it starts, how wide it is, and whether the loop stopped. */
  datatype Packing = Packing(line: int, start: nat, width: real, packed: nat, full: bool)

  function PackNext(p: Packing, badge: Badge, layout: Layout): Packing {
    if p.full then p
    else if p.width + Padded(badge, layout) <= layout.containerWidth
    then p.(width := p.width + Padded(badge, layout), packed := p.packed + 1)
    else if p.line < layout.lineCount
    then Packing(p.line + 1, p.packed, Padded(badge, layout), p.packed + 1, false)
    else p.(full := true)
  }

  function Pack(badges: seq<Badge>, n: nat, layout: Layout): (p: Packing)
    requires n <= |badges|
  {
    if n == 0 then Packing(1, 0, 0.0, 0, false) else PackNext(Pack(badges, n - 1, layout), badges[n - 1], layout)
  }

  /** The last badge makes way when the overflow badge does not fit behind it. */
  predicate Pops(p: Packing, layout: Layout) {
    p.full && p.width + layout.overflowBadgeWidth > layout.containerWidth && p.packed > 0
  }

  function Shown(badges: seq<Badge>, layout: Layout): nat {
    if layout.containerWidth == 0.0 || badges == [] then |badges|
    else
      var p := Pack(badges, |badges|, layout);
      if Pops(p, layout) then p.packed - 1 else p.packed
  }

  method VisibleBadges(badges: seq<Badge>, layout: Layout) returns (visible: seq<Badge>, hiddenCount: int)
    ensures Shown(badges, layout) <= |badges| && visible == badges[..Shown(badges, layout)]
    ensures |visible| + hiddenCount == |badges|
  {
    PackedIsPrefix(badges, |badges|, layout);
    if layout.containerWidth == 0.0 || badges == [] {
      return badges, 0;
    }
    var currentLineWidth, currentLine := 0.0, 1;
    visible := [];
    var i := 0;
    while i < |badges|
      invariant i <= |badges|
      invariant Pack(badges, i, layout).(start := 0) == Packing(currentLine, 0, currentLineWidth, i, false)
      invariant visible == badges[..i]
    {
      var widthWithGap := badges[i].width + layout.badgeGap;
      if currentLineWidth + widthWithGap <= layout.containerWidth {
        currentLineWidth := currentLineWidth + widthWithGap;
        visible := visible + [badges[i]];
      } else if currentLine < layout.lineCount {
        currentLine := currentLine + 1;
        currentLineWidth := widthWithGap;
        visible := visible + [badges[i]];
      } else {
        FullStays(badges, i + 1, |badges|, layout);
        if currentLineWidth + layout.overflowBadgeWidth > layout.containerWidth && |visible| > 0 {
          visible := visible[..|visible| - 1];
        }
        break;
      }
      i := i + 1;
    }
    hiddenCount := if |badges| >= |visible| then |badges| - |visible| else 0;
  }

  lemma {:induction false} PackedIsPrefix(badges: seq<Badge>, n: nat, layout: Layout)
    requires n <= |badges|
    ensures var p := Pack(badges, n, layout); p.start <= p.packed <= n && (!p.full ==> p.packed == n)
  {
    if n > 0 {
      PackedIsPrefix(badges, n - 1, layout);
    }
  }

  lemma {:induction false} FullStays(badges: seq<Badge>, n: nat, m: nat, layout: Layout)
    requires n <= m <= |badges| && Pack(badges, n, layout).full
    ensures Pack(badges, m, layout) == Pack(badges, n, layout)
    decreases m
  {
    if n < m {
      FullStays(badges, n, m - 1, layout);
    }
  }

  // ----- all the ways to fill lines in order -----

  /** The width of the badges from `a` up to `b`. */
  function Width(badges: seq<Badge>, a: nat, b: nat, layout: Layout): real
    requires a <= b <= |badges|
    decreases b
  {
    if a == b then 0.0 else Width(badges, a, b - 1, layout) + Padded(badges[b - 1], layout)
  }

  predicate LineFits(badges: seq<Badge>, a: nat, b: nat, layout: Layout)
    requires a <= b <= |badges|
  {
    a == b || Width(badges, a, b, layout) <= layout.containerWidth
  }

  /** Cuts that put the first badges, in order, on lines: line `i` holds the badges from cut `i` up to cut `i + 1`. */
  predicate Cuts(badges: seq<Badge>, cuts: seq<nat>, layout: Layout) {
    && cuts != [] && cuts[0] == 0
    && (forall i :: 0 <= i < |cuts| ==> cuts[i] <= |badges|)
    && (forall i :: 0 < i < |cuts| ==> cuts[i - 1] <= cuts[i] && LineFits(badges, cuts[i - 1], cuts[i], layout))
  }

  /** Whether some split puts the first `n` badges on that many lines. */
  ghost predicate CanHold(badges: seq<Badge>, n: nat, lines: nat, layout: Layout) {
    exists cuts :: Cuts(badges, cuts, layout) && |cuts| == lines + 1 && cuts[lines] == n
  }

  ghost predicate IsLongest(badges: seq<Badge>, n: nat, lines: nat, layout: Layout) {
    CanHold(badges, n, lines, layout) && forall m: nat :: CanHold(badges, m, lines, layout) ==> m <= n
  }

  /** No badge has a negative width. */
  predicate Measured(badges: seq<Badge>, layout: Layout) {
    forall i :: 0 <= i < |badges| ==> Padded(badges[i], layout) >= 0.0
  }

  function Lines(layout: Layout): nat {
    if layout.lineCount >= 1 then layout.lineCount else 1
  }

  lemma {:induction false} WidthSplits(badges: seq<Badge>, a: nat, b: nat, c: nat, layout: Layout)
    requires a <= b <= c <= |badges|
    ensures Width(badges, a, c, layout) == Width(badges, a, b, layout) + Width(badges, b, c, layout)
    decreases c
  {
    if b < c {
      WidthSplits(badges, a, b, c - 1, layout);
    }
  }

  function BareWidth(badges: seq<Badge>, a: nat, b: nat): real
    requires a <= b <= |badges|
    decreases b
  {
    if a == b then 0.0 else BareWidth(badges, a, b - 1) + badges[b - 1].width
  }

  /** A line is as wide as its badges, each with a gap. */
  lemma {:induction false} WidthIsBadgesAndGaps(badges: seq<Badge>, a: nat, b: nat, layout: Layout)
    requires a <= b <= |badges|
    ensures Width(badges, a, b, layout) == BareWidth(badges, a, b) + (b - a) as real * layout.badgeGap
    decreases b
  {
    if a < b {
      WidthIsBadgesAndGaps(badges, a, b - 1, layout);
      OneMoreGap((b - a) as real, layout.badgeGap);
    }
  }

  lemma OneMoreGap(n: real, gap: real)
    ensures n * gap == (n - 1.0) * gap + gap
  {
  }

  lemma {:induction false} WidthIsPositive(badges: seq<Badge>, a: nat, b: nat, layout: Layout)
    requires a <= b <= |badges| && Measured(badges, layout)
    ensures Width(badges, a, b, layout) >= 0.0
    decreases b
  {
    if a < b {
      WidthIsPositive(badges, a, b - 1, layout);
    }
  }

  /** A part of a line is no wider than the line. */
  lemma PartOfLine(badges: seq<Badge>, a: nat, b: nat, c: nat, d: nat, layout: Layout)
    requires a <= b <= c <= d <= |badges| && Measured(badges, layout)
    ensures Width(badges, b, c, layout) <= Width(badges, a, d, layout)
  {
    WidthSplits(badges, a, b, d, layout);
    WidthSplits(badges, b, c, d, layout);
    WidthIsPositive(badges, a, b, layout);
    WidthIsPositive(badges, c, d, layout);
  }

  lemma HoldNothing(badges: seq<Badge>, lines: nat, layout: Layout)
    ensures CanHold(badges, 0, lines, layout)
  {
    var cuts := seq(lines + 1, i => 0);
    assert Cuts(badges, cuts, layout) && cuts[lines] == 0;
  }

  lemma AddLine(badges: seq<Badge>, n: nat, m: nat, lines: nat, layout: Layout)
    requires n <= m <= |badges| && CanHold(badges, n, lines, layout) && LineFits(badges, n, m, layout)
    ensures CanHold(badges, m, lines + 1, layout)
  {
    var cuts :| Cuts(badges, cuts, layout) && |cuts| == lines + 1 && cuts[lines] == n;
    var more := cuts + [m];
    assert Cuts(badges, more, layout) && more[lines + 1] == m;
  }

  lemma DropLine(badges: seq<Badge>, m: nat, lines: nat, layout: Layout) returns (n: nat)
    requires lines > 0 && CanHold(badges, m, lines, layout)
    ensures n <= m <= |badges| && CanHold(badges, n, lines - 1, layout) && LineFits(badges, n, m, layout)
  {
    var cuts :| Cuts(badges, cuts, layout) && |cuts| == lines + 1 && cuts[lines] == m;
    n := cuts[lines - 1];
    var less := cuts[..lines];
    assert Cuts(badges, less, layout) && less[lines - 1] == n;
  }

  lemma {:induction false} HoldFewer(badges: seq<Badge>, m: nat, n: nat, lines: nat, layout: Layout)
    requires n <= m && Measured(badges, layout) && CanHold(badges, m, lines, layout)
    ensures CanHold(badges, n, lines, layout)
  {
    if lines == 0 || n == 0 {
      HoldNothing(badges, lines, layout);
    } else {
      var c := DropLine(badges, m, lines, layout);
      if c <= n {
        PartOfLine(badges, c, c, n, m, layout);
        AddLine(badges, c, n, lines - 1, layout);
      } else {
        HoldFewer(badges, c, n, lines - 1, layout);
        AddLine(badges, n, n, lines - 1, layout);
      }
    }
  }

  lemma HeldCount(badges: seq<Badge>, n: nat, lines: nat, layout: Layout)
    requires CanHold(badges, n, lines, layout)
    ensures n <= |badges|
  {
  }

  lemma {:induction false} HoldOnMore(badges: seq<Badge>, n: nat, lines: nat, more: nat, layout: Layout)
    requires lines <= more && CanHold(badges, n, lines, layout)
    ensures CanHold(badges, n, more, layout)
    decreases more
  {
    if lines < more {
      HoldOnMore(badges, n, lines, more - 1, layout);
      HeldCount(badges, n, more - 1, layout);
      AddLine(badges, n, n, more - 1, layout);
    }
  }

  lemma {:induction false} HeldBadgesFit(badges: seq<Badge>, n: nat, lines: nat, k: nat, layout: Layout)
    requires Measured(badges, layout) && CanHold(badges, n, lines, layout) && k < n
    ensures k < |badges| && Padded(badges[k], layout) <= layout.containerWidth
  {
    if lines > 0 {
      var c := DropLine(badges, n, lines, layout);
      if k < c {
        HeldBadgesFit(badges, c, lines - 1, k, layout);
      } else {
        PartOfLine(badges, c, k, k + 1, n, layout);
      }
    }
  }

  // ----- the greedy packing is the best one -----

  predicate AllFit(badges: seq<Badge>, n: nat, layout: Layout)
    requires n <= |badges|
  {
    forall i :: 0 <= i < n ==> Padded(badges[i], layout) <= layout.containerWidth
  }

  /** The lines so far are within width, and on one line fewer no split gets beyond the start of the current one. */
  ghost predicate StaysAhead(badges: seq<Badge>, p: Packing, layout: Layout) {
    && 1 <= p.line <= Lines(layout) && p.start <= p.packed <= |badges|
    && p.width == Width(badges, p.start, p.packed, layout)
    && LineFits(badges, p.start, p.packed, layout)
    && (p.start == p.packed ==> p.packed == 0 && p.line == 1)
    && IsLongest(badges, p.start, p.line - 1, layout)
  }

  lemma LineBreaks(badges: seq<Badge>, p: Packing, layout: Layout)
    requires Measured(badges, layout) && StaysAhead(badges, p, layout) && p.packed < |badges|
    requires p.width + Padded(badges[p.packed], layout) > layout.containerWidth
    ensures IsLongest(badges, p.packed, p.line, layout)
  {
    AddLine(badges, p.start, p.packed, p.line - 1, layout);
    forall m: nat | CanHold(badges, m, p.line, layout) ensures m <= p.packed {
      if m > p.packed {
        var c := DropLine(badges, m, p.line, layout);
        PartOfLine(badges, c, p.start, p.packed + 1, m, layout);
      }
    }
  }

  lemma NextStaysAhead(badges: seq<Badge>, p: Packing, layout: Layout)
    requires Measured(badges, layout) && StaysAhead(badges, p, layout) && !p.full
    requires p.packed < |badges| && Padded(badges[p.packed], layout) <= layout.containerWidth
    ensures var next := PackNext(p, badges[p.packed], layout);
      StaysAhead(badges, next, layout) && (next.full ==> IsLongest(badges, p.packed, Lines(layout), layout))
  {
    if p.width + Padded(badges[p.packed], layout) > layout.containerWidth {
      LineBreaks(badges, p, layout);
      assert Width(badges, p.packed, p.packed, layout) == 0.0;
    }
  }

  lemma {:induction false} GreedyStaysAhead(badges: seq<Badge>, n: nat, layout: Layout)
    requires n <= |badges| && Measured(badges, layout) && AllFit(badges, n, layout)
    ensures var p := Pack(badges, n, layout);
      StaysAhead(badges, p, layout) && (p.full ==> p.packed < n && IsLongest(badges, p.packed, Lines(layout), layout))
  {
    if n == 0 {
      HoldNothing(badges, 0, layout);
    } else {
      GreedyStaysAhead(badges, n - 1, layout);
      PackedIsPrefix(badges, n - 1, layout);
      if !Pack(badges, n - 1, layout).full {
        NextStaysAhead(badges, Pack(badges, n - 1, layout), layout);
      }
    }
  }

  /** Every badge fits a line: what is packed before the last badge makes way is all that any split could hold. */
  lemma GreedyIsMaximal(badges: seq<Badge>, layout: Layout)
    requires Measured(badges, layout) && AllFit(badges, |badges|, layout)
    ensures IsLongest(badges, Pack(badges, |badges|, layout).packed, Lines(layout), layout)
  {
    GreedyStaysAhead(badges, |badges|, layout);
    PackedIsPrefix(badges, |badges|, layout);
    var p := Pack(badges, |badges|, layout);
    if !p.full {
      AddLine(badges, p.start, p.packed, p.line - 1, layout);
      HoldOnMore(badges, p.packed, p.line, Lines(layout), layout);
    }
  }

  /** Whether a badge wider than a line comes up while a line is still free for it: it is then shown on that line. */
  ghost predicate TooWideIsShown(badges: seq<Badge>, k: nat, layout: Layout)
    requires k < |badges|
  {
    && AllFit(badges, k, layout) && Padded(badges[k], layout) > layout.containerWidth
    && layout.lineCount >= 2 && CanHold(badges, k, layout.lineCount - 1, layout)
  }

  lemma TooWideIsPacked(badges: seq<Badge>, k: nat, layout: Layout)
    requires Measured(badges, layout) && k < |badges| && TooWideIsShown(badges, k, layout)
    ensures Pack(badges, k + 1, layout).packed == k + 1
  {
    GreedyStaysAhead(badges, k, layout);
    PackedIsPrefix(badges, k, layout);
    var p := Pack(badges, k, layout);
    HoldOnMore(badges, k, layout.lineCount - 1, Lines(layout), layout);
    assert !p.full;
    if p.line == layout.lineCount {
      assert false;
    }
    WidthIsPositive(badges, p.start, p.packed, layout);
  }

  lemma {:induction false} PackingGrows(badges: seq<Badge>, n: nat, m: nat, layout: Layout)
    requires n <= m <= |badges|
    ensures Pack(badges, n, layout).packed <= Pack(badges, m, layout).packed
    decreases m
  {
    if n < m {
      PackingGrows(badges, n, m - 1, layout);
    }
  }

  lemma FirstTooWide(badges: seq<Badge>, layout: Layout) returns (k: nat)
    requires !AllFit(badges, |badges|, layout)
    ensures k < |badges| && AllFit(badges, k, layout) && Padded(badges[k], layout) > layout.containerWidth
  {
    k := 0;
    while Padded(badges[k], layout) <= layout.containerWidth
      invariant k < |badges| && AllFit(badges, k, layout)
      decreases |badges| - k
    {
      k := k + 1;
    }
  }

  /** For any badges: the packing is the longest possible exactly if no too wide badge gets a line of its own. */
  lemma MaximalIff(badges: seq<Badge>, layout: Layout)
    requires Measured(badges, layout)
    ensures IsLongest(badges, Pack(badges, |badges|, layout).packed, Lines(layout), layout)
      <==> forall k :: 0 <= k < |badges| ==> !TooWideIsShown(badges, k, layout)
  {
    var packed := Pack(badges, |badges|, layout).packed;
    forall k | 0 <= k < |badges| && TooWideIsShown(badges, k, layout)
      ensures !IsLongest(badges, packed, Lines(layout), layout)
    {
      TooWideIsPacked(badges, k, layout);
      PackingGrows(badges, k + 1, |badges|, layout);
      if CanHold(badges, packed, Lines(layout), layout) {
        HeldBadgesFit(badges, packed, Lines(layout), k, layout);
      }
    }
    if AllFit(badges, |badges|, layout) {
      GreedyIsMaximal(badges, layout);
    } else {
      var k := FirstTooWide(badges, layout);
      if !TooWideIsShown(badges, k, layout) {
        TooWideStops(badges, k, layout);
      }
    }
  }

  lemma TooWideStops(badges: seq<Badge>, k: nat, layout: Layout)
    requires Measured(badges, layout) && k < |badges| && AllFit(badges, k, layout)
    requires Padded(badges[k], layout) > layout.containerWidth && !TooWideIsShown(badges, k, layout)
    ensures IsLongest(badges, Pack(badges, |badges|, layout).packed, Lines(layout), layout)
  {
    GreedyStaysAhead(badges, k, layout);
    PackedIsPrefix(badges, k, layout);
    var p := Pack(badges, k, layout);
    if !p.full {
      WidthIsPositive(badges, p.start, p.packed, layout);
      if p.line < layout.lineCount {
        AddLine(badges, p.start, p.packed, p.line - 1, layout);
        HoldOnMore(badges, k, p.line, layout.lineCount - 1, layout);
        assert false;
      }
      LineBreaks(badges, p, layout);
    }
    FullStays(badges, k + 1, |badges|, layout);
  }

  lemma {:induction false} PackedWidth(badges: seq<Badge>, n: nat, layout: Layout)
    requires n <= |badges|
    ensures var p := Pack(badges, n, layout);
      p.start <= p.packed <= n && p.width == Width(badges, p.start, p.packed, layout)
  {
    if n > 0 {
      PackedIsPrefix(badges, n - 1, layout);
      PackedWidth(badges, n - 1, layout);
      var p := Pack(badges, n - 1, layout);
      assert Width(badges, p.packed, p.packed, layout) == 0.0;
    }
  }

  /**
   When a badge makes way: some badges are hidden, there is one to take away, and the last line has no room for the
   overflow badge. So that line holds the overflow badge whenever none had to go.
   */
  lemma MakesWayIff(badges: seq<Badge>, layout: Layout)
    requires layout.containerWidth != 0.0 && badges != []
    ensures var p := Pack(badges, |badges|, layout);
      && p.start <= p.packed <= |badges|
      && (Shown(badges, layout) == p.packed || Shown(badges, layout) == p.packed - 1)
      && (Shown(badges, layout) == p.packed - 1 <==>
        && 0 < p.packed < |badges|
        && Width(badges, p.start, p.packed, layout) + layout.overflowBadgeWidth > layout.containerWidth)
  {
    PackedIsPrefix(badges, |badges|, layout);
    PackedWidth(badges, |badges|, layout);
    FullIsShort(badges, |badges|, layout);
  }

  /** Nothing is hidden while the width is unknown, or when there is nothing to show. */
  lemma UnmeasuredShowsAll(badges: seq<Badge>, layout: Layout)
    requires layout.containerWidth == 0.0 || badges == []
    ensures Shown(badges, layout) == |badges|
  {
  }

  /** At most one badge makes way, and only when some are hidden anyway. */
  lemma PopRemovesOne(badges: seq<Badge>, layout: Layout)
    requires layout.containerWidth != 0.0 && badges != []
    ensures var packed := Pack(badges, |badges|, layout).packed;
      && packed - 1 <= Shown(badges, layout) <= packed
      && (Shown(badges, layout) == |badges| <==> packed == |badges|)
      && (Shown(badges, layout) < packed ==> packed < |badges|)
  {
    PackedIsPrefix(badges, |badges|, layout);
    FullIsShort(badges, |badges|, layout);
  }

  lemma {:induction false} FullIsShort(badges: seq<Badge>, n: nat, layout: Layout)
    requires n <= |badges|
    ensures Pack(badges, n, layout).full ==> Pack(badges, n, layout).packed < n
  {
    if n > 0 {
      PackedIsPrefix(badges, n - 1, layout);
      FullIsShort(badges, n - 1, layout);
    }
  }
}
