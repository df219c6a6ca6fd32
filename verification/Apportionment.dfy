/**
 Dividing a total among scored profiles by largest remainder.

 Bank transactions and flight tickets are both handed out this way: everybody gets the whole part of
 the exact share, and the rest goes, one each, to the largest fractions. Scores are real numbers here.
 */
module Apportionment {

  function Sum(xs: seq<real>, n: nat): real
    requires n <= |xs|
  {
    if n == 0 then 0.0 else Sum(xs, n - 1) + xs[n - 1]
  }

  function Total(counts: seq<int>, n: nat): int
    requires n <= |counts|
  {
    if n == 0 then 0 else Total(counts, n - 1) + counts[n - 1]
  }

  predicate Positive(scores: seq<real>) {
    forall i :: 0 <= i < |scores| ==> scores[i] > 0.0
  }

  lemma {:induction false} SumPositive(scores: seq<real>, n: nat)
    requires Positive(scores) && n <= |scores|
    ensures Sum(scores, n) >= 0.0 && (n > 0 ==> Sum(scores, n) > 0.0)
  {
    if n > 0 {
      SumPositive(scores, n - 1);
    }
  }

  /** The exact share of profile `i`. */
  function Share(scores: seq<real>, total: int, i: nat): real
    requires i < |scores| && Positive(scores)
  {
    SumPositive(scores, |scores|);
    total as real * scores[i] / Sum(scores, |scores|)
  }

  function Shares(scores: seq<real>, total: int): seq<real>
    requires Positive(scores)
  {
    seq(|scores|, i requires 0 <= i < |scores| => Share(scores, total, i))
  }

  function Floors(shares: seq<real>): seq<int> {
    seq(|shares|, i requires 0 <= i < |shares| => shares[i].Floor)
  }

  // ----- what a fair division is -----

  /** Each count is the whole part of its share, or one more. */
  predicate FloorOrNext(shares: seq<real>, counts: seq<int>) {
    |counts| == |shares| &&
    forall i :: 0 <= i < |shares| ==> shares[i].Floor <= counts[i] <= shares[i].Floor + 1
  }

  predicate Bumped(shares: seq<real>, counts: seq<int>, i: nat)
    requires |counts| == |shares| && i < |shares|
  {
    counts[i] == shares[i].Floor + 1
  }

  function Fraction(shares: seq<real>, i: nat): real
    requires i < |shares|
  {
    shares[i] - shares[i].Floor as real
  }

  /** Larger fractions come first, and among equal ones the earlier index. */
  predicate Before(shares: seq<real>, i: nat, j: nat)
    requires i < |shares| && j < |shares|
  {
    Fraction(shares, i) > Fraction(shares, j) || (Fraction(shares, i) == Fraction(shares, j) && i <= j)
  }

  /** Whoever got one more comes before everybody who did not. */
  predicate LargestRemainder(shares: seq<real>, counts: seq<int>)
    requires |counts| == |shares|
  {
    forall i, j :: 0 <= i < |shares| && 0 <= j < |shares| && Bumped(shares, counts, i) && !Bumped(shares, counts, j)
      ==> Before(shares, i, j)
  }

  predicate Fair(shares: seq<real>, total: int, counts: seq<int>) {
    FloorOrNext(shares, counts) && LargestRemainder(shares, counts) && Total(counts, |counts|) == total
  }

  // ----- sums -----

  lemma {:induction false} ScaledSum(scores: seq<real>, shares: seq<real>, rate: real, n: nat)
    requires |scores| == |shares| && n <= |scores|
    requires forall i :: 0 <= i < |scores| ==> shares[i] == rate * scores[i]
    ensures Sum(shares, n) == rate * Sum(scores, n)
  {
    if n > 0 {
      ScaledSum(scores, shares, rate, n - 1);
      Distribute(rate, Sum(scores, n - 1), scores[n - 1]);
    }
  }

  lemma Distribute(rate: real, a: real, b: real)
    ensures rate * (a + b) == rate * a + rate * b
  {
  }

  lemma RateOf(t: real, x: real, d: real)
    requires d > 0.0
    ensures t * x / d == (t / d) * x
    ensures (t / d) * d == t
    ensures t > 0.0 ==> t / d > 0.0
    ensures t == 0.0 ==> t / d == 0.0
  {
  }

  /** Every share is the same multiple of its score. */
  lemma SharesAreScaled(scores: seq<real>, total: int) returns (rate: real)
    requires Positive(scores) && scores != []
    ensures forall i :: 0 <= i < |scores| ==> Shares(scores, total)[i] == rate * scores[i]
    ensures rate * Sum(scores, |scores|) == total as real
    ensures total > 0 ==> rate > 0.0
    ensures total == 0 ==> rate == 0.0
  {
    var d := Sum(scores, |scores|);
    SumPositive(scores, |scores|);
    rate := total as real / d;
    RateOf(total as real, d, d);
    forall i | 0 <= i < |scores|
      ensures Share(scores, total, i) == rate * scores[i]
    {
      RateOf(total as real, scores[i], d);
    }
  }

  /** The shares add up to the total. */
  lemma SharesSumToTotal(scores: seq<real>, total: int)
    requires Positive(scores) && scores != []
    ensures Sum(Shares(scores, total), |scores|) == total as real
  {
    var rate := SharesAreScaled(scores, total);
    ScaledSum(scores, Shares(scores, total), rate, |scores|);
  }

  /** Whole parts add up to at most the sum, and less than one per profile is missing. */
  lemma {:induction false} FloorsSum(shares: seq<real>, n: nat)
    requires n <= |shares|
    ensures Total(Floors(shares), n) as real <= Sum(shares, n)
    ensures n > 0 ==> Sum(shares, n) < (Total(Floors(shares), n) + n) as real
  {
    if n > 0 {
      FloorsSum(shares, n - 1);
    }
  }

  /** The number of bumped profiles among the first `n`. */
  function Bumps(shares: seq<real>, counts: seq<int>, n: nat): nat
    requires |counts| == |shares| && n <= |shares|
  {
    if n == 0 then 0 else Bumps(shares, counts, n - 1) + (if Bumped(shares, counts, n - 1) then 1 else 0)
  }

  lemma {:induction false} TotalIsFloorsPlusBumps(shares: seq<real>, counts: seq<int>, n: nat)
    requires FloorOrNext(shares, counts) && n <= |shares|
    ensures Total(counts, n) == Total(Floors(shares), n) + Bumps(shares, counts, n)
  {
    if n > 0 {
      TotalIsFloorsPlusBumps(shares, counts, n - 1);
    }
  }

  lemma {:induction false} AllBumped(shares: seq<real>, counts: seq<int>, n: nat)
    requires |counts| == |shares| && n <= |shares|
    ensures Bumps(shares, counts, n) <= n
    ensures Bumps(shares, counts, n) < n ==> exists i :: 0 <= i < n && !Bumped(shares, counts, i)
  {
    if n > 0 {
      AllBumped(shares, counts, n - 1);
    }
  }

  lemma {:induction false} TotalUpdate(counts: seq<int>, i: nat, n: nat)
    requires i < |counts| && n <= |counts|
    ensures Total(counts[i := counts[i] + 1], n) == Total(counts, n) + (if i < n then 1 else 0)
  {
    if n > 0 {
      TotalUpdate(counts, i, n - 1);
    }
  }

  // ----- the algorithm -----

  /** The profile the next unit goes to: the first with the largest gap between share and count. */
  method LargestGap(shares: seq<real>, counts: seq<int>) returns (best: nat)
    requires shares != [] ==> FloorOrNext(shares, counts) && exists i :: 0 <= i < |shares| && !Bumped(shares, counts, i)
    ensures shares == [] ==> best == 0
    ensures shares != [] ==> best < |shares| && !Bumped(shares, counts, best)
    ensures shares != [] ==> forall j :: 0 <= j < |shares| && !Bumped(shares, counts, j) ==> Before(shares, best, j)
  {
    best := 0;
    var bestFraction := -1.0;
    for index := 0 to |shares|
      invariant best == 0 || best < |shares|
      invariant bestFraction == -1.0 || (best < index && bestFraction == shares[best] - counts[best] as real > -1.0)
      invariant bestFraction == -1.0 ==> forall j :: 0 <= j < index ==> Bumped(shares, counts, j)
      invariant forall j :: 0 <= j < index ==> shares[j] - counts[j] as real <= bestFraction
      invariant bestFraction > -1.0 ==> forall j :: 0 <= j < best ==> shares[j] - counts[j] as real < bestFraction
    {
      var fraction := shares[index] - counts[index] as real;
      if fraction > bestFraction {
        bestFraction := fraction;
        best := index;
      }
    }
    if shares != [] {
      ghost var u :| 0 <= u < |shares| && !Bumped(shares, counts, u);
      assert shares[u] - counts[u] as real >= 0.0;
    }
  }

  /**
   Divides the total. With no profile at all the source still appends the whole total to its empty list
   of counts.
   */
  method AllocateCounts(scores: seq<real>, total: int) returns (counts: seq<int>)
    requires Positive(scores)
    ensures scores != [] ==> Fair(Shares(scores, total), total, counts)
    ensures scores == [] ==> counts == if total > 0 then [total] else []
  {
    var shares := Shares(scores, total);
    counts := Floors(shares);
    var sum := SumCounts(counts);
    var remainder := total - sum;
    if scores != [] {
      SharesSumToTotal(scores, total);
      FloorsSum(shares, |shares|);
    }
    while remainder > 0
      invariant shares == [] ==> counts == if remainder < total then [total - remainder] else []
      invariant shares == [] ==> remainder <= total && if total > 0 then remainder >= 0 else remainder == total
      invariant shares != [] ==> remainder >= 0 && Total(counts, |counts|) + remainder == total
      invariant shares != [] ==> FloorOrNext(shares, counts) && LargestRemainder(shares, counts)
    {
      if shares != [] {
        SomeoneIsNotBumped(shares, counts, total);
      }
      var best := LargestGap(shares, counts);
      if shares != [] {
        TotalUpdate(counts, best, |counts|);
        BumpKeepsOrder(shares, counts, best);
      }
      counts := if best < |counts| then counts[best := counts[best] + 1] else counts + [1];
      remainder := remainder - 1;
    }
  }

  method SumCounts(counts: seq<int>) returns (sum: int)
    ensures sum == Total(counts, |counts|)
  {
    sum := 0;
    for i := 0 to |counts|
      invariant sum == Total(counts, i)
    {
      sum := sum + counts[i];
    }
  }

  /** While something is left to hand out, somebody has not had one more yet; so nobody gets two. */
  lemma SomeoneIsNotBumped(shares: seq<real>, counts: seq<int>, total: int)
    requires shares != [] && FloorOrNext(shares, counts)
    requires Sum(shares, |shares|) == total as real && Total(counts, |counts|) < total
    ensures exists i :: 0 <= i < |shares| && !Bumped(shares, counts, i)
  {
    FloorsSum(shares, |shares|);
    TotalIsFloorsPlusBumps(shares, counts, |shares|);
    AllBumped(shares, counts, |shares|);
  }

  lemma BumpKeepsOrder(shares: seq<real>, counts: seq<int>, best: nat)
    requires FloorOrNext(shares, counts) && LargestRemainder(shares, counts)
    requires best < |shares| && !Bumped(shares, counts, best)
    requires forall j :: 0 <= j < |shares| && !Bumped(shares, counts, j) ==> Before(shares, best, j)
    ensures var counts' := counts[best := counts[best] + 1];
      FloorOrNext(shares, counts') && LargestRemainder(shares, counts')
  {
    var counts' := counts[best := counts[best] + 1];
    forall i, j | 0 <= i < |shares| && 0 <= j < |shares| && Bumped(shares, counts', i) && !Bumped(shares, counts', j)
      ensures Before(shares, i, j)
    {
      assert !Bumped(shares, counts, j);
      assert i != best ==> Bumped(shares, counts, i);
    }
  }

  // ----- consequences -----

  /** A fair count is strictly within one of the exact share. */
  lemma WithinOneOfShare(shares: seq<real>, total: int, counts: seq<int>, i: nat)
    requires Fair(shares, total, counts) && Sum(shares, |shares|) == total as real && i < |shares|
    ensures -1.0 < counts[i] as real - shares[i] < 1.0
  {
    if counts[i] as real - shares[i] >= 1.0 {
      BumpedHasFraction(shares, total, counts, i);
    }
  }

  /** One more goes only to profiles whose share is not a whole number. */
  lemma BumpedHasFraction(shares: seq<real>, total: int, counts: seq<int>, i: nat)
    requires Fair(shares, total, counts) && Sum(shares, |shares|) == total as real && i < |shares|
    ensures Bumped(shares, counts, i) ==> Fraction(shares, i) > 0.0
  {
    if Bumped(shares, counts, i) && Fraction(shares, i) <= 0.0 {
      forall j | 0 <= j < |shares|
        ensures counts[j] as real >= shares[j]
      {
        if !Bumped(shares, counts, j) {
          assert Before(shares, i, j);
        }
      }
      CountsDominate(shares, counts, |shares|, i);
      assert false;
    }
  }

  lemma {:induction false} CountsDominate(shares: seq<real>, counts: seq<int>, n: nat, i: nat)
    requires |counts| == |shares| && n <= |shares| && i < |shares|
    requires forall j :: 0 <= j < |shares| ==> counts[j] as real >= shares[j]
    requires counts[i] as real >= shares[i] + 1.0
    ensures Total(counts, n) as real >= Sum(shares, n) + (if i < n then 1.0 else 0.0)
  {
    if n > 0 {
      CountsDominate(shares, counts, n - 1, i);
    }
  }

  lemma LargerShareNeverGetsLess(shares: seq<real>, total: int, counts: seq<int>, i: nat, j: nat)
    requires Fair(shares, total, counts)
    requires i < |shares| && j < |shares| && shares[i] > shares[j]
    ensures counts[i] >= counts[j]
  {
    assert shares[i].Floor >= shares[j].Floor;
    if Bumped(shares, counts, j) && !Bumped(shares, counts, i) {
      assert Before(shares, j, i);
    }
  }

  lemma OrderedShares(shares: seq<real>, total: nat, counts: seq<int>, i: nat, j: nat)
    requires Fair(shares, total, counts) && Sum(shares, |shares|) == total as real
    requires i < |shares| && j < |shares|
    requires if total > 0 then shares[i] > shares[j] else shares[i] == shares[j] == 0.0
    ensures counts[i] >= counts[j]
  {
    if total > 0 {
      LargerShareNeverGetsLess(shares, total, counts, i, j);
    } else {
      WithinOneOfShare(shares, total, counts, i);
      WithinOneOfShare(shares, total, counts, j);
    }
  }

  /** A larger score has a larger share, unless nothing is handed out. */
  lemma ScoresOrderShares(scores: seq<real>, total: nat, i: nat, j: nat)
    requires Positive(scores) && i < |scores| && j < |scores| && scores[i] > scores[j]
    ensures var shares := Shares(scores, total);
      if total > 0 then shares[i] > shares[j] else shares[i] == shares[j] == 0.0
  {
    var rate := SharesAreScaled(scores, total);
    var shares := Shares(scores, total);
    var x, y := shares[i], shares[j];
    assert x == rate * scores[i] && y == rate * scores[j];
    if total > 0 {
      Scale(rate, scores[i], scores[j], x, y);
    } else {
      ScaleByZero(rate, scores[i], x);
      ScaleByZero(rate, scores[j], y);
    }
  }

  lemma ScaleByZero(rate: real, a: real, x: real)
    requires rate == 0.0 && x == rate * a
    ensures x == 0.0
  {
  }

  lemma Scale(rate: real, a: real, b: real, x: real, y: real)
    requires rate > 0.0 && a > b && x == rate * a && y == rate * b
    ensures x > y
  {
    assert rate * a > rate * b;
  }

  /** A larger score never gets fewer. */
  lemma LargerScoreNeverGetsLess(scores: seq<real>, total: nat, counts: seq<int>, i: nat, j: nat)
    requires Positive(scores) && Fair(Shares(scores, total), total, counts)
    requires i < |scores| && j < |scores| && scores[i] > scores[j]
    ensures counts[i] >= counts[j]
  {
    SharesSumToTotal(scores, total);
    ScoresOrderShares(scores, total, i, j);
    OrderedShares(Shares(scores, total), total, counts, i, j);
  }

  /** Of equal scores the earlier one never gets fewer, and at most one more. */
  lemma EqualScoresEarlierFirst(scores: seq<real>, total: nat, counts: seq<int>, i: nat, j: nat)
    requires Positive(scores) && Fair(Shares(scores, total), total, counts)
    requires i < j < |scores| && scores[i] == scores[j]
    ensures counts[j] <= counts[i] <= counts[j] + 1
  {
    var shares := Shares(scores, total);
    var rate := SharesAreScaled(scores, total);
    assert shares[i] == rate * scores[i] && shares[j] == rate * scores[j];
    assert !Before(shares, j, i);
    assert Bumped(shares, counts, j) ==> Bumped(shares, counts, i);
  }

  /** A fair division is unique, so the source's two copies of the algorithm cannot differ. */
  lemma FairIsUnique(shares: seq<real>, total: int, counts: seq<int>, counts': seq<int>)
    requires Fair(shares, total, counts) && Fair(shares, total, counts')
    ensures counts == counts'
  {
    if i :| 0 <= i < |shares| && counts[i] != counts'[i] {
      if counts[i] > counts'[i] {
        MoreBumpsMoreTotal(shares, counts, counts', i);
      } else {
        MoreBumpsMoreTotal(shares, counts', counts, i);
      }
      assert false;
    }
  }

  lemma MoreBumpsMoreTotal(shares: seq<real>, more: seq<int>, less: seq<int>, i: nat)
    requires FloorOrNext(shares, more) && LargestRemainder(shares, more)
    requires FloorOrNext(shares, less) && LargestRemainder(shares, less)
    requires i < |shares| && more[i] > less[i]
    ensures Total(more, |more|) > Total(less, |less|)
  {
    forall j | 0 <= j < |shares|
      ensures more[j] >= less[j]
    {
      if more[j] < less[j] {
        BumpsDoNotCross(shares, more, less, i, j);
      }
    }
    TotalsDominate(more, less, |more|, i);
  }

  /** Two divisions by largest remainder cannot each bump a profile that the other passes over. */
  lemma BumpsDoNotCross(shares: seq<real>, more: seq<int>, less: seq<int>, i: nat, j: nat)
    requires |more| == |less| == |shares| && i < |shares| && j < |shares|
    requires LargestRemainder(shares, more) && LargestRemainder(shares, less)
    requires Bumped(shares, more, i) && !Bumped(shares, less, i)
    ensures !(Bumped(shares, less, j) && !Bumped(shares, more, j))
  {
    assert Bumped(shares, less, j) ==> Before(shares, j, i);
  }

  lemma {:induction false} TotalsDominate(more: seq<int>, less: seq<int>, n: nat, i: nat)
    requires |more| == |less| && n <= |more| && i < |more|
    requires more[i] > less[i] && forall j :: 0 <= j < |more| ==> more[j] >= less[j]
    ensures Total(more, n) >= Total(less, n) + (if i < n then 1 else 0)
  {
    if n > 0 {
      TotalsDominate(more, less, n - 1, i);
    }
  }
}
