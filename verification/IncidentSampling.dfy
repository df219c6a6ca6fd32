/**
 Weighted sampling of tickets without replacement.

 Each round draws a threshold between 0 and the pool's total score and takes the first ticket at which
 the running sum of scores reaches it. Scores are real numbers; `draw(k, total)` is round `k`'s threshold,
 any number between 0 and the total.
 */
module IncidentSampling {
  import opened Apportionment

  datatype Ticket = Ticket(id: nat, score: real)

  function ScoresOf(pool: seq<Ticket>): seq<real> {
    seq(|pool|, i requires 0 <= i < |pool| => pool[i].score)
  }

  /** `splice(i, 1)`; an index beyond the end removes nothing. */
  function Without<T>(s: seq<T>, i: nat): seq<T> {
    if i < |s| then s[..i] + s[i + 1..] else s
  }

  lemma RemoveOne<T>(s: seq<T>, i: nat)
    requires i < |s|
    ensures multiset(Without(s, i)) + multiset([s[i]]) == multiset(s)
  {
    assert s == s[..i] + ([s[i]] + s[i + 1..]);
  }

  /** The interval of thresholds that picks index `i`: its share of the running sum. */
  predicate Picks(scores: seq<real>, threshold: real, i: nat)
    requires i < |scores|
  {
    (i == 0 || Sum(scores, i) < threshold) && threshold <= Sum(scores, i + 1)
  }

  /** The source's inner loop; index 0 is its default. */
  method PickIndex(scores: seq<real>, threshold: real) returns (selected: nat, ghost found: bool)
    requires scores != [] && Positive(scores)
    ensures selected < |scores|
    ensures found <==> threshold <= Sum(scores, |scores|)
    ensures found ==> Picks(scores, threshold, selected)
    ensures !found ==> selected == 0
  {
    selected, found := 0, false;
    var rest := threshold;
    for index := 0 to |scores|
      invariant rest == threshold - Sum(scores, index)
      invariant !found && selected == 0
      invariant index == 0 || Sum(scores, index) < threshold
    {
      rest := rest - scores[index];
      if rest <= 0.0 {
        selected, found := index, true;
        SumGrows(scores, index + 1, |scores|);
        return;
      }
    }
  }

  lemma {:induction false} SumGrows(scores: seq<real>, i: nat, n: nat)
    requires Positive(scores) && i <= n <= |scores|
    ensures Sum(scores, i) <= Sum(scores, n)
    ensures i < n ==> Sum(scores, i) < Sum(scores, n)
    decreases n - i
  {
    if i < n {
      SumGrows(scores, i, n - 1);
    }
  }

  /**
   Every threshold in `0..total` picks exactly one index, and the thresholds picking index `i` form an
   interval as long as its score: that is what makes the sampling weighted.
   */
  lemma EveryThresholdPicksOne(scores: seq<real>, threshold: real)
    requires scores != [] && Positive(scores) && 0.0 <= threshold <= Sum(scores, |scores|)
    ensures exists i :: 0 <= i < |scores| && Picks(scores, threshold, i)
    ensures forall i, j ::
      0 <= i < |scores| && 0 <= j < |scores| && Picks(scores, threshold, i) && Picks(scores, threshold, j) ==> i == j
    ensures forall i :: 0 <= i < |scores| ==> Sum(scores, i + 1) - Sum(scores, i) == scores[i]
  {
    var i := FirstReaching(scores, threshold, |scores|);
    assert Picks(scores, threshold, i);
    forall i, j | 0 <= i < |scores| && 0 <= j < |scores| && Picks(scores, threshold, i) && Picks(scores, threshold, j)
      ensures i == j
    {
      if i < j {
        SumGrows(scores, i + 1, j);
      } else if j < i {
        SumGrows(scores, j + 1, i);
      }
    }
  }

  lemma {:induction false} FirstReaching(scores: seq<real>, threshold: real, n: nat) returns (i: nat)
    requires 0 < n <= |scores| && threshold <= Sum(scores, n)
    ensures i < n && Picks(scores, threshold, i)
  {
    if n > 1 && threshold <= Sum(scores, n - 1) {
      i := FirstReaching(scores, threshold, n - 1);
    } else {
      i := n - 1;
    }
  }

  /** What the scores of the first `n` tickets add up to. */
  function ScoreSum(pool: seq<Ticket>, n: nat): real
    requires n <= |pool|
  {
    if n == 0 then 0.0 else ScoreSum(pool, n - 1) + pool[n - 1].score
  }

  lemma {:induction false} SumOfScores(pool: seq<Ticket>, n: nat)
    requires n <= |pool|
    ensures Sum(ScoresOf(pool), n) == ScoreSum(pool, n)
  {
    if n > 0 {
      SumOfScores(pool, n - 1);
    }
  }

  /** A round by the tickets themselves: it takes the one at whose score the running sum reaches the threshold. */
  lemma RoundByScores(tickets: seq<Ticket>, draw: Draws, indices: seq<nat>, selected: seq<Ticket>, k: nat)
    requires k < |indices| == |selected| && RoundPicks(tickets, draw, indices, selected, k)
    ensures var pool, i := PoolAfter(tickets, indices, k), indices[k];
      && i < |pool| && selected[k] == pool[i]
      && var threshold := draw(k, ScoreSum(pool, |pool|));
        (i == 0 || ScoreSum(pool, i) < threshold) && threshold <= ScoreSum(pool, i + 1)
  {
    var pool := PoolAfter(tickets, indices, k);
    SumOfScores(pool, |pool|);
    SumOfScores(pool, indices[k]);
    SumOfScores(pool, indices[k] + 1);
  }

  type Draws = (nat, real) -> real

  predicate InRange(draw: Draws, round: nat, total: real) {
    total >= 0.0 ==> 0.0 <= draw(round, total) <= total
  }

  /** The pool after `n` rounds that picked the listed indices. */
  function PoolAfter(tickets: seq<Ticket>, indices: seq<nat>, n: nat): seq<Ticket>
    requires n <= |indices|
  {
    if n == 0 then tickets else Without(PoolAfter(tickets, indices, n - 1), indices[n - 1])
  }

  /** Round `k` took the ticket that its threshold picks from the pool it found. */
  predicate RoundPicks(tickets: seq<Ticket>, draw: Draws, indices: seq<nat>, selected: seq<Ticket>, k: nat)
    requires k < |indices| == |selected|
  {
    var pool := PoolAfter(tickets, indices, k);
    && indices[k] < |pool| && selected[k] == pool[indices[k]]
    && Picks(ScoresOf(pool), draw(k, Sum(ScoresOf(pool), |pool|)), indices[k])
  }

  predicate IsRun(tickets: seq<Ticket>, draw: Draws, indices: seq<nat>, selected: seq<Ticket>) {
    |indices| == |selected| && forall k :: 0 <= k < |indices| ==> RoundPicks(tickets, draw, indices, selected, k)
  }

  lemma {:induction false} PoolPrefix(tickets: seq<Ticket>, indices: seq<nat>, i: nat, n: nat)
    requires n <= |indices|
    ensures PoolAfter(tickets, indices + [i], n) == PoolAfter(tickets, indices, n)
  {
    if n > 0 {
      PoolPrefix(tickets, indices, i, n - 1);
    }
  }

  lemma RunExtends(tickets: seq<Ticket>, draw: Draws, indices: seq<nat>, selected: seq<Ticket>, i: nat)
    requires IsRun(tickets, draw, indices, selected)
    requires var pool := PoolAfter(tickets, indices, |indices|);
      i < |pool| && Picks(ScoresOf(pool), draw(|indices|, Sum(ScoresOf(pool), |pool|)), i)
    ensures var pool := PoolAfter(tickets, indices, |indices|);
      && IsRun(tickets, draw, indices + [i], selected + [pool[i]])
      && PoolAfter(tickets, indices + [i], |indices| + 1) == Without(pool, i)
  {
    var pool := PoolAfter(tickets, indices, |indices|);
    forall k | 0 <= k <= |indices|
      ensures RoundPicks(tickets, draw, indices + [i], selected + [pool[i]], k)
    {
      PoolPrefix(tickets, indices, i, k);
      if k < |indices| {
        assert RoundPicks(tickets, draw, indices, selected, k);
      }
    }
    PoolPrefix(tickets, indices, i, |indices|);
  }

  lemma WithoutKeepsPositive(pool: seq<Ticket>, i: nat)
    requires Positive(ScoresOf(pool)) && i < |pool|
    ensures Positive(ScoresOf(Without(pool, i)))
  {
    forall k | 0 <= k < |pool| - 1
      ensures ScoresOf(Without(pool, i))[k] > 0.0
    {
      assert ScoresOf(pool)[if k < i then k else k + 1] > 0.0;
    }
  }

  /** One round's choice: with positive scores and a threshold in range the default is never used by falling through. */
  method DrawIndex(pool: seq<Ticket>, draw: Draws, round: nat) returns (index: nat)
    requires pool != [] && Positive(ScoresOf(pool))
    requires InRange(draw, round, Sum(ScoresOf(pool), |pool|))
    ensures index < |pool| && Picks(ScoresOf(pool), draw(round, Sum(ScoresOf(pool), |pool|)), index)
  {
    var scores := ScoresOf(pool);
    var total := SumScores(scores);
    SumPositive(scores, |scores|);
    ghost var found;
    index, found := PickIndex(scores, draw(round, total));
  }

  /**
   Draws `count` tickets, or all of them. Every ticket ends up either selected or left in the pool, once.
   */
  method SelectTicketsWithoutReplacement(tickets: seq<Ticket>, count: int, draw: Draws)
    returns (selected: seq<Ticket>, ghost indices: seq<nat>)
    requires Positive(ScoresOf(tickets))
    requires forall k, total :: InRange(draw, k, total)
    ensures IsRun(tickets, draw, indices, selected)
    ensures multiset(selected) + multiset(PoolAfter(tickets, indices, |indices|)) == multiset(tickets)
    ensures |selected| == if count <= 0 then 0 else if count < |tickets| then count else |tickets|
  {
    var pool := tickets;
    selected, indices := [], [];
    while |pool| > 0 && |selected| < count
      invariant Positive(ScoresOf(pool))
      invariant IsRun(tickets, draw, indices, selected) && pool == PoolAfter(tickets, indices, |indices|)
      invariant multiset(selected) + multiset(pool) == multiset(tickets)
      invariant |selected| + |pool| == |tickets|
      invariant |selected| <= count || selected == []
      decreases |pool|
    {
      var index := DrawIndex(pool, draw, |selected|);
      RunExtends(tickets, draw, indices, selected, index);
      WithoutKeepsPositive(pool, index);
      RemoveOne(pool, index);
      var picked := pool[index];
      pool := Without(pool, index);
      selected := selected + [picked];
      indices := indices + [index];
    }
  }

  method SumScores(scores: seq<real>) returns (sum: real)
    ensures sum == Sum(scores, |scores|)
  {
    sum := 0.0;
    for i := 0 to |scores|
      invariant sum == Sum(scores, i)
    {
      sum := sum + scores[i];
    }
  }
}
