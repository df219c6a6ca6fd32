/**
 The hybrid search's merge of two result lists, a vector search's and a text search's.

 With reranking, a row scores the sum of the reciprocal ranks it has in the lists, and the rows are sorted by score;
 without, the lists are interleaved and each id is kept once. Scores are reals. A dictionary is a map together
 with the order in which its keys came in.
 */
module RankFusion {
  import opened Options

  /** A row as a dictionary: `id` is None when it has no such column. */
  datatype Row = Row(id: Option<int>, columns: string)

  /** A row in one of the lists, and what its rank gives it. */
  datatype Hit = Hit(row: Row, gain: Option<real>)

  type Gain = nat -> Option<real>

  /** What a rank gives: the reciprocal rank, or None when the division fails. */
  function Rrf(k: int): Gain {
    (rank: nat) => if k + rank == 0 then None else Some(1.0 / (k + rank) as real)
  }

  function Ranked(rows: seq<Row>, gain: Gain): seq<Hit> {
    seq(|rows|, i requires 0 <= i < |rows| => Hit(rows[i], gain(i)))
  }

  /** Both lists as the merge goes through them. */
  function Hits(vecRows: seq<Row>, ftsRows: seq<Row>, gain: Gain): (hits: seq<Hit>)
    ensures |hits| == |vecRows| + |ftsRows|
  {
    Ranked(vecRows, gain) + Ranked(ftsRows, gain)
  }

  /** `rows[:limit]`, which leaves out the last rows when the limit is negative. */
  function Take<T>(rows: seq<T>, limit: int): seq<T> {
    if limit >= |rows| then rows
    else if limit >= 0 then rows[..limit]
    else if |rows| + limit >= 0 then rows[..|rows| + limit]
    else []
  }

  // ----- reciprocal rank fusion -----

  /** Neither the lookup of the id nor the division fails. */
  predicate Scorable(hit: Hit) {
    hit.row.id.Some? && hit.gain.Some?
  }

  predicate AllScorable(hits: seq<Hit>) {
    forall i :: 0 <= i < |hits| ==> Scorable(hits[i])
  }

  /** `order` lists the keys of both dictionaries, as they came in. */
  datatype Merged = Merged(order: seq<int>, byId: map<int, Row>, scores: map<int, real>)

  function ScoreIn(scores: map<int, real>, id: int): real {
    if id in scores then scores[id] else 0.0
  }

  function Add(m: Merged, hit: Hit): Merged
    requires Scorable(hit)
  {
    var id := hit.row.id.value;
    Merged(if id in m.scores then m.order else m.order + [id],
           m.byId[id := hit.row],
           m.scores[id := ScoreIn(m.scores, id) + hit.gain.value])
  }

  /** The first `n` hits of a list, merged into what is there. */
  function MergeInto(before: Merged, hits: seq<Hit>, n: nat): Merged
    requires n <= |hits| && AllScorable(hits)
  {
    if n == 0 then before else Add(MergeInto(before, hits, n - 1), hits[n - 1])
  }

  const NOTHING_MERGED := Merged([], map[], map[])

  function Merge(hits: seq<Hit>, n: nat): Merged
    requires n <= |hits| && AllScorable(hits)
  {
    MergeInto(NOTHING_MERGED, hits, n)
  }

  function InsertId(id: int, ids: seq<int>, scores: map<int, real>): seq<int> {
    if ids == [] then [id]
    else if ScoreIn(scores, id) >= ScoreIn(scores, ids[0]) then [id] + ids
    else [ids[0]] + InsertId(id, ids[1..], scores)
  }

  /** A stable sort, highest score first. */
  function SortIds(ids: seq<int>, scores: map<int, real>): seq<int> {
    if ids == [] then [] else InsertId(ids[0], SortIds(ids[1..], scores), scores)
  }

  function RowsOf(ids: seq<int>, byId: map<int, Row>): seq<Row>
    requires forall i :: 0 <= i < |ids| ==> ids[i] in byId
  {
    seq(|ids|, i requires 0 <= i < |ids| => byId[ids[i]])
  }

  function Ranking(hits: seq<Hit>): seq<int>
    requires AllScorable(hits)
  {
    var m := Merge(hits, |hits|);
    SortIds(m.order, m.scores)
  }

  function Fused(hits: seq<Hit>): seq<Row>
    requires AllScorable(hits)
  {
    RankingIsComplete(hits);
    RowsOf(Ranking(hits), Merge(hits, |hits|).byId)
  }

  function Reranked(hits: seq<Hit>, limit: int): Option<seq<Row>> {
    if AllScorable(hits) then Some(Take(Fused(hits), limit)) else None
  }

  lemma {:induction false} MergeBegins(before: Merged, first: seq<Hit>, both: seq<Hit>, n: nat)
    requires first <= both && AllScorable(first) && AllScorable(both) && n <= |first|
    ensures MergeInto(before, both, n) == MergeInto(before, first, n)
  {
    if n > 0 {
      MergeBegins(before, first, both, n - 1);
    }
  }

  lemma {:induction false} MergeContinues(
    before: Merged, middle: Merged, first: seq<Hit>, second: seq<Hit>, both: seq<Hit>, n: nat, m: nat)
    requires both == first + second && AllScorable(second) && AllScorable(both)
    requires n <= |second| && m == |first| + n && middle == MergeInto(before, both, |first|)
    ensures MergeInto(before, both, m) == MergeInto(middle, second, n)
  {
    if n > 0 {
      MergeContinues(before, middle, first, second, both, n - 1, m - 1);
      HitOfSecond(first, second, both, n - 1, m - 1);
    }
  }

  lemma HitOfSecond(first: seq<Hit>, second: seq<Hit>, both: seq<Hit>, i: nat, j: nat)
    requires both == first + second && i < |second| && j == |first| + i
    ensures both[j] == second[i]
  {
  }

  /** One list's loop. */
  method MergeList(rows: seq<Row>, gain: Gain, before: Merged) returns (after: Option<Merged>)
    ensures var hits := Ranked(rows, gain);
      after == if AllScorable(hits) then Some(MergeInto(before, hits, |rows|)) else None
  {
    ghost var hits := Ranked(rows, gain);
    var order, byId, scores := before.order, before.byId, before.scores;
    for rank := 0 to |rows|
      invariant forall i :: 0 <= i < rank ==> Scorable(hits[i])
      invariant AllScorable(hits) ==> MergeInto(before, hits, rank) == Merged(order, byId, scores)
    {
      var row, score := rows[rank], gain(rank);
      assert hits[rank] == Hit(row, score);
      if row.id == None || score == None {
        return None;
      }
      var rid := row.id.value;
      byId := byId[rid := row];
      if rid !in scores {
        order := order + [rid];
      }
      scores := scores[rid := ScoreIn(scores, rid) + score.value];
    }
    after := Some(Merged(order, byId, scores));
  }

  /** The reranked search; None when a row has no id or a division by zero stops it. */
  method FuseByRank(vecRows: seq<Row>, ftsRows: seq<Row>, gain: Gain, limit: int) returns (rows: Option<seq<Row>>)
    ensures rows == Reranked(Hits(vecRows, ftsRows, gain), limit)
  {
    var merged := MergeList(vecRows, gain, NOTHING_MERGED);
    if merged.Some? {
      merged := MergeList(ftsRows, gain, merged.value);
    }
    MergedIsMerge(Ranked(vecRows, gain), Ranked(ftsRows, gain));
    if merged == None {
      return None;
    }
    ghost var hits := Hits(vecRows, ftsRows, gain);
    assert merged.value == Merge(hits, |hits|);
    var ids := SortIds(merged.value.order, merged.value.scores);
    assert ids == Ranking(hits);
    rows := Some(Take(RowsOf(ids, merged.value.byId), limit));
  }

  lemma MergedIsMerge(first: seq<Hit>, second: seq<Hit>)
    ensures var hits := first + second;
      AllScorable(hits) <==> AllScorable(first) && AllScorable(second)
    ensures var hits := first + second; AllScorable(hits) ==>
      && Merge(hits, |hits|) == MergeInto(MergeInto(NOTHING_MERGED, first, |first|), second, |second|)
      && forall i :: 0 <= i < |Ranking(hits)| ==> Ranking(hits)[i] in Merge(hits, |hits|).byId
  {
    ScorableTogether(first, second, first + second);
    if AllScorable(first + second) {
      var middle := MergeInto(NOTHING_MERGED, first, |first|);
      MergeBegins(NOTHING_MERGED, first, first + second, |first|);
      MergeContinues(NOTHING_MERGED, middle, first, second, first + second, |second|, |first + second|);
      RankingIsComplete(first + second);
    }
  }

  lemma ScorableTogether(first: seq<Hit>, second: seq<Hit>, both: seq<Hit>)
    requires both == first + second
    ensures AllScorable(both) <==> AllScorable(first) && AllScorable(second)
  {
    if AllScorable(both) {
      forall i | 0 <= i < |second| ensures Scorable(second[i]) {
        assert both[|first| + i] == second[i];
      }
      forall i | 0 <= i < |first| ensures Scorable(first[i]) {
        assert both[i] == first[i];
      }
    }
  }

  // ----- what the merge computes -----

  /** The score of an id by definition: the sum over the first `n` hits that carry it. */
  function Score(hits: seq<Hit>, n: nat, id: int): real
    requires n <= |hits| && AllScorable(hits)
  {
    if n == 0 then 0.0
    else Score(hits, n - 1, id) + if hits[n - 1].row.id == Some(id) then hits[n - 1].gain.value else 0.0
  }

  /** The place where an id first comes up among the first `n` hits, or `n` if it does not. */
  function First(hits: seq<Hit>, n: nat, id: int): (i: nat)
    requires n <= |hits|
    ensures i <= n && (i < n ==> hits[i].row.id == Some(id))
  {
    if n == 0 then 0
    else
      var i := First(hits, n - 1, id);
      if i < n - 1 then i else if hits[n - 1].row.id == Some(id) then n - 1 else n
  }

  predicate Occurs(hits: seq<Hit>, n: nat, id: int)
    requires n <= |hits|
  {
    First(hits, n, id) < n
  }

  lemma {:induction false} FirstIsFirst(hits: seq<Hit>, n: nat, id: int, i: nat)
    requires n <= |hits| && i < n && hits[i].row.id == Some(id)
    ensures First(hits, n, id) <= i && Occurs(hits, n, id)
  {
    if i < n - 1 {
      FirstIsFirst(hits, n - 1, id, i);
    }
  }

  /** The row is the last one with this id. */
  predicate IsLast(hits: seq<Hit>, n: nat, id: int, row: Row)
    requires n <= |hits|
  {
    exists i :: 0 <= i < n && hits[i].row == row && row.id == Some(id)
      && forall j :: i < j < n ==> hits[j].row.id != Some(id)
  }

  ghost predicate KeysAreIds(m: Merged, hits: seq<Hit>, n: nat)
    requires n <= |hits|
  {
    && (forall id :: id in m.scores <==> id in m.order)
    && (forall id :: id in m.byId <==> id in m.order)
    && (forall id :: id in m.order <==> Occurs(hits, n, id))
  }

  predicate InOrder(ids: seq<int>, hits: seq<Hit>, n: nat)
    requires n <= |hits|
  {
    forall i, j :: 0 <= i < j < |ids| ==> First(hits, n, ids[i]) < First(hits, n, ids[j])
  }

  ghost predicate Collected(m: Merged, hits: seq<Hit>, n: nat)
    requires n <= |hits|
  {
    KeysAreIds(m, hits, n) && InOrder(m.order, hits, n)
  }

  lemma AddCollects(hits: seq<Hit>, n: nat, before: Merged, m: Merged)
    requires 0 < n <= |hits| && Scorable(hits[n - 1]) && m == Add(before, hits[n - 1])
    requires Collected(before, hits, n - 1)
    ensures Collected(m, hits, n)
  {
    AddKeepsKeys(hits, n, before, m);
    AddKeepsOrder(hits, n, before, m);
  }

  lemma AddKeepsKeys(hits: seq<Hit>, n: nat, before: Merged, m: Merged)
    requires 0 < n <= |hits| && Scorable(hits[n - 1]) && m == Add(before, hits[n - 1])
    requires KeysAreIds(before, hits, n - 1)
    ensures KeysAreIds(m, hits, n)
  {
    var id := hits[n - 1].row.id.value;
    forall x ensures x in m.order <==> x in before.order || x == id {
      assert id in before.order + [id];
    }
    assert forall x :: Occurs(hits, n, x) <==> Occurs(hits, n - 1, x) || x == id;
  }

  lemma AddKeepsOrder(hits: seq<Hit>, n: nat, before: Merged, m: Merged)
    requires 0 < n <= |hits| && Scorable(hits[n - 1]) && m == Add(before, hits[n - 1])
    requires KeysAreIds(before, hits, n - 1) && InOrder(before.order, hits, n - 1)
    ensures InOrder(m.order, hits, n)
  {
    assert forall x :: x in before.order ==> First(hits, n, x) == First(hits, n - 1, x) < n - 1;
  }

  lemma {:induction false} MergeCollects(hits: seq<Hit>, n: nat, m: Merged)
    requires n <= |hits| && AllScorable(hits) && m == Merge(hits, n)
    ensures Collected(m, hits, n)
  {
    if n > 0 {
      var before := Merge(hits, n - 1);
      MergeCollects(hits, n - 1, before);
      AddCollects(hits, n, before, m);
    }
  }

  lemma {:induction false} MergeScores(hits: seq<Hit>, n: nat, id: int)
    requires n <= |hits| && AllScorable(hits)
    ensures ScoreIn(Merge(hits, n).scores, id) == Score(hits, n, id)
  {
    if n > 0 {
      MergeScores(hits, n - 1, id);
    }
  }

  lemma {:induction false} MergeKeepsLast(hits: seq<Hit>, n: nat, id: int)
    requires n <= |hits| && AllScorable(hits) && Occurs(hits, n, id)
    ensures var m := Merge(hits, n); id in m.byId && IsLast(hits, n, id, m.byId[id])
  {
    if hits[n - 1].row.id != Some(id) {
      MergeKeepsLast(hits, n - 1, id);
    }
  }

  // ----- the sort -----

  predicate Outranks(hits: seq<Hit>, scores: map<int, real>, a: int, b: int) {
    || ScoreIn(scores, a) > ScoreIn(scores, b)
    || (ScoreIn(scores, a) == ScoreIn(scores, b) && First(hits, |hits|, a) < First(hits, |hits|, b))
  }

  predicate Sorted(hits: seq<Hit>, scores: map<int, real>, ids: seq<int>) {
    forall i, j :: 0 <= i < j < |ids| ==> Outranks(hits, scores, ids[i], ids[j])
  }

  lemma {:induction false} InsertIdSorts(id: int, ids: seq<int>, scores: map<int, real>, hits: seq<Hit>)
    requires Sorted(hits, scores, ids)
    requires forall x :: x in ids ==> First(hits, |hits|, id) < First(hits, |hits|, x)
    ensures Sorted(hits, scores, InsertId(id, ids, scores))
    ensures forall x :: x in InsertId(id, ids, scores) <==> x == id || x in ids
    ensures |InsertId(id, ids, scores)| == |ids| + 1
    decreases |ids|
  {
    if ids != [] {
      if ScoreIn(scores, id) >= ScoreIn(scores, ids[0]) {
        assert forall j :: 0 < j < |ids| ==> Outranks(hits, scores, ids[0], ids[j]);
      } else {
        InsertIdSorts(id, ids[1..], scores, hits);
        var rest := InsertId(id, ids[1..], scores);
        assert ids == [ids[0]] + ids[1..];
        forall x | x in rest ensures Outranks(hits, scores, ids[0], x) {}
      }
    }
  }

  lemma {:induction false} SortIdsSorts(ids: seq<int>, scores: map<int, real>, hits: seq<Hit>)
    requires InOrder(ids, hits, |hits|)
    ensures Sorted(hits, scores, SortIds(ids, scores)) && |SortIds(ids, scores)| == |ids|
    ensures forall x :: x in SortIds(ids, scores) <==> x in ids
    decreases |ids|
  {
    if ids != [] {
      SortIdsSorts(ids[1..], scores, hits);
      assert ids == [ids[0]] + ids[1..];
      InsertIdSorts(ids[0], SortIds(ids[1..], scores), scores, hits);
    }
  }

  lemma RankingIsComplete(hits: seq<Hit>)
    requires AllScorable(hits)
    ensures var m := Merge(hits, |hits|);
      && Sorted(hits, m.scores, Ranking(hits))
      && (forall id :: id in Ranking(hits) <==> Occurs(hits, |hits|, id))
      && (forall i :: 0 <= i < |Ranking(hits)| ==> Ranking(hits)[i] in m.byId)
  {
    var m, ids := Merge(hits, |hits|), Ranking(hits);
    MergeCollects(hits, |hits|, m);
    SortIdsSorts(m.order, m.scores, hits);
    forall i | 0 <= i < |ids| ensures ids[i] in m.byId {
      assert ids[i] in ids;
    }
  }

  // ----- properties of the merged result -----

  /** Higher score first; among equal scores, first come, first served. */
  predicate Before(hits: seq<Hit>, a: int, b: int)
    requires AllScorable(hits)
  {
    || Score(hits, |hits|, a) > Score(hits, |hits|, b)
    || (Score(hits, |hits|, a) == Score(hits, |hits|, b) && First(hits, |hits|, a) < First(hits, |hits|, b))
  }

  /**
   Before the limit, every id of either list has exactly one row, the last it came with, and the rows are in the one
   order their scores and first places give. (A strict order: so no id is there twice.)
   */
  lemma FusedIsRanked(hits: seq<Hit>)
    requires AllScorable(hits)
    ensures var rows := Fused(hits);
      && (forall i :: 0 <= i < |rows| ==> rows[i].id.Some? && IsLast(hits, |hits|, rows[i].id.value, rows[i]))
      && (forall i, j :: 0 <= i < j < |rows| ==> Before(hits, rows[i].id.value, rows[j].id.value))
      && (forall id :: Occurs(hits, |hits|, id) ==> Holds(rows, id))
  {
    var rows, ids, m := Fused(hits), Ranking(hits), Merge(hits, |hits|);
    RankingIsComplete(hits);
    forall i | 0 <= i < |rows| ensures rows[i].id == Some(ids[i]) && IsLast(hits, |hits|, ids[i], rows[i]) {
      assert ids[i] in ids;
      MergeKeepsLast(hits, |hits|, ids[i]);
    }
    forall i, j | 0 <= i < j < |rows| ensures Before(hits, ids[i], ids[j]) {
      assert Outranks(hits, m.scores, ids[i], ids[j]);
      MergeScores(hits, |hits|, ids[i]);
      MergeScores(hits, |hits|, ids[j]);
    }
    forall id | Occurs(hits, |hits|, id) ensures Holds(rows, id) {
      assert id in ids;
      var i :| 0 <= i < |ids| && ids[i] == id;
      assert rows[i].id == Some(id);
    }
  }

  /** The result is the front of the ranking: as long as the limit, or short of the end by a negative one. */
  lemma TakeIsFront<T>(rows: seq<T>, limit: int)
    ensures Take(rows, limit) <= rows
    ensures limit >= 0 ==> |Take(rows, limit)| == if limit < |rows| then limit else |rows|
    ensures limit < 0 ==> |Take(rows, limit)| == if |rows| + limit > 0 then |rows| + limit else 0
  {
  }

  /** The reranked search answers exactly if every row has an id and a gain, with the front of the ranking. */
  lemma RerankedIsFront(hits: seq<Hit>, limit: int)
    ensures var answer := Reranked(hits, limit);
      && (answer.Some? <==> forall i :: 0 <= i < |hits| ==> hits[i].row.id != None && hits[i].gain != None)
      && (answer.Some? ==>
        && answer.value <= Fused(hits)
        && (limit >= 0 ==> |answer.value| <= limit)
        && (limit >= |Fused(hits)| ==> answer.value == Fused(hits)))
  {
    if AllScorable(hits) {
      TakeIsFront(Fused(hits), limit);
    }
  }

  // ----- Pareto consistency -----

  predicate UniqueIds(rows: seq<Row>) {
    forall i, j :: 0 <= i < j < |rows| ==> rows[i].id != rows[j].id
  }

  /** Wherever the list holds b, it holds a further up. */
  predicate RanksAbove(rows: seq<Row>, a: int, b: int) {
    forall j :: 0 <= j < |rows| && rows[j].id == Some(b) ==> exists i :: 0 <= i < j && rows[i].id == Some(a)
  }

  predicate Holds(rows: seq<Row>, id: int) {
    exists i :: 0 <= i < |rows| && rows[i].id == Some(id)
  }

  /** What a list gives an id by its first `n` rows, when each place gives its gain. */
  function ListScore(rows: seq<Row>, gains: seq<real>, n: nat, id: int): real
    requires n <= |rows| <= |gains|
  {
    if n == 0 then 0.0
    else ListScore(rows, gains, n - 1, id) + if rows[n - 1].id == Some(id) then gains[n - 1] else 0.0
  }

  predicate Decreasing(gains: seq<real>) {
    && (forall i :: 0 <= i < |gains| ==> gains[i] > 0.0)
    && (forall i, j :: 0 <= i < j < |gains| ==> gains[i] > gains[j])
  }

  /** The hits from a place on are the rows with these gains. */
  predicate Gained(hits: seq<Hit>, start: nat, rows: seq<Row>, gains: seq<real>) {
    && |rows| <= |gains| && start + |rows| <= |hits|
    && forall i :: 0 <= i < |rows| ==> hits[start + i] == Hit(rows[i], Some(gains[i]))
  }

  lemma {:induction false} ScoreOfList(hits: seq<Hit>, start: nat, rows: seq<Row>, gains: seq<real>, n: nat, id: int)
    requires AllScorable(hits) && Gained(hits, start, rows, gains) && n <= |rows|
    ensures Score(hits, start + n, id) == Score(hits, start, id) + ListScore(rows, gains, n, id)
  {
    if n > 0 {
      ScoreOfList(hits, start, rows, gains, n - 1, id);
      assert hits[start + n - 1] == hits[start + (n - 1)];
    }
  }

  lemma {:induction false} AbsentScoresNothing(rows: seq<Row>, gains: seq<real>, n: nat, id: int)
    requires n <= |rows| <= |gains| && forall i :: 0 <= i < n ==> rows[i].id != Some(id)
    ensures ListScore(rows, gains, n, id) == 0.0
  {
    if n > 0 {
      AbsentScoresNothing(rows, gains, n - 1, id);
    }
  }

  lemma {:induction false} PlaceScores(rows: seq<Row>, gains: seq<real>, n: nat, i: nat, id: int)
    requires i < n <= |rows| <= |gains| && UniqueIds(rows) && rows[i].id == Some(id)
    ensures ListScore(rows, gains, n, id) == gains[i]
  {
    if i == n - 1 {
      AbsentScoresNothing(rows, gains, i, id);
    } else {
      PlaceScores(rows, gains, n - 1, i, id);
    }
  }

  lemma {:induction false} ScoresArePositive(rows: seq<Row>, gains: seq<real>, n: nat, id: int)
    requires n <= |rows| <= |gains| && Decreasing(gains)
    ensures ListScore(rows, gains, n, id) >= 0.0
  {
    if n > 0 {
      ScoresArePositive(rows, gains, n - 1, id);
    }
  }

  lemma AboveScoresMore(rows: seq<Row>, gains: seq<real>, a: int, b: int)
    requires |rows| <= |gains| && Decreasing(gains) && UniqueIds(rows) && RanksAbove(rows, a, b)
    ensures ListScore(rows, gains, |rows|, a) >= ListScore(rows, gains, |rows|, b)
    ensures Holds(rows, b) ==> ListScore(rows, gains, |rows|, a) > ListScore(rows, gains, |rows|, b)
  {
    if Holds(rows, b) {
      var j :| 0 <= j < |rows| && rows[j].id == Some(b);
      var i :| 0 <= i < j && rows[i].id == Some(a);
      PlaceScores(rows, gains, |rows|, j, b);
      PlaceScores(rows, gains, |rows|, i, a);
    } else {
      AbsentScoresNothing(rows, gains, |rows|, b);
      ScoresArePositive(rows, gains, |rows|, a);
    }
  }

  lemma Inverts(x: real, y: real, p: real, q: real)
    requires 0.0 < x < y && p * x == 1.0 && q * y == 1.0
    ensures 0.0 < q < p
  {
  }

  /** With a positive constant a better rank earns more. */
  lemma ReciprocalsDecrease(k: int, n: nat) returns (gains: seq<real>)
    requires k > 0
    ensures |gains| == n && Decreasing(gains) && forall i :: 0 <= i < n ==> Rrf(k)(i) == Some(gains[i])
  {
    gains := seq(n, i requires 0 <= i < n => 1.0 / (k + i) as real);
    forall i | 0 <= i < n ensures gains[i] > 0.0 {}
    forall i, j | 0 <= i < j < n ensures gains[i] > gains[j] {
      Inverts((k + i) as real, (k + j) as real, gains[i], gains[j]);
    }
  }

  /** What a rank gives is the reciprocal of its distance from minus the constant; at that distance 0 there is none. */
  lemma GainIsReciprocal(k: int, rank: nat)
    ensures Rrf(k)(rank) == None <==> k + rank == 0
    ensures Rrf(k)(rank).Some? ==> Rrf(k)(rank).value * (k + rank) as real == 1.0
  {
  }

  /** The reciprocal rank of an id in one list: that of its place, or nothing when the list does not hold it. */
  predicate GivesAtPlace(rows: seq<Row>, k: int, id: int, gain: real) {
    && (!Holds(rows, id) ==> gain == 0.0)
    && forall i :: 0 <= i < |rows| && rows[i].id == Some(id) ==> gain * (k + i) as real == 1.0
  }

  /** The score of an id is the sum of its reciprocal ranks in the two lists. */
  lemma ScoreByPlaces(
    vecRows: seq<Row>, ftsRows: seq<Row>, k: int, id: int, hits: seq<Hit>) returns (inVec: real, inFts: real)
    requires hits == Hits(vecRows, ftsRows, Rrf(k)) && k > 0 && AllScorable(hits)
    requires UniqueIds(vecRows) && UniqueIds(ftsRows)
    ensures GivesAtPlace(vecRows, k, id, inVec) && GivesAtPlace(ftsRows, k, id, inFts)
    ensures Score(hits, |hits|, id) == inVec + inFts
  {
    var gains := ReciprocalsDecrease(k, |hits|);
    HitsAreGained(vecRows, ftsRows, Rrf(k), hits, gains);
    ScoreOfBoth(vecRows, ftsRows, gains, hits, id);
    inVec := ListScore(vecRows, gains, |vecRows|, id);
    inFts := ListScore(ftsRows, gains, |ftsRows|, id);
    ListGivesAtPlace(vecRows, gains, k, id);
    ListGivesAtPlace(ftsRows, gains, k, id);
  }

  lemma ListGivesAtPlace(rows: seq<Row>, gains: seq<real>, k: int, id: int)
    requires |rows| <= |gains| && k > 0 && UniqueIds(rows)
    requires forall i :: 0 <= i < |gains| ==> Rrf(k)(i) == Some(gains[i])
    ensures GivesAtPlace(rows, k, id, ListScore(rows, gains, |rows|, id))
  {
    if Holds(rows, id) {
      forall i | 0 <= i < |rows| && rows[i].id == Some(id)
        ensures ListScore(rows, gains, |rows|, id) * (k + i) as real == 1.0
      {
        PlaceScores(rows, gains, |rows|, i, id);
        GainIsReciprocal(k, i);
      }
    } else {
      AbsentScoresNothing(rows, gains, |rows|, id);
    }
  }

  lemma AboveIsHeld(rows: seq<Row>, a: int, b: int)
    requires RanksAbove(rows, a, b)
    ensures Holds(rows, b) ==> Holds(rows, a)
  {
  }

  lemma AboveBoth(vecRows: seq<Row>, ftsRows: seq<Row>, gains: seq<real>, a: int, b: int, hits: seq<Hit>)
    requires |hits| == |vecRows| + |ftsRows| && AllScorable(hits) && Decreasing(gains)
    requires Gained(hits, 0, vecRows, gains) && Gained(hits, |vecRows|, ftsRows, gains)
    requires UniqueIds(vecRows) && UniqueIds(ftsRows) && RanksAbove(vecRows, a, b) && RanksAbove(ftsRows, a, b)
    requires Holds(vecRows, b) || Holds(ftsRows, b)
    ensures Score(hits, |hits|, a) > Score(hits, |hits|, b)
  {
    AboveScoresMore(vecRows, gains, a, b);
    AboveScoresMore(ftsRows, gains, a, b);
    ScoreOfBoth(vecRows, ftsRows, gains, hits, a);
    ScoreOfBoth(vecRows, ftsRows, gains, hits, b);
  }

  lemma ScoreOfBoth(vecRows: seq<Row>, ftsRows: seq<Row>, gains: seq<real>, hits: seq<Hit>, id: int)
    requires |hits| == |vecRows| + |ftsRows| && AllScorable(hits)
    requires Gained(hits, 0, vecRows, gains) && Gained(hits, |vecRows|, ftsRows, gains)
    ensures Score(hits, |hits|, id)
      == ListScore(vecRows, gains, |vecRows|, id) + ListScore(ftsRows, gains, |ftsRows|, id)
  {
    ScoreOfList(hits, 0, vecRows, gains, |vecRows|, id);
    ScoreOfList(hits, |vecRows|, ftsRows, gains, |ftsRows|, id);
  }

  /** What scores more comes earlier, and so is still there whenever the other one is. */
  lemma {:induction false} MoreIsEarlier(hits: seq<Hit>, rows: seq<Row>, a: int, b: int, j: nat)
    requires AllScorable(hits) && rows <= Fused(hits) && j < |rows| && rows[j].id == Some(b)
    requires Occurs(hits, |hits|, a) && Score(hits, |hits|, a) > Score(hits, |hits|, b)
    ensures exists i :: 0 <= i < j && rows[i].id == Some(a)
  {
    FusedIsRanked(hits);
    var all := Fused(hits);
    var i :| 0 <= i < |all| && all[i].id == Some(a);
    assert all[j] == rows[j];
    assert i >= j ==> i == j || Before(hits, all[j].id.value, all[i].id.value);
    assert rows[i] == all[i];
  }

  /** An id that every list ranks above b, where the list has b, comes before b in the result, whatever the limit. */
  lemma ParetoConsistent(
    vecRows: seq<Row>, ftsRows: seq<Row>, k: int, limit: int, a: int, b: int, hits: seq<Hit>, rows: seq<Row>)
    requires hits == Hits(vecRows, ftsRows, Rrf(k)) && k > 0 && AllScorable(hits)
    requires UniqueIds(vecRows) && UniqueIds(ftsRows)
    requires RanksAbove(vecRows, a, b) && RanksAbove(ftsRows, a, b) && rows == Take(Fused(hits), limit)
    ensures RanksAbove(rows, a, b)
  {
    TakeIsFront(Fused(hits), limit);
    forall j | 0 <= j < |rows| && rows[j].id == Some(b) ensures exists i :: 0 <= i < j && rows[i].id == Some(a) {
      FusedOccurs(hits, j);
      AboveIsAhead(vecRows, ftsRows, k, a, b, hits);
      MoreIsEarlier(hits, rows, a, b, j);
    }
  }

  lemma AboveIsAhead(vecRows: seq<Row>, ftsRows: seq<Row>, k: int, a: int, b: int, hits: seq<Hit>)
    requires hits == Hits(vecRows, ftsRows, Rrf(k)) && k > 0 && AllScorable(hits)
    requires UniqueIds(vecRows) && UniqueIds(ftsRows)
    requires RanksAbove(vecRows, a, b) && RanksAbove(ftsRows, a, b) && Occurs(hits, |hits|, b)
    ensures Occurs(hits, |hits|, a) && Score(hits, |hits|, a) > Score(hits, |hits|, b)
  {
    HitIsHeld(vecRows, ftsRows, a, Rrf(k), hits);
    HitIsHeld(vecRows, ftsRows, b, Rrf(k), hits);
    AboveIsHeld(vecRows, a, b);
    AboveIsHeld(ftsRows, a, b);
    var gains := ReciprocalsDecrease(k, |hits|);
    HitsAreGained(vecRows, ftsRows, Rrf(k), hits, gains);
    AboveBoth(vecRows, ftsRows, gains, a, b, hits);
  }

  lemma HitsAreGained(vecRows: seq<Row>, ftsRows: seq<Row>, gain: Gain, hits: seq<Hit>, gains: seq<real>)
    requires hits == Hits(vecRows, ftsRows, gain) && |gains| == |hits|
    requires forall i :: 0 <= i < |gains| ==> gain(i) == Some(gains[i])
    ensures Gained(hits, 0, vecRows, gains) && Gained(hits, |vecRows|, ftsRows, gains)
  {
  }

  lemma FusedOccurs(hits: seq<Hit>, j: nat)
    requires AllScorable(hits) && j < |Fused(hits)|
    ensures Fused(hits)[j].id.Some? && Occurs(hits, |hits|, Fused(hits)[j].id.value)
  {
    RankingIsComplete(hits);
    assert Ranking(hits)[j] in Ranking(hits);
    MergeKeepsLast(hits, |hits|, Ranking(hits)[j]);
  }

  lemma HitIsHeld(vecRows: seq<Row>, ftsRows: seq<Row>, id: int, gain: Gain, hits: seq<Hit>)
    requires hits == Hits(vecRows, ftsRows, gain)
    ensures Occurs(hits, |hits|, id) <==> Holds(vecRows, id) || Holds(ftsRows, id)
  {
    if Occurs(hits, |hits|, id) {
      var i := First(hits, |hits|, id);
      if i < |vecRows| {
        assert vecRows[i].id == Some(id);
      } else {
        assert ftsRows[i - |vecRows|].id == Some(id);
      }
    }
    if Holds(vecRows, id) {
      var i :| 0 <= i < |vecRows| && vecRows[i].id == Some(id);
      FirstIsFirst(hits, |hits|, id, i);
    }
    if Holds(ftsRows, id) {
      var i :| 0 <= i < |ftsRows| && ftsRows[i].id == Some(id);
      FirstIsFirst(hits, |hits|, id, |vecRows| + i);
    }
  }

  /** What the merge should do: an id ranked above b wherever b is comes before b in the result. */
  predicate KeepsRanking(vecRows: seq<Row>, ftsRows: seq<Row>, k: int, limit: int, a: int, b: int) {
    var hits := Hits(vecRows, ftsRows, Rrf(k));
    && AllScorable(hits) && UniqueIds(vecRows) && UniqueIds(ftsRows)
    && RanksAbove(vecRows, a, b) && RanksAbove(ftsRows, a, b)
    ==> RanksAbove(Take(Fused(hits), limit), a, b)
  }

  ghost predicate ParetoFor(k: int) {
    forall vecRows: seq<Row>, ftsRows: seq<Row>, limit: int, a: int, b: int ::
      KeepsRanking(vecRows, ftsRows, k, limit, a, b)
  }

  lemma LongListsFail(vecRows: seq<Row>, ftsRows: seq<Row>, k: int)
    requires -1 <= k <= 0 && (|vecRows| > -k || |ftsRows| > -k)
    ensures !AllScorable(Hits(vecRows, ftsRows, Rrf(k)))
  {
    var hits := Hits(vecRows, ftsRows, Rrf(k));
    var i := if |vecRows| > -k then -k else |vecRows| - k;
    assert !Scorable(hits[i]);
  }

  /** With the constant 0 or -1 only lists of one row or none can be scored, and there nothing is ranked above. */
  lemma ShortListsKeepRanking(vecRows: seq<Row>, ftsRows: seq<Row>, k: int, limit: int, a: int, b: int)
    requires -1 <= k <= 0
    ensures KeepsRanking(vecRows, ftsRows, k, limit, a, b)
  {
    var hits := Hits(vecRows, ftsRows, Rrf(k));
    if AllScorable(hits) && RanksAbove(vecRows, a, b) && RanksAbove(ftsRows, a, b) {
      if |vecRows| > -k || |ftsRows| > -k {
        LongListsFail(vecRows, ftsRows, k);
      }
      HitIsHeld(vecRows, ftsRows, b, Rrf(k), hits);
      TakeIsFront(Fused(hits), limit);
      forall j | 0 <= j < |Take(Fused(hits), limit)| ensures Take(Fused(hits), limit)[j].id != Some(b) {
        FusedOccurs(hits, j);
      }
    }
  }

  /** What scores less does not come earlier. */
  lemma LessIsNotEarlier(hits: seq<Hit>, a: int, b: int)
    requires AllScorable(hits) && Occurs(hits, |hits|, b) && Score(hits, |hits|, a) < Score(hits, |hits|, b)
    ensures !RanksAbove(Fused(hits), a, b)
  {
    FusedIsRanked(hits);
    var rows := Fused(hits);
    var j :| 0 <= j < |rows| && rows[j].id == Some(b);
    forall i | 0 <= i < j ensures rows[i].id != Some(a) {
      assert Before(hits, rows[i].id.value, rows[j].id.value);
    }
  }

  /** Two rows of the first list, and the upper one again in the second: being there twice may cost too much. */
  lemma TwiceScoresLess(hits: seq<Hit>, top: Row, other: Row, first: real, second: real, again: nat)
    requires top.id == Some(0) && other.id == Some(1) && 2 <= again < |hits| && |hits| == again + 1
    requires AllScorable(hits) && hits[0] == Hit(top, Some(first)) && hits[1] == Hit(other, Some(second))
    requires forall i :: 2 <= i < again ==> hits[i].row.id == Some(2)
    requires hits[again].row == top && first + hits[again].gain.value < second && again <= 3
    ensures Occurs(hits, |hits|, 1) && Score(hits, |hits|, 0) < Score(hits, |hits|, 1)
  {
    assert Score(hits, 0, 0) == 0.0 && Score(hits, 0, 1) == 0.0;
    assert Score(hits, 1, 0) == first && Score(hits, 1, 1) == 0.0;
    assert Score(hits, 2, 0) == first && Score(hits, 2, 1) == second;
    assert Score(hits, again, 0) == first && Score(hits, again, 1) == second;
    FirstIsFirst(hits, |hits|, 1, 1);
  }

  lemma TwoCostMore(k: real, next: real, p: real, q: real)
    requires k <= -3.0 && next == k + 1.0 && p * k == 1.0 && q * next == 1.0
    ensures p + p < q
  {
    assert p < 0.0 && q < 0.0;
    assert (p + p) * (k * next) == 2.0 * next && q * (k * next) == k;
    assert k * next > 0.0;
  }

  lemma VerySmallConstantInverts(k: int, top: Row, other: Row) returns (limit: nat)
    requires k <= -3 && top == Row(Some(0), "") && other == Row(Some(1), "")
    ensures !KeepsRanking([top, other], [top], k, limit, 0, 1)
  {
    var hits := Hits([top, other], [top], Rrf(k));
    var p, q := 1.0 / k as real, 1.0 / (k + 1) as real;
    assert hits == [Hit(top, Some(p)), Hit(other, Some(q)), Hit(top, Some(p))];
    TwoCostMore(k as real, (k + 1) as real, p, q);
    TwiceScoresLess(hits, top, other, p, q, 2);
    LessIsNotEarlier(hits, 0, 1);
    limit := |Fused(hits)|;
    UpperIsAbove(top, other);
  }

  lemma MinusTwoInverts(top: Row, other: Row, third: Row) returns (limit: nat)
    requires top == Row(Some(0), "") && other == Row(Some(1), "") && third == Row(Some(2), "")
    ensures !KeepsRanking([top, other], [third, top], -2, limit, 0, 1)
  {
    var hits := Hits([top, other], [third, top], Rrf(-2));
    assert hits == [Hit(top, Some(-0.5)), Hit(other, Some(-1.0)), Hit(third, Some(-0.5)), Hit(top, Some(-1.0))];
    TwiceScoresLess(hits, top, other, -0.5, -1.0, 3);
    LessIsNotEarlier(hits, 0, 1);
    limit := |Fused(hits)|;
    UpperIsAbove(top, other);
  }

  lemma UpperIsAbove(top: Row, other: Row)
    requires top.id == Some(0) && other.id == Some(1)
    ensures RanksAbove([top, other], 0, 1)
  {
    assert [top, other][0].id == Some(0);
  }

  /** The merge keeps every shared ranking, on all inputs it can score, exactly for constants from -1 on. */
  lemma ParetoIff(k: int)
    ensures ParetoFor(k) <==> k >= -1
  {
    if k <= -2 {
      var top, other, third := Row(Some(0), ""), Row(Some(1), ""), Row(Some(2), "");
      if k == -2 {
        var limit := MinusTwoInverts(top, other, third);
      } else {
        var limit := VerySmallConstantInverts(k, top, other);
      }
    } else {
      forall vecRows: seq<Row>, ftsRows: seq<Row>, limit: int, a: int, b: int
        ensures KeepsRanking(vecRows, ftsRows, k, limit, a, b)
      {
        if k <= 0 {
          ShortListsKeepRanking(vecRows, ftsRows, k, limit, a, b);
        } else {
          var hits := Hits(vecRows, ftsRows, Rrf(k));
          if AllScorable(hits) && UniqueIds(vecRows) && UniqueIds(ftsRows)
            && RanksAbove(vecRows, a, b) && RanksAbove(ftsRows, a, b)
          {
            ParetoConsistent(vecRows, ftsRows, k, limit, a, b, hits, Take(Fused(hits), limit));
          }
        }
      }
    }
  }

  // ----- without reranking -----

  predicate IsFirst(rows: seq<Row>, i: nat)
    requires i < |rows|
  {
    forall j :: 0 <= j < i ==> rows[j].id != rows[i].id
  }

  /** The rows that are the first with their id, in their order. */
  function Firsts(rows: seq<Row>, n: nat): seq<Row>
    requires n <= |rows|
  {
    if n == 0 then []
    else Firsts(rows, n - 1) + if IsFirst(rows, n - 1) then [rows[n - 1]] else []
  }

  method Interleave(vecRows: seq<Row>, ftsRows: seq<Row>, limit: int) returns (rows: seq<Row>)
    ensures rows == Take(Firsts(vecRows + ftsRows, |vecRows| + |ftsRows|), limit)
  {
    var all := vecRows + ftsRows;
    var seen: set<Option<int>>, interleaved: seq<Row> := {}, [];
    for i := 0 to |all|
      invariant forall id :: id in seen <==> exists j :: 0 <= j < i && all[j].id == id
      invariant interleaved == Firsts(all, i)
    {
      if all[i].id !in seen {
        seen := seen + {all[i].id};
        interleaved := interleaved + [all[i]];
      }
    }
    rows := Take(interleaved, limit);
  }

  /** The hybrid branch of the search. */
  method HybridSearch(vecRows: seq<Row>, ftsRows: seq<Row>, rerank: bool, k: int, limit: int)
    returns (rows: Option<seq<Row>>)
    ensures rows ==
      if rerank then Reranked(Hits(vecRows, ftsRows, Rrf(k)), limit)
      else Some(Take(Firsts(vecRows + ftsRows, |vecRows| + |ftsRows|), limit))
  {
    if rerank {
      rows := FuseByRank(vecRows, ftsRows, Rrf(k), limit);
    } else {
      var merged := Interleave(vecRows, ftsRows, limit);
      rows := Some(merged);
    }
  }

  lemma {:induction false} FirstsAreRows(rows: seq<Row>, n: nat)
    requires n <= |rows|
    ensures forall row :: row in Firsts(rows, n) ==> row in rows[..n]
  {
    if n > 0 {
      FirstsAreRows(rows, n - 1);
    }
  }

  lemma {:induction false} FirstsAreUnique(rows: seq<Row>, n: nat)
    requires n <= |rows|
    ensures UniqueIds(Firsts(rows, n))
  {
    if n > 0 {
      FirstsAreUnique(rows, n - 1);
      FirstsAreRows(rows, n - 1);
      var before := Firsts(rows, n - 1);
      forall j | 0 <= j < |before| && IsFirst(rows, n - 1) ensures before[j].id != rows[n - 1].id {
        assert before[j] in rows[..n - 1];
      }
    }
  }

  predicate HasId(rows: seq<Row>, id: Option<int>) {
    exists i :: 0 <= i < |rows| && rows[i].id == id
  }

  lemma HasIdAppend(rows: seq<Row>, more: seq<Row>, id: Option<int>)
    ensures HasId(rows + more, id) <==> HasId(rows, id) || HasId(more, id)
  {
    if HasId(rows, id) {
      var i :| 0 <= i < |rows| && rows[i].id == id;
      assert (rows + more)[i].id == id;
    }
    if HasId(more, id) {
      var i :| 0 <= i < |more| && more[i].id == id;
      assert (rows + more)[|rows| + i].id == id;
    }
  }

  lemma {:induction false} FirstsCoverIds(rows: seq<Row>, n: nat, i: nat)
    requires i < n <= |rows|
    ensures HasId(Firsts(rows, n), rows[i].id)
    decreases n
  {
    var id, last := rows[i].id, if IsFirst(rows, n - 1) then [rows[n - 1]] else [];
    HasIdAppend(Firsts(rows, n - 1), last, id);
    if i < n - 1 {
      FirstsCoverIds(rows, n - 1, i);
    } else if IsFirst(rows, i) {
      assert last[0].id == id;
    } else {
      var earlier :| 0 <= earlier < i && rows[earlier].id == id;
      FirstsCoverIds(rows, n - 1, earlier);
    }
  }

  /** Both lists' ids, each once, with a row it came with; the limit keeps the front. */
  lemma InterleaveKeepsEachIdOnce(rows: seq<Row>, firsts: seq<Row>)
    requires firsts == Firsts(rows, |rows|)
    ensures UniqueIds(firsts)
    ensures forall i :: 0 <= i < |rows| ==> HasId(firsts, rows[i].id)
    ensures forall row :: row in firsts ==> row in rows
  {
    FirstsAreUnique(rows, |rows|);
    FirstsAreRows(rows, |rows|);
    assert rows[..|rows|] == rows;
    forall i | 0 <= i < |rows| ensures HasId(firsts, rows[i].id) {
      FirstsCoverIds(rows, |rows|, i);
    }
  }

  /** They are the rows before which no row has their id, in the order they came. */
  lemma {:induction false} FirstsInOrder(rows: seq<Row>, n: nat) returns (places: seq<nat>)
    requires n <= |rows|
    ensures var firsts := Firsts(rows, n);
      && |places| == |firsts|
      && (forall k :: 0 <= k < |places| ==> places[k] < n && firsts[k] == rows[places[k]])
      && (forall k, l :: 0 <= k < l < |places| ==> places[k] < places[l])
      && (forall k, j :: 0 <= k < |places| && 0 <= j < places[k] ==> rows[j].id != rows[places[k]].id)
  {
    places := [];
    if n > 0 {
      places := FirstsInOrder(rows, n - 1);
      if IsFirst(rows, n - 1) {
        places := places + [n - 1];
      }
    }
  }
}
