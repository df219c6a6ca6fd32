/**
 Listing the entries of the transparency log.

 The log is stored in bundles of 256 entries. A listing walks the bundles that cover the wanted range,
 keeps the entries that match the query, skips the first `offset` matches and stops after `limit`. The
 reference is the flat log: number the entries, filter, slice.

 Bundle ranges follow the layout package of the log's library: `BundleRange` is its `Range` and
 `PartialSize` its `PartialTileSize` at level 0.
 */
module LogEntries {
  import opened Options
  import opened TileLayout
  import Decimals

  datatype Result<T> = Ok(value: T) | Unreadable(bundle: nat)

  /** An entry as listed: its global index, the bundle it came from (index and partial size), its bytes. */
  datatype Response<E> = Response(index: nat, bundle: nat, partial: nat, raw: E)

  datatype RangeInfo = RangeInfo(index: nat, partial: nat, first: nat, n: nat)

  /** `None` is the empty query. */
  type Query<!E> = Option<Response<E> -> bool>

  type Reader<!E> = (nat, nat) -> Option<seq<E>>

  function Min(a: nat, b: nat): nat {
    if a < b then a else b
  }

  /** The number of entries in a partial bundle; 0 says that the bundle is full. */
  function PartialSize(bundle: nat, size: nat): nat {
    if bundle < size / WIDTH then 0 else size % WIDTH
  }

  /** A bundle's partial size is the number of its entries, or 0 when it is full. */
  lemma PartialIsRemainder(bundle: nat, size: nat)
    requires bundle * WIDTH < size
    ensures var entries := Min(256, size - bundle * 256);
      PartialSize(bundle, size) == if entries == 256 then 0 else entries
  {
    if size / WIDTH == bundle {
      assert size % WIDTH == size - bundle * WIDTH;
    }
  }

  /** The bundles covering `from .. min(from + count, size)`. */
  function BundleRange(from: nat, count: nat, size: nat): seq<RangeInfo> {
    if from >= size || count == 0 then []
    else
      var last := Min(from + count, size) - 1;
      var s, e := from / WIDTH, last / WIDTH;
      seq(e - s + 1, k requires 0 <= k < e - s + 1 =>
        var index := s + k;
        var first := if k == 0 then from % WIDTH else 0;
        var n := (if index == e then last % WIDTH + 1 else WIDTH) - first;
        RangeInfo(index, if index == s || index == e then PartialSize(index, size) else 0, first, n))
  }

  function NewResponse<E>(bundle: nat, partial: nat, offset: nat, raw: E): Response<E> {
    Response(bundle * WIDTH + offset, bundle, partial, raw)
  }

  // ----- the reference: filter the flat log, then slice -----

  /** Every entry of the log, numbered. */
  function Flat<E>(log: seq<E>): seq<Response<E>> {
    seq(|log|, i requires 0 <= i < |log| => Response(i, i / WIDTH, PartialSize(i / WIDTH, |log|), log[i]))
  }

  predicate Wanted<E>(query: Query<E>, entry: Response<E>) {
    query == None || query.value(entry)
  }

  /** The matches among the first `n` entries. */
  function MatchesTo<E>(s: seq<Response<E>>, n: nat, query: Query<E>): (r: seq<Response<E>>)
    requires n <= |s|
    ensures |r| <= n
  {
    if n == 0 then []
    else MatchesTo(s, n - 1, query) + (if Wanted(query, s[n - 1]) then [s[n - 1]] else [])
  }

  function Matching<E>(s: seq<Response<E>>, query: Query<E>): (r: seq<Response<E>>)
    ensures |r| <= |s|
  {
    MatchesTo(s, |s|, query)
  }

  /** `s[offset .. offset + limit]`, cut at the end of `s`. */
  function Slice<T>(s: seq<T>, offset: nat, limit: nat): (r: seq<T>)
    ensures |r| <= limit
  {
    var n := if offset >= |s| then 0 else Min(limit, |s| - offset);
    seq(n, i requires 0 <= i < n => s[offset + i])
  }

  // ----- the reader -----

  /** The number of log entries in a bundle. */
  function BundleSize(bundle: nat, size: nat): nat {
    if bundle * WIDTH < size then Min(WIDTH, size - bundle * WIDTH) else 0
  }

  /** What the reader owes for one bundle: an error, or at least the log's entries of that bundle, in order. */
  ghost predicate Serves<E>(reader: Reader<E>, log: seq<E>, bundle: nat) {
    var answer := reader(bundle, PartialSize(bundle, |log|));
    var n := BundleSize(bundle, |log|);
    answer.Some? && n > 0 ==>
      |answer.value| >= n && answer.value[..n] == log[bundle * WIDTH..bundle * WIDTH + n]
  }

  ghost predicate ServesAll<E>(reader: Reader<E>, log: seq<E>) {
    forall bundle: nat :: Serves(reader, log, bundle)
  }

  // ----- the bundle walk covers the range -----

  function Start(r: RangeInfo): nat {
    r.index * WIDTH + r.first
  }

  predicate IsPart(r: RangeInfo, size: nat) {
    r.partial == PartialSize(r.index, size) && 0 < r.n && r.first + r.n <= BundleSize(r.index, size)
  }

  /** The ranges are parts of bundles that follow each other without gap, from `from` to `to`. */
  predicate Covers(ranges: seq<RangeInfo>, from: nat, to: nat, size: nat) {
    && (forall k :: 0 <= k < |ranges| ==> IsPart(ranges[k], size))
    && (forall k :: 0 < k < |ranges| ==> Start(ranges[k]) == Start(ranges[k - 1]) + ranges[k - 1].n)
    && ranges != [] && Start(ranges[0]) == from && Start(ranges[|ranges| - 1]) + ranges[|ranges| - 1].n == to
  }

  /** The layout package's contract, proved of its definition. */
  lemma BundleRangeCovers(from: nat, count: nat, size: nat)
    requires from < size && count > 0
    ensures Covers(BundleRange(from, count, size), from, Min(from + count, size), size)
  {
    var ranges := BundleRange(from, count, size);
    var last := Min(from + count, size) - 1;
    var s, e := from / WIDTH, last / WIDTH;
    assert last == e * WIDTH + last % WIDTH;
    forall k | 0 <= k < |ranges|
      ensures IsPart(ranges[k], size)
    {
      var index := s + k;
      if index < e {
        assert (index + 1) * WIDTH <= e * WIDTH <= last < size;
        assert index < size / WIDTH;
      }
    }
  }

  method Range(from: nat, count: nat, size: nat) returns (ranges: seq<RangeInfo>)
    requires from < size && count > 0
    ensures Covers(ranges, from, Min(from + count, size), size)
  {
    BundleRangeCovers(from, count, size);
    ranges := BundleRange(from, count, size);
  }

  // ----- filtering and slicing, one entry at a time -----

  /** The empty query keeps everything, so a listing without a query is a plain slice. */
  lemma {:induction false} EmptyQueryKeepsAll<E>(s: seq<Response<E>>, n: nat)
    requires n <= |s|
    ensures MatchesTo(s, n, None) == s[..n]
  {
    if n > 0 {
      EmptyQueryKeepsAll(s, n - 1);
      assert s[..n] == s[..n - 1] + [s[n - 1]];
    }
  }

  lemma SliceSnoc<T>(s: seq<T>, x: T, offset: nat, limit: nat)
    requires limit > 0
    ensures Slice(s + [x], offset, limit)
      == Slice(s, offset, limit) + (if offset <= |s| && |Slice(s, offset, limit)| < limit then [x] else [])
  {
  }

  /** Matches beyond a full page do not change it. */
  lemma {:induction false} FullPageStays<E>(
    all: seq<Response<E>>, pos: nat, n: nat, query: Query<E>, offset: nat, limit: nat)
    requires pos <= n <= |all| && limit > 0
    requires |Slice(MatchesTo(all, pos, query), offset, limit)| == limit
    ensures Slice(MatchesTo(all, n, query), offset, limit) == Slice(MatchesTo(all, pos, query), offset, limit)
    decreases n
  {
    if pos < n {
      FullPageStays(all, pos, n - 1, query, offset, limit);
      SliceSnoc(MatchesTo(all, n - 1, query), all[n - 1], offset, limit);
    }
  }

  /** The loop's two accumulators: the page so far, and the matches still to be skipped. */
  datatype Scan<E> = Scan(entries: seq<Response<E>>, matchesToSkip: nat)

  /** What they must be after scanning the flat log up to `pos`. */
  function ScanTo<E>(all: seq<Response<E>>, pos: nat, query: Query<E>, offset: nat, limit: nat): Scan<E>
    requires pos <= |all|
  {
    var seen := MatchesTo(all, pos, query);
    Scan(Slice(seen, offset, limit),
         if query == None then offset else if |seen| < offset then offset - |seen| else 0)
  }

  ghost predicate Progress<E>(
    all: seq<Response<E>>, pos: nat, query: Query<E>, offset: nat, limit: nat,
    entries: seq<Response<E>>, matchesToSkip: nat)
  {
    && pos <= |all|
    && Scan(entries, matchesToSkip) == ScanTo(all, pos, query, offset, limit)
    && |entries| < limit
    && (query == None ==> offset <= pos)
  }

  /** One more entry scanned: passed over, skipped, or listed. */
  lemma ProgressStep<E>(
    all: seq<Response<E>>, pos: nat, query: Query<E>, offset: nat, limit: nat,
    entries: seq<Response<E>>, matchesToSkip: nat)
    requires Progress(all, pos, query, offset, limit, entries, matchesToSkip) && pos < |all|
    ensures var listed := entries + [all[pos]];
      if query != None && !query.value(all[pos]) then
        Progress(all, pos + 1, query, offset, limit, entries, matchesToSkip)
      else if query != None && matchesToSkip > 0 then
        Progress(all, pos + 1, query, offset, limit, entries, matchesToSkip - 1)
      else if |listed| < limit then
        Progress(all, pos + 1, query, offset, limit, listed, matchesToSkip)
      else
        listed == Slice(Matching(all, query), offset, limit)
  {
    SliceSnoc(MatchesTo(all, pos, query), all[pos], offset, limit);
    if |Slice(MatchesTo(all, pos + 1, query), offset, limit)| == limit {
      FullPageStays(all, pos + 1, |all|, query, offset, limit);
    }
    if query == None {
      EmptyQueryKeepsAll(all, pos);
    }
  }

  lemma ProgressStart<E>(all: seq<Response<E>>, from: nat, query: Query<E>, offset: nat, limit: nat)
    requires limit > 0 && offset < |all| && from == if query == None then offset else 0
    ensures Progress(all, from, query, offset, limit, [], offset)
  {
  }

  lemma ProgressEnd<E>(
    all: seq<Response<E>>, pos: nat, query: Query<E>, offset: nat, limit: nat,
    entries: seq<Response<E>>, matchesToSkip: nat)
    requires Progress(all, pos, query, offset, limit, entries, matchesToSkip)
    requires pos == |all| || (query == None && pos == offset + limit)
    ensures entries == Slice(Matching(all, query), offset, limit)
  {
    if pos < |all| {
      EmptyQueryKeepsAll(all, pos);
      assert false;
    }
  }

  /** The entry at an offset of a bundle the reader served is the flat log's entry, index and bundle included. */
  lemma BundleEntry<E>(reader: Reader<E>, log: seq<E>, bundle: nat, i: nat)
    requires Serves(reader, log, bundle) && reader(bundle, PartialSize(bundle, |log|)).Some?
    requires i < BundleSize(bundle, |log|)
    ensures var entries := reader(bundle, PartialSize(bundle, |log|)).value;
      && BundleSize(bundle, |log|) <= |entries|
      && bundle * WIDTH + i < |log|
      && NewResponse(bundle, PartialSize(bundle, |log|), i, entries[i]) == Flat(log)[bundle * WIDTH + i]
  {
    var entries := reader(bundle, PartialSize(bundle, |log|)).value;
    var n := BundleSize(bundle, |log|);
    assert entries[i] == entries[..n][i];
    assert (bundle * WIDTH + i) / WIDTH == bundle;
  }

  ghost predicate HoldsEntries<E>(r: RangeInfo, bundle: seq<E>, all: seq<Response<E>>) {
    && r.first + r.n <= |bundle| && r.index * WIDTH + r.first + r.n <= |all|
    && forall i :: r.first <= i < r.first + r.n ==>
      NewResponse(r.index, r.partial, i, bundle[i]) == all[r.index * WIDTH + i]
  }

  lemma BundleEntries<E>(reader: Reader<E>, log: seq<E>, r: RangeInfo, bundle: seq<E>)
    requires ServesAll(reader, log) && reader(r.index, PartialSize(r.index, |log|)) == Some(bundle)
    requires IsPart(r, |log|)
    ensures HoldsEntries(r, bundle, Flat(log))
  {
    assert Serves(reader, log, r.index);
    BundleEntry(reader, log, r.index, r.first + r.n - 1);
    forall i | r.first <= i < r.first + r.n
      ensures NewResponse(r.index, r.partial, i, bundle[i]) == Flat(log)[r.index * WIDTH + i]
    {
      BundleEntry(reader, log, r.index, i);
    }
  }

  /** The inner loop: scans one bundle's part of the range. `full` says that the page is complete. */
  method ScanBundle<E>(
    r: RangeInfo, bundle: seq<E>, limit: nat, query: Query<E>, entries: seq<Response<E>>, matchesToSkip: nat,
    ghost all: seq<Response<E>>, ghost offset: nat, ghost start: nat, ghost stop: nat)
    returns (entries': seq<Response<E>>, matchesToSkip': nat, full: bool)
    requires HoldsEntries(r, bundle, all) && start == Start(r) && stop == start + r.n
    requires Progress(all, start, query, offset, limit, entries, matchesToSkip)
    ensures if full then entries' == Slice(Matching(all, query), offset, limit)
      else Progress(all, stop, query, offset, limit, entries', matchesToSkip')
  {
    entries', matchesToSkip', full := entries, matchesToSkip, false;
    var end := r.first + r.n;
    if end > |bundle| {
      end := |bundle|;
    }
    ghost var pos := start;
    for i := r.first to end
      invariant pos == start + (i - r.first)
      invariant Progress(all, pos, query, offset, limit, entries', matchesToSkip')
    {
      var entry := NewResponse(r.index, r.partial, i, bundle[i]);
      ProgressStep(all, pos, query, offset, limit, entries', matchesToSkip');
      pos := pos + 1;
      if query != None && !query.value(entry) {
      } else if query != None && matchesToSkip' > 0 {
        matchesToSkip' := matchesToSkip' - 1;
      } else {
        entries' := entries' + [entry];
        if |entries'| >= limit {
          full := true;
          return;
        }
      }
    }
  }

  /** Whatever the reader returns for a range holds that range's entries. */
  ghost predicate RangesServed<E>(reader: Reader<E>, ranges: seq<RangeInfo>, all: seq<Response<E>>) {
    forall k :: 0 <= k < |ranges| ==>
      var answer := reader(ranges[k].index, ranges[k].partial);
      answer.Some? ==> HoldsEntries(ranges[k], answer.value, all)
  }

  lemma ReaderServesRanges<E>(reader: Reader<E>, log: seq<E>, ranges: seq<RangeInfo>, from: nat, to: nat)
    requires ServesAll(reader, log) && Covers(ranges, from, to, |log|)
    ensures RangesServed(reader, ranges, Flat(log))
  {
    forall k | 0 <= k < |ranges| && reader(ranges[k].index, ranges[k].partial).Some?
      ensures HoldsEntries(ranges[k], reader(ranges[k].index, ranges[k].partial).value, Flat(log))
    {
      BundleEntries(reader, log, ranges[k], reader(ranges[k].index, ranges[k].partial).value);
    }
  }

  /** Where the `k`th part of a range begins; behind the last one, where the range ends. */
  function PartStart(ranges: seq<RangeInfo>, k: nat, to: nat): nat
    requires k <= |ranges|
  {
    if k < |ranges| then Start(ranges[k]) else to
  }

  lemma PartsFollow(ranges: seq<RangeInfo>, from: nat, to: nat, size: nat, k: nat)
    requires Covers(ranges, from, to, size) && k < |ranges|
    ensures PartStart(ranges, 0, to) == from
    ensures PartStart(ranges, k + 1, to) == PartStart(ranges, k, to) + ranges[k].n
  {
  }

  lemma PartIsServed<E>(reader: Reader<E>, ranges: seq<RangeInfo>, all: seq<Response<E>>, k: nat)
    requires RangesServed(reader, ranges, all) && k < |ranges|
    requires reader(ranges[k].index, ranges[k].partial).Some?
    ensures HoldsEntries(ranges[k], reader(ranges[k].index, ranges[k].partial).value, all)
  {
  }

  /** The outer loop: reads the bundles of the range one after the other until the page is complete. */
  method WalkBundles<E>(
    reader: Reader<E>, ranges: seq<RangeInfo>, offset: nat, limit: nat, query: Query<E>,
    ghost all: seq<Response<E>>, ghost from: nat, ghost to: nat)
    returns (result: Result<seq<Response<E>>>)
    requires RangesServed(reader, ranges, all) && Covers(ranges, from, to, |all|)
    requires Progress(all, from, query, offset, limit, [], offset)
    requires to == |all| || (query == None && to == offset + limit)
    ensures result.Ok? ==> result.value == Slice(Matching(all, query), offset, limit)
    ensures result.Unreadable? ==>
      exists k :: 0 <= k < |ranges| && ranges[k].index == result.bundle
        && reader(ranges[k].index, ranges[k].partial) == None
  {
    var matchesToSkip := offset;
    var entries: seq<Response<E>> := [];
    ghost var pos := from;
    PartsFollow(ranges, from, to, |all|, 0);
    for k := 0 to |ranges|
      invariant pos == PartStart(ranges, k, to)
      invariant Progress(all, pos, query, offset, limit, entries, matchesToSkip)
    {
      var answer := reader(ranges[k].index, ranges[k].partial);
      if answer == None {
        return Unreadable(ranges[k].index);
      }
      PartIsServed(reader, ranges, all, k);
      PartsFollow(ranges, from, to, |all|, k);
      var full;
      ghost var next := PartStart(ranges, k + 1, to);
      entries, matchesToSkip, full :=
        ScanBundle(ranges[k], answer.value, limit, query, entries, matchesToSkip, all, offset, pos, next);
      if full {
        return Ok(entries);
      }
      pos := next;
    }
    ProgressEnd(all, pos, query, offset, limit, entries, matchesToSkip);
    return Ok(entries);
  }

  /** Lists up to `limit` entries from `offset`, of those that match. */
  method CollectEntries<E>(reader: Reader<E>, size: nat, offset: nat, limit: nat, query: Query<E>, ghost log: seq<E>)
    returns (result: Result<seq<Response<E>>>)
    requires size == |log| && ServesAll(reader, log)
    ensures result.Ok? ==> result.value == Slice(Matching(Flat(log), query), offset, limit)
    ensures result.Unreadable? ==>
      result.bundle * WIDTH < size && reader(result.bundle, PartialSize(result.bundle, size)) == None
  {
    if limit == 0 || offset >= size {
      return Ok([]);
    }
    var from, count := offset, limit;
    if query == None && from + count > size {
      count := size - from;
    }
    if query != None {
      from, count := 0, size;
    }
    var ranges := Range(from, count, size);
    ReaderServesRanges(reader, log, ranges, from, Min(from + count, size));
    ProgressStart(Flat(log), from, query, offset, limit);
    result := WalkBundles(reader, ranges, offset, limit, query, Flat(log), from, Min(from + count, size));
    assert result.Unreadable? ==> forall k :: 0 <= k < |ranges| ==> IsPart(ranges[k], size);
  }

  /** One entry, looked up by its index. */
  function GetEntryAtIndex<E>(reader: Reader<E>, index: nat, size: nat): Result<Response<E>> {
    var bundle, offset := index / WIDTH, index % WIDTH;
    var answer := reader(bundle, PartialSize(bundle, size));
    if answer == None || offset >= |answer.value| then Unreadable(bundle)
    else Ok(NewResponse(bundle, PartialSize(bundle, size), offset, answer.value[offset]))
  }

  /** Looking an entry up gives what a listing shows at that index; only an unreadable bundle fails. */
  lemma LookupAgreesWithListing<E>(reader: Reader<E>, log: seq<E>, index: nat)
    requires ServesAll(reader, log) && index < |log|
    ensures var bundle := index / WIDTH;
      GetEntryAtIndex(reader, index, |log|)
      == if reader(bundle, PartialSize(bundle, |log|)) == None then Unreadable(bundle) else Ok(Flat(log)[index])
  {
    if reader(index / WIDTH, PartialSize(index / WIDTH, |log|)).Some? {
      BundleEntry(reader, log, index / WIDTH, index % WIDTH);
    }
  }

  // ----- pages -----

  datatype Page<T> = Page(entries: seq<T>, hasMore: bool)

  /** A page as the service answers it: one entry more is collected to see whether there is another page. */
  function MakePage<T>(collected: seq<T>, limit: nat): Page<T> {
    if |collected| > limit then Page(collected[..limit], true) else Page(collected, false)
  }

  /** Query parameters are clamped to a maximum. */
  function QueryUint(value: Option<nat>, fallback: nat, max: nat): nat {
    match value case None => fallback case Some(v) => if v > max then max else v
  }

  /** A parameter as a number below `2^64`: None inside when it is absent, and no answer at all when it is malformed. */
  function ReadUint(text: string): Option<Option<nat>> {
    if text == "" then Some(None)
    else if Decimals.AllDigits(text) && Decimals.Value(text) < 0x1_0000_0000_0000_0000
    then Some(Some(Decimals.Value(text)))
    else None
  }

  datatype Answer<T> = BadRequest | Answer(result: Result<T>)

  /** The listing endpoint, with its parameters as they arrive. */
  method SendEntries<E>(
    reader: Reader<E>, size: nat, limitText: string, offsetText: string, query: Query<E>, ghost log: seq<E>)
    returns (answer: Answer<Page<Response<E>>>)
    requires size == |log| && ServesAll(reader, log)
    ensures answer == BadRequest <==> ReadUint(limitText) == None || ReadUint(offsetText) == None
    ensures answer.Answer? && answer.result.Ok? ==>
      answer.result.value
      == PageOf(Matching(Flat(log), query), size, ReadUint(limitText).value, ReadUint(offsetText).value)
    ensures answer.Answer? && answer.result.Unreadable? ==>
      var bundle := answer.result.bundle;
      bundle * WIDTH < size && reader(bundle, PartialSize(bundle, size)) == None
  {
    var limitParam, offsetParam := ReadUint(limitText), ReadUint(offsetText);
    if limitParam == None || offsetParam == None {
      return BadRequest;
    }
    var result := ListPage(reader, size, limitParam.value, offsetParam.value, query, log);
    answer := Answer(result);
  }

  method ListPage<E>(
    reader: Reader<E>, size: nat, limitParam: Option<nat>, offsetParam: Option<nat>, query: Query<E>, ghost log: seq<E>)
    returns (result: Result<Page<Response<E>>>)
    requires size == |log| && ServesAll(reader, log)
    ensures result.Ok? ==>
      result.value == PageOf(Matching(Flat(log), query), size, limitParam, offsetParam)
    ensures result.Unreadable? ==>
      result.bundle * WIDTH < size && reader(result.bundle, PartialSize(result.bundle, size)) == None
  {
    var limit := QueryUint(limitParam, 100, 500);
    var offset := QueryUint(offsetParam, 0, size);
    var collected := CollectEntries(reader, size, offset, limit + 1, query, log);
    match collected {
      case Unreadable(bundle) => return Unreadable(bundle);
      case Ok(entries) =>
        var hasMore := |entries| > limit;
        return Ok(Page(if hasMore then entries[..limit] else entries, hasMore));
    }
  }

  function PageOf<T>(matched: seq<T>, size: nat, limitParam: Option<nat>, offsetParam: Option<nat>): Page<T> {
    var limit := QueryUint(limitParam, 100, 500);
    MakePage(Slice(matched, QueryUint(offsetParam, 0, size), limit + 1), limit)
  }

  /** Without parameters the first hundred matches are listed. */
  lemma PageWithoutParameters<T>(matched: seq<T>, size: nat)
    ensures PageOf(matched, size, None, None)
      == Page(if |matched| > 100 then matched[..100] else matched, |matched| > 100)
  {
  }

  /** Asking for more than 500 is asking for 500, and beyond the end there is nothing. */
  lemma ParametersAreClamped<T>(matched: seq<T>, size: nat, limit: nat, offset: nat, offsetParam: Option<nat>)
    requires |matched| <= size
    ensures limit >= 500 ==>
      PageOf(matched, size, Some(limit), offsetParam) == PageOf(matched, size, Some(500), offsetParam)
    ensures offset >= |matched| ==> PageOf(matched, size, Some(limit), Some(offset)) == Page([], false)
  {
  }

  /** A number is read back from its digits below `2^64`; nothing is no number, and anything else is refused. */
  lemma ReadsNumbers(n: nat, text: string)
    ensures n < 0x1_0000_0000_0000_0000 ==> ReadUint(Decimals.Decimal(n)) == Some(Some(n))
    ensures ReadUint(text) == Some(None) <==> text == ""
    ensures text != "" && (exists i :: 0 <= i < |text| && !('0' <= text[i] <= '9')) ==> ReadUint(text) == None
  {
    Decimals.ValueOfDecimal(n);
  }

  /** A page holds the slice it should, and says there is more exactly when a further match exists. */
  lemma PageIsSlice<T>(matched: seq<T>, size: nat, limit: nat, offset: nat)
    requires |matched| <= size
    ensures var served := if limit <= 500 then limit else 500;
      PageOf(matched, size, Some(limit), Some(offset))
      == Page(Slice(matched, offset, served), |matched| > offset + served)
  {
  }

  /** Following the pages at multiples of the requested limit while the service says there is more. */
  function FollowPages<T>(matched: seq<T>, size: nat, limit: nat, offset: nat): seq<T>
    requires limit > 0 && |matched| <= size
    decreases size - offset
  {
    var page := PageOf(matched, size, Some(limit), Some(offset));
    PageIsSlice(matched, size, limit, offset);
    if page.hasMore then page.entries + FollowPages(matched, size, limit, offset + limit) else page.entries
  }

  lemma FollowOnePage<T>(matched: seq<T>, size: nat, limit: nat, offset: nat)
    requires limit > 0 && |matched| <= size && offset <= |matched|
    ensures var end := offset + QueryUint(Some(limit), 100, 500);
      FollowPages(matched, size, limit, offset)
      == if |matched| > end
        then Slice(matched, offset, end - offset) + FollowPages(matched, size, limit, offset + limit)
         else matched[offset..]
  {
    PageIsSlice(matched, size, limit, offset);
  }

  /** Up to the service's own maximum the pages join up: no gap, no repetition. */
  lemma {:induction false} PagesConcatenate<T>(matched: seq<T>, size: nat, limit: nat, offset: nat)
    requires 0 < limit <= 500 && |matched| <= size && offset <= |matched|
    ensures FollowPages(matched, size, limit, offset) == matched[offset..]
    decreases size - offset
  {
    FollowOnePage(matched, size, limit, offset);
    if |matched| > offset + limit {
      PagesConcatenate(matched, size, limit, offset + limit);
      SplitTail(matched, offset, offset + limit);
    }
  }

  lemma SplitTail<T>(s: seq<T>, a: nat, b: nat)
    requires a <= b <= |s|
    ensures s[a..] == Slice(s, a, b - a) + s[b..]
  {
  }

  lemma {:induction false} PagesAtMost<T>(matched: seq<T>, size: nat, limit: nat, offset: nat)
    requires limit > 0 && |matched| <= size
    ensures |FollowPages(matched, size, limit, offset)| <= if offset < |matched| then |matched| - offset else 0
    decreases size - offset
  {
    PageIsSlice(matched, size, limit, offset);
    if |matched| > offset + QueryUint(Some(limit), 100, 500) {
      PagesAtMost(matched, size, limit, offset + limit);
    }
  }

  /**
   Stepping by the requested limit lists every match exactly once if and only if that limit is one the
   service serves in full, or everything fits on its first page.
   */
  lemma PagingIsExact<T>(matched: seq<T>, size: nat, limit: nat)
    requires limit > 0 && |matched| <= size
    ensures FollowPages(matched, size, limit, 0) == matched <==> limit <= 500 || |matched| <= 500
  {
    PageIsSlice(matched, size, limit, 0);
    if limit <= 500 {
      PagesConcatenate(matched, size, limit, 0);
      assert matched[0..] == matched;
    } else if |matched| > 500 {
      PagesAtMost(matched, size, limit, limit);
    } else if matched != [] {
      assert matched[0..|matched|] == matched;
    }
  }
}
