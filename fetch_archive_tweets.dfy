/** The enrichment of the imported archive (src/scripts/fetch-archive-tweets.ts):
    every archive record that has neither tweet data nor a private or
    not-found flag is fetched in turn, the outcome is recorded on the record,
    progress is saved every ten records and the page files (twenty records
    each) are rebuilt every hundred, and once more at the end. */
module FetchArchive {
  import opened LikeTypes
  import opened Seqs
  import opened Batches
  import opened ArchiveLikes

  /** `EnrichedArchiveLike`: an archive record with the optional fields the
      fetch adds; an absent flag is `false`. */
  datatype Enriched = Enriched(
    like: ArchiveLike, react_tweet_data: Option<TweetData>, private: bool, notfound: bool,
    fetchedAt: Option<string>)

  /** `{ ...like }` */
  function Fresh(l: ArchiveLike): Enriched {
    Enriched(l, None, false, false, None)
  }

  /** The records the run starts from: the saved enriched output when it could
      be read and parsed, else a copy of every archive record. */
  function Start(likes: seq<ArchiveLike>, existing: Option<seq<Enriched>>): (r: seq<Enriched>)
    ensures existing.None? ==> |r| == |likes| && forall k :: 0 <= k < |likes| ==> r[k] == Fresh(likes[k])
  {
    if existing.Some? then existing.value
    else seq(|likes|, k requires 0 <= k < |likes| => Fresh(likes[k]))
  }

  /** The filter of `toFetch`. */
  predicate NeedsFetch(e: Enriched) {
    e.react_tweet_data.None? && !e.private && !e.notfound
  }

  /** The filter counted as `alreadyFetched`. */
  predicate IsFetched(e: Enriched) {
    e.react_tweet_data.Some? || e.private || e.notfound
  }

  /** `toFetch`, as the positions in `es` of the records it aliases. */
  function FetchIndices(es: seq<Enriched>): (idx: seq<nat>)
    ensures forall j :: 0 <= j < |idx| ==> idx[j] < |es|
    decreases |es|
  {
    if es == [] then []
    else FetchIndices(es[..|es| - 1]) + (if NeedsFetch(es[|es| - 1]) then [|es| - 1] else [])
  }

  /** The to-fetch positions are increasing and are exactly the records that
      need a fetch. */
  lemma {:induction false} FetchIndicesSpec(es: seq<Enriched>)
    ensures forall a, b :: 0 <= a < b < |FetchIndices(es)| ==> FetchIndices(es)[a] < FetchIndices(es)[b]
    ensures forall k :: k in FetchIndices(es) <==> 0 <= k < |es| && NeedsFetch(es[k])
    decreases |es|
  {
    if es != [] {
      var p := es[..|es| - 1];
      FetchIndicesSpec(p);
      forall k | 0 <= k < |p| ensures p[k] == es[k] { }
    }
  }

  /** `alreadyFetched + toFetch.length` is the number of records. */
  lemma {:induction false} FetchCount(es: seq<Enriched>)
    ensures |FetchIndices(es)| + |Filter(es, IsFetched)| == |es|
    decreases |es|
  {
    if es != [] {
      var p := es[..|es| - 1];
      FetchCount(p);
      assert es == p + [es[|es| - 1]];
      FilterConcat(p, [es[|es| - 1]], IsFetched);
    }
  }

  /** The record after the fetch with outcome `o`, at clock reading `at`. */
  function Apply(e: Enriched, o: FetchOutcome, at: string): Enriched {
    match o
    case FetchThrew => e.(notfound := true)
    case Fetched(data, tombstone, notFound) =>
      if data.Some? then e.(react_tweet_data := data, fetchedAt := Some(at))
      else if tombstone then e.(private := true)
      else if notFound then e.(notfound := true)
      else e
  }

  /** `successCount++` */
  predicate IsSuccess(o: FetchOutcome) { o.Fetched? && o.data.Some? }

  /** `errorCount++` */
  predicate IsError(o: FetchOutcome) {
    o.FetchThrew? || (o.data.None? && (o.tombstone || o.notFound))
  }

  /** The outcome of the `j`-th fetch: for the `j`-th record to fetch. */
  function Outcome(e0: seq<Enriched>, idx: seq<nat>, j: nat, fetch: string -> FetchOutcome): FetchOutcome
    requires j < |idx| && idx[j] < |e0|
  {
    fetch(e0[idx[j]].like.tweetId)
  }

  /** The records after the first `m` iterations of the loop. */
  function EnrichAfter(e0: seq<Enriched>, idx: seq<nat>, m: nat, fetch: string -> FetchOutcome, clock: nat -> string): (ls: seq<Enriched>)
    requires m <= |idx| && forall j :: 0 <= j < |idx| ==> idx[j] < |e0|
    ensures |ls| == |e0|
    decreases m
  {
    if m == 0 then e0
    else
      var ls0 := EnrichAfter(e0, idx, m - 1, fetch, clock);
      ls0[idx[m - 1] := Apply(ls0[idx[m - 1]], Outcome(e0, idx, m - 1, fetch), clock(m - 1))]
  }

  /** `successCount` after `m` iterations. */
  function Successes(e0: seq<Enriched>, idx: seq<nat>, m: nat, fetch: string -> FetchOutcome): nat
    requires m <= |idx| && forall j :: 0 <= j < |idx| ==> idx[j] < |e0|
    decreases m
  {
    if m == 0 then 0
    else Successes(e0, idx, m - 1, fetch) + (if IsSuccess(Outcome(e0, idx, m - 1, fetch)) then 1 else 0)
  }

  /** `errorCount` after `m` iterations. */
  function Errors(e0: seq<Enriched>, idx: seq<nat>, m: nat, fetch: string -> FetchOutcome): nat
    requires m <= |idx| && forall j :: 0 <= j < |idx| ==> idx[j] < |e0|
    decreases m
  {
    if m == 0 then 0
    else Errors(e0, idx, m - 1, fetch) + (if IsError(Outcome(e0, idx, m - 1, fetch)) then 1 else 0)
  }

  /** Iteration `i` of `n` saves progress. */
  predicate Saved(i: nat, n: nat) {
    (i + 1) % 10 == 0 || i == n - 1
  }

  /** The progress counts at which the output was saved, over `m` iterations of `n`. */
  function Saves(m: nat, n: nat): seq<nat>
    decreases m
  {
    if m == 0 then [] else Saves(m - 1, n) + (if Saved(m - 1, n) then [m] else [])
  }

  /** The progress counts at which the pages were rebuilt, and
      `lastPageUpdateCount`, over `m` iterations of `n`. */
  function Rebuilds(m: nat, n: nat): (seq<nat>, nat)
    decreases m
  {
    if m == 0 then ([], 0) else RebuildStep(Rebuilds(m - 1, n), m - 1, n)
  }

  /** Iteration `i` of `n` rebuilds the pages when it saves and a hundred
      records have been processed since the last rebuild, or it is the last. */
  function RebuildStep(st: (seq<nat>, nat), i: nat, n: nat): (seq<nat>, nat) {
    if Saved(i, n) && (i + 1 - st.1 >= 100 || i == n - 1) then (st.0 + [i + 1], i + 1) else st
  }

  /** The delays waited over `m` iterations of `n`. */
  function Delays(m: nat, n: nat): nat
    decreases m
  {
    if m == 0 then 0 else Delays(m - 1, n) + (if m - 1 < n - 1 then 1 else 0)
  }

  /** One output file `pages/page-<page>.json`. */
  datatype PageFile = PageFile(page: nat, totalPages: nat, totalLikes: nat, likes: seq<Enriched>)

  /** The page files `createPageFiles` writes for `ls`. */
  function PageFiles(ls: seq<Enriched>): seq<PageFile> {
    var cs := Chunks(ls, 20);
    seq(|cs|, k requires 0 <= k < |cs| => PageFile(k + 1, |cs|, |ls|, cs[k]))
  }

  /** `createPageFiles` */
  method CreatePageFiles(ls: seq<Enriched>) returns (pages: seq<PageFile>)
    ensures pages == PageFiles(ls)
  {
    var pageSize := 20;
    var totalPages := CeilDiv(|ls|, pageSize);
    ChunksCount(ls, pageSize);
    pages := [];
    for page := 0 to totalPages
      invariant |pages| == page
      invariant forall k :: 0 <= k < page ==> pages[k] == PageFiles(ls)[k]
    {
      ChunkAt(ls, pageSize, page);
      var start := page * pageSize;
      var end := Min(start + pageSize, |ls|);
      var pageLikes := ls[start..end];
      pages := pages + [PageFile(page + 1, totalPages, |ls|, pageLikes)];
    }
  }

  /** There are ceil(n / 20) pages; page `k + 1` holds records
      `[20k, min(20k + 20, n))`; every page records the page count and the
      record count; and the pages, concatenated, are the records. */
  lemma PageFilesSpec(ls: seq<Enriched>)
    ensures var ps := PageFiles(ls);
            && |ps| == CeilDiv(|ls|, 20)
            && |ps| * 20 >= |ls| && (|ls| > 0 ==> (|ps| - 1) * 20 < |ls|)
            && (forall k :: 0 <= k < |ps| ==>
                  && ps[k].page == k + 1 && ps[k].totalPages == |ps| && ps[k].totalLikes == |ls|
                  && k * 20 < |ls| && ps[k].likes == ls[k * 20 .. Min(k * 20 + 20, |ls|)])
            && Flatten(seq(|ps|, k requires 0 <= k < |ps| => ps[k].likes)) == ls
  {
    var ps := PageFiles(ls);
    ChunksCount(ls, 20);
    CeilDivBounds(|ls|, 20);
    forall k | 0 <= k < |ps| ensures k * 20 < |ls| && ps[k].likes == ls[k * 20 .. Min(k * 20 + 20, |ls|)] {
      PageAt(ls, k);
    }
    PagesFlatten(ls);
  }

  lemma PageAt(ls: seq<Enriched>, k: nat)
    requires k < |PageFiles(ls)|
    ensures k * 20 < |ls| && PageFiles(ls)[k].likes == ls[k * 20 .. Min(k * 20 + 20, |ls|)]
  {
    ChunkAt(ls, 20, k);
  }

  lemma PagesFlatten(ls: seq<Enriched>)
    ensures var ps := PageFiles(ls);
            Flatten(seq(|ps|, k requires 0 <= k < |ps| => ps[k].likes)) == ls
  {
    var ps := PageFiles(ls);
    assert seq(|ps|, k requires 0 <= k < |ps| => ps[k].likes) == Chunks(ls, 20);
    ChunksFlatten(ls, 20);
  }

  /** The body of the loop for one fetch outcome: the updated record and
      the success and error counters. */
  method RecordOutcome(like: Enriched, o: FetchOutcome, at: string, successCount: nat, errorCount: nat)
    returns (updated: Enriched, successCount': nat, errorCount': nat)
    ensures updated == Apply(like, o, at)
    ensures successCount' == successCount + (if IsSuccess(o) then 1 else 0)
    ensures errorCount' == errorCount + (if IsError(o) then 1 else 0)
  {
    updated, successCount', errorCount' := like, successCount, errorCount;
    match o {
      case FetchThrew =>
        updated := updated.(notfound := true);
        errorCount' := errorCount + 1;
      case Fetched(data, tombstone, notFound) =>
        if data.Some? {
          updated := updated.(react_tweet_data := data, fetchedAt := Some(at));
          successCount' := successCount + 1;
        } else if tombstone {
          updated := updated.(private := true);
          errorCount' := errorCount + 1;
        } else if notFound {
          updated := updated.(notfound := true);
          errorCount' := errorCount + 1;
        }
    }
  }

  /** What one run does: the final records (saved once more at the end), the
      counters, whether page files were built before the loop, the progress
      counts of the saves and page rebuilds inside it, the delays, and the
      final page files. */
  datatype FetchRun = FetchRun(
    likes: seq<Enriched>, success: nat, errors: nat, initialPages: bool,
    saves: seq<nat>, pageUpdates: seq<nat>, delays: nat, pages: seq<PageFile>)

  /** `fetchArchiveTweets`, given the parsed `archive-likes.json`, the parsed
      enriched output if it could be read, the fetch outcome for each tweet
      ID, and the clock reading at each iteration. */
  method FetchArchiveTweets(likes: seq<ArchiveLike>, existing: Option<seq<Enriched>>,
                            fetch: string -> FetchOutcome, clock: nat -> string)
    returns (r: FetchRun)
    ensures var e0 := Start(likes, existing);
            var idx := FetchIndices(e0);
            var n := |idx|;
            var ls := EnrichAfter(e0, idx, n, fetch, clock);
            r == FetchRun(ls, Successes(e0, idx, n, fetch), Errors(e0, idx, n, fetch),
                          |Filter(e0, IsFetched)| > 0, Saves(n, n), Rebuilds(n, n).0, Delays(n, n),
                          PageFiles(ls))
  {
    var enriched := Start(likes, existing);
    ghost var e0 := enriched;
    var toFetch := FetchIndices(enriched);
    var alreadyFetched := |Filter(enriched, IsFetched)|;
    var initialPages := false;
    if alreadyFetched > 0 {
      var _ := CreatePageFiles(enriched);
      initialPages := true;
    }
    FetchIndicesSpec(enriched);
    var successCount, errorCount, saves, pageUpdates, delays;
    enriched, successCount, errorCount, saves, pageUpdates, delays := FetchLoop(enriched, toFetch, fetch, clock);
    var pages := CreatePageFiles(enriched);
    r := FetchRun(enriched, successCount, errorCount, initialPages, saves, pageUpdates, delays, pages);
  }

  /** Saving progress after iteration `i` of `n`, and rebuilding the pages
      from `enriched` when due. */
  method Checkpoint(enriched: seq<Enriched>, i: nat, n: nat, saves: seq<nat>, pageUpdates: seq<nat>, last: nat)
    returns (saves': seq<nat>, pageUpdates': seq<nat>, last': nat)
    ensures saves' == saves + (if Saved(i, n) then [i + 1] else [])
    ensures (pageUpdates', last') == RebuildStep((pageUpdates, last), i, n)
  {
    saves', pageUpdates', last' := saves, pageUpdates, last;
    if (i + 1) % 10 == 0 || i == n - 1 {
      saves' := saves + [i + 1];
      if i + 1 - last >= 100 || i == n - 1 {
        var _ := CreatePageFiles(enriched);
        pageUpdates' := pageUpdates + [i + 1];
        last' := i + 1;
      }
    }
  }

  /** The end of iteration `i` of `n`: the checkpoint, then the delay before
      the next fetch. */
  method Progress(enriched: seq<Enriched>, i: nat, n: nat, saves: seq<nat>, pageUpdates: seq<nat>, last: nat, delays: nat)
    returns (saves': seq<nat>, pageUpdates': seq<nat>, last': nat, delays': nat)
    requires saves == Saves(i, n) && (pageUpdates, last) == Rebuilds(i, n) && delays == Delays(i, n)
    ensures saves' == Saves(i + 1, n) && (pageUpdates', last') == Rebuilds(i + 1, n) && delays' == Delays(i + 1, n)
  {
    saves', pageUpdates', last' := Checkpoint(enriched, i, n, saves, pageUpdates, last);
    delays' := delays;
    if i < n - 1 {
      delays' := delays + 1;
    }
  }

  /** Iteration `i` of the loop: the record at `idx[i]` is fetched and
      updated, and the counters are bumped. */
  method FetchOne(e0: seq<Enriched>, idx: seq<nat>, i: nat, fetch: string -> FetchOutcome, clock: nat -> string,
                  enriched: seq<Enriched>, successCount: nat, errorCount: nat)
    returns (enriched': seq<Enriched>, successCount': nat, errorCount': nat)
    requires i < |idx| && forall j :: 0 <= j < |idx| ==> idx[j] < |e0|
    requires enriched == EnrichAfter(e0, idx, i, fetch, clock)
    requires successCount == Successes(e0, idx, i, fetch) && errorCount == Errors(e0, idx, i, fetch)
    ensures enriched' == EnrichAfter(e0, idx, i + 1, fetch, clock)
    ensures successCount' == Successes(e0, idx, i + 1, fetch) && errorCount' == Errors(e0, idx, i + 1, fetch)
  {
    var k := idx[i];
    var like := enriched[k];
    EnrichAfterKeepsLike(e0, idx, i, fetch, clock);
    var o := fetch(like.like.tweetId);
    assert o == Outcome(e0, idx, i, fetch);
    like, successCount', errorCount' := RecordOutcome(like, o, clock(i), successCount, errorCount);
    enriched' := enriched[k := like];
  }

  /** The loop over the records to fetch, `idx` being their positions in `e0`. */
  method FetchLoop(e0: seq<Enriched>, idx: seq<nat>, fetch: string -> FetchOutcome, clock: nat -> string)
    returns (enriched: seq<Enriched>, successCount: nat, errorCount: nat, saves: seq<nat>, pageUpdates: seq<nat>, delays: nat)
    requires forall j :: 0 <= j < |idx| ==> idx[j] < |e0|
    ensures enriched == EnrichAfter(e0, idx, |idx|, fetch, clock)
    ensures successCount == Successes(e0, idx, |idx|, fetch)
    ensures errorCount == Errors(e0, idx, |idx|, fetch)
    ensures saves == Saves(|idx|, |idx|)
    ensures pageUpdates == Rebuilds(|idx|, |idx|).0
    ensures delays == Delays(|idx|, |idx|)
  {
    enriched := e0;
    successCount, errorCount, delays := 0, 0, 0;
    var lastPageUpdateCount := 0;
    saves, pageUpdates := [], [];
    var n := |idx|;
    for i := 0 to n
      invariant enriched == EnrichAfter(e0, idx, i, fetch, clock)
      invariant successCount == Successes(e0, idx, i, fetch)
      invariant errorCount == Errors(e0, idx, i, fetch)
      invariant saves == Saves(i, n)
      invariant (pageUpdates, lastPageUpdateCount) == Rebuilds(i, n)
      invariant delays == Delays(i, n)
    {
      enriched, successCount, errorCount := FetchOne(e0, idx, i, fetch, clock, enriched, successCount, errorCount);
      saves, pageUpdates, lastPageUpdateCount, delays := Progress(enriched, i, n, saves, pageUpdates, lastPageUpdateCount, delays);
    }
  }

  /** Positions in `idx` are distinct. */
  ghost predicate Increasing(idx: seq<nat>) {
    forall a, b :: 0 <= a < b < |idx| ==> idx[a] < idx[b]
  }

  /** After `m` iterations, the `j`-th record to fetch (`j < m`) carries the
      outcome of its own fetch at clock reading `j`, and every other record is
      as it was. */
  lemma {:induction false} EnrichAfterSpec(e0: seq<Enriched>, idx: seq<nat>, m: nat,
                                           fetch: string -> FetchOutcome, clock: nat -> string)
    requires m <= |idx| && Increasing(idx) && forall j :: 0 <= j < |idx| ==> idx[j] < |e0|
    ensures var ls := EnrichAfter(e0, idx, m, fetch, clock);
            && (forall j :: 0 <= j < m ==> ls[idx[j]] == Apply(e0[idx[j]], Outcome(e0, idx, j, fetch), clock(j)))
            && (forall k :: 0 <= k < |e0| && (forall j :: 0 <= j < m ==> idx[j] != k) ==> ls[k] == e0[k])
    decreases m
  {
    if m > 0 {
      EnrichAfterSpec(e0, idx, m - 1, fetch, clock);
      var ls0 := EnrichAfter(e0, idx, m - 1, fetch, clock);
      var k := idx[m - 1];
      assert ls0[k] == e0[k];
      var ls := EnrichAfter(e0, idx, m, fetch, clock);
      forall j | 0 <= j < m
        ensures ls[idx[j]] == Apply(e0[idx[j]], Outcome(e0, idx, j, fetch), clock(j))
      {
        if j < m - 1 {
          assert idx[j] < k;
          assert ls[idx[j]] == ls0[idx[j]];
        }
      }
      forall q | 0 <= q < |e0| && (forall j :: 0 <= j < m ==> idx[j] != q) ensures ls[q] == e0[q] {
        assert idx[m - 1] != q;
        assert ls[q] == ls0[q];
      }
    }
  }

  /** A fetch never changes the archive fields of a record, so reading the
      tweet ID from the current record reads the original one. */
  lemma {:induction false} EnrichAfterKeepsLike(e0: seq<Enriched>, idx: seq<nat>, m: nat,
                                                fetch: string -> FetchOutcome, clock: nat -> string)
    requires m <= |idx| && forall j :: 0 <= j < |idx| ==> idx[j] < |e0|
    ensures forall q :: 0 <= q < |e0| ==> EnrichAfter(e0, idx, m, fetch, clock)[q].like == e0[q].like
    decreases m
  {
    if m > 0 {
      EnrichAfterKeepsLike(e0, idx, m - 1, fetch, clock);
    }
  }

  /** Over the whole run: a record that needed a fetch ends up with the
      outcome of its fetch, at the clock reading of its place in the to-fetch
      list; every other record is unchanged, and none is added or dropped. */
  lemma EnrichedSpec(e0: seq<Enriched>, fetch: string -> FetchOutcome, clock: nat -> string, k: nat)
    requires k < |e0|
    ensures var idx := FetchIndices(e0);
            var ls := EnrichAfter(e0, idx, |idx|, fetch, clock);
            && |ls| == |e0|
            && (!NeedsFetch(e0[k]) ==> ls[k] == e0[k])
            && (NeedsFetch(e0[k]) ==> exists j :: 0 <= j < |idx| && idx[j] == k
                                        && ls[k] == Apply(e0[k], fetch(e0[k].like.tweetId), clock(j)))
  {
    var idx := FetchIndices(e0);
    FetchIndicesSpec(e0);
    EnrichAfterSpec(e0, idx, |idx|, fetch, clock);
    if NeedsFetch(e0[k]) {
      assert k in idx;
      var j :| 0 <= j < |idx| && idx[j] == k;
    } else {
      assert k !in idx;
    }
  }

  /** Data sets `react_tweet_data` and `fetchedAt`; a tombstone sets
      `private`; not-found sets `notfound`; a thrown error sets `notfound`;
      nothing else about the record changes. A record is left to fetch again
      exactly when the fetch reported nothing at all, and then no counter moves. */
  lemma ApplySpec(e: Enriched, o: FetchOutcome, at: string)
    requires NeedsFetch(e)
    ensures Apply(e, o, at).like == e.like
    ensures IsSuccess(o) ==> Apply(e, o, at) == e.(react_tweet_data := o.data, fetchedAt := Some(at))
    ensures o.Fetched? && o.data.None? && o.tombstone ==> Apply(e, o, at) == e.(private := true)
    ensures o.Fetched? && o.data.None? && !o.tombstone && o.notFound ==> Apply(e, o, at) == e.(notfound := true)
    ensures o.FetchThrew? ==> Apply(e, o, at) == e.(notfound := true)
    ensures NeedsFetch(Apply(e, o, at)) <==> o == Fetched(None, false, false)
    ensures IsSuccess(o) || IsError(o) <==> o != Fetched(None, false, false)
    ensures !(IsSuccess(o) && IsError(o))
  {
  }

  /** The counters: one success or one error per iteration at most. */
  lemma {:induction false} CountsBound(e0: seq<Enriched>, idx: seq<nat>, m: nat, fetch: string -> FetchOutcome)
    requires m <= |idx| && forall j :: 0 <= j < |idx| ==> idx[j] < |e0|
    ensures Successes(e0, idx, m, fetch) + Errors(e0, idx, m, fetch) <= m
    decreases m
  {
    if m > 0 {
      CountsBound(e0, idx, m - 1, fetch);
    }
  }

  /** Progress is saved after every tenth record and after the last. */
  lemma {:induction false} SavesSpec(m: nat, n: nat, c: int)
    requires m <= n
    ensures c in Saves(m, n) <==> 1 <= c <= m && (c % 10 == 0 || c == n)
    decreases m
  {
    if m > 0 {
      SavesSpec(m - 1, n, c);
    }
  }

  /** The page files are rebuilt after the hundredth, the two-hundredth, ...
      record and after the last: `lastPageUpdateCount` trails the progress
      count by less than a hundred. */
  lemma {:induction false} RebuildsSpec(m: nat, n: nat, c: int)
    requires m <= n
    ensures c in Rebuilds(m, n).0 <==> 1 <= c <= m && (c % 100 == 0 || c == n)
    ensures m < n ==> Rebuilds(m, n).1 == m - m % 100
    decreases m
  {
    if m > 0 {
      RebuildsSpec(m - 1, n, c);
      Hundreds(m - 1);
    }
  }

  /** Where `%` by a hundred steps from 99 back to 0. */
  lemma Hundreds(i: nat)
    ensures (i + 1) % 100 == 0 <==> i % 100 == 99
    ensures (i + 1) % 100 == 0 ==> (i + 1) % 10 == 0
    ensures (i + 1) % 100 != 0 ==> (i + 1) % 100 == i % 100 + 1
    ensures i - i % 100 <= i
  {
  }

  /** One delay between each two consecutive fetches. */
  lemma {:induction false} DelaysSpec(m: nat, n: nat)
    requires m <= n
    ensures Delays(m, n) == if m < n then m else Max0(n - 1)
    decreases m
  {
    if m > 0 {
      DelaysSpec(m - 1, n);
    }
  }

  function Max0(x: int): nat { if x < 0 then 0 else x }
}
