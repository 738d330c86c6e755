/** The full Algolia rebuild (src/scripts/build-algolia-index.ts): one record
    per public liked tweet that has a tweet-index entry, deduplicated by
    `objectID`, uploaded in batches of 1000 after the index is cleared. */
module AlgoliaIndex {
  import opened LikeTypes
  import opened Seqs
  import opened FileTree
  import opened Dedup
  import opened Batches
  import opened TweetIndex
  import opened SearchIndex

  datatype AlgoliaRecord = AlgoliaRecord(
    objectID: string, text: string, username: string, date: string,
    year: string, month: string, day: string, path: string)

  function RecordId(r: AlgoliaRecord): string { r.objectID }

  const BatchSize: nat := 1000

  /** The record of an eligible like whose ID has the tweet-index entry `info`. */
  function RecordOf(info: TweetIndexEntry, l: Like): AlgoliaRecord
    requires l.tweet_id.Some?
  {
    var id := l.tweet_id.value;
    AlgoliaRecord(id, OrEmpty(l.text), OrEmpty(l.username),
                  info.year + "/" + info.month + "/" + info.day,
                  info.year, info.month, info.day, "/tweet/" + id)
  }

  /** A like gives a record when it is eligible and its ID is in the index. */
  predicate Indexed(index: Index, l: Like) {
    Eligible(l) && l.tweet_id.value in index
  }

  /** The records pushed for one day document, in body order. */
  function BodyRecords(index: Index, body: seq<Like>): seq<AlgoliaRecord>
    decreases |body|
  {
    if body == [] then []
    else
      var l := body[|body| - 1];
      BodyRecords(index, body[..|body| - 1])
        + (if Indexed(index, l) then [RecordOf(index[l.tweet_id.value], l)] else [])
  }

  /** The records pushed for one file: none unless it holds an array `body`;
      `None` when its parse throws. */
  function FileRecords(index: Index, f: StoreFile): Option<seq<AlgoliaRecord>> {
    if f.content.Unparseable? then None
    else if f.content.DayObject? then Some(BodyRecords(index, f.content.body))
    else Some([])
  }

  function RecordCollector(index: Index): StoreFile -> Option<seq<AlgoliaRecord>> {
    f => FileRecords(index, f)
  }

  /** The calls made on the Algolia client, in order. */
  datatype AlgoliaCall = SetSettings | ClearObjects | SaveObjects(objects: seq<AlgoliaRecord>)

  function SaveCalls(batches: seq<seq<AlgoliaRecord>>): (cs: seq<AlgoliaCall>)
    ensures |cs| == |batches|
    ensures forall i :: 0 <= i < |cs| ==> cs[i] == SaveObjects(batches[i])
  {
    seq(|batches|, i requires 0 <= i < |batches| => SaveObjects(batches[i]))
  }

  /** `buildAlgoliaIndex`, given whether both credentials are set, the files
      the glob finds and the parsed tweet index (`None` when it cannot be read
      or parsed): the calls made on the client, and whether the run ends
      without throwing. */
  method BuildAlgoliaIndex(credentials: bool, files: seq<StoreFile>, tweetIndex: Option<Index>)
    returns (calls: seq<AlgoliaCall>, ok: bool)
    ensures !credentials ==> calls == [] && !ok
    ensures credentials && tweetIndex.None? ==> calls == [SetSettings] && !ok
    ensures credentials && tweetIndex.Some? ==>
              var pushed := CollectAll(GlobDayFiles(files), RecordCollector(tweetIndex.value));
              && (pushed.None? ==> calls == [SetSettings] && !ok)
              && (pushed.Some? ==>
                    && ok
                    && calls == [SetSettings, ClearObjects]
                                + SaveCalls(Chunks(DedupByKey(pushed.value, RecordId), BatchSize)))
  {
    if !credentials {
      return [], false;
    }
    calls := [SetSettings];
    if tweetIndex.None? {
      return calls, false;
    }
    var index := tweetIndex.value;
    var dayFiles := GlobDayFiles(files);
    var records := CollectRecords(index, dayFiles);
    if records.None? {
      return calls, false;
    }
    var uploads := UploadRecords(records.value);
    calls := calls + uploads;
    ok := true;
  }

  /** The deduplication and the upload: the index is cleared, then one
      `saveObjects` call per batch of up to 1000 unique records, in order. */
  method UploadRecords(records: seq<AlgoliaRecord>) returns (calls: seq<AlgoliaCall>)
    ensures calls == [ClearObjects] + SaveCalls(Chunks(DedupByKey(records, RecordId), BatchSize))
  {
    var uniqueRecords := DedupByKey(records, RecordId);
    calls := [ClearObjects];
    var batches := SliceBatches(uniqueRecords, BatchSize);
    for b := 0 to |batches|
      invariant calls == [ClearObjects] + SaveCalls(batches[..b])
    {
      assert SaveCalls(batches[..b + 1]) == SaveCalls(batches[..b]) + [SaveObjects(batches[b])];
      calls := calls + [SaveObjects(batches[b])];
    }
    assert batches[..|batches|] == batches;
  }

  /** The loop over the files, pushing the records of each; `None` when a
      file's parse throws. */
  method CollectRecords(index: Index, dayFiles: seq<StoreFile>) returns (r: Option<seq<AlgoliaRecord>>)
    ensures r == CollectAll(dayFiles, RecordCollector(index))
  {
    var records: seq<AlgoliaRecord> := [];
    for i := 0 to |dayFiles|
      invariant CollectAll(dayFiles[..i], RecordCollector(index)) == Some(records)
    {
      var f := dayFiles[i];
      if f.content.Unparseable? {
        CollectAllStop(dayFiles, i, RecordCollector(index));
        return None;
      }
      var w := records;
      assert records + [] == records;
      if f.content.DayObject? {
        w := PushBodyRecords(records, index, f.content.body);
      }
      CollectAllStep(dayFiles, i, RecordCollector(index), records, FileRecords(index, f).value);
      records := w;
    }
    assert dayFiles[..|dayFiles|] == dayFiles;
    return Some(records);
  }

  /** The inner `for (const like of content.body)` loop. */
  method PushBodyRecords(acc: seq<AlgoliaRecord>, index: Index, body: seq<Like>) returns (r: seq<AlgoliaRecord>)
    ensures r == acc + BodyRecords(index, body)
  {
    r := acc;
    for i := 0 to |body|
      invariant r == acc + BodyRecords(index, body[..i])
    {
      assert body[..i + 1][..i] == body[..i];
      var like := body[i];
      if Eligible(like) {
        var tweetInfo := if like.tweet_id.value in index then Some(index[like.tweet_id.value]) else None;
        if tweetInfo.Some? {
          r := r + [RecordOf(tweetInfo.value, like)];
        }
      }
    }
    assert body[..|body|] == body;
  }

  /** A record is pushed exactly for each eligible like with an index entry,
      and is that like's record. */
  lemma {:induction false} BodyRecordsSpec(index: Index, body: seq<Like>, x: AlgoliaRecord)
    ensures x in BodyRecords(index, body) <==>
              exists l :: l in body && Indexed(index, l) && x == RecordOf(index[l.tweet_id.value], l)
    decreases |body|
  {
    if body != [] {
      var b' := body[..|body| - 1];
      BodyRecordsSpec(index, b', x);
      assert body == b' + [body[|body| - 1]];
      if exists l :: l in body && Indexed(index, l) && x == RecordOf(index[l.tweet_id.value], l) {
        var l :| l in body && Indexed(index, l) && x == RecordOf(index[l.tweet_id.value], l);
        if l != body[|body| - 1] {
          assert l in b';
        }
      }
    }
  }

  /** The record of a like carries its ID as `objectID`, the year, month and
      day of its index entry, their `/`-joined date, and `/tweet/<id>`. */
  lemma RecordOfSpec(info: TweetIndexEntry, l: Like)
    requires l.tweet_id.Some?
    ensures var r := RecordOf(info, l);
            && r.objectID == l.tweet_id.value && r.path == "/tweet/" + l.tweet_id.value
            && r.year == info.year && r.month == info.month && r.day == info.day
            && r.date == info.year + "/" + info.month + "/" + info.day
            && (Truthy(l.text) ==> r.text == l.text.value) && (!Truthy(l.text) ==> r.text == "")
            && (Truthy(l.username) ==> r.username == l.username.value) && (!Truthy(l.username) ==> r.username == "")
  {
  }

  /** The uploaded records: the batches, concatenated, are the deduplicated
      records; each batch holds at most 1000; no two share an `objectID`;
      the IDs are those pushed; each is the last one pushed with its ID. */
  lemma UploadSpec(records: seq<AlgoliaRecord>, k: string)
    ensures var u := DedupByKey(records, RecordId);
            var bs := Chunks(u, BatchSize);
            && Flatten(bs) == u
            && (forall b :: b in bs ==> 0 < |b| <= BatchSize)
            && |bs| == CeilDiv(|u|, BatchSize)
            && DistinctKeys(u, RecordId)
            && (k in Keys(u, RecordId) <==> k in Keys(records, RecordId))
            && (forall i :: 0 <= i < |u| ==> 0 <= LastKey(records, u[i].objectID, RecordId)
                                             && u[i] == records[LastKey(records, u[i].objectID, RecordId)])
  {
    var u := DedupByKey(records, RecordId);
    ChunksFlatten(u, BatchSize);
    ChunksCount(u, BatchSize);
    DedupDistinct(records, RecordId);
    DedupKeyIff(records, RecordId, k);
    DedupLast(records, RecordId);
  }

  /** The index is cleared before any upload, and settings come first. */
  lemma ClearBeforeUpload(batches: seq<seq<AlgoliaRecord>>)
    ensures var calls := [SetSettings, ClearObjects] + SaveCalls(batches);
            && calls[0] == SetSettings && calls[1] == ClearObjects
            && forall i :: 0 <= i < |calls| && calls[i].SaveObjects? ==> i >= 2
  {
  }
}
