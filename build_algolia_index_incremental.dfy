/** The incremental Algolia update (src/scripts/build-algolia-index-incremental.ts):
    only day files modified after the last recorded sync are read, their
    records are sent as partial updates in batches of 1000, and the sync
    file then records the time and the number of records. */
module AlgoliaIncremental {
  import opened LikeTypes
  import opened Seqs
  import opened FileTree
  import opened Dedup
  import opened Batches
  import opened TweetIndex
  import opened AlgoliaIndex

  /** `{ timestamp, recordCount }` as `saveLastSyncInfo` writes it. */
  datatype LastSyncInfo = LastSyncInfo(timestamp: string, recordCount: nat)

  /** The sync file `algolia-last-sync.json`: absent, present but not
      readable or not JSON, or parsed, with the `timestamp` member it holds. */
  datatype SyncFile = Absent | Corrupt | Holds(timestamp: string)

  /** `getLastSyncInfo`: the parsed file, or `null` for an absent or corrupt one. */
  function GetLastSyncInfo(f: SyncFile): (r: Option<string>)
    ensures r.Some? <==> f.Holds?
    ensures r.Some? ==> r.value == f.timestamp
  {
    if f.Holds? then Some(f.timestamp) else None
  }

  /** `lastSyncDate`: `null`, or `new Date(timestamp)`, which is an invalid
      date when the timestamp does not parse. */
  datatype Since = Everything | After(t: int) | InvalidDate

  function SinceOf(last: Option<string>, parseDate: string -> Option<int>): Since {
    if last.None? then Everything
    else if parseDate(last.value).Some? then After(parseDate(last.value).value)
    else InvalidDate
  }

  /** `stats.mtime > lastSyncDate`; any comparison with an invalid date is false. */
  predicate ModifiedSince(since: Since, f: StoreFile) {
    match since
    case Everything => true
    case After(t) => f.mtime > t
    case InvalidDate => false
  }

  /** `modifiedFiles` */
  function ModifiedFiles(files: seq<StoreFile>, since: Since): seq<StoreFile> {
    if since.Everything? then files else Filter(files, f => ModifiedSince(since, f))
  }

  /** What one run does: the `partialUpdateObjects` batches sent, the sync
      information saved, and whether the run ends without throwing. */
  datatype IncrementalRun = IncrementalRun(updates: seq<seq<AlgoliaRecord>>, saved: Option<LastSyncInfo>, ok: bool)

  /** `buildAlgoliaIndexIncremental`, given whether both credentials are set,
      the sync file, the date parser, the files the glob finds, the parsed
      tweet index (`None` when it cannot be read or parsed) and the clock's
      ISO string. */
  method BuildAlgoliaIndexIncremental(credentials: bool, syncFile: SyncFile, parseDate: string -> Option<int>,
                                      files: seq<StoreFile>, tweetIndex: Option<Index>, now: string)
    returns (r: IncrementalRun)
    ensures !credentials || tweetIndex.None? ==> r == IncrementalRun([], None, false)
    ensures credentials && tweetIndex.Some? ==>
              var modified := ModifiedFiles(GlobDayFiles(files), SinceOf(GetLastSyncInfo(syncFile), parseDate));
              var pushed := CollectAll(modified, RecordCollector(tweetIndex.value));
              && (modified == [] ==> r == IncrementalRun([], None, true))
              && (modified != [] && pushed.None? ==> r == IncrementalRun([], None, false))
              && (modified != [] && pushed.Some? ==>
                    var u := DedupByKey(pushed.value, RecordId);
                    r == if u == [] then IncrementalRun([], None, true)
                         else IncrementalRun(Chunks(u, BatchSize), Some(LastSyncInfo(now, |u|)), true))
  {
    if !credentials {
      return IncrementalRun([], None, false);
    }
    var lastSync := GetLastSyncInfo(syncFile);
    var lastSyncDate := SinceOf(lastSync, parseDate);
    var dayFiles := GlobDayFiles(files);
    if tweetIndex.None? {
      return IncrementalRun([], None, false);
    }
    var modifiedFiles := ModifiedFiles(dayFiles, lastSyncDate);
    if |modifiedFiles| == 0 {
      return IncrementalRun([], None, true);
    }
    var records := CollectRecords(tweetIndex.value, modifiedFiles);
    if records.None? {
      return IncrementalRun([], None, false);
    }
    var uniqueRecords := DedupByKey(records.value, RecordId);
    if |uniqueRecords| == 0 {
      return IncrementalRun([], None, true);
    }
    var batches := SliceBatches(uniqueRecords, BatchSize);
    var updates := [];
    for b := 0 to |batches|
      invariant updates == batches[..b]
    {
      updates := updates + [batches[b]];
    }
    assert batches[..|batches|] == batches;
    r := IncrementalRun(updates, Some(LastSyncInfo(now, |uniqueRecords|)), true);
  }

  /** With a previous sync only files modified strictly after it are read;
      without one, every file; with a timestamp that does not parse, none. */
  lemma ModifiedFilesSpec(files: seq<StoreFile>, since: Since, f: StoreFile)
    ensures f in ModifiedFiles(files, since) <==> f in files && ModifiedSince(since, f)
    ensures since.Everything? ==> ModifiedFiles(files, since) == files
    ensures since.InvalidDate? ==> ModifiedFiles(files, since) == []
  {
    FilterMembers(files, f => ModifiedSince(since, f));
    if since.InvalidDate? {
      FilterEmpty(files, f => ModifiedSince(since, f));
    }
  }

  /** An absent or corrupt sync file means every file is read. */
  lemma NoSyncReadsAll(syncFile: SyncFile, parseDate: string -> Option<int>, files: seq<StoreFile>)
    requires !syncFile.Holds?
    ensures ModifiedFiles(files, SinceOf(GetLastSyncInfo(syncFile), parseDate)) == files
  {
  }

  /** The sync file is written only after at least one batch, and records
      the number of distinct records sent, which the batches cover exactly,
      at most 1000 to a batch. */
  lemma SavedSpec(records: seq<AlgoliaRecord>, now: string)
    requires DedupByKey(records, RecordId) != []
    ensures var u := DedupByKey(records, RecordId);
            var bs := Chunks(u, BatchSize);
            && |bs| > 0 && Flatten(bs) == u
            && (forall b :: b in bs ==> 0 < |b| <= BatchSize)
            && LastSyncInfo(now, |u|).recordCount == |Flatten(bs)|
            && DistinctKeys(Flatten(bs), RecordId)
  {
    var u := DedupByKey(records, RecordId);
    ChunksFlatten(u, BatchSize);
    DedupDistinct(records, RecordId);
  }
}
