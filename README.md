# next-x-likes: ingestion and indexing core in Dafny

next-x-likes is a site that republishes the posts its author liked on X.
Behind it is a set of offline scripts that turn raw "like" records into day
documents `src/content/likes/<year>/<month>/<day>.json` (a `DayJson`, that is
`{ body: Like[] }`). Other scripts derive indexes from those documents: a
tweet-ID index, a search index, Algolia records, a URL index and an activity
summary. A few UI components hold pure helpers over the same data.

This project models that core in Dafny:

- Each script is a module with the script's own loop as a `method`, proved
  equal to a specification function over the inputs.
- Lemmas state what the script promises about that function: which records
  are kept, which ID wins, the sort order, the page or batch shape, the early
  returns.

Everything outside the program becomes an input.

- **File system.** A directory tree (`FileTree.Entry`, where an unreadable
  directory makes its listing throw), or a list of `StoreFile`s for a glob
  result. A file's JSON content is a `LikeTypes.Content` variant.
- **Clocks and host-local date getters.** Oracle parameters: `instant`,
  `localDay`, `weekday`, `clock`, `stamp`, `now`, `zonedShift`.
- **Network calls.** Oracle parameters too: the tweet API (`fetch`), S3
  get/delete (`get`, `del`) and URL parsing (`pathname`).

Modules, one per source file:

- `LikesProcessor` (`likes-processor.ts`) is a class `ContentDir` whose field
  `days` is the set of day documents. Its methods update that field.
- Shared modules, defined once and used by all scripts:
  - `LikeTypes`: the record types.
  - `FileTree`: directory trees and listings.
  - `Seqs`: a stable sort, filters and take.
  - `Dedup`: the `new Map(...).values()` dedup and last-write-wins assignment.
  - `Batches`: slicing into batches.
  - `Text`: JavaScript string operations.
  - `Calendar`: day arithmetic and weekdays.

## Model

| member | source | states |
|---|---|---|
| LikeTypes.OrEmpty | src/scripts/build-search-index.ts:43-44 | `x \|\| ''`: a truthy string is kept, an absent or empty one becomes `''` |
| FileTree.GlobDayFilesMembers | src/scripts/build-algolia-index.ts:85-86 | the `**/[0-9][0-9].json` glob yields exactly the files whose basename is two digits followed by `.json` |
| FileTree.DayFileStem | src/scripts/build-tweet-index.ts:49 | removing the first `.json` from a day file name leaves its two-digit day |
| Seqs.SortByPerm | src/scripts/likes-processor.ts:118-121 | the sort that `Array.prototype.sort` performs is a permutation of its input |
| Seqs.SortBySorted | src/scripts/likes-processor.ts:118-121 | under a total preorder comparator, the sorted result is ordered |
| Seqs.SortByStable | src/scripts/build-search-index.ts:59 | the sort is stable: the elements that tie with any given element keep their relative order |
| Seqs.TakeSorted | src/scripts/build-activity-data.ts:58-60 | taking the first n of a sorted sequence keeps an ordered prefix, and every element left out is ordered after every element kept |
| Seqs.UniqueSpec | src/scripts/create-podcast-from-json.ts:201 | `[...new Set(urls)]` holds every input element once, in the order of first occurrence |
| Dedup.DedupDistinct | src/scripts/build-search-index.ts:54-56 | `Array.from(new Map(xs.map(x => [key, x])).values())` has distinct keys |
| Dedup.DedupKeys | src/scripts/build-search-index.ts:54-56 | the deduplicated sequence has exactly the keys of the input |
| Dedup.DedupLast | src/scripts/build-search-index.ts:54-56 | each kept element is the value of the last input element with its key |
| Dedup.DedupOrder | src/scripts/build-search-index.ts:54-56 | kept elements appear in the order of the first occurrence of their keys |
| Dedup.AssignDomain | src/scripts/build-tweet-index.ts:57 | after `index[key] = x` over a log, a key is present iff it was present before or occurs in the log |
| Dedup.AssignValue | src/scripts/build-tweet-index.ts:57-64 | a key written by the log maps to the log's last element with that key (last write wins) |
| Dedup.AssignUntouched | src/scripts/build-tweet-index.ts:57 | a key not written by the log keeps its previous value |
| Dedup.AssignAppend | src/scripts/build-tweet-index.ts:55-66 | assigning a concatenated log is assigning the first part and then the second |
| Batches.ChunksFlatten | src/scripts/build-algolia-index.ts:133-134 | consecutive slices `slice(i, i + n)` for `i = 0, n, 2n, ...` concatenate back to the input |
| Batches.ChunksCount | src/scripts/build-algolia-index.ts:133 | there are `ceil(len / n)` slices |
| Batches.ChunkAt | src/scripts/fetch-archive-tweets.ts:35-38 | slice k holds the elements `[k*n, min(k*n + n, len))` |
| Batches.CeilDivBounds | src/scripts/fetch-archive-tweets.ts:30 | `ceil(a / n) * n >= a`, and `(ceil(a / n) - 1) * n < a` when `a > 0` |
| Batches.SliceBatches | src/scripts/build-algolia-index.ts:133-140 | the batching loop yields exactly the consecutive slices of size n |
| Text.NatToStringSpec | src/scripts/likes-processor.ts:92-94 | `toString()` of a number gives its decimal digits with no leading zero, and they parse back to the number |
| Text.Pad2 | src/scripts/likes-processor.ts:93-94 | `padStart(2, '0')` adds only leading zeros, up to length 2 |
| Text.PadThenStrip | src/app/page.tsx:24-25 | for 1..99, padding to two digits and then stripping one leading zero gives back the unpadded number |
| Text.TrimSpec | src/components/search.tsx:107 | `trim()` removes exactly the leading and trailing white space |
| Text.TrimEmptyIff | src/components/search.tsx:107 | a string trims to empty iff it is all white space |
| Text.WordsSpec | src/components/search.tsx:109 | `split(/\s+/).filter(q => q)` gives non-empty words without white space, and none iff the input trims to empty |
| Text.IncludesIff | src/components/search.tsx:84 | `includes` holds iff the pattern occurs at some index |
| Text.ReplaceFirstSuffix | src/scripts/sync-x-likes.ts:175 | `replace('.json', '')` removes the first occurrence only: the whole suffix when it is the only one, and nothing when there is none |
| Text.SplitJoin | src/scripts/create-podcast-from-json.ts:335 | `split('.')` gives fields without the separator that join back to the input |
| Text.SplitHead | src/app/layout.tsx:70 | `split('.')[0]` is the prefix up to the first `.` |
| Text.LowerIdempotent | src/components/search.tsx:80-81 | lower-casing twice is lower-casing once |
| Text.StrLeTotalOrder | src/scripts/build-search-index.ts:59 | the string order standing in for `localeCompare` is total, transitive and antisymmetric |
| Text.KeyOrderTotal | src/scripts/build-search-index.ts:59 | a comparator that orders by a string key (the `date`, `yyyymmdd` and tweet-ID comparators, ascending or descending) is a total preorder, so the stable sort by it is well defined |
| Calendar.DaysBeforeNumber | src/lib/activity-helper.ts:17-18 | `setDate(getDate() - i)` moves i days back on the day line |
| Calendar.PrevDayWeekday | src/lib/activity-helper.ts:51 | the weekday of the previous day is one less, modulo 7 |
| LikesProcessor.ContentDir.MergeRecord | src/scripts/likes-processor.ts:72-143 | one raw record: the new day documents are `MergedDays` of the old ones |
| LikesProcessor.ContentDir.ProcessAndGenerateContent | src/scripts/likes-processor.ts:27-210 | the whole run: the documents and the outcome (ran through, returned early, threw) are those of `RunAll` |
| LikesProcessor.ContentDir.ProcessFiles | src/scripts/likes-processor.ts:66-143 | the loop over one month's files is `ScanFiles` of the starting documents |
| LikesProcessor.ContentDir.Write | src/scripts/likes-processor.ts:123-126 | writing a day file replaces that one document and no other |
| LikesProcessor.ContentDir.constructor | src/scripts/likes-processor.ts:32-35 | the content directory starts with the given documents |
| LikesProcessor.EarlyReturn | src/scripts/likes-processor.ts:67 | the first non-`.json` entry ends the whole run with the documents written so far; later files and months are not processed |
| LikesProcessor.ScanFilesStops | src/scripts/likes-processor.ts:66-67 | once the file loop has returned or thrown, the remaining files change nothing |
| LikesProcessor.ScanMonthsStops | src/scripts/likes-processor.ts:58-67 | once the month loop has returned or thrown, the remaining months change nothing |
| LikesProcessor.SkipWithoutId | src/scripts/likes-processor.ts:72-76 | a record whose URL yields no tweet ID leaves every document unchanged |
| LikesProcessor.NormalisedSpec | src/scripts/likes-processor.ts:77-84 | an accepted record gets `tweet_id`, `private = false` and `notfound = false`; a truthy `embed_code` is dropped and a falsy one kept; `first_link`, `created_at`, `source` and every other field are copied |
| LikesProcessor.DayPathSpec | src/scripts/likes-processor.ts:91-94 | the day key is the host-local year, then month and day as two digits each that parse back to the local date |
| LikesProcessor.Pad2Digits | src/scripts/likes-processor.ts:93-94 | a month or day 1..99 padded to two characters is two digits with the same value |
| LikesProcessor.LaterFirstTotal | src/scripts/likes-processor.ts:118-121 | the `liked_at`-descending comparator is a total preorder on numeric instants (unparseable dates are left out) |
| LikesProcessor.MergedDaysFrame | src/scripts/likes-processor.ts:102-143 | only the record's own day document can change; a document is created only when the record has an ID |
| LikesProcessor.MergeUnchanged | src/scripts/likes-processor.ts:111-114 | when the day document already holds the tweet ID, nothing changes |
| LikesProcessor.MergedHoldsId | src/scripts/likes-processor.ts:111-142 | after merging a record with an ID, its day document holds that ID |
| LikesProcessor.MergeIdempotent | src/scripts/likes-processor.ts:111-114 | merging the same record twice is merging it once |
| LikesProcessor.MergeAppends | src/scripts/likes-processor.ts:117-127 | a new ID grows the body by exactly the normalised record (as a multiset), and the body is sorted by `liked_at` descending |
| LikesProcessor.MergeCreates | src/scripts/likes-processor.ts:130-142 | a missing or unreadable day document is replaced by `{ body: [record] }` |
| LikesProcessor.MergeKeepsAbsorbed | src/scripts/likes-processor.ts:102-143 | once a record's ID is in its day document, merging any other record keeps it there |
| LikesProcessor.MergeAllAbsorbs | src/scripts/likes-processor.ts:58-143 | after merging a list of records, every record with an ID is held by its day document |
| LikesProcessor.MergeAllFixed | src/scripts/likes-processor.ts:111-114 | merging records that are all held already changes nothing |
| LikesProcessor.ScanFilesRecords | src/scripts/likes-processor.ts:66-143 | the file loop is a fold of the merge over the records its files yield, up to the first return or throw |
| LikesProcessor.ScanMonthsRecords | src/scripts/likes-processor.ts:58-143 | the month loop is a fold of the merge over the records of its months, up to the first return or throw |
| LikesProcessor.RunAllRecords | src/scripts/likes-processor.ts:27-143 | a run merges, in order, records fixed by the data directory alone, and its outcome depends on that directory alone |
| LikesProcessor.RunAllIdempotent | src/scripts/likes-processor.ts:27-143 | running the processor again over the same raw directory, starting from the documents the first run left, leaves them unchanged with the same outcome |
| SyncLikes.LastSyncTimeSpec | src/scripts/sync-x-likes.ts:59-119 | a missing checkpoint file, or one whose trimmed text is not a date, gives Tokyo-shifted now minus 24 hours; otherwise the parsed date |
| SyncLikes.DropTrailingSlashes | src/scripts/sync-x-likes.ts:171 | `basename` ignores trailing `/`: the result is a prefix with no trailing slash |
| SyncLikes.LastSegment | src/scripts/sync-x-likes.ts:171 | the basename is a suffix of the key and holds no `/` |
| SyncLikes.BasenameSpec | src/scripts/sync-x-likes.ts:171 | the basename of `dir/name` is `name` |
| SyncLikes.LastSegmentOf | src/scripts/sync-x-likes.ts:171 | the last segment after a `/` is the name that follows it |
| SyncLikes.ExistingRawTweetIds | src/scripts/sync-x-likes.ts:81-99 | an unlistable raw directory gives no IDs; otherwise the IDs of its `.json` names |
| SyncLikes.RawIdsSpec | src/scripts/sync-x-likes.ts:87-92 | an ID is a raw ID iff some `.json` file name minus its first `.json` equals it |
| SyncLikes.Partition | src/scripts/sync-x-likes.ts:146-228 | new objects are those modified strictly after the checkpoint, old ones those at or before it; together they are the listing |
| SyncLikes.DownloadPhase | src/scripts/sync-x-likes.ts:166-211 | the download loop's files and counters are those of `Downloaded` |
| SyncLikes.DownloadedSnoc | src/scripts/sync-x-likes.ts:170-211 | one more new object is one more download step |
| SyncLikes.DownloadedStops | src/scripts/sync-x-likes.ts:199-200 | once a fetch throws, the later objects change nothing |
| SyncLikes.DownloadStepSpec | src/scripts/sync-x-likes.ts:170-211 | one step raises the counters by at most one, writes only new files, and a write raises `downloaded` |
| SyncLikes.DownloadCounts | src/scripts/sync-x-likes.ts:166-211 | `downloaded + skipped + duplicate` never exceeds the new objects; the files grow by `downloaded` and existing files keep their content |
| SyncLikes.DownloadStepFrom | src/scripts/sync-x-likes.ts:178-210 | a file written by a step is named by the key's basename, its ID is not already known, and its content is the fetched non-empty body |
| SyncLikes.DownloadedFrom | src/scripts/sync-x-likes.ts:178-210 | every file the phase writes comes from a new object whose ID was unknown, with its fetched non-empty content |
| SyncLikes.DownloadStepTo | src/scripts/sync-x-likes.ts:178-210 | a step that does not fail leaves an object with an unknown ID and a non-empty body among the local files, written with that body when it was not there |
| SyncLikes.DownloadedComplete | src/scripts/sync-x-likes.ts:178-210 | a download loop that ends without a failed read has every new object with an unknown ID and a non-empty body among the local files |
| SyncLikes.SyncDownloadsComplete | src/scripts/sync-x-likes.ts:140-210 | a run that does not exit has a local file for every object modified after the checkpoint whose ID is in neither the tweet index nor the raw files and whose body is non-empty |
| SyncLikes.DeletePhase | src/scripts/sync-x-likes.ts:231-249 | the objects deleted are the old ones with a local copy whose delete succeeds, in order; a failed delete does not stop the loop |
| SyncLikes.DeleteStep | src/scripts/sync-x-likes.ts:231-249 | one more old object is deleted iff it has a local copy and its delete succeeds |
| SyncLikes.DownloadNewFiles | src/scripts/sync-x-likes.ts:121-268 | the whole sync (local files, deletions, checkpoint, exit) is `Sync` of the inputs |
| SyncLikes.NoNewObjects | src/scripts/sync-x-likes.ts:152-155 | with no new objects nothing is written, nothing deleted and no checkpoint saved |
| SyncLikes.CheckpointLast | src/scripts/sync-x-likes.ts:152-263 | the checkpoint is written iff there were new objects and the run did not exit on an error, and then with the finish instant (Tokyo wall time written with its `+09:00` offset); an exit deletes nothing |
| SyncLikes.DeletedMembers | src/scripts/sync-x-likes.ts:222-249 | an object is deleted iff it is listed, not newer than the checkpoint, its basename is a local `.json` file, and the delete succeeds |
| SyncLikes.DeletedSpec | src/scripts/sync-x-likes.ts:222-249 | in a completed run, an object is deleted iff it is old, its basename is a local `.json` file after the download phase, and the delete succeeds |
| FetchArchive.Start | src/scripts/fetch-archive-tweets.ts:74-84 | without earlier enriched output, the working list is a fresh copy of every input like |
| FetchArchive.FetchIndices | src/scripts/fetch-archive-tweets.ts:87-89 | the to-fetch positions are positions of the working list |
| FetchArchive.FetchIndicesSpec | src/scripts/fetch-archive-tweets.ts:87-89 | the to-fetch positions are increasing, and are exactly those of the likes with none of `react_tweet_data`, `private`, `notfound` |
| FetchArchive.FetchCount | src/scripts/fetch-archive-tweets.ts:87-95 | `toFetch + alreadyFetched = total` |
| FetchArchive.EnrichAfter | src/scripts/fetch-archive-tweets.ts:109-142 | enriching never changes the number of likes |
| FetchArchive.ApplySpec | src/scripts/fetch-archive-tweets.ts:117-142 | data sets `react_tweet_data` and `fetchedAt`, a tombstone sets `private`, not-found sets `notfound`, a thrown error sets `notfound`; a response with none of them leaves the like to be fetched again and counts nothing |
| FetchArchive.EnrichAfterSpec | src/scripts/fetch-archive-tweets.ts:109-142 | after m fetches, each of the first m to-fetch likes holds its classified outcome; the others are unchanged |
| FetchArchive.EnrichAfterKeepsLike | src/scripts/fetch-archive-tweets.ts:117-142 | enrichment never changes the archive fields of a like |
| FetchArchive.EnrichedSpec | src/scripts/fetch-archive-tweets.ts:87-142 | after the loop, a like that needed no fetch is unchanged and one that did holds its fetch outcome |
| FetchArchive.CountsBound | src/scripts/fetch-archive-tweets.ts:123-136 | `successCount + errorCount` is at most the number of fetches |
| FetchArchive.SavesSpec | src/scripts/fetch-archive-tweets.ts:145 | progress is saved after fetch c iff c is a multiple of 10 or the last one |
| FetchArchive.RebuildsSpec | src/scripts/fetch-archive-tweets.ts:154-158 | pages are rebuilt after fetch c iff c is a multiple of 100 or the last one |
| FetchArchive.DelaysSpec | src/scripts/fetch-archive-tweets.ts:162-164 | there is a delay after every fetch but the last |
| FetchArchive.CreatePageFiles | src/scripts/fetch-archive-tweets.ts:25-52 | the page loop writes exactly `PageFiles` of the likes |
| FetchArchive.PageFilesSpec | src/scripts/fetch-archive-tweets.ts:29-45 | there are `ceil(n/20)` pages; page k+1 holds `[20k, min(20k+20, n))`, records `totalPages` and `totalLikes = n`, and the pages concatenate to the input |
| FetchArchive.PageAt | src/scripts/fetch-archive-tweets.ts:35-38 | page k holds the likes `[20k, min(20k+20, n))` |
| FetchArchive.PagesFlatten | src/scripts/fetch-archive-tweets.ts:35-44 | the pages' likes concatenate to the input |
| FetchArchive.RecordOutcome | src/scripts/fetch-archive-tweets.ts:117-142 | one outcome updates the like as classified and raises exactly one of the two counters, or neither |
| FetchArchive.FetchOne | src/scripts/fetch-archive-tweets.ts:110-142 | one loop iteration advances the enriched list and both counters by one fetch |
| FetchArchive.FetchLoop | src/scripts/fetch-archive-tweets.ts:109-165 | the loop ends with the enriched list, counters, save points, page rebuilds and delays of the specification |
| FetchArchive.Checkpoint | src/scripts/fetch-archive-tweets.ts:144-159 | a save is logged iff the cadence says so, and a page rebuild follows the 100-since-last rule |
| FetchArchive.Progress | src/scripts/fetch-archive-tweets.ts:144-164 | the save, rebuild and delay logs advance by one iteration |
| FetchArchive.FetchArchiveTweets | src/scripts/fetch-archive-tweets.ts:54-181 | the whole run: final list, counters, initial pages only when something was already fetched, saves, rebuilds, delays and final pages |
| InsertTweet.EnrichSpec | src/scripts/insert-tweet-to-json.ts:29-47 | a like with data, or without `tweet_id`, is kept unchanged; otherwise data, `private = !!tombstone` and `notfound = !!notFound` are set, or the run throws if the fetch throws |
| InsertTweet.EnrichAllSpec | src/scripts/insert-tweet-to-json.ts:29-47 | the body is enriched like by like, position for position, unless a fetch throws |
| InsertTweet.EnrichAllNone | src/scripts/insert-tweet-to-json.ts:42 | a throwing fetch ends the body's enrichment |
| InsertTweet.EnrichLikes | src/scripts/insert-tweet-to-json.ts:27-47 | the like loop computes `EnrichAll` |
| InsertTweet.DayWriteSpec | src/scripts/insert-tweet-to-json.ts:20-55 | a processed day file is rewritten once, with the same number of likes, as a permutation of the enriched body sorted by `liked_at` descending; likes that had data are kept |
| InsertTweet.RunWritesSorted | src/scripts/insert-tweet-to-json.ts:50-55 | every file the run writes is a `.json` file with a body sorted by `liked_at` descending |
| InsertTweet.EarlyReturn | src/scripts/insert-tweet-to-json.ts:20 | the first non-`.json` day entry ends the run with the writes made so far |
| InsertTweet.YearReturns | src/scripts/insert-tweet-to-json.ts:9-20 | a return inside a year ends the whole run |
| InsertTweet.ScanStatus | src/scripts/insert-tweet-to-json.ts:11-20 | a run ends early iff some step ends it, and then it ends with the first such step's outcome |
| InsertTweet.ScanWrites | src/scripts/insert-tweet-to-json.ts:55 | every write comes from one of the visited entries |
| InsertTweet.ScanStops | src/scripts/insert-tweet-to-json.ts:20 | once a loop has ended, the remaining entries change nothing |
| InsertTweet.ScanStep | src/scripts/insert-tweet-to-json.ts:19-58 | one more entry appends its writes and takes its outcome |
| InsertTweet.InsertTweetDataToJson | src/scripts/insert-tweet-to-json.ts:6-61 | the writes and the outcome of the run are `Run` of the tree |
| InsertTweet.ProcessYear | src/scripts/insert-tweet-to-json.ts:15-59 | the month loop is the scan of the year's months |
| InsertTweet.ProcessMonth | src/scripts/insert-tweet-to-json.ts:19-58 | the day loop is the scan of the month's files |
| TweetIndex.BuildTweetIndex | src/scripts/build-tweet-index.ts:25-82 | the index is the entries of the scan assigned in order onto `{}` |
| TweetIndex.IndexYear | src/scripts/build-tweet-index.ts:35-70 | one year extends the index by its months' entries |
| TweetIndex.IndexMonth | src/scripts/build-tweet-index.ts:41-69 | one month extends the index by its day files' entries |
| TweetIndex.IndexDayFile | src/scripts/build-tweet-index.ts:48-68 | one day file extends the index by its likes with an ID |
| TweetIndex.DirOrder | src/scripts/build-tweet-index.ts:29-39 | the years scanned are exactly the `^\d{4}$` entries, the months exactly the `^\d{2}$` entries, each in sorted order |
| TweetIndex.DayEntriesSpec | src/scripts/build-tweet-index.ts:49-65 | a day file yields entries exactly for its likes with an ID, with `filePath`, year, month, day (file name minus `.json`) and `likedAt` of that like |
| TweetIndex.DayEntriesShape | src/scripts/build-tweet-index.ts:57-64 | a day file's entries carry the year and month being scanned |
| TweetIndex.MonthEntriesShape | src/scripts/build-tweet-index.ts:41-64 | a month's entries carry that year and month name |
| TweetIndex.YearEntriesShape | src/scripts/build-tweet-index.ts:37-39 | a year's entries carry that year and a two-digit month |
| TweetIndex.StoreEntriesShape | src/scripts/build-tweet-index.ts:29-39 | every entry has a four-digit year and a two-digit month |
| TweetIndex.IndexSpec | src/scripts/build-tweet-index.ts:54-67 | the keys are exactly the IDs scanned, and each maps to the last-scanned entry for it, whose `id` is the key |
| SearchIndex.BuildSearchIndex | src/scripts/build-search-index.ts:17-62 | an unreadable tweet index or day file throws; otherwise the output is the collected items deduplicated and sorted |
| SearchIndex.PushBodyItems | src/scripts/build-search-index.ts:34-49 | the like loop appends the body's items |
| SearchIndex.BodyItemsSpec | src/scripts/build-search-index.ts:35 | an item is emitted iff some like has a `tweet_id` and is neither private nor not-found |
| SearchIndex.ItemOfSpec | src/scripts/build-search-index.ts:36-47 | `id` is the tweet ID and `path` is `/tweet/<id>`; `date` is empty iff the ID is not in the index; a missing text becomes `''` |
| SearchIndex.FinishSpec | src/scripts/build-search-index.ts:53-59 | the output has distinct IDs, exactly the IDs collected, sorted by `date` descending, and is a permutation of the deduplicated items |
| SearchIndex.FinishLast | src/scripts/build-search-index.ts:54-56 | each output item is the last collected item with its ID |
| SearchIndex.FinishStable | src/scripts/build-search-index.ts:59 | items with equal dates keep their deduplicated order |
| AlgoliaIndex.BuildAlgoliaIndex | src/scripts/build-algolia-index.ts:23-143 | missing credentials throw before any call; an unreadable tweet index or day file throws after the settings call; otherwise settings, clear, then one save per batch of the deduplicated records |
| AlgoliaIndex.UploadRecords | src/scripts/build-algolia-index.ts:120-140 | clear, then the batches of the deduplicated records |
| AlgoliaIndex.CollectRecords | src/scripts/build-algolia-index.ts:96-118 | the file loop collects the records of every file, or throws |
| AlgoliaIndex.PushBodyRecords | src/scripts/build-algolia-index.ts:100-116 | the like loop appends the body's records |
| AlgoliaIndex.BodyRecordsSpec | src/scripts/build-algolia-index.ts:101-104 | a record is emitted iff some like is eligible and its ID is in the tweet index |
| AlgoliaIndex.RecordOfSpec | src/scripts/build-algolia-index.ts:104-113 | `objectID` is the tweet ID; year, month and day come from the index; `date` joins them with `/`; `path` is `/tweet/<id>`; missing text and username become `''` |
| AlgoliaIndex.UploadSpec | src/scripts/build-algolia-index.ts:120-140 | batches are non-empty slices of at most 1000 that concatenate to the deduplicated records, whose IDs are distinct, cover the input's, and carry each ID's last record |
| AlgoliaIndex.ClearBeforeUpload | src/scripts/build-algolia-index.ts:127-138 | no save happens before the clear |
| AlgoliaIncremental.ModifiedFilesSpec | src/scripts/build-algolia-index-incremental.ts:76-82 | with a sync date, exactly the files with `mtime` strictly after it; without one, every file; with an invalid date, none |
| AlgoliaIncremental.NoSyncReadsAll | src/scripts/build-algolia-index-incremental.ts:30-82 | without a readable sync file every file is processed |
| AlgoliaIncremental.SavedSpec | src/scripts/build-algolia-index-incremental.ts:115-143 | the partial-update batches are non-empty slices of at most 1000 covering the distinct records, and `recordCount` is their number |
| AlgoliaIncremental.BuildAlgoliaIndexIncremental | src/scripts/build-algolia-index-incremental.ts:45-143 | no modified files or no records means return without saving sync info; otherwise the batches and a sync info counting the deduplicated records |
| ExtractUrls.ExtractUrls | src/scripts/extract-urls.ts:27-97 | the output is the collected entries sorted by `yyyymmdd` descending, or the run throws |
| ExtractUrls.PushEntries | src/scripts/extract-urls.ts:47-84 | the like loop appends the body's entries |
| ExtractUrls.BodyEntriesSpec | src/scripts/extract-urls.ts:49 | an entry is emitted iff some like has tweet data with a non-empty URL list |
| ExtractUrls.EntryOfSpec | src/scripts/extract-urls.ts:51-83 | the `urls` mirror the entities position by position, a truthy `expanded_url`/`display_url` copied and a falsy one `''`; `card` is present iff the tweet has one, with its `title` and `description`, a truthy `url` copied (else `''`) and the image priority; `username` is present iff the tweet has a truthy one; `tweet_url` and `liked_at` are copied and the date comes from the path |
| ExtractUrls.DayFromPath | src/scripts/extract-urls.ts:42 | the day is the file name minus `.json` |
| ExtractUrls.OutputSpec | src/scripts/extract-urls.ts:89-93 | the output is a permutation of the entries, sorted, with ties in collection order |
| Activity.WithoutExt | src/scripts/build-activity-data.ts:36 | Node's `basename(name, '.json')` on one path segment: the name with the extension removed when it ends with it (`''` for the name `.json` itself), the name unchanged otherwise |
| Activity.FileActivitySpec | src/scripts/build-activity-data.ts:28-54 | a file is counted iff its path has 3 segments and it parses; `count` is its body length or 0; `date` is `yyyy-mm-dd` |
| Activity.DateOrdersTotal | src/scripts/build-activity-data.ts:59-61 | both date comparators are total preorders |
| Activity.LeftOutNotLater | src/scripts/build-activity-data.ts:58-60 | a date left out is not later than any date kept |
| Activity.LatestSevenSpec | src/scripts/build-activity-data.ts:57-61 | `min(7, n)` entries, ascending, drawn from the input, and none left out is later than one kept |
| Activity.BuildActivityData | src/scripts/build-activity-data.ts:17-72 | the cache holds the latest seven of the collected entries and the timestamp |
| ArchiveLikes.StripHeaderSpec | src/scripts/process-archive-likes.ts:26 | the `window.YTD.like.partN =` header is removed iff the content starts with it, removed whole with the white space after `=`, and the rest is kept |
| ArchiveLikes.StripTailSpec | src/scripts/process-archive-likes.ts:27 | `;?\s*$` removes the shortest-starting match: an optional `;` and the white space that ends the content |
| ArchiveLikes.StripLeadFound | src/scripts/process-archive-likes.ts:26 | the header strip cuts a matched prefix ending before a non-space |
| ArchiveLikes.ProcessArchiveLikes | src/scripts/process-archive-likes.ts:32-118 | the run's output is `Run` of the index keys, the file names and the loaded files |
| ArchiveLikes.GatherFiles | src/scripts/process-archive-likes.ts:64-96 | a file that fails to load throws; otherwise all files' entries are gathered in order |
| ArchiveLikes.AbsorbFile | src/scripts/process-archive-likes.ts:69-95 | the entry loop gathers one more file |
| ArchiveLikes.GatherNext | src/scripts/process-archive-likes.ts:69-95 | one more entry is one more gathering step |
| ArchiveLikes.GatherShape | src/scripts/process-archive-likes.ts:70-94 | kept records plus skipped ones never exceed the entries; each record has `id = archive-<tweetId>`, `isArchive`, and an ID not in the index |
| ArchiveLikes.GatherSeenLikes | src/scripts/process-archive-likes.ts:78-83 | the seen set is exactly the IDs of the kept records |
| ArchiveLikes.GatherSeen | src/scripts/process-archive-likes.ts:71-83 | an ID is seen iff it occurs in the entries and is not in the index |
| ArchiveLikes.GatherDistinct | src/scripts/process-archive-likes.ts:78-83 | kept records have distinct tweet IDs |
| ArchiveLikes.GatherFirst | src/scripts/process-archive-likes.ts:78-92 | each kept record carries the text and URL of the first entry with its ID |
| ArchiveLikes.GatherSkipped | src/scripts/process-archive-likes.ts:71-75 | `existingDuplicateCount` is the number of entries whose ID is in the index |
| ArchiveLikes.OutputSpec | src/scripts/process-archive-likes.ts:104-113 | the output is a permutation of the records, sorted by tweet ID descending, with distinct IDs; the ID list is their IDs in order |
| ArchiveLikes.OutputRecords | src/scripts/process-archive-likes.ts:64-104 | the saved records are distinct, sorted, not in the index, and each is the first archive entry with its ID |
| ArchiveLikes.OutputIdsOf | src/scripts/process-archive-likes.ts:113 | the ID list holds exactly the kept records' IDs |
| ArchiveLikes.OutputIds | src/scripts/process-archive-likes.ts:64-113 | an ID is in the ID list iff some archive entry has it and it is not in the index |
| DuplicateTweets.ScanStore | src/scripts/remove-duplicate-tweets.ts:46-113 | the year loop visits `StoreScan` of the tree |
| DuplicateTweets.ScanYear | src/scripts/remove-duplicate-tweets.ts:48-112 | a non-directory year is skipped; a listable one adds its months' files |
| DuplicateTweets.ScanMonthEntry | src/scripts/remove-duplicate-tweets.ts:57-111 | a non-directory month is skipped; a listable one adds its `.json` files |
| DuplicateTweets.ScanMonth | src/scripts/remove-duplicate-tweets.ts:66-70 | the day loop visits the `.json` entries in listing order |
| DuplicateTweets.MonthScanMembers | src/scripts/remove-duplicate-tweets.ts:57-70 | a month yields exactly its `.json` entries, with their paths and contents |
| DuplicateTweets.YearScanMembers | src/scripts/remove-duplicate-tweets.ts:48-70 | a year yields exactly the files of its month directories |
| DuplicateTweets.StoreScanMembers | src/scripts/remove-duplicate-tweets.ts:46-70 | the walk yields exactly the files of the year directories |
| DuplicateTweets.RecordFiles | src/scripts/remove-duplicate-tweets.ts:72-110 | phase 1 keeps the files with an array body, records every like with an ID under its ID, and counts parsed files and all likes |
| DuplicateTweets.RecordTweets | src/scripts/remove-duplicate-tweets.ts:87-106 | one file's like loop records its occurrences |
| DuplicateTweets.RecordLike | src/scripts/remove-duplicate-tweets.ts:88-105 | a like without an ID is skipped; one with an ID is recorded |
| DuplicateTweets.Record | src/scripts/remove-duplicate-tweets.ts:101-105 | `set(id, [])` if absent, then push: the map and key order gain one occurrence |
| DuplicateTweets.RecordStep | src/scripts/remove-duplicate-tweets.ts:101-105 | recording one occurrence appends it under its ID and lists a new ID last |
| DuplicateTweets.DayFilesMembers | src/scripts/remove-duplicate-tweets.ts:78-84 | the kept files are exactly the visited files whose body is an array |
| DuplicateTweets.AllOccurrencesMembers | src/scripts/remove-duplicate-tweets.ts:87-105 | the occurrences are exactly the likes with an ID in the kept files, each with its file |
| DuplicateTweets.OccurrencesKeys | src/scripts/remove-duplicate-tweets.ts:101-105 | the map's keys are the listed IDs, which are the IDs of the occurrences |
| DuplicateTweets.OccurrencesSpec | src/scripts/remove-duplicate-tweets.ts:101-105 | each ID maps to its occurrences in scanning order, at least one |
| DuplicateTweets.IdsDistinct | src/scripts/remove-duplicate-tweets.ts:101-103 | each ID is listed once |
| DuplicateTweets.EarlierLikedTotal | src/scripts/remove-duplicate-tweets.ts:132 | the `liked_at`-ascending comparator is a total preorder |
| DuplicateTweets.DupMap | src/scripts/remove-duplicate-tweets.ts:121-140 | `duplicatedTweets` holds only IDs with more than one occurrence, each with all of them |
| DuplicateTweets.FindDuplicates | src/scripts/remove-duplicate-tweets.ts:118-140 | phase 2 yields the duplicated IDs, their sorted occurrences and `duplicatesFound`, unless a report throws |
| DuplicateTweets.CheckKey | src/scripts/remove-duplicate-tweets.ts:121-139 | one key of phase 2 |
| DuplicateTweets.DupMapSpec | src/scripts/remove-duplicate-tweets.ts:121-132 | an ID is in `duplicatedTweets` iff it occurs more than once, and its occurrences are sorted by `liked_at` ascending |
| DuplicateTweets.ExtraCount | src/scripts/remove-duplicate-tweets.ts:122-124 | `duplicatesFound` plus the number of distinct IDs is the number of occurrences |
| DuplicateTweets.ExtraZero | src/scripts/remove-duplicate-tweets.ts:142-145 | `duplicatesFound == 0` iff no ID is duplicated |
| DuplicateTweets.ExtraRepeat | src/scripts/remove-duplicate-tweets.ts:124 | one more occurrence of a known ID adds one duplicate |
| DuplicateTweets.ExtraFresh | src/scripts/remove-duplicate-tweets.ts:124 | an occurrence of a new ID adds a key and no duplicate |
| DuplicateTweets.ExtraBump | src/scripts/remove-duplicate-tweets.ts:124 | pushing onto a listed ID adds one to the count |
| DuplicateTweets.ExtraAgree | src/scripts/remove-duplicate-tweets.ts:124 | the count depends only on the lengths of the listed IDs' entries |
| DuplicateTweets.DuplicatesFoundSpec | src/scripts/remove-duplicate-tweets.ts:118-145 | `duplicatesFound` is occurrences minus distinct IDs, and is 0 iff nothing is duplicated |
| DuplicateTweets.KeepMapSpec | src/scripts/remove-duplicate-tweets.ts:150-161 | a file keeps a duplicated ID iff it holds that ID's first sorted occurrence |
| DuplicateTweets.PlanKeeps | src/scripts/remove-duplicate-tweets.ts:150-161 | the loop builds `tweetsToKeepByFile` |
| DuplicateTweets.RewriteFiles | src/scripts/remove-duplicate-tweets.ts:166-192 | the writes are those of `Rewrites`, in `fileData` order |
| DuplicateTweets.RewritesMembers | src/scripts/remove-duplicate-tweets.ts:166-192 | a file is written iff the filter dropped one of its likes, and then with the filtered body |
| DuplicateTweets.NonDuplicatesStay | src/scripts/remove-duplicate-tweets.ts:170-176 | likes without an ID and likes whose ID is not duplicated all stay, in order |
| DuplicateTweets.DupEntry | src/scripts/remove-duplicate-tweets.ts:121-132 | a duplicated ID has more than one occurrence, listed sorted |
| DuplicateTweets.EarliestOccurrence | src/scripts/remove-duplicate-tweets.ts:132-136 | the head after sorting is an earliest occurrence, and no earlier-scanned occurrence ties it |
| DuplicateTweets.KeptFileIsEarliest | src/scripts/remove-duplicate-tweets.ts:152-161 | the file a duplicated ID is kept in holds its earliest-liked occurrence |
| DuplicateTweets.CopiesOfDuplicate | src/scripts/remove-duplicate-tweets.ts:170-180 | the copies of a duplicated ID all stay in the file it is kept in and are all removed from every other file |
| DuplicateTweets.NoDuplicatesNoChange | src/scripts/remove-duplicate-tweets.ts:142-145 | without duplicates the filter changes nothing, so returning early loses nothing |
| DuplicateTweets.RewrittenStore | src/scripts/remove-duplicate-tweets.ts:166-192 | after a run every written file holds what was written and every other file is as it was; a run without duplicates leaves the store as it was |
| DuplicateTweets.AllOccCount | src/scripts/remove-duplicate-tweets.ts:87-105 | the occurrences recorded for an ID are exactly its copies across the day files |
| DuplicateTweets.CountAtMostOne | src/scripts/remove-duplicate-tweets.ts:170-180 | with distinct paths, copies of an ID confined to one path and at most one per file make at most one copy in all |
| DuplicateTweets.SecondRunFindsNothing | src/scripts/remove-duplicate-tweets.ts:118-192 | running the script again over the files a run leaves finds `duplicatesFound == 0` and writes nothing, when no day file lists the same tweet twice |
| DuplicateTweets.CollectAfter | src/scripts/remove-duplicate-tweets.ts:78-84 | the day documents found in the store a run leaves are the filtered day files, in the same order |
| DuplicateTweets.RemovalRerun | src/scripts/remove-duplicate-tweets.ts:28-206 | the whole script run again over the files it left returns at "No duplicates found!" with no write and no summary, when the day paths are distinct and no day file lists the same tweet twice |
| DuplicateTweets.NotDupCount | src/scripts/remove-duplicate-tweets.ts:121-180 | an ID a run does not treat as duplicated has at most one copy, before the run and after it |
| DuplicateTweets.DupShrinks | src/scripts/remove-duplicate-tweets.ts:121-180 | an ID a second run treats as duplicated was duplicated in the first |
| DuplicateTweets.CopyAtKeptPath | src/scripts/remove-duplicate-tweets.ts:150-180 | after a run every copy of a duplicated ID lies in a file at the path the run kept it in |
| DuplicateTweets.KeptPathStays | src/scripts/remove-duplicate-tweets.ts:132-161 | a second run keeps each ID it finds duplicated at the same path the first run kept it in |
| DuplicateTweets.RerunWritesNothing | src/scripts/remove-duplicate-tweets.ts:166-192 | for any store, a second run over the day files a run leaves writes no file |
| DuplicateTweets.RemovalRerunWritesNothing | src/scripts/remove-duplicate-tweets.ts:28-206 | for any store, the whole script run again over the files it left either throws in a report or writes nothing |
| DuplicateTweets.RemoveDuplicateTweets | src/scripts/remove-duplicate-tweets.ts:28-206 | a listing that throws rejects the run; otherwise the writes and the summary are `Removal` of the visited files |
| RawDedup.DigitRun | src/scripts/remove-duplicate-raw-likes.ts:18 | `\d+` is greedy: the run is all digits and ends at a non-digit or the end |
| RawDedup.MatchFromSpec | src/scripts/remove-duplicate-raw-likes.ts:18 | the search finds the leftmost `/status/<digit>` position and captures its digits |
| RawDedup.MatchFromNone | src/scripts/remove-duplicate-raw-likes.ts:18-19 | no match iff no position holds `/status/` followed by a digit |
| RawDedup.MatchFromSome | src/scripts/remove-duplicate-raw-likes.ts:18-19 | a match is the capture at the leftmost such position |
| RawDedup.ExtractTweetIdSpec | src/scripts/remove-duplicate-raw-likes.ts:17-20 | `null` iff no `/status/<digits>` occurs; otherwise the greedy digit run after the leftmost `/status/` |
| RawDedup.CapturedSpec | src/scripts/remove-duplicate-raw-likes.ts:18 | the capture is a non-empty maximal digit run right after `/status/` |
| RawDedup.ExtractTweetIdExample | src/scripts/remove-duplicate-raw-likes.ts:17-20 | `/u/status/42?s=1` gives `42` |
| RawDedup.ProcessDirectory | src/scripts/remove-duplicate-raw-likes.ts:22-68 | the tally (seen IDs, deleted files, counters) is that of the listing, and whether the run completed |
| RawDedup.VisitFiles | src/scripts/remove-duplicate-raw-likes.ts:43-67 | one month's file loop extends the tally |
| RawDedup.TalliedSnoc | src/scripts/remove-duplicate-raw-likes.ts:43-67 | one more file is one more visit |
| RawDedup.ListingStep | src/scripts/remove-duplicate-raw-likes.ts:37-39 | one more month directory adds its `.json` files, or stops the run when its listing throws |
| RawDedup.ListingStops | src/scripts/remove-duplicate-raw-likes.ts:37-39 | after a listing throws, later directories add nothing |
| RawDedup.TalliedSeen | src/scripts/remove-duplicate-raw-likes.ts:51-63 | an ID is seen iff some visited file yields it |
| RawDedup.TalliedDeleted | src/scripts/remove-duplicate-raw-likes.ts:57-63 | the deleted files are exactly the later copies: files whose ID an earlier file already had (first seen wins) |
| RawDedup.TalliedCounts | src/scripts/remove-duplicate-raw-likes.ts:45-63 | `totalFiles` counts every file; `duplicatesRemoved` counts the deletions; removed plus unique never exceed the total |
| RawDedup.ListingMembers | src/scripts/remove-duplicate-raw-likes.ts:37-39 | every listed file comes from one of the month directories |
| RawDedup.RunListingMembers | src/scripts/remove-duplicate-raw-likes.ts:23-39 | every visited file is a `.json` file inside a directory entry of the root |
| ActivityHelper.Window | src/lib/activity-helper.ts:16-58 | the loop so far has one point per day handled |
| ActivityHelper.GetRecentActivityData | src/lib/activity-helper.ts:11-61 | the seven points of `RecentActivity`, counting day documents by their body (see Findings) |
| ActivityHelper.WindowAt | src/lib/activity-helper.ts:16-58 | point k of the loop is the day `6 - k` days before today |
| ActivityHelper.WeekdayBack | src/lib/activity-helper.ts:17-51 | the weekday j days back is j less, modulo 7 |
| ActivityHelper.PointSpec | src/lib/activity-helper.ts:17-57 | a point's date is `yyyy-mm-dd` of that day and its label is the weekday's; the count is 0 when the day is not listed and otherwise comes from its file |
| ActivityHelper.RecentActivitySpec | src/lib/activity-helper.ts:16-58 | seven points, oldest first, the last one today |
| ActivityHelper.DayCountSpec | src/lib/activity-helper.ts:25-47 | with the corrected count, a listed day with a day document counts its likes, and an unreadable or other file counts 0 |
| ActivityHelper.ArrayCountMissesDayDocuments | src/lib/activity-helper.ts:44 | as written, a day document with one like is counted 0 |
| Search.ConversionSpec | src/components/search.tsx:63-76 | `toKatakana` adds 0x60 to U+3041..U+3096 and keeps the rest; `toHiragana` subtracts 0x60 from U+30A1..U+30F6 and keeps the rest |
| Search.ConversionAlgebra | src/components/search.tsx:63-76 | both conversions are idempotent, and each absorbs the other |
| Search.MapCharsIncludes | src/components/search.tsx:84-100 | mapping both strings keeps an inclusion |
| Search.MatchesKanaSound | src/components/search.tsx:79-103 | a match implies the lower-cased, kana-folded query occurs in the folded text |
| Search.MatchesKanaComplete | src/components/search.tsx:79-103 | for a query in a single kana script, a folded occurrence is a match |
| Search.MixedScriptMiss | src/components/search.tsx:79-103 | a query mixing both scripts can miss text that matches once folded |
| Search.NoOccurrence | src/components/search.tsx:84 | a different string of the same length does not include the other |
| Search.FilteredBlank | src/components/search.tsx:107 | a blank input gives no results |
| Search.FilteredSound | src/components/search.tsx:106-117 | at most 10 results, each from the index and matching every word of the input |
| Search.FilteredComplete | src/components/search.tsx:106-117 | when at most 10 items match, the results are exactly the matching items in index order |
| Pagination.NothingIff | src/components/pagination.tsx:18 | nothing is rendered iff `totalPages <= 1` |
| Pagination.PrevNext | src/components/pagination.tsx:23-100 | previous first, next last, page links and ellipses between |
| Pagination.ActiveItem | src/components/pagination.tsx:59-63 | the current page is the one active link |
| Pagination.PassiveSides | src/components/pagination.tsx:36-88 | the side links are never active |
| Pagination.ItemsMembers | src/components/pagination.tsx:23-100 | the items are the previous control, the leading links, the current page, the trailing links and the next control |
| Pagination.EllipsisIff | src/components/pagination.tsx:43-79 | an ellipsis appears iff a page is skipped before `c-1` or after `c+1` |
| Pagination.PagesShown | src/components/pagination.tsx:36-88 | the page numbers shown increase, and are exactly 1, t and those within one of the current page |
| Pagination.ShownSpec | src/components/pagination.tsx:36-88 | the numbers shown are increasing and are 1, t and the pages next to c |
| Pagination.PagesOfItems | src/components/pagination.tsx:36-88 | the page numbers of the items are the shown list |
| Pagination.LowSpec | src/components/pagination.tsx:36-56 | the leading numbers are below c |
| Pagination.HighSpec | src/components/pagination.tsx:66-88 | the trailing numbers are above c |
| Pagination.LeadingPages | src/components/pagination.tsx:36-56 | the leading numbers are 1 when `c > 2` and `c-1` when `c > 1` |
| Pagination.TrailingPages | src/components/pagination.tsx:66-88 | the trailing numbers are `c+1` when `c < t` and t when `c < t-1` |
| PodcastSources.LastFieldSpec | src/scripts/create-podcast-from-json.ts:335 | `split('.').pop()` holds no `.`, is the whole path without a `.`, and otherwise ends it after a `.` |
| PodcastSources.IsBlogArticleUrlSpec | src/scripts/create-podcast-from-json.ts:330-360 | a missing or unparseable URL is not an article; otherwise it is one iff its lower-cased extension is not in the non-article list |
| PodcastSources.Pad4 | src/scripts/create-podcast-from-json.ts:157 | `padStart(4, '0')`: a shorter string gets leading `'0'`s up to four characters and keeps its own characters at the end; a longer one is unchanged |
| PodcastSources.GetLikeJsonPathList | src/scripts/create-podcast-from-json.ts:150-177 | the existing candidate paths, oldest first |
| PodcastSources.PathListSpec | src/scripts/create-podcast-from-json.ts:150-177 | for the two days, yesterday's path then today's, each only when it exists |
| PodcastSources.CandidatePath | src/scripts/create-podcast-from-json.ts:162-165 | the path is `src/content/likes/<year>/<mm>/<dd>.json` |
| PodcastSources.StampPath | src/scripts/create-podcast-from-json.ts:157-165 | slicing `yyyyMMdd` gives back year, two-digit month and two-digit day |
| PodcastSources.GetUrls | src/scripts/create-podcast-from-json.ts:179-202 | a file or like that makes the loop throw ends it; otherwise the article URLs without repeats |
| PodcastSources.PushLikes | src/scripts/create-podcast-from-json.ts:185-198 | the like loop appends each like's article URLs, or throws |
| PodcastSources.PushBlogUrls | src/scripts/create-podcast-from-json.ts:188-195 | the URL loop appends the `expanded_url`s that are articles |
| PodcastSources.LikeUrlsMembers | src/scripts/create-podcast-from-json.ts:186-195 | a like contributes exactly its entities' article URLs |
| PodcastSources.FileUrlsMembers | src/scripts/create-podcast-from-json.ts:181-198 | a file contributes exactly its likes' article URLs |
| PodcastSources.GetUrlsSpec | src/scripts/create-podcast-from-json.ts:179-202 | the result holds each article URL of the files once, in order of first appearance |
| PodcastSources.GetUrlsFails | src/scripts/create-podcast-from-json.ts:181-187 | the run throws iff some file is not a day document or has a like with data but no entities |
| HomePage.GetAllDates | src/app/page.tsx:7-33 | the walk computes `AllDates` of the tree, or throws |
| HomePage.PushYear | src/app/page.tsx:12-30 | one year adds its months' dates |
| HomePage.PushDays | src/app/page.tsx:20-28 | the day loop adds a date per `.json` entry |
| HomePage.DayDatesMembers | src/app/page.tsx:20-28 | a date is listed iff some `.json` day entry gives it, with one leading zero stripped from month and day |
| HomePage.YearDatesMembers | src/app/page.tsx:12-29 | a year lists exactly its months' dates |
| HomePage.AllDatesMembers | src/app/page.tsx:9-32 | all dates are exactly those of the years |
| HomePage.ListedDayFile | src/app/page.tsx:24-70 | a day file's listed date is the unpadded date, and padding it again gives back the file's path |
| HomePage.LaterDayFirstTotal | src/app/page.tsx:59 | the later-day-first comparator is a total preorder |
| HomePage.GetRecentActivityData | src/app/page.tsx:36-91 | a static file's activities (or `[]`); otherwise the fallback over all dates |
| HomePage.FallbackPointSpec | src/app/page.tsx:62-86 | an unreadable file is dropped; otherwise the count is its body length or 0 and the date is `yyyy-mm-dd` |
| HomePage.LatestDatesSpec | src/app/page.tsx:54-60 | `min(7, n)` dates from the list, none left out later than one kept |
| HomePage.FallbackSpec | src/app/page.tsx:54-90 | at most 7 points, ascending by date, exactly the readable ones among the latest dates |
| RootLayout.FindJsonFiles | src/app/layout.tsx:38-55 | the recursion computes `JsonFiles` of the tree, or throws |
| RootLayout.FilesInMembers | src/app/layout.tsx:42-52 | a directory's files are those of its children |
| RootLayout.FilesInNone | src/app/layout.tsx:39-46 | a child whose listing throws makes the directory's search throw |
| RootLayout.JsonFilesSpec | src/app/layout.tsx:38-55 | a path is found iff it leads through directories to a `.json` file |
| RootLayout.JsonFilesFound | src/app/layout.tsx:38-55 | every path found leads to a `.json` file |
| RootLayout.JsonFilesComplete | src/app/layout.tsx:38-55 | every `.json` file is found |
| RootLayout.PathDateSpec | src/app/layout.tsx:60-72 | paths with fewer than 3 segments are dropped; otherwise year and month are the first segments and day is the third up to its first `.` |
| RootLayout.DayFileDate | src/app/layout.tsx:70 | for a day file the day is its two digits |
| RootLayout.GetAllDates | src/app/layout.tsx:34-80 | the dates of the found files, sorted descending; `[]` when the search throws |
| RootLayout.GetAllDatesSpec | src/app/layout.tsx:57-80 | the dates are sorted, a permutation of the mapped paths, and exactly those of the `.json` files with 3 or more segments |

## Left out

- File contents, JSON parsing and writing: files hold a `Content` value, not text. `JSON.stringify` formatting is not modelled. JSON `null` is treated like unparseable content.
- `getTweetIdFromUrl` (imported by `likes-processor.ts`) is not part of this model. The canonicaliser uses the `extractTweetId` regex of `remove-duplicate-raw-likes.ts` in its place.
- `getExistingTweetIds` in `sync-x-likes.ts`, and the tweet-index reads in the other scripts, are inputs: a set of IDs, or a map that is absent when the read fails.
- Time zones and date parsing (`new Date(...)`, `toZonedTime`, `format`, `getDay`) are oracle parameters. `Calendar` supplies only the Gregorian day arithmetic for "today minus i days".
- `localeCompare` is modelled as code-unit lexicographic order. `toLowerCase` is modelled as ASCII lower-casing.
- Network and services are oracles or call logs: the S3 client, `fetchTweet`, the Algolia client (calls recorded, not executed) and `new URL(...).pathname`. An S3 listing is taken as given, with no continuation pages.
- `fetch-archive-tweets.ts`: the SIGINT handler and `delay` are not modelled; delays are counted only. The existing enriched file is taken as parsed when present.
- `create-podcast-from-json.ts`: only `getLikeJsonPathList`, `getUrls` and `isBlogArticleUrl` are modelled. Article extraction, narration, speech synthesis and publishing are network and AI calls.
- `search.tsx`: the React hooks, IME composition handling, downshift combobox and index fetch are left out. Only the conversions, matching and `filteredItems` are modelled.
- `pagination.tsx`: hrefs and styling are left out. Only which items appear, and in what order, is modelled.
- `layout.tsx`: `Promise.all` pushes nested results in completion order. The model concatenates them in listing order.
- Console output, `process.exit` codes and `mkdir` calls are not modelled. A `console.log` of a duplicate's text is modelled only as a report that may throw.
- Invalid dates are not represented: the date oracles always return a number. In the source, `new Date(Number(...))` on a non-numeric directory or file name (the day instant in `page.tsx`) and `new Date(data.liked_at)` on an unparseable `liked_at` (the host-local day in `likes-processor.ts`) give an invalid date, whose getters return NaN.
- LikesProcessor.LaterFirstTotal: totality is stated for numeric instants only. An unparseable `liked_at` makes the `liked_at` comparators of `likes-processor.ts` and `insert-tweet-to-json.ts` return NaN, which `Array.prototype.sort` treats as a tie; the comparator is then not a total preorder and the resulting order is implementation-defined. The sort results stated for these two scripts assume every `liked_at` parses.
- Write failures in `sync-x-likes.ts` are not modelled: both writes are taken to succeed. In the source a failing `fs.writeFile` of a downloaded object reaches the outer `catch` and exits with 1. A failing checkpoint write happens after the deletes; it exits with 1 and leaves the old checkpoint in place.
- A failing `stat`, `unlink` or `writeFile` in `remove-duplicate-tweets.ts` and `remove-duplicate-raw-likes.ts` is taken to succeed.
- A `null` element inside `body`, on which reading `tweet_id` throws, cannot occur, because a body holds `Like` records.
- DuplicateTweets.SecondRunFindsNothing: the finds-nothing half is promised only when no day file lists the same tweet twice. The kept file keeps every copy of a duplicated ID, so a file with an in-file repeat is reported again on every run (with nothing left to remove; RerunWritesNothing holds for every store).
- DuplicateTweets.RemovalRerun: promised under the same condition as SecondRunFindsNothing, for the same reason.
- Search.MatchesKanaComplete: completeness is proved only for queries written in a single kana script, because the source's matcher misses mixed-script queries (Search.MixedScriptMiss).

## Findings

| source | as written | input that shows it | evidently intended | confidence | as-written member | corrected member |
|---|---|---|---|---|---|---|
| src/lib/activity-helper.ts:44 | `count = Array.isArray(tweets) ? tweets.length : 0` tests the parsed day document itself | a day file `{ "body": [like] }` for today: it is an object, not an array, so today counts 0 | count the likes in `body`, as `src/app/page.tsx:74` and `src/scripts/build-activity-data.ts:41` do | high; not executed | ActivityHelper.ArrayCountMissesDayDocuments | ActivityHelper.DayCountSpec |
