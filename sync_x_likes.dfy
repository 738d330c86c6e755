/** The remote sync (src/scripts/sync-x-likes.ts): raw like files newer than
    the last checkpoint are copied from the bucket prefix `tweets_v2` into the
    local raw directory, bucket objects not newer than it that have a local
    copy are deleted, and the checkpoint is rewritten. The bucket listing, the
    object reads and deletes, the clock and date parsing are inputs. */
module SyncLikes {
  import opened LikeTypes
  import opened Text
  import opened Seqs

  /** 24 hours in milliseconds. */
  const Day: int := 24 * 60 * 60 * 1000

  /** `getNowDate()`: `toZonedTime(now, 'Asia/Tokyo')` moves the instant by
      `zonedShift`, the Tokyo offset minus the host's offset (zero on a host
      set to Tokyo time), and `setHours(getHours() - 24)` goes back a day. */
  function Fallback(now: int, zonedShift: int): int {
    now + zonedShift - Day
  }

  /** `getLastSyncTime()`: the instant written in the sync file, trimmed;
      `syncFile` is `None` when reading it throws, and `parseDate` gives
      `None` for an invalid date. */
  function LastSyncTime(syncFile: Option<string>, parseDate: string -> Option<int>, now: int, zonedShift: int): int {
    if syncFile.None? then Fallback(now, zonedShift)
    else
      var parsed := parseDate(Trim(syncFile.value));
      if parsed.None? then Fallback(now, zonedShift) else parsed.value
  }

  /** The checkpoint falls back to a day before the (shifted) current instant
      exactly when the file is missing, unreadable or holds no valid date. */
  lemma LastSyncTimeSpec(syncFile: Option<string>, parseDate: string -> Option<int>, now: int, zonedShift: int)
    ensures syncFile.None? || parseDate(Trim(syncFile.value)).None?
            ==> LastSyncTime(syncFile, parseDate, now, zonedShift) == now + zonedShift - 86400000
    ensures syncFile.Some? && parseDate(Trim(syncFile.value)).Some?
            ==> LastSyncTime(syncFile, parseDate, now, zonedShift) == parseDate(Trim(syncFile.value)).value
  {
  }

  function DropTrailingSlashes(s: string): (r: string)
    ensures |r| <= |s| && r == s[..|r|]
    ensures r == [] || r[|r| - 1] != '/'
    decreases |s|
  {
    if |s| > 0 && s[|s| - 1] == '/' then DropTrailingSlashes(s[..|s| - 1]) else s
  }

  /** The part of `s` after its last `/`. */
  function LastSegment(s: string): (r: string)
    ensures forall i :: 0 <= i < |r| ==> r[i] != '/'
    ensures EndsWith(s, r)
    decreases |s|
  {
    if s == [] || s[|s| - 1] == '/' then []
    else LastSegment(s[..|s| - 1]) + [s[|s| - 1]]
  }

  /** `path.basename(key)` */
  function Basename(key: string): string {
    LastSegment(DropTrailingSlashes(key))
  }

  /** The basename of `<dir>/<name>` is `name`. */
  lemma {:induction false} BasenameSpec(dir: string, name: string)
    requires name != [] && forall i :: 0 <= i < |name| ==> name[i] != '/'
    ensures Basename(dir + "/" + name) == name
  {
    LastSegmentOf(dir + "/", name);
  }

  lemma {:induction false} LastSegmentOf(a: string, name: string)
    requires a != [] && a[|a| - 1] == '/'
    requires forall i :: 0 <= i < |name| ==> name[i] != '/'
    ensures LastSegment(a + name) == name
    decreases |name|
  {
    if name == [] {
      assert a + name == a;
    } else {
      var n := name[..|name| - 1];
      assert (a + name)[..|a + name| - 1] == a + n;
      LastSegmentOf(a, n);
    }
  }

  /** `fileName.replace('.json', '')`: the tweet ID a file name stands for. */
  function IdOfName(name: string): string {
    ReplaceFirst(name, ".json", "")
  }

  /** The IDs `getExistingRawTweetIds` collects from a directory listing. */
  function RawIds(names: seq<string>): set<string>
    decreases |names|
  {
    if names == [] then {}
    else
      var n := names[|names| - 1];
      RawIds(names[..|names| - 1]) + (if EndsWith(n, ".json") then {IdOfName(n)} else {})
  }

  /** `getExistingRawTweetIds()`; `listing` is `None` when `readdir` throws. */
  method ExistingRawTweetIds(listing: Option<seq<string>>) returns (ids: set<string>)
    ensures listing.None? ==> ids == {}
    ensures listing.Some? ==> ids == RawIds(listing.value)
  {
    ids := {};
    if listing.None? {
      return;
    }
    var files := listing.value;
    var i := 0;
    while i < |files|
      invariant 0 <= i <= |files|
      invariant ids == RawIds(files[..i])
    {
      assert files[..i + 1][..i] == files[..i];
      if EndsWith(files[i], ".json") {
        ids := ids + {IdOfName(files[i])};
      }
      i := i + 1;
    }
    assert files[..i] == files;
  }

  /** A raw ID is the first-`.json`-removed name of a `.json` file of the listing. */
  lemma {:induction false} RawIdsSpec(names: seq<string>, id: string)
    ensures id in RawIds(names) <==> exists k :: 0 <= k < |names| && EndsWith(names[k], ".json") && IdOfName(names[k]) == id
    decreases |names|
  {
    if names != [] {
      var p := names[..|names| - 1];
      RawIdsSpec(p, id);
      if exists k :: 0 <= k < |names| && EndsWith(names[k], ".json") && IdOfName(names[k]) == id {
        var k :| 0 <= k < |names| && EndsWith(names[k], ".json") && IdOfName(names[k]) == id;
        if k < |p| {
          assert p[k] == names[k];
        }
      }
      if exists k :: 0 <= k < |p| && EndsWith(p[k], ".json") && IdOfName(p[k]) == id {
        var k :| 0 <= k < |p| && EndsWith(p[k], ".json") && IdOfName(p[k]) == id;
        assert names[k] == p[k];
      }
    }
  }

  /** An object of the bucket listing. */
  datatype S3Object = S3Object(key: string, lastModified: int)

  function NewerThan(cp: int): S3Object -> bool { (o: S3Object) => o.lastModified > cp }

  function NotNewerThan(cp: int): S3Object -> bool { (o: S3Object) => o.lastModified <= cp }

  /** `Contents.filter(file => new Date(file.LastModified) > lastSyncTime)` */
  function NewObjects(contents: seq<S3Object>, cp: int): seq<S3Object> {
    Filter(contents, NewerThan(cp))
  }

  /** `Contents.filter(file => new Date(file.LastModified) <= lastSyncTime)` */
  function OldObjects(contents: seq<S3Object>, cp: int): seq<S3Object> {
    Filter(contents, NotNewerThan(cp))
  }

  /** Every object of the listing is new or old, never both: the two lists
      split the listing. */
  lemma Partition(contents: seq<S3Object>, cp: int)
    ensures forall o :: o in NewObjects(contents, cp) <==> o in contents && o.lastModified > cp
    ensures forall o :: o in OldObjects(contents, cp) <==> o in contents && o.lastModified <= cp
    ensures multiset(NewObjects(contents, cp)) + multiset(OldObjects(contents, cp)) == multiset(contents)
  {
    FilterMembers(contents, NewerThan(cp));
    FilterMembers(contents, NotNewerThan(cp));
    FilterSplit(contents, NewerThan(cp), NotNewerThan(cp));
  }

  /** What `GetObjectCommand` gives: the body as a string (`""` standing for
      an empty or absent body), or a failure, which ends the run. */
  datatype GetResult = Got(body: string) | GetFailed

  /** The local raw directory and the counters of the download loop; `ok`
      is false once a read from the bucket has thrown. */
  datatype Downloads = Downloads(local: map<string, string>, downloaded: nat, skipped: nat, duplicate: nat, ok: bool)

  /** One iteration of the download loop. */
  function DownloadStep(st: Downloads, o: S3Object, known: set<string>, get: string -> GetResult): Downloads {
    if !st.ok then st
    else
      var name := Basename(o.key);
      if IdOfName(name) in known then st.(duplicate := st.duplicate + 1)
      else if name in st.local then st.(skipped := st.skipped + 1)
      else
        var got := get(o.key);
        if got.GetFailed? then st.(ok := false)
        else if got.body != "" then st.(local := st.local[name := got.body], downloaded := st.downloaded + 1)
        else st
  }

  /** The download loop over `news`, from state `st`. */
  function Downloaded(st: Downloads, news: seq<S3Object>, known: set<string>, get: string -> GetResult): Downloads
    decreases |news|
  {
    if news == [] then st
    else DownloadStep(Downloaded(st, news[..|news| - 1], known, get), news[|news| - 1], known, get)
  }

  /** The download loop. */
  method DownloadPhase(local: map<string, string>, news: seq<S3Object>, known: set<string>, get: string -> GetResult)
    returns (st: Downloads)
    ensures st == Downloaded(Downloads(local, 0, 0, 0, true), news, known, get)
  {
    var files := local;
    var downloadedCount, skippedCount, duplicateCount := 0, 0, 0;
    ghost var st0 := Downloads(local, 0, 0, 0, true);
    var i := 0;
    while i < |news|
      invariant 0 <= i <= |news|
      invariant Downloaded(st0, news[..i], known, get) == Downloads(files, downloadedCount, skippedCount, duplicateCount, true)
    {
      DownloadedSnoc(st0, news, i, known, get);
      var name := Basename(news[i].key);
      if IdOfName(name) in known {
        duplicateCount := duplicateCount + 1;
      } else if name in files {
        skippedCount := skippedCount + 1;
      } else {
        var got := get(news[i].key);
        if got.GetFailed? {
          DownloadedStops(st0, news, i + 1, known, get);
          return Downloads(files, downloadedCount, skippedCount, duplicateCount, false);
        }
        if got.body != "" {
          files := files[name := got.body];
          downloadedCount := downloadedCount + 1;
        }
      }
      i := i + 1;
    }
    assert news[..i] == news;
    st := Downloads(files, downloadedCount, skippedCount, duplicateCount, true);
  }

  /** After a failed read every later step leaves the state as it is. */
  lemma {:induction false} DownloadedStops(st: Downloads, news: seq<S3Object>, i: nat, known: set<string>, get: string -> GetResult)
    requires i <= |news|
    requires !Downloaded(st, news[..i], known, get).ok
    ensures Downloaded(st, news, known, get) == Downloaded(st, news[..i], known, get)
    decreases |news| - i
  {
    if i < |news| {
      assert news[..i + 1][..i] == news[..i];
      DownloadedStops(st, news, i + 1, known, get);
    } else {
      assert news[..i] == news;
    }
  }

  /** Extending the loop by one object is one more step. */
  lemma DownloadedSnoc(st: Downloads, news: seq<S3Object>, i: nat, known: set<string>, get: string -> GetResult)
    requires i < |news|
    ensures Downloaded(st, news[..i + 1], known, get) == DownloadStep(Downloaded(st, news[..i], known, get), news[i], known, get)
  {
    assert news[..i + 1][..i] == news[..i];
  }

  /** Each step adds at most one to the counters, adds one file exactly when
      it counts a download, and leaves every present file as it is. */
  lemma DownloadStepSpec(st: Downloads, o: S3Object, known: set<string>, get: string -> GetResult)
    ensures var st' := DownloadStep(st, o, known, get);
            && st'.downloaded + st'.skipped + st'.duplicate <= st.downloaded + st.skipped + st.duplicate + 1
            && |st'.local.Keys| - st'.downloaded == |st.local.Keys| - st.downloaded
            && st.local.Keys <= st'.local.Keys
            && forall n :: n in st.local ==> st'.local[n] == st.local[n]
  {
    var name := Basename(o.key);
    if st.ok && IdOfName(name) !in known && name !in st.local && get(o.key).Got? && get(o.key).body != "" {
      var m := st.local[name := get(o.key).body];
      assert m.Keys == st.local.Keys + {name};
    }
  }

  /** The counters never exceed the number of new objects, each download adds
      exactly one local file, and no file already present is overwritten. */
  lemma {:induction false} DownloadCounts(local: map<string, string>, news: seq<S3Object>, known: set<string>, get: string -> GetResult)
    ensures var st := Downloaded(Downloads(local, 0, 0, 0, true), news, known, get);
            && st.downloaded + st.skipped + st.duplicate <= |news|
            && |st.local.Keys| == |local.Keys| + st.downloaded
            && local.Keys <= st.local.Keys
            && forall n :: n in local ==> st.local[n] == local[n]
    decreases |news|
  {
    if news != [] {
      var p := news[..|news| - 1];
      DownloadCounts(local, p, known, get);
      DownloadStepSpec(Downloaded(Downloads(local, 0, 0, 0, true), p, known, get), news[|news| - 1], known, get);
    }
  }

  /** A file a step creates comes from that step's object. */
  lemma DownloadStepFrom(st: Downloads, o: S3Object, known: set<string>, get: string -> GetResult, name: string)
    requires var st' := DownloadStep(st, o, known, get); name in st'.local && name !in st.local
    ensures var st' := DownloadStep(st, o, known, get);
            && Basename(o.key) == name && IdOfName(name) !in known
            && st'.local[name] != "" && get(o.key) == Got(st'.local[name])
  {
  }

  /** A local file the loop created comes from a new object whose ID is
      neither in the tweet index nor among the raw files, and holds that
      object's non-empty body. */
  lemma {:induction false} DownloadedFrom(local: map<string, string>, news: seq<S3Object>, known: set<string>, get: string -> GetResult, name: string)
    requires var st := Downloaded(Downloads(local, 0, 0, 0, true), news, known, get);
             name in st.local && name !in local
    ensures var st := Downloaded(Downloads(local, 0, 0, 0, true), news, known, get);
            && IdOfName(name) !in known && st.local[name] != ""
            && exists k :: 0 <= k < |news| && Basename(news[k].key) == name && get(news[k].key) == Got(st.local[name])
    decreases |news|
  {
    if news != [] {
      var p := news[..|news| - 1];
      var st := Downloaded(Downloads(local, 0, 0, 0, true), p, known, get);
      var o := news[|news| - 1];
      var st' := DownloadStep(st, o, known, get);
      assert st' == Downloaded(Downloads(local, 0, 0, 0, true), news, known, get);
      if name in st.local {
        DownloadedFrom(local, p, known, get, name);
        DownloadStepSpec(st, o, known, get);
        var k :| 0 <= k < |p| && Basename(p[k].key) == name && get(p[k].key) == Got(st.local[name]);
        assert news[k] == p[k];
      } else {
        DownloadStepFrom(st, o, known, get, name);
        assert news[|news| - 1] == o;
      }
    }
  }

  /** A step that ends without a failed read leaves the object's basename
      among the local files when its ID is unknown and its body non-empty:
      either the file was there already or the step writes it. */
  lemma DownloadStepTo(st: Downloads, o: S3Object, known: set<string>, get: string -> GetResult)
    requires DownloadStep(st, o, known, get).ok
    requires IdOfName(Basename(o.key)) !in known && get(o.key).Got? && get(o.key).body != ""
    ensures Basename(o.key) in DownloadStep(st, o, known, get).local
    ensures Basename(o.key) !in st.local ==> DownloadStep(st, o, known, get).local[Basename(o.key)] == get(o.key).body
  {
  }

  /** In a download loop that ends without a failed read, every new object
      whose ID is neither in the tweet index nor among the raw files, and
      whose body is non-empty, has its basename among the local files. */
  lemma {:induction false} DownloadedComplete(local: map<string, string>, news: seq<S3Object>, known: set<string>,
                                              get: string -> GetResult, k: nat)
    requires k < |news|
    requires Downloaded(Downloads(local, 0, 0, 0, true), news, known, get).ok
    requires IdOfName(Basename(news[k].key)) !in known && get(news[k].key).Got? && get(news[k].key).body != ""
    ensures Basename(news[k].key) in Downloaded(Downloads(local, 0, 0, 0, true), news, known, get).local
    decreases |news|
  {
    var p := news[..|news| - 1];
    var o := news[|news| - 1];
    var st := Downloaded(Downloads(local, 0, 0, 0, true), p, known, get);
    assert Downloaded(Downloads(local, 0, 0, 0, true), news, known, get) == DownloadStep(st, o, known, get);
    DownloadStepSpec(st, o, known, get);
    if k == |news| - 1 {
      DownloadStepTo(st, o, known, get);
    } else {
      assert st.ok;
      assert news[k] == p[k];
      DownloadedComplete(local, p, known, get, k);
    }
  }

  function HasLocalCopy(names: set<string>): S3Object -> bool { (o: S3Object) => Basename(o.key) in names }

  function DeleteSucceeds(del: string -> bool): S3Object -> bool { (o: S3Object) => del(o.key) }

  /** `new Set(localFiles.filter(f => f.endsWith('.json')))` */
  function JsonNames(local: map<string, string>): set<string> {
    set n | n in local.Keys && EndsWith(n, ".json")
  }

  /** The delete loop: the old objects with a local `.json` copy are deleted
      in order; `del` says whether a delete succeeds, and one that fails is
      logged and passed over. */
  method DeletePhase(olds: seq<S3Object>, names: set<string>, del: string -> bool) returns (deleted: seq<S3Object>)
    ensures deleted == Filter(Filter(olds, HasLocalCopy(names)), DeleteSucceeds(del))
  {
    deleted := [];
    var i := 0;
    while i < |olds|
      invariant 0 <= i <= |olds|
      invariant deleted == Filter(Filter(olds[..i], HasLocalCopy(names)), DeleteSucceeds(del))
    {
      var o := olds[i];
      DeleteStep(olds, i, names, del);
      if Basename(o.key) in names {
        if del(o.key) {
          deleted := deleted + [o];
        }
      }
      i := i + 1;
    }
    assert olds[..i] == olds;
  }

  lemma DeleteStep(olds: seq<S3Object>, i: nat, names: set<string>, del: string -> bool)
    requires i < |olds|
    ensures var o := olds[i];
            Filter(Filter(olds[..i + 1], HasLocalCopy(names)), DeleteSucceeds(del)) ==
            Filter(Filter(olds[..i], HasLocalCopy(names)), DeleteSucceeds(del)) +
            (if Basename(o.key) in names && del(o.key) then [o] else [])
  {
    var o := olds[i];
    var h, d := HasLocalCopy(names), DeleteSucceeds(del);
    assert olds[..i + 1] == olds[..i] + [o];
    FilterConcat(olds[..i], [o], h);
    FilterConcat(Filter(olds[..i], h), Filter([o], h), d);
  }

  /** What one run leaves behind: the local raw directory, the counters, the
      objects deleted from the bucket, the checkpoint written (`None` when it
      is not rewritten), and whether the run ended in `process.exit(1)`. */
  datatype SyncResult = SyncResult(local: map<string, string>, downloads: Downloads, deleted: seq<S3Object>, checkpoint: Option<int>, exited: bool)

  /** `downloadNewFiles()`. `indexIds` are the keys of the tweet index (`None`
      when it cannot be read), `rawListing` the listing of the local raw
      directory (`None` when it does not exist), `local` its files, `contents`
      the bucket listing, and `now` and `finishedAt` the clock at the start and
      when the checkpoint is written. The checkpoint text is the Tokyo wall
      time together with its own `+09:00` offset, so it denotes `finishedAt`
      itself, whatever the host's zone; only the fallback is shifted. */
  function Sync(syncFile: Option<string>, parseDate: string -> Option<int>, now: int, finishedAt: int, zonedShift: int,
                indexIds: Option<set<string>>, rawListing: Option<seq<string>>, local: map<string, string>,
                contents: seq<S3Object>, get: string -> GetResult, del: string -> bool): SyncResult
  {
    var cp := LastSyncTime(syncFile, parseDate, now, zonedShift);
    var known := (if indexIds.None? then {} else indexIds.value) + (if rawListing.None? then {} else RawIds(rawListing.value));
    var news := NewObjects(contents, cp);
    if news == [] then SyncResult(local, Downloads(local, 0, 0, 0, true), [], None, false)
    else
      var st := Downloaded(Downloads(local, 0, 0, 0, true), news, known, get);
      if !st.ok then SyncResult(st.local, st, [], None, true)
      else
        var deleted := Filter(Filter(OldObjects(contents, cp), HasLocalCopy(JsonNames(st.local))), DeleteSucceeds(del));
        SyncResult(st.local, st, deleted, Some(finishedAt), false)
  }

  method DownloadNewFiles(syncFile: Option<string>, parseDate: string -> Option<int>, now: int, finishedAt: int, zonedShift: int,
                          indexIds: Option<set<string>>, rawListing: Option<seq<string>>, local: map<string, string>,
                          contents: seq<S3Object>, get: string -> GetResult, del: string -> bool)
    returns (r: SyncResult)
    requires rawListing.None? ==> local == map[]
    requires rawListing.Some? ==> forall n :: n in rawListing.value <==> n in local
    ensures r == Sync(syncFile, parseDate, now, finishedAt, zonedShift, indexIds, rawListing, local, contents, get, del)
  {
    var lastSyncTime := LastSyncTime(syncFile, parseDate, now, zonedShift);
    var existingTweetIds := if indexIds.None? then {} else indexIds.value;
    var existingRawTweetIds := ExistingRawTweetIds(rawListing);
    var newFiles := NewObjects(contents, lastSyncTime);
    if |newFiles| == 0 {
      return SyncResult(local, Downloads(local, 0, 0, 0, true), [], None, false);
    }
    var st := DownloadPhase(local, newFiles, existingTweetIds + existingRawTweetIds, get);
    if !st.ok {
      return SyncResult(st.local, st, [], None, true);
    }
    var localFileSet := JsonNames(st.local);
    var oldFiles := OldObjects(contents, lastSyncTime);
    var deleted := DeletePhase(oldFiles, localFileSet, del);
    return SyncResult(st.local, st, deleted, Some(finishedAt), false);
  }

  /** With no new object nothing is written, nothing is deleted and the
      checkpoint is kept. */
  lemma NoNewObjects(syncFile: Option<string>, parseDate: string -> Option<int>, now: int, finishedAt: int, zonedShift: int,
                     indexIds: Option<set<string>>, rawListing: Option<seq<string>>, local: map<string, string>,
                     contents: seq<S3Object>, get: string -> GetResult, del: string -> bool)
    requires forall o :: o in contents ==> o.lastModified <= LastSyncTime(syncFile, parseDate, now, zonedShift)
    ensures var r := Sync(syncFile, parseDate, now, finishedAt, zonedShift, indexIds, rawListing, local, contents, get, del);
            r.local == local && r.deleted == [] && r.checkpoint.None? && !r.exited
  {
    FilterEmpty(contents, NewerThan(LastSyncTime(syncFile, parseDate, now, zonedShift)));
  }

  /** The checkpoint is rewritten exactly when there were new objects and every
      read succeeded, with the instant at the end of the run; a run that
      stops on a failed read deletes nothing. */
  lemma CheckpointLast(syncFile: Option<string>, parseDate: string -> Option<int>, now: int, finishedAt: int, zonedShift: int,
                       indexIds: Option<set<string>>, rawListing: Option<seq<string>>, local: map<string, string>,
                       contents: seq<S3Object>, get: string -> GetResult, del: string -> bool)
    ensures var r := Sync(syncFile, parseDate, now, finishedAt, zonedShift, indexIds, rawListing, local, contents, get, del);
            var news := NewObjects(contents, LastSyncTime(syncFile, parseDate, now, zonedShift));
            && (r.checkpoint.Some? <==> news != [] && !r.exited)
            && (r.checkpoint.Some? ==> r.checkpoint.value == finishedAt)
            && (r.exited ==> r.deleted == [] && r.checkpoint.None?)
  {
  }

  /** The objects the delete loop removes: not newer than the checkpoint,
      with a `.json` file of their basename present, and a delete that succeeds. */
  lemma DeletedMembers(contents: seq<S3Object>, cp: int, local: map<string, string>, del: string -> bool, o: S3Object)
    ensures o in Filter(Filter(OldObjects(contents, cp), HasLocalCopy(JsonNames(local))), DeleteSucceeds(del))
            <==> o in contents && o.lastModified <= cp && Basename(o.key) in local
                 && EndsWith(Basename(o.key), ".json") && del(o.key)
  {
    var olds := OldObjects(contents, cp);
    Partition(contents, cp);
    FilterMembers(olds, HasLocalCopy(JsonNames(local)));
    FilterMembers(Filter(olds, HasLocalCopy(JsonNames(local))), DeleteSucceeds(del));
  }

  /** An object is deleted from the bucket exactly when it is not newer than
      the checkpoint, a `.json` file of its basename is in the local directory
      after the downloads, and the delete succeeds. */
  lemma DeletedSpec(syncFile: Option<string>, parseDate: string -> Option<int>, now: int, finishedAt: int, zonedShift: int,
                    indexIds: Option<set<string>>, rawListing: Option<seq<string>>, local: map<string, string>,
                    contents: seq<S3Object>, get: string -> GetResult, del: string -> bool, o: S3Object)
    requires var r := Sync(syncFile, parseDate, now, finishedAt, zonedShift, indexIds, rawListing, local, contents, get, del);
             r.checkpoint.Some?
    ensures var r := Sync(syncFile, parseDate, now, finishedAt, zonedShift, indexIds, rawListing, local, contents, get, del);
            var cp := LastSyncTime(syncFile, parseDate, now, zonedShift);
            o in r.deleted <==>
              o in contents && o.lastModified <= cp && Basename(o.key) in r.local
              && EndsWith(Basename(o.key), ".json") && del(o.key)
  {
    var r := Sync(syncFile, parseDate, now, finishedAt, zonedShift, indexIds, rawListing, local, contents, get, del);
    var cp := LastSyncTime(syncFile, parseDate, now, zonedShift);
    assert r.deleted == Filter(Filter(OldObjects(contents, cp), HasLocalCopy(JsonNames(r.local))), DeleteSucceeds(del));
    DeletedMembers(contents, cp, r.local, del, o);
  }

  /** A run that does not exit has downloaded every object modified after the
      checkpoint whose ID is neither in the tweet index nor among the raw
      files and whose body is non-empty: its basename is a local file. */
  lemma SyncDownloadsComplete(syncFile: Option<string>, parseDate: string -> Option<int>, now: int, finishedAt: int, zonedShift: int,
                              indexIds: Option<set<string>>, rawListing: Option<seq<string>>, local: map<string, string>,
                              contents: seq<S3Object>, get: string -> GetResult, del: string -> bool, o: S3Object)
    requires o in contents && o.lastModified > LastSyncTime(syncFile, parseDate, now, zonedShift)
    requires indexIds.Some? ==> IdOfName(Basename(o.key)) !in indexIds.value
    requires rawListing.Some? ==> IdOfName(Basename(o.key)) !in RawIds(rawListing.value)
    requires get(o.key).Got? && get(o.key).body != ""
    requires !Sync(syncFile, parseDate, now, finishedAt, zonedShift, indexIds, rawListing, local, contents, get, del).exited
    ensures Basename(o.key) in Sync(syncFile, parseDate, now, finishedAt, zonedShift, indexIds, rawListing, local, contents, get, del).local
  {
    var cp := LastSyncTime(syncFile, parseDate, now, zonedShift);
    var known := (if indexIds.None? then {} else indexIds.value) + (if rawListing.None? then {} else RawIds(rawListing.value));
    var news := NewObjects(contents, cp);
    Partition(contents, cp);
    assert o in news;
    var k :| 0 <= k < |news| && news[k] == o;
    DownloadedComplete(local, news, known, get, k);
  }
}
