/** Removal of tweets stored more than once (src/scripts/remove-duplicate-tweets.ts):
    every day file of the content directory is scanned, the occurrences of
    each tweet ID are collected, and of a tweet found more than once only
    the copies in the file holding its earliest like are kept. */
module DuplicateTweets {
  import opened LikeTypes
  import opened Seqs
  import opened FileTree

  /** A `.json` entry of a month directory: its path `[year, month, day]`
      and what reading and parsing it gives. */
  datatype ScannedFile = ScannedFile(path: seq<string>, content: Content)

  /** An entry of `fileData`: a file whose `body` is an array. */
  datatype DayFile = DayFile(path: seq<string>, body: seq<Like>)

  /** A `TweetOccurrence`: a like with an ID and the file it was found in. */
  datatype Occurrence = Occurrence(id: string, tweet: Like, path: seq<string>)

  /** The summary printed at the end of a run with duplicates. */
  datatype Summary = Summary(totalFiles: nat, totalTweets: nat, duplicatedIds: nat,
                             duplicatesFound: nat, filesUpdated: nat)

  /** A run that completes: the files written, in order, and the summary,
      absent when no duplicate was found and the run returns early. */
  datatype RemovalRun = RemovalRun(writes: seq<DayFile>, summary: Option<Summary>)

  // ---------------------------------------------------------------------
  // Phase 1, the walk: `stat` skips anything that is not a directory at the
  // year and month levels; a listing that throws rejects the run.

  function DayScan(year: string, month: string, d: Entry): Option<ScannedFile> {
    if IsJsonEntry(d) then Some(ScannedFile([year, month, d.name], ReadJson(d))) else None
  }

  function DayScanner(year: string, month: string): Entry -> Option<ScannedFile> {
    d => DayScan(year, month, d)
  }

  /** The `.json` entries of one month entry; none when it is not a directory. */
  function MonthScan(year: string, m: Entry): Option<seq<ScannedFile>> {
    if !m.Dir? then Some([])
    else if Readdir(m).None? then None
    else Some(Collect(m.children, DayScanner(year, m.name)))
  }

  function MonthScanner(year: string): Entry -> Option<seq<ScannedFile>> {
    m => MonthScan(year, m)
  }

  function YearScan(y: Entry): Option<seq<ScannedFile>> {
    if !y.Dir? then Some([])
    else if Readdir(y).None? then None
    else CollectAll(y.children, MonthScanner(y.name))
  }

  function YearScanner(): Entry -> Option<seq<ScannedFile>> {
    y => YearScan(y)
  }

  /** The files phase 1 visits, in visiting order; `None` when it rejects. */
  function StoreScan(root: Entry): Option<seq<ScannedFile>> {
    if Readdir(root).None? then None else CollectAll(root.children, YearScanner())
  }

  /** The year loop of phase 1. */
  method ScanStore(root: Entry) returns (r: Option<seq<ScannedFile>>)
    ensures r == StoreScan(root)
  {
    var years := Readdir(root);
    if years.None? {
      return None;
    }
    var files: seq<ScannedFile> := [];
    for i := 0 to |years.value|
      invariant CollectAll(years.value[..i], YearScanner()) == Some(files)
    {
      var y := years.value[i];
      var next := ScanYear(files, y);
      if next.None? {
        CollectAllStop(years.value, i, YearScanner());
        return None;
      }
      CollectAllStep(years.value, i, YearScanner(), files, YearScan(y).value);
      files := next.value;
    }
    assert years.value[..|years.value|] == years.value;
    return Some(files);
  }

  /** The month loop of one year. */
  method ScanYear(acc: seq<ScannedFile>, y: Entry) returns (r: Option<seq<ScannedFile>>)
    ensures YearScan(y).None? ==> r.None?
    ensures YearScan(y).Some? ==> r == Some(acc + YearScan(y).value)
  {
    if !y.Dir? {
      assert acc + [] == acc;
      return Some(acc);
    }
    var months := Readdir(y);
    if months.None? {
      return None;
    }
    var files := acc;
    ghost var pushed: seq<ScannedFile> := [];
    for j := 0 to |months.value|
      invariant CollectAll(months.value[..j], MonthScanner(y.name)) == Some(pushed)
      invariant files == acc + pushed
    {
      var m := months.value[j];
      var next := ScanMonthEntry(files, y.name, m);
      if next.None? {
        CollectAllStop(months.value, j, MonthScanner(y.name));
        return None;
      }
      var got := MonthScan(y.name, m).value;
      CollectAllStep(months.value, j, MonthScanner(y.name), pushed, got);
      assert (acc + pushed) + got == acc + (pushed + got);
      files := next.value;
      pushed := pushed + got;
    }
    assert months.value[..|months.value|] == months.value;
    return Some(files);
  }

  /** One entry of a year directory: a non-directory is passed over, and the
      day loop runs over the listing of a directory. */
  method ScanMonthEntry(acc: seq<ScannedFile>, year: string, m: Entry) returns (r: Option<seq<ScannedFile>>)
    ensures MonthScan(year, m).None? ==> r.None?
    ensures MonthScan(year, m).Some? ==> r == Some(acc + MonthScan(year, m).value)
  {
    if !m.Dir? {
      assert acc + [] == acc;
      return Some(acc);
    }
    var days := Readdir(m);
    if days.None? {
      return None;
    }
    var files := ScanMonth(acc, year, m.name, days.value);
    return Some(files);
  }

  /** The day loop of one month: entries not ending with `.json` are skipped. */
  method ScanMonth(acc: seq<ScannedFile>, year: string, month: string, days: seq<Entry>)
    returns (r: seq<ScannedFile>)
    ensures r == acc + Collect(days, DayScanner(year, month))
  {
    r := acc;
    for k := 0 to |days|
      invariant r == acc + Collect(days[..k], DayScanner(year, month))
    {
      CollectStep(days, k, DayScanner(year, month));
      var day := days[k];
      if IsJsonEntry(day) {
        r := r + [ScannedFile([year, month, day.name], ReadJson(day))];
      }
    }
    assert days[..|days|] == days;
  }

  /** A month lists exactly its `.json` entries, each with its path and content. */
  lemma MonthScanMembers(year: string, m: Entry, f: ScannedFile)
    requires MonthScan(year, m).Some?
    ensures f in MonthScan(year, m).value <==>
              m.Dir? && exists d :: d in m.children && IsJsonEntry(d) && f == ScannedFile([year, m.name, d.name], ReadJson(d))
  {
    if m.Dir? {
      CollectMembers(m.children, DayScanner(year, m.name), f);
    }
  }

  /** A year lists the files of the month directories, and only when each of
      them can be listed. */
  lemma YearScanMembers(y: Entry, f: ScannedFile)
    requires YearScan(y).Some?
    ensures f in YearScan(y).value <==>
              y.Dir? && exists m :: m in y.children && MonthScan(y.name, m).Some? && f in MonthScan(y.name, m).value
    ensures y.Dir? ==> forall m :: m in y.children ==> MonthScan(y.name, m).Some?
  {
    if y.Dir? {
      CollectAllMembers(y.children, MonthScanner(y.name), f);
      forall m | m in y.children ensures MonthScan(y.name, m).Some? {
        var i :| 0 <= i < |y.children| && y.children[i] == m;
      }
      if f in YearScan(y).value {
        var i :| 0 <= i < |y.children| && f in MonthScan(y.name, y.children[i]).value;
        assert y.children[i] in y.children;
      }
      if exists m :: m in y.children && MonthScan(y.name, m).Some? && f in MonthScan(y.name, m).value {
        var m :| m in y.children && MonthScan(y.name, m).Some? && f in MonthScan(y.name, m).value;
        var i :| 0 <= i < |y.children| && y.children[i] == m;
      }
    }
  }

  /** The walk visits exactly the `.json` entries of the month directories
      of the year directories: with every directory listable, a file is
      visited iff it sits at `year/month/day` below two directories. */
  lemma StoreScanMembers(root: Entry, f: ScannedFile)
    requires StoreScan(root).Some?
    ensures f in StoreScan(root).value <==>
              exists y :: y in root.children && YearScan(y).Some? && f in YearScan(y).value
    ensures forall y :: y in root.children ==> YearScan(y).Some?
  {
    CollectAllMembers(root.children, YearScanner(), f);
    forall y | y in root.children ensures YearScan(y).Some? {
      var i :| 0 <= i < |root.children| && root.children[i] == y;
    }
    if f in StoreScan(root).value {
      var i :| 0 <= i < |root.children| && f in YearScan(root.children[i]).value;
      assert root.children[i] in root.children;
    }
    if exists y :: y in root.children && YearScan(y).Some? && f in YearScan(y).value {
      var y :| y in root.children && YearScan(y).Some? && f in YearScan(y).value;
      var i :| 0 <= i < |root.children| && root.children[i] == y;
    }
  }

  // ---------------------------------------------------------------------
  // Phase 1, the record: files that parse are counted, those with an array
  // `body` kept, and each like with an ID recorded under its ID.

  /** The file is counted in `totalFiles`: reading and parsing it succeeded. */
  predicate Parsed(f: ScannedFile) {
    !f.content.Unparseable?
  }

  function DayFileOf(f: ScannedFile): Option<DayFile> {
    if f.content.DayObject? then Some(DayFile(f.path, f.content.body)) else None
  }

  function DayFileCollector(): ScannedFile -> Option<DayFile> {
    f => DayFileOf(f)
  }

  function OccurrenceOf(path: seq<string>, l: Like): Option<Occurrence> {
    if HasTweetId(l) then Some(Occurrence(l.tweet_id.value, l, path)) else None
  }

  function OccurrenceCollector(path: seq<string>): Like -> Option<Occurrence> {
    l => OccurrenceOf(path, l)
  }

  /** The occurrences one file records, in body order. */
  function FileOccurrences(f: DayFile): seq<Occurrence> {
    Collect(f.body, OccurrenceCollector(f.path))
  }

  /** The occurrences recorded for the kept files, in scanning order. */
  function AllOccurrences(fs: seq<DayFile>): seq<Occurrence>
    decreases |fs|
  {
    if fs == [] then [] else AllOccurrences(fs[..|fs| - 1]) + FileOccurrences(fs[|fs| - 1])
  }

  /** `totalTweets`: every like of every kept file, with an ID or not. */
  function TweetCount(fs: seq<DayFile>): nat
    decreases |fs|
  {
    if fs == [] then 0 else TweetCount(fs[..|fs| - 1]) + |fs[|fs| - 1].body|
  }

  /** The keys of `tweetOccurrences` in insertion order: each ID once, where
      it first occurs. */
  function Ids(os: seq<Occurrence>): seq<string>
    decreases |os|
  {
    if os == [] then []
    else
      var ks := Ids(os[..|os| - 1]);
      var id := os[|os| - 1].id;
      if id in ks then ks else ks + [id]
  }

  /** `tweetOccurrences`: the occurrences of each ID, in the order pushed. */
  function Occurrences(os: seq<Occurrence>): map<string, seq<Occurrence>>
    decreases |os|
  {
    if os == [] then map[]
    else
      var m := Occurrences(os[..|os| - 1]);
      var o := os[|os| - 1];
      m[o.id := (if o.id in m then m[o.id] else []) + [o]]
  }

  function HasId(id: string): Occurrence -> bool {
    (o: Occurrence) => o.id == id
  }

  /** The map has exactly the listed IDs, the IDs of the occurrences. */
  lemma {:induction false} OccurrencesKeys(os: seq<Occurrence>, id: string)
    ensures id in Occurrences(os) <==> id in Ids(os)
    ensures id in Ids(os) <==> exists o :: o in os && o.id == id
    decreases |os|
  {
    if os != [] {
      var os', o := os[..|os| - 1], os[|os| - 1];
      OccurrencesKeys(os', id);
      assert os == os' + [o];
      if exists x :: x in os && x.id == id {
        var x :| x in os && x.id == id;
        if x != o {
          assert x in os';
        }
      }
    }
  }

  /** Each ID maps to its occurrences in scanning order. */
  lemma {:induction false} OccurrencesSpec(os: seq<Occurrence>, id: string)
    ensures id in Occurrences(os) <==> id in Ids(os)
    ensures id in Ids(os) <==> exists o :: o in os && o.id == id
    ensures id in Occurrences(os) ==> Occurrences(os)[id] == Filter(os, HasId(id)) && |Occurrences(os)[id]| >= 1
    decreases |os|
  {
    OccurrencesKeys(os, id);
    if os != [] {
      var os', o := os[..|os| - 1], os[|os| - 1];
      OccurrencesSpec(os', id);
      assert os == os' + [o];
      FilterConcat(os', [o], HasId(id));
      if id == o.id && id !in Occurrences(os') {
        FilterEmpty(os', HasId(id));
      }
    }
  }

  ghost predicate Distinct(ks: seq<string>) {
    forall i, j :: 0 <= i < j < |ks| ==> ks[i] != ks[j]
  }

  lemma {:induction false} IdsDistinct(os: seq<Occurrence>)
    ensures Distinct(Ids(os))
    decreases |os|
  {
    if os != [] {
      IdsDistinct(os[..|os| - 1]);
    }
  }

  /** One file's loop of phase 1: each like with an ID is pushed under its ID. */
  method RecordTweets(keys: seq<string>, occ: map<string, seq<Occurrence>>, ghost os: seq<Occurrence>,
                      path: seq<string>, body: seq<Like>)
    returns (keys': seq<string>, occ': map<string, seq<Occurrence>>)
    requires keys == Ids(os) && occ == Occurrences(os)
    ensures keys' == Ids(os + FileOccurrences(DayFile(path, body)))
    ensures occ' == Occurrences(os + FileOccurrences(DayFile(path, body)))
  {
    keys', occ' := keys, occ;
    ghost var got: seq<Occurrence> := [];
    assert body[..0] == [];
    assert os + got == os;
    for j := 0 to |body|
      invariant got == Collect(body[..j], OccurrenceCollector(path))
      invariant keys' == Ids(os + got) && occ' == Occurrences(os + got)
    {
      keys', occ', got := RecordLike(keys', occ', os, got, path, body, j);
    }
    assert body[..|body|] == body;
  }

  /** One like of the file loop: a like without an ID is skipped. */
  method RecordLike(keys: seq<string>, occ: map<string, seq<Occurrence>>, ghost os: seq<Occurrence>,
                    ghost got: seq<Occurrence>, path: seq<string>, body: seq<Like>, j: nat)
    returns (keys': seq<string>, occ': map<string, seq<Occurrence>>, ghost got': seq<Occurrence>)
    requires j < |body| && got == Collect(body[..j], OccurrenceCollector(path))
    requires keys == Ids(os + got) && occ == Occurrences(os + got)
    ensures got' == Collect(body[..j + 1], OccurrenceCollector(path))
    ensures keys' == Ids(os + got') && occ' == Occurrences(os + got')
  {
    CollectStep(body, j, OccurrenceCollector(path));
    var tweet := body[j];
    if !HasTweetId(tweet) {
      assert got + [] == got;
      return keys, occ, got;
    }
    var o := Occurrence(tweet.tweet_id.value, tweet, path);
    keys', occ' := Record(keys, occ, os + got, o);
    assert (os + got) + [o] == os + (got + [o]);
    got' := got + [o];
  }

  /** `if (!has(id)) set(id, []); get(id).push(occurrence)` */
  method Record(keys: seq<string>, occ: map<string, seq<Occurrence>>, ghost os: seq<Occurrence>, o: Occurrence)
    returns (keys': seq<string>, occ': map<string, seq<Occurrence>>)
    requires keys == Ids(os) && occ == Occurrences(os)
    ensures keys' == Ids(os + [o]) && occ' == Occurrences(os + [o])
  {
    RecordStep(os, o);
    keys', occ' := keys, occ;
    if o.id !in occ' {
      keys' := keys' + [o.id];
      occ' := occ'[o.id := []];
    }
    occ' := occ'[o.id := occ'[o.id] + [o]];
  }

  /** Recording one more occurrence. */
  lemma RecordStep(os: seq<Occurrence>, o: Occurrence)
    ensures o.id in Occurrences(os) <==> o.id in Ids(os)
    ensures Ids(os + [o]) == if o.id in Ids(os) then Ids(os) else Ids(os) + [o.id]
    ensures Occurrences(os + [o]) == Occurrences(os)[o.id := (if o.id in Occurrences(os) then Occurrences(os)[o.id] else []) + [o]]
  {
    OccurrencesKeys(os, o.id);
    assert (os + [o])[..|os|] == os;
  }

  /** The scanning loop of phase 1 over the visited files. */
  method RecordFiles(files: seq<ScannedFile>)
    returns (fileData: seq<DayFile>, keys: seq<string>, occ: map<string, seq<Occurrence>>,
             totalFiles: nat, totalTweets: nat)
    ensures fileData == Collect(files, DayFileCollector())
    ensures keys == Ids(AllOccurrences(fileData)) && occ == Occurrences(AllOccurrences(fileData))
    ensures totalFiles == |Filter(files, Parsed)| && totalTweets == TweetCount(fileData)
  {
    fileData, keys, occ, totalFiles, totalTweets := [], [], map[], 0, 0;
    for i := 0 to |files|
      invariant fileData == Collect(files[..i], DayFileCollector())
      invariant keys == Ids(AllOccurrences(fileData)) && occ == Occurrences(AllOccurrences(fileData))
      invariant totalFiles == |Filter(files[..i], Parsed)| && totalTweets == TweetCount(fileData)
    {
      CollectStep(files, i, DayFileCollector());
      assert files[..i + 1] == files[..i] + [files[i]];
      FilterConcat(files[..i], [files[i]], Parsed);
      var f := files[i];
      if f.content.Unparseable? {
        continue;
      }
      totalFiles := totalFiles + 1;
      if !f.content.DayObject? {
        assert fileData + [] == fileData;
        continue;
      }
      var df := DayFile(f.path, f.content.body);
      keys, occ := RecordTweets(keys, occ, AllOccurrences(fileData), f.path, f.content.body);
      assert (fileData + [df])[..|fileData|] == fileData;
      fileData := fileData + [df];
      totalTweets := totalTweets + |df.body|;
    }
    assert files[..|files|] == files;
  }

  /** The kept files are exactly the visited files whose `body` is an array. */
  lemma DayFilesMembers(files: seq<ScannedFile>, d: DayFile)
    ensures d in Collect(files, DayFileCollector()) <==>
              exists f :: f in files && f.content.DayObject? && d == DayFile(f.path, f.content.body)
  {
    CollectMembers(files, DayFileCollector(), d);
  }

  /** Every like with an ID in a kept file is recorded, with its file, and
      nothing else is. */
  lemma {:induction false} AllOccurrencesMembers(fs: seq<DayFile>, o: Occurrence)
    ensures o in AllOccurrences(fs) <==>
              exists f :: f in fs && o.tweet in f.body && HasTweetId(o.tweet)
                          && o == Occurrence(o.tweet.tweet_id.value, o.tweet, f.path)
    decreases |fs|
  {
    if fs != [] {
      var fs', f := fs[..|fs| - 1], fs[|fs| - 1];
      AllOccurrencesMembers(fs', o);
      CollectMembers(f.body, OccurrenceCollector(f.path), o);
      assert fs == fs' + [f];
      if exists g :: g in fs && o.tweet in g.body && HasTweetId(o.tweet)
                     && o == Occurrence(o.tweet.tweet_id.value, o.tweet, g.path) {
        var g :| g in fs && o.tweet in g.body && HasTweetId(o.tweet)
                 && o == Occurrence(o.tweet.tweet_id.value, o.tweet, g.path);
        if g != f {
          assert g in fs';
        }
      }
    }
  }

  // ---------------------------------------------------------------------
  // Phase 2: the IDs with more than one occurrence, their occurrences sorted
  // oldest like first.

  function IsDuplicated(occ: map<string, seq<Occurrence>>): string -> bool {
    k => k in occ && |occ[k]| > 1
  }

  /** The keys of `duplicatedTweets`, in insertion order. */
  function DupIds(keys: seq<string>, occ: map<string, seq<Occurrence>>): seq<string> {
    Filter(keys, IsDuplicated(occ))
  }

  /** `duplicatesFound`: for each duplicated ID, its occurrences less one. */
  function Extra(keys: seq<string>, occ: map<string, seq<Occurrence>>): nat
    decreases |keys|
  {
    if keys == [] then 0
    else
      var k := keys[|keys| - 1];
      Extra(keys[..|keys| - 1], occ) + (if k in occ && |occ[k]| > 1 then |occ[k]| - 1 else 0)
  }

  /** `new Date(liked_at).getTime()` by the `instant` oracle, 0 standing in
      for an invalid date, which never reaches a sort that completes. */
  function Time(instant: string -> Option<int>, o: Occurrence): int {
    if instant(o.tweet.liked_at).Some? then instant(o.tweet.liked_at).value else 0
  }

  /** Comparator `a.likedAt.getTime() - b.likedAt.getTime()`. */
  function EarlierLiked(instant: string -> Option<int>): (Occurrence, Occurrence) -> bool {
    (a, b) => Time(instant, a) <= Time(instant, b)
  }

  lemma EarlierLikedTotal(instant: string -> Option<int>)
    ensures TotalPreorder(EarlierLiked(instant))
  {
  }

  /** The report of one duplicated ID does not throw: the first occurrence
      has a `text` to take a substring of, and every like date is valid for
      `toISOString()`. */
  predicate Reportable(os: seq<Occurrence>, instant: string -> Option<int>) {
    && |os| > 0
    && os[0].tweet.text.Some?
    && forall o :: o in os ==> instant(o.tweet.liked_at).Some?
  }

  /** Phase 2 ends without throwing: every duplicated ID can be reported. */
  predicate AllReportable(keys: seq<string>, occ: map<string, seq<Occurrence>>, instant: string -> Option<int>) {
    forall k :: k in keys && k in occ && |occ[k]| > 1 ==> Reportable(occ[k], instant)
  }

  /** `duplicatedTweets`: each duplicated ID with its occurrences sorted. */
  function DupMap(keys: seq<string>, occ: map<string, seq<Occurrence>>, instant: string -> Option<int>)
    : (r: map<string, seq<Occurrence>>)
    ensures forall k :: k in r ==> k in occ && |occ[k]| > 1 && |r[k]| == |occ[k]|
    decreases |keys|
  {
    if keys == [] then map[]
    else
      var m := DupMap(keys[..|keys| - 1], occ, instant);
      var k := keys[|keys| - 1];
      if k in occ && |occ[k]| > 1 then m[k := SortBy(occ[k], EarlierLiked(instant))] else m
  }

  /** The loop of phase 2; `ok` is false when a report throws. */
  method FindDuplicates(keys: seq<string>, occ: map<string, seq<Occurrence>>, instant: string -> Option<int>)
    returns (ok: bool, dupKeys: seq<string>, dup: map<string, seq<Occurrence>>, found: nat)
    ensures ok == AllReportable(keys, occ, instant)
    ensures ok ==> dupKeys == DupIds(keys, occ) && dup == DupMap(keys, occ, instant) && found == Extra(keys, occ)
  {
    dupKeys, dup, found := [], map[], 0;
    for i := 0 to |keys|
      invariant AllReportable(keys[..i], occ, instant)
      invariant dupKeys == DupIds(keys[..i], occ) && dup == DupMap(keys[..i], occ, instant)
      invariant found == Extra(keys[..i], occ)
    {
      var next;
      next, dupKeys, dup, found := CheckKey(keys, occ, instant, i, dupKeys, dup, found);
      if !next {
        assert forall k :: k in keys[..i + 1] ==> k in keys;
        return false, dupKeys, dup, found;
      }
    }
    assert keys[..|keys|] == keys;
    ok := true;
  }

  /** One key of the phase-2 loop; `ok` is false when its report throws. */
  method CheckKey(keys: seq<string>, occ: map<string, seq<Occurrence>>, instant: string -> Option<int>, i: nat,
                  dupKeys: seq<string>, dup: map<string, seq<Occurrence>>, found: nat)
    returns (ok: bool, dupKeys': seq<string>, dup': map<string, seq<Occurrence>>, found': nat)
    requires i < |keys| && AllReportable(keys[..i], occ, instant)
    requires dupKeys == DupIds(keys[..i], occ) && dup == DupMap(keys[..i], occ, instant)
    requires found == Extra(keys[..i], occ)
    ensures ok == AllReportable(keys[..i + 1], occ, instant)
    ensures ok ==> dupKeys' == DupIds(keys[..i + 1], occ) && dup' == DupMap(keys[..i + 1], occ, instant)
    ensures ok ==> found' == Extra(keys[..i + 1], occ)
  {
    var k := keys[i];
    assert keys[..i + 1] == keys[..i] + [k];
    assert keys[..i + 1][..i] == keys[..i];
    FilterConcat(keys[..i], [k], IsDuplicated(occ));
    dupKeys', dup', found' := dupKeys, dup, found;
    if k in occ && |occ[k]| > 1 {
      var occurrences := occ[k];
      if !Reportable(occurrences, instant) {
        return false, dupKeys', dup', found';
      }
      dupKeys' := dupKeys + [k];
      found' := found + (|occurrences| - 1);
      dup' := dup[k := SortBy(occurrences, EarlierLiked(instant))];
    } else {
      assert dupKeys + [] == dupKeys;
    }
    ok := true;
  }

  /** `duplicatedTweets` holds exactly the duplicated IDs, each with all its
      occurrences, sorted oldest like first. */
  lemma {:induction false} DupMapSpec(keys: seq<string>, occ: map<string, seq<Occurrence>>,
                                      instant: string -> Option<int>, k: string)
    ensures k in DupMap(keys, occ, instant) <==> k in keys && k in occ && |occ[k]| > 1
    ensures k in DupMap(keys, occ, instant) ==> DupMap(keys, occ, instant)[k] == SortBy(occ[k], EarlierLiked(instant))
    decreases |keys|
  {
    if keys != [] {
      var ks := keys[..|keys| - 1];
      DupMapSpec(ks, occ, instant, k);
      assert keys == ks + [keys[|keys| - 1]];
    }
  }

  lemma {:induction false} ExtraAgree(ks: seq<string>, m1: map<string, seq<Occurrence>>, m2: map<string, seq<Occurrence>>)
    requires forall k :: k in ks ==> (k in m1 <==> k in m2) && (k in m1 ==> |m1[k]| == |m2[k]|)
    ensures Extra(ks, m1) == Extra(ks, m2)
    decreases |ks|
  {
    if ks != [] {
      ExtraAgree(ks[..|ks| - 1], m1, m2);
    }
  }

  /** One more occurrence of a listed ID adds one duplicate. */
  lemma {:induction false} ExtraBump(ks: seq<string>, m: map<string, seq<Occurrence>>, id: string, o: Occurrence)
    requires Distinct(ks) && id in ks && id in m && |m[id]| >= 1
    ensures Extra(ks, m[id := m[id] + [o]]) == Extra(ks, m) + 1
    decreases |ks|
  {
    var ks' := ks[..|ks| - 1];
    var m' := m[id := m[id] + [o]];
    if ks[|ks| - 1] == id {
      assert id !in ks';
      ExtraAgree(ks', m, m');
    } else {
      assert id in ks';
      ExtraBump(ks', m, id, o);
    }
  }

  /** `duplicatesFound` is the number of recorded occurrences less the number
      of distinct IDs: every occurrence but the first of its ID is one. */
  lemma {:induction false} ExtraCount(os: seq<Occurrence>)
    ensures Extra(Ids(os), Occurrences(os)) + |Ids(os)| == |os|
    decreases |os|
  {
    if os != [] {
      var os', o := os[..|os| - 1], os[|os| - 1];
      ExtraCount(os');
      assert os' + [o] == os;
      if o.id in Ids(os') {
        ExtraRepeat(os', o);
      } else {
        ExtraFresh(os', o);
      }
    }
  }

  /** An occurrence of a recorded ID is one more extra copy. */
  lemma ExtraRepeat(os: seq<Occurrence>, o: Occurrence)
    requires o.id in Ids(os)
    ensures Ids(os + [o]) == Ids(os)
    ensures Extra(Ids(os + [o]), Occurrences(os + [o])) == Extra(Ids(os), Occurrences(os)) + 1
  {
    OccurrencesSpec(os, o.id);
    RecordStep(os, o);
    IdsDistinct(os);
    ExtraBump(Ids(os), Occurrences(os), o.id, o);
  }

  /** An occurrence of a new ID is a new key and no extra copy. */
  lemma ExtraFresh(os: seq<Occurrence>, o: Occurrence)
    requires o.id !in Ids(os)
    ensures Ids(os + [o]) == Ids(os) + [o.id]
    ensures Extra(Ids(os + [o]), Occurrences(os + [o])) == Extra(Ids(os), Occurrences(os))
  {
    var ks, m := Ids(os), Occurrences(os);
    OccurrencesSpec(os, o.id);
    RecordStep(os, o);
    var m' := m[o.id := [o]];
    forall k | k in ks ensures (k in m <==> k in m') && (k in m ==> |m[k]| == |m'[k]|) {
      OccurrencesSpec(os, k);
    }
    ExtraAgree(ks, m, m');
    assert (ks + [o.id])[..|ks|] == ks;
    assert [] + [o] == [o];
    assert Occurrences(os + [o]) == m';
    assert Extra(ks + [o.id], m') == Extra(ks, m');
  }

  lemma {:induction false} ExtraZero(ks: seq<string>, occ: map<string, seq<Occurrence>>)
    ensures Extra(ks, occ) == 0 <==> DupIds(ks, occ) == []
    decreases |ks|
  {
    if ks != [] {
      var ks' := ks[..|ks| - 1];
      ExtraZero(ks', occ);
      assert ks == ks' + [ks[|ks| - 1]];
      FilterConcat(ks', [ks[|ks| - 1]], IsDuplicated(occ));
    }
  }

  // ---------------------------------------------------------------------
  // Phase 3: each duplicated ID is kept in the file of its oldest
  // occurrence, and the files that lose likes are rewritten.

  /** `tweetsToKeepByFile`: for each file, the duplicated IDs kept there. */
  function KeepMap(dupKeys: seq<string>, dup: map<string, seq<Occurrence>>): map<seq<string>, set<string>>
    decreases |dupKeys|
  {
    if dupKeys == [] then map[]
    else
      var m := KeepMap(dupKeys[..|dupKeys| - 1], dup);
      var k := dupKeys[|dupKeys| - 1];
      if k in dup && |dup[k]| > 0 then
        var p := dup[k][0].path;
        m[p := (if p in m then m[p] else {}) + {k}]
      else m
  }

  /** A file keeps an ID exactly when it holds that ID's first sorted occurrence. */
  lemma {:induction false} KeepMapSpec(dupKeys: seq<string>, dup: map<string, seq<Occurrence>>, p: seq<string>, id: string)
    ensures (p in KeepMap(dupKeys, dup) && id in KeepMap(dupKeys, dup)[p]) <==>
              id in dupKeys && id in dup && |dup[id]| > 0 && dup[id][0].path == p
    decreases |dupKeys|
  {
    if dupKeys != [] {
      var ks := dupKeys[..|dupKeys| - 1];
      KeepMapSpec(ks, dup, p, id);
      assert dupKeys == ks + [dupKeys[|dupKeys| - 1]];
    }
  }

  /** The loop building `tweetsToKeepByFile`. */
  method PlanKeeps(dupKeys: seq<string>, dup: map<string, seq<Occurrence>>) returns (keep: map<seq<string>, set<string>>)
    requires forall k :: k in dupKeys ==> k in dup && |dup[k]| > 0
    ensures keep == KeepMap(dupKeys, dup)
  {
    keep := map[];
    for i := 0 to |dupKeys|
      invariant keep == KeepMap(dupKeys[..i], dup)
    {
      var tweetId := dupKeys[i];
      assert dupKeys[..i + 1][..i] == dupKeys[..i];
      var oldestOccurrence := dup[tweetId][0];
      if oldestOccurrence.path !in keep {
        keep := keep[oldestOccurrence.path := {}];
      }
      keep := keep[oldestOccurrence.path := keep[oldestOccurrence.path] + {tweetId}];
    }
    assert dupKeys[..|dupKeys|] == dupKeys;
  }

  /** The filter of one file: a like stays when it has no ID, its ID is not
      duplicated, or the file keeps its ID. */
  function Stays(path: seq<string>, dup: map<string, seq<Occurrence>>, keep: map<seq<string>, set<string>>): Like -> bool {
    (l: Like) => !HasTweetId(l) || l.tweet_id.value !in dup || (path in keep && l.tweet_id.value in keep[path])
  }

  /** `updatedTweets` of one file. */
  function Updated(f: DayFile, dup: map<string, seq<Occurrence>>, keep: map<seq<string>, set<string>>): seq<Like> {
    Filter(f.body, Stays(f.path, dup, keep))
  }

  /** The write for one file: only when the filter dropped something. */
  function RewriteOf(f: DayFile, dup: map<string, seq<Occurrence>>, keep: map<seq<string>, set<string>>): Option<DayFile> {
    var u := Updated(f, dup, keep);
    if |u| != |f.body| then Some(DayFile(f.path, u)) else None
  }

  function Rewriter(dup: map<string, seq<Occurrence>>, keep: map<seq<string>, set<string>>): DayFile -> Option<DayFile> {
    f => RewriteOf(f, dup, keep)
  }

  /** The files written, in `fileData` order. */
  function Rewrites(fs: seq<DayFile>, dup: map<string, seq<Occurrence>>, keep: map<seq<string>, set<string>>): seq<DayFile> {
    Collect(fs, Rewriter(dup, keep))
  }

  /** The loop over `fileData` that filters and writes. */
  method RewriteFiles(fileData: seq<DayFile>, dup: map<string, seq<Occurrence>>, keep: map<seq<string>, set<string>>)
    returns (writes: seq<DayFile>)
    ensures writes == Rewrites(fileData, dup, keep)
  {
    writes := [];
    for i := 0 to |fileData|
      invariant writes == Collect(fileData[..i], Rewriter(dup, keep))
    {
      CollectStep(fileData, i, Rewriter(dup, keep));
      var data := fileData[i];
      var updatedTweets := Filter(data.body, Stays(data.path, dup, keep));
      if |updatedTweets| != |data.body| {
        writes := writes + [DayFile(data.path, updatedTweets)];
      }
    }
    assert fileData[..|fileData|] == fileData;
  }

  // ---------------------------------------------------------------------
  // The whole run.

  function Keys(fs: seq<DayFile>): seq<string> {
    Ids(AllOccurrences(fs))
  }

  function Occ(fs: seq<DayFile>): map<string, seq<Occurrence>> {
    Occurrences(AllOccurrences(fs))
  }

  function Dup(fs: seq<DayFile>, instant: string -> Option<int>): map<string, seq<Occurrence>> {
    DupMap(Keys(fs), Occ(fs), instant)
  }

  function Keep(fs: seq<DayFile>, instant: string -> Option<int>): map<seq<string>, set<string>> {
    KeepMap(DupIds(Keys(fs), Occ(fs)), Dup(fs, instant))
  }

  /** What a run over the visited files ends with; `None` when a report of
      phase 2 throws. */
  function Removal(files: seq<ScannedFile>, instant: string -> Option<int>): Option<RemovalRun> {
    var fs := Collect(files, DayFileCollector());
    if !AllReportable(Keys(fs), Occ(fs), instant) then None
    else
      var found := Extra(Keys(fs), Occ(fs));
      if found == 0 then Some(RemovalRun([], None))
      else
        var w := Rewrites(fs, Dup(fs, instant), Keep(fs, instant));
        Some(RemovalRun(w, Some(Summary(|Filter(files, Parsed)|, TweetCount(fs),
                                        |DupIds(Keys(fs), Occ(fs))|, found, |w|))))
  }

  /** `removeDuplicateTweets` over the content directory; `instant` gives
      `new Date(liked_at).getTime()`, `None` for an invalid date. */
  method RemoveDuplicateTweets(root: Entry, instant: string -> Option<int>) returns (r: Option<RemovalRun>)
    ensures StoreScan(root).None? ==> r.None?
    ensures StoreScan(root).Some? ==> r == Removal(StoreScan(root).value, instant)
  {
    var files := ScanStore(root);
    if files.None? {
      return None;
    }
    var fileData, keys, occ, totalFiles, totalTweets := RecordFiles(files.value);
    var ok, dupKeys, dup, found := FindDuplicates(keys, occ, instant);
    if !ok {
      return None;
    }
    if found == 0 {
      return Some(RemovalRun([], None));
    }
    forall k | k in dupKeys ensures k in dup && |dup[k]| > 0 {
      FilterMembers(keys, IsDuplicated(occ));
      DupMapSpec(keys, occ, instant, k);
    }
    var keep := PlanKeeps(dupKeys, dup);
    var writes := RewriteFiles(fileData, dup, keep);
    return Some(RemovalRun(writes, Some(Summary(totalFiles, totalTweets, |dupKeys|, found, |writes|))));
  }

  // ---------------------------------------------------------------------
  // What the run promises.

  /** A like stays unless it has an ID that is duplicated. */
  function NotDuplicated(dup: map<string, seq<Occurrence>>): Like -> bool {
    (l: Like) => !HasTweetId(l) || l.tweet_id.value !in dup
  }

  function WithoutId(): Like -> bool {
    l => !HasTweetId(l)
  }

  function HasLikeId(id: string): Like -> bool {
    (l: Like) => HasTweetId(l) && l.tweet_id.value == id
  }

  /** Likes without an ID and likes whose ID is not duplicated all stay, in
      their order, whatever is kept elsewhere. */
  lemma NonDuplicatesStay(f: DayFile, dup: map<string, seq<Occurrence>>, keep: map<seq<string>, set<string>>)
    ensures Filter(Updated(f, dup, keep), NotDuplicated(dup)) == Filter(f.body, NotDuplicated(dup))
    ensures Filter(Updated(f, dup, keep), WithoutId()) == Filter(f.body, WithoutId())
  {
    var p := Stays(f.path, dup, keep);
    FilterFilter(f.body, p, NotDuplicated(dup));
    FilterAgree(f.body, Both(p, NotDuplicated(dup)), NotDuplicated(dup));
    FilterFilter(f.body, p, WithoutId());
    FilterAgree(f.body, Both(p, WithoutId()), WithoutId());
  }

  /** The occurrences of a duplicated ID are sorted and all kept, so its
      first sorted one exists. */
  lemma DupEntry(fs: seq<DayFile>, instant: string -> Option<int>, id: string)
    requires id in Dup(fs, instant)
    ensures id in Occ(fs) && |Occ(fs)[id]| > 1
    ensures Dup(fs, instant)[id] == SortBy(Occ(fs)[id], EarlierLiked(instant))
    ensures id in DupIds(Keys(fs), Occ(fs))
  {
    DupMapSpec(Keys(fs), Occ(fs), instant, id);
    FilterMembers(Keys(fs), IsDuplicated(Occ(fs)));
  }

  /** The file a duplicated ID is kept in holds its earliest-liked
      occurrence, the first scanned among those tied; the occurrences are
      those of the ID in scanning order. */
  lemma KeptFileIsEarliest(fs: seq<DayFile>, instant: string -> Option<int>, id: string)
    requires id in Dup(fs, instant)
    ensures var os := Occ(fs)[id];
            && os == Filter(AllOccurrences(fs), HasId(id))
            && exists k :: 0 <= k < |os|
                 && Dup(fs, instant)[id][0] == os[k]
                 && (forall j :: 0 <= j < |os| ==> Time(instant, os[k]) <= Time(instant, os[j]))
                 && (forall j :: 0 <= j < k ==> Time(instant, os[j]) > Time(instant, os[k]))
  {
    DupEntry(fs, instant, id);
    OccurrencesSpec(AllOccurrences(fs), id);
    EarliestOccurrence(Occ(fs)[id], instant);
  }

  /** The head of the occurrences sorted by like date is an earliest one,
      the first scanned among those tied. */
  lemma EarliestOccurrence(os: seq<Occurrence>, instant: string -> Option<int>)
    requires os != []
    ensures exists k :: 0 <= k < |os|
              && SortBy(os, EarlierLiked(instant))[0] == os[k]
              && (forall j :: 0 <= j < |os| ==> Time(instant, os[k]) <= Time(instant, os[j]))
              && (forall j :: 0 <= j < k ==> Time(instant, os[j]) > Time(instant, os[k]))
  {
    EarlierLikedTotal(instant);
    var k := SortByHead(os, EarlierLiked(instant));
    var le := EarlierLiked(instant);
    forall j | 0 <= j < |os| ensures Time(instant, os[k]) <= Time(instant, os[j]) {
      assert le(os[k], os[j]);
    }
    forall j | 0 <= j < k ensures Time(instant, os[j]) > Time(instant, os[k]) {
      assert !le(os[j], os[k]);
    }
  }

  /** The copies of a duplicated ID all stay in the file it is kept in and
      are all removed from every other file. */
  lemma CopiesOfDuplicate(fs: seq<DayFile>, instant: string -> Option<int>, f: DayFile, id: string)
    requires id in Dup(fs, instant)
    ensures var u := Updated(f, Dup(fs, instant), Keep(fs, instant));
            && (f.path == Dup(fs, instant)[id][0].path ==> Filter(u, HasLikeId(id)) == Filter(f.body, HasLikeId(id)))
            && (f.path != Dup(fs, instant)[id][0].path ==> Filter(u, HasLikeId(id)) == [])
  {
    var dup, keep := Dup(fs, instant), Keep(fs, instant);
    DupEntry(fs, instant, id);
    KeepMapSpec(DupIds(Keys(fs), Occ(fs)), dup, f.path, id);
    var p := Stays(f.path, dup, keep);
    FilterFilter(f.body, p, HasLikeId(id));
    if f.path == dup[id][0].path {
      FilterAgree(f.body, Both(p, HasLikeId(id)), HasLikeId(id));
    } else {
      FilterEmpty(f.body, Both(p, HasLikeId(id)));
    }
  }

  /** Without duplicates nothing is filtered out, so returning early without
      writing loses nothing. */
  lemma NoDuplicatesNoChange(fs: seq<DayFile>, instant: string -> Option<int>, f: DayFile)
    requires Extra(Keys(fs), Occ(fs)) == 0
    ensures Updated(f, Dup(fs, instant), Keep(fs, instant)) == f.body
  {
    ExtraZero(Keys(fs), Occ(fs));
    forall id | id in Dup(fs, instant) ensures false {
      DupEntry(fs, instant, id);
    }
    FilterAll(f.body, Stays(f.path, Dup(fs, instant), Keep(fs, instant)));
  }

  /** A file is written exactly when the filter dropped one of its likes,
      and then with the filtered body. */
  lemma RewritesMembers(fs: seq<DayFile>, dup: map<string, seq<Occurrence>>, keep: map<seq<string>, set<string>>, w: DayFile)
    ensures w in Rewrites(fs, dup, keep) <==>
              exists f :: f in fs && |Updated(f, dup, keep)| < |f.body| && w == DayFile(f.path, Updated(f, dup, keep))
  {
    CollectMembers(fs, Rewriter(dup, keep), w);
  }

  /** `duplicatesFound` counts every recorded like but the first of each ID,
      and is 0 exactly when no ID is duplicated. */
  lemma DuplicatesFoundSpec(fs: seq<DayFile>)
    ensures Extra(Keys(fs), Occ(fs)) == |AllOccurrences(fs)| - |Keys(fs)|
    ensures Extra(Keys(fs), Occ(fs)) == 0 <==> DupIds(Keys(fs), Occ(fs)) == []
  {
    ExtraCount(AllOccurrences(fs));
    ExtraZero(Keys(fs), Occ(fs));
  }

  // ---------------------------------------------------------------------
  // Running the script again.

  /** The day files after a run: each with its filtered body. A file that is
      not written keeps its body, which then equals the filtered one. */
  function Rewritten(fs: seq<DayFile>, instant: string -> Option<int>): seq<DayFile> {
    RewrittenWith(fs, Dup(fs, instant), Keep(fs, instant))
  }

  function RewrittenWith(fs: seq<DayFile>, dup: map<string, seq<Occurrence>>, keep: map<seq<string>, set<string>>)
    : seq<DayFile>
  {
    seq(|fs|, i requires 0 <= i < |fs| => DayFile(fs[i].path, Updated(fs[i], dup, keep)))
  }

  /** One visited file after a run: a day document gets its filtered body,
      any other file is left alone. */
  function FileAfter(f: ScannedFile, dup: map<string, seq<Occurrence>>, keep: map<seq<string>, set<string>>)
    : ScannedFile
  {
    if f.content.DayObject? then ScannedFile(f.path, DayObject(Updated(DayFile(f.path, f.content.body), dup, keep)))
    else f
  }

  /** The visited files as a run leaves them. */
  function StoreAfter(files: seq<ScannedFile>, instant: string -> Option<int>): seq<ScannedFile> {
    var fs := Collect(files, DayFileCollector());
    FilesAfter(files, Dup(fs, instant), Keep(fs, instant))
  }

  function FilesAfter(files: seq<ScannedFile>, dup: map<string, seq<Occurrence>>, keep: map<seq<string>, set<string>>)
    : seq<ScannedFile>
  {
    seq(|files|, i requires 0 <= i < |files| => FileAfter(files[i], dup, keep))
  }

  lemma RewrittenWithConcat(a: seq<DayFile>, b: seq<DayFile>, dup: map<string, seq<Occurrence>>,
                            keep: map<seq<string>, set<string>>)
    ensures RewrittenWith(a + b, dup, keep) == RewrittenWith(a, dup, keep) + RewrittenWith(b, dup, keep)
  {
  }

  /** The day files found in the store a run leaves are the rewritten ones. */
  lemma {:induction false} CollectAfter(files: seq<ScannedFile>, dup: map<string, seq<Occurrence>>,
                                        keep: map<seq<string>, set<string>>)
    ensures Collect(FilesAfter(files, dup, keep), DayFileCollector())
            == RewrittenWith(Collect(files, DayFileCollector()), dup, keep)
    decreases |files|
  {
    if files != [] {
      var init, last := files[..|files| - 1], files[|files| - 1];
      CollectAfter(init, dup, keep);
      assert FilesAfter(files, dup, keep)[..|files| - 1] == FilesAfter(init, dup, keep);
      var tail := if DayFileOf(last).Some? then [DayFileOf(last).value] else [];
      RewrittenWithConcat(Collect(init, DayFileCollector()), tail, dup, keep);
    }
  }

  /** The store after a run: every written file with what was written to it,
      every other file as it was; a run that finds no duplicate leaves the
      whole store as it was. */
  lemma RewrittenStore(fs: seq<DayFile>, instant: string -> Option<int>)
    ensures var after := Rewritten(fs, instant);
            var dup, keep := Dup(fs, instant), Keep(fs, instant);
            && |after| == |fs|
            && (forall i :: 0 <= i < |fs| ==>
                  && after[i].path == fs[i].path
                  && (RewriteOf(fs[i], dup, keep).Some? ==> after[i] == RewriteOf(fs[i], dup, keep).value)
                  && (RewriteOf(fs[i], dup, keep).None? ==> after[i] == fs[i]))
            && (Extra(Keys(fs), Occ(fs)) == 0 ==> after == fs)
  {
    var dup, keep := Dup(fs, instant), Keep(fs, instant);
    var after := Rewritten(fs, instant);
    forall i | 0 <= i < |fs| && RewriteOf(fs[i], dup, keep).None?
      ensures after[i] == fs[i]
    {
      FilterFull(fs[i].body, Stays(fs[i].path, dup, keep));
    }
    if Extra(Keys(fs), Occ(fs)) == 0 {
      forall i | 0 <= i < |fs| ensures after[i] == fs[i] {
        NoDuplicatesNoChange(fs, instant, fs[i]);
      }
    }
  }

  /** The copies of `x` across the files, in any body. */
  function CountId(fs: seq<DayFile>, x: string): nat
    decreases |fs|
  {
    if fs == [] then 0 else CountId(fs[..|fs| - 1], x) + |Filter(fs[|fs| - 1].body, HasLikeId(x))|
  }

  ghost predicate DistinctPaths(fs: seq<DayFile>) {
    forall i, j :: 0 <= i < j < |fs| ==> fs[i].path != fs[j].path
  }

  /** No day file lists the same tweet twice. */
  ghost predicate OnceInFile(f: DayFile) {
    forall x :: |Filter(f.body, HasLikeId(x))| <= 1
  }

  lemma {:induction false} FileOccCount(path: seq<string>, body: seq<Like>, x: string)
    ensures |Filter(Collect(body, OccurrenceCollector(path)), HasId(x))| == |Filter(body, HasLikeId(x))|
    decreases |body|
  {
    if body != [] {
      var init, l := body[..|body| - 1], body[|body| - 1];
      FileOccCount(path, init, x);
      assert body == init + [l];
      FilterConcat(init, [l], HasLikeId(x));
      var c := Collect(init, OccurrenceCollector(path));
      var tail := if OccurrenceOf(path, l).Some? then [OccurrenceOf(path, l).value] else [];
      FilterConcat(c, tail, HasId(x));
    }
  }

  /** The occurrences recorded for `x` are its copies in the files. */
  lemma {:induction false} AllOccCount(fs: seq<DayFile>, x: string)
    ensures |Filter(AllOccurrences(fs), HasId(x))| == CountId(fs, x)
    decreases |fs|
  {
    if fs != [] {
      var init, f := fs[..|fs| - 1], fs[|fs| - 1];
      AllOccCount(init, x);
      FilterConcat(AllOccurrences(init), FileOccurrences(f), HasId(x));
      FileOccCount(f.path, f.body, x);
    }
  }

  lemma {:induction false} CountLe(gs: seq<DayFile>, hs: seq<DayFile>, x: string)
    requires |gs| == |hs|
    requires forall i :: 0 <= i < |gs| ==> |Filter(gs[i].body, HasLikeId(x))| <= |Filter(hs[i].body, HasLikeId(x))|
    ensures CountId(gs, x) <= CountId(hs, x)
    decreases |gs|
  {
    if gs != [] {
      CountLe(gs[..|gs| - 1], hs[..|hs| - 1], x);
    }
  }

  /** Copies of `x` only in files at path `p0`, at most one per file, and
      paths distinct: at most one copy in all. */
  lemma {:induction false} CountAtMostOne(gs: seq<DayFile>, x: string, p0: seq<string>)
    requires DistinctPaths(gs)
    requires forall i :: 0 <= i < |gs| ==> |Filter(gs[i].body, HasLikeId(x))| <= 1
    requires forall i :: 0 <= i < |gs| && gs[i].path != p0 ==> Filter(gs[i].body, HasLikeId(x)) == []
    ensures CountId(gs, x) <= 1
    ensures CountId(gs, x) == 1 ==> exists i :: 0 <= i < |gs| && gs[i].path == p0
    decreases |gs|
  {
    if gs != [] {
      var init := gs[..|gs| - 1];
      CountAtMostOne(init, x, p0);
      if CountId(init, x) == 1 {
        var i :| 0 <= i < |init| && init[i].path == p0;
        assert gs[i].path != gs[|gs| - 1].path;
      }
    }
  }

  /** An ID the run does not treat as duplicated has at most one copy
      before the run and no more after it. */
  lemma NotDupCount(fs: seq<DayFile>, instant: string -> Option<int>, x: string)
    requires x !in Dup(fs, instant)
    ensures CountId(Rewritten(fs, instant), x) <= CountId(fs, x) <= 1
  {
    var dup, keep := Dup(fs, instant), Keep(fs, instant);
    var after := Rewritten(fs, instant);
    forall i | 0 <= i < |after|
      ensures |Filter(after[i].body, HasLikeId(x))| <= |Filter(fs[i].body, HasLikeId(x))|
    {
      var p := Stays(fs[i].path, dup, keep);
      FilterFilter(fs[i].body, p, HasLikeId(x));
      FilterAgree(fs[i].body, Both(p, HasLikeId(x)), HasLikeId(x));
    }
    CountLe(after, fs, x);
    AllOccCount(fs, x);
    OccurrencesSpec(AllOccurrences(fs), x);
    DupMapSpec(Keys(fs), Occ(fs), instant, x);
    if x !in Occ(fs) {
      FilterEmpty(AllOccurrences(fs), HasId(x));
    }
  }

  /** An ID the second run treats as duplicated was already duplicated in
      the first. */
  lemma DupShrinks(fs: seq<DayFile>, instant: string -> Option<int>, x: string)
    requires x in Dup(Rewritten(fs, instant), instant)
    ensures x in Dup(fs, instant)
  {
    var after := Rewritten(fs, instant);
    if x !in Dup(fs, instant) {
      NotDupCount(fs, instant, x);
      DupEntry(after, instant, x);
      OccurrencesSpec(AllOccurrences(after), x);
      AllOccCount(after, x);
      assert false;
    }
  }

  /** Every copy of `x` left after a run lies in a file at the path the run
      kept it in. */
  lemma CopyAtKeptPath(fs: seq<DayFile>, instant: string -> Option<int>, x: string, i: nat, l: Like)
    requires x in Dup(fs, instant)
    requires i < |Rewritten(fs, instant)|
    requires l in Rewritten(fs, instant)[i].body && HasLikeId(x)(l)
    ensures Rewritten(fs, instant)[i].path == Dup(fs, instant)[x][0].path
  {
    var after := Rewritten(fs, instant);
    FilterMembers(after[i].body, HasLikeId(x));
    CopiesOfDuplicate(fs, instant, fs[i], x);
  }

  /** The first occurrence a run sorts for a duplicated ID is a copy of it
      in one of the day files, at that file's path. */
  lemma DupHeadInFile(gs: seq<DayFile>, instant: string -> Option<int>, x: string) returns (i: nat, l: Like)
    requires x in Dup(gs, instant)
    ensures i < |gs| && l in gs[i].body && HasLikeId(x)(l) && gs[i].path == Dup(gs, instant)[x][0].path
  {
    DupEntry(gs, instant, x);
    var occ := Occ(gs)[x];
    SortByPerm(occ, EarlierLiked(instant));
    var o := Dup(gs, instant)[x][0];
    assert o in multiset(SortBy(occ, EarlierLiked(instant)));
    OccurrencesSpec(AllOccurrences(gs), x);
    FilterMembers(AllOccurrences(gs), HasId(x));
    AllOccurrencesMembers(gs, o);
    var f :| f in gs && o.tweet in f.body && HasTweetId(o.tweet)
             && o == Occurrence(o.tweet.tweet_id.value, o.tweet, f.path);
    i :| 0 <= i < |gs| && gs[i] == f;
    l := o.tweet;
  }

  /** A second run keeps each duplicated ID at the path the first run kept
      it in. */
  lemma KeptPathStays(fs: seq<DayFile>, instant: string -> Option<int>, x: string)
    requires x in Dup(Rewritten(fs, instant), instant)
    ensures x in Dup(fs, instant)
    ensures Dup(Rewritten(fs, instant), instant)[x][0].path == Dup(fs, instant)[x][0].path
  {
    DupShrinks(fs, instant, x);
    var i, l := DupHeadInFile(Rewritten(fs, instant), instant, x);
    CopyAtKeptPath(fs, instant, x, i, l);
  }

  /** A second run over the day files a run leaves writes nothing, whatever
      the store: the copies of each duplicated ID now all sit in the file it
      was kept in, which the second run keeps it in again. */
  lemma RerunWritesNothing(fs: seq<DayFile>, instant: string -> Option<int>)
    ensures var after := Rewritten(fs, instant);
            Rewrites(after, Dup(after, instant), Keep(after, instant)) == []
  {
    var after := Rewritten(fs, instant);
    var dup2, keep2 := Dup(after, instant), Keep(after, instant);
    forall i | 0 <= i < |after|
      ensures Updated(after[i], dup2, keep2) == after[i].body
    {
      var f := after[i];
      forall l | l in f.body ensures Stays(f.path, dup2, keep2)(l) {
        if HasTweetId(l) && l.tweet_id.value in dup2 {
          var x := l.tweet_id.value;
          KeptPathStays(fs, instant, x);
          CopyAtKeptPath(fs, instant, x, i, l);
          DupEntry(after, instant, x);
          KeepMapSpec(DupIds(Keys(after), Occ(after)), dup2, f.path, x);
        }
      }
      FilterAll(f.body, Stays(f.path, dup2, keep2));
    }
    var w := Rewrites(after, dup2, keep2);
    if w != [] {
      RewritesMembers(after, dup2, keep2, w[0]);
    }
  }

  /** The whole script run again over the files it left either throws in a
      report or writes nothing. */
  lemma RemovalRerunWritesNothing(files: seq<ScannedFile>, instant: string -> Option<int>)
    ensures var r := Removal(StoreAfter(files, instant), instant);
            r.None? || r.value.writes == []
  {
    var fs := Collect(files, DayFileCollector());
    CollectAfter(files, Dup(fs, instant), Keep(fs, instant));
    var after := Collect(StoreAfter(files, instant), DayFileCollector());
    RerunWritesNothing(fs, instant);
  }

  /** A second run over the files a run leaves finds no duplicate and writes
      nothing, provided day paths are distinct (as in a directory tree) and no
      file lists the same tweet twice. */
  lemma SecondRunFindsNothing(fs: seq<DayFile>, instant: string -> Option<int>)
    requires DistinctPaths(fs)
    requires forall i :: 0 <= i < |fs| ==> OnceInFile(fs[i])
    ensures var after := Rewritten(fs, instant);
            && Extra(Keys(after), Occ(after)) == 0
            && Rewrites(after, Dup(after, instant), Keep(after, instant)) == []
  {
    var dup: map<string, seq<Occurrence>> := Dup(fs, instant);
    var keep := Keep(fs, instant);
    var after := Rewritten(fs, instant);
    assert DistinctPaths(after) by {
      forall i, j | 0 <= i < j < |after| ensures after[i].path != after[j].path {
        assert after[i].path == fs[i].path && after[j].path == fs[j].path;
      }
    }
    forall x: string ensures CountId(after, x) <= 1 {
      if x in dup {
        var occs: seq<Occurrence> := dup[x];
        var p0 := occs[0].path;
        forall i | 0 <= i < |after|
          ensures |Filter(after[i].body, HasLikeId(x))| <= 1
          ensures after[i].path != p0 ==> Filter(after[i].body, HasLikeId(x)) == []
        {
          CopiesOfDuplicate(fs, instant, fs[i], x);
          assert OnceInFile(fs[i]);
        }
        CountAtMostOne(after, x, p0);
      } else {
        NotDupCount(fs, instant, x);
      }
    }
    forall k | k in Keys(after) ensures !IsDuplicated(Occ(after))(k) {
      OccurrencesSpec(AllOccurrences(after), k);
      AllOccCount(after, k);
    }
    FilterEmpty(Keys(after), IsDuplicated(Occ(after)));
    ExtraZero(Keys(after), Occ(after));
    var w := Rewrites(after, Dup(after, instant), Keep(after, instant));
    if w != [] {
      RewritesMembers(after, Dup(after, instant), Keep(after, instant), w[0]);
      var f :| f in after && |Updated(f, Dup(after, instant), Keep(after, instant))| < |f.body|;
      NoDuplicatesNoChange(after, instant, f);
    }
  }

  /** The whole script run again over the files it left: `duplicatesFound`
      is 0, so it returns at "No duplicates found!" and writes nothing,
      provided the day files found have distinct paths and none lists the same
      tweet twice. */
  lemma RemovalRerun(files: seq<ScannedFile>, instant: string -> Option<int>)
    requires DistinctPaths(Collect(files, DayFileCollector()))
    requires forall i :: 0 <= i < |Collect(files, DayFileCollector())| ==> OnceInFile(Collect(files, DayFileCollector())[i])
    ensures Removal(StoreAfter(files, instant), instant) == Some(RemovalRun([], None))
  {
    var fs := Collect(files, DayFileCollector());
    CollectAfter(files, Dup(fs, instant), Keep(fs, instant));
    var after := Collect(StoreAfter(files, instant), DayFileCollector());
    SecondRunFindsNothing(fs, instant);
    ExtraZero(Keys(after), Occ(after));
    FilterEmpty(Keys(after), IsDuplicated(Occ(after)));
  }
}
