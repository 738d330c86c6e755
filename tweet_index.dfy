/** The tweet-ID index (src/scripts/build-tweet-index.ts): a scan of
    `likes/<yyyy>/<mm>/<day>.json` that records, for every liked tweet, where it
    is stored. The index object is filled by assignment, so a later occurrence
    of an ID overwrites an earlier one. */
module TweetIndex {
  import opened LikeTypes
  import opened Text
  import opened Seqs
  import opened FileTree
  import opened Dedup

  datatype TweetIndexEntry = TweetIndexEntry(
    id: string, filePath: string, year: string, month: string, day: string, likedAt: string)

  type Index = map<string, TweetIndexEntry>

  function EntryId(e: TweetIndexEntry): string { e.id }

  /** `/^\d{4}$/` on a directory name. */
  predicate IsYearDir(e: Entry) { |e.name| == 4 && AllDigits(e.name) }

  /** `/^\d{2}$/` on a directory name. */
  predicate IsMonthDir(e: Entry) { |e.name| == 2 && AllDigits(e.name) }

  /** The year directories that are scanned, in scan order. */
  function YearDirs(ls: seq<Entry>): seq<Entry> {
    SortBy(Filter(ls, IsYearDir), ByName)
  }

  /** The month directories that are scanned, in scan order. */
  function MonthDirs(ls: seq<Entry>): seq<Entry> {
    SortBy(Filter(ls, IsMonthDir), ByName)
  }

  /** The day files of a month directory, in listing order. */
  function DayFiles(ls: seq<Entry>): seq<Entry> {
    Filter(ls, IsJsonEntry)
  }

  /** The entry written for one tweet of `likes/<year>/<month>/<dayFile>`. */
  function MakeEntry(year: string, month: string, dayFile: string, l: Like): TweetIndexEntry
    requires l.tweet_id.Some?
  {
    TweetIndexEntry(l.tweet_id.value, "likes/" + year + "/" + month + "/" + dayFile,
                    year, month, ReplaceFirst(dayFile, ".json", ""), l.liked_at)
  }

  /** The writes one day document makes, in body order. */
  function DayEntries(year: string, month: string, dayFile: string, body: seq<Like>): seq<TweetIndexEntry>
    decreases |body|
  {
    if body == [] then []
    else
      var l := body[|body| - 1];
      DayEntries(year, month, dayFile, body[..|body| - 1])
        + (if HasTweetId(l) then [MakeEntry(year, month, dayFile, l)] else [])
  }

  /** The writes of one day file; `None` when reading or parsing it throws. */
  function ScanDayFile(year: string, month: string, f: Entry): Option<seq<TweetIndexEntry>> {
    var c := ReadJson(f);
    if c.Unparseable? then None
    else if c.DayObject? then Some(DayEntries(year, month, f.name, c.body))
    else Some([])
  }

  function DayScanner(year: string, month: string): Entry -> Option<seq<TweetIndexEntry>> {
    f => ScanDayFile(year, month, f)
  }

  function ScanMonth(year: string, m: Entry): Option<seq<TweetIndexEntry>> {
    var ls := Readdir(m);
    if ls.None? then None else CollectAll(DayFiles(ls.value), DayScanner(year, m.name))
  }

  function MonthScanner(year: string): Entry -> Option<seq<TweetIndexEntry>> {
    m => ScanMonth(year, m)
  }

  function ScanYear(y: Entry): Option<seq<TweetIndexEntry>> {
    var ls := Readdir(y);
    if ls.None? then None else CollectAll(MonthDirs(ls.value), MonthScanner(y.name))
  }

  /** Every write of the whole run, in scan order; `None` when the run throws. */
  function ScanStore(root: Entry): Option<seq<TweetIndexEntry>> {
    var ls := Readdir(root);
    if ls.None? then None else CollectAll(YearDirs(ls.value), ScanYear)
  }

  /** The index after the writes `w`, starting from `m`; `None` stays `None`. */
  function Applied(m: Index, w: Option<seq<TweetIndexEntry>>): Option<Index> {
    if w.None? then None else Some(Assign(m, w.value, EntryId))
  }

  /** `buildTweetIndex`: the index it writes, or `None` when it throws before writing. */
  method BuildTweetIndex(root: Entry) returns (r: Option<Index>)
    ensures r == Applied(map[], ScanStore(root))
  {
    var ls := Readdir(root);
    if ls.None? {
      return None;
    }
    var years := YearDirs(ls.value);
    var index: Index := map[];
    ghost var log: seq<TweetIndexEntry> := [];
    var i := 0;
    while i < |years|
      invariant 0 <= i <= |years|
      invariant CollectAll(years[..i], ScanYear) == Some(log)
      invariant index == Assign(map[], log, EntryId)
    {
      var next := IndexYear(index, years[i]);
      if next.None? {
        CollectAllStop(years, i, ScanYear);
        return None;
      }
      ghost var w := ScanYear(years[i]).value;
      CollectAllStep(years, i, ScanYear, log, w);
      AssignAppend(map[], log, w, EntryId);
      log := log + w;
      index := next.value;
      i := i + 1;
    }
    assert years[..i] == years;
    return Some(index);
  }

  method IndexYear(index0: Index, y: Entry) returns (r: Option<Index>)
    ensures r == Applied(index0, ScanYear(y))
  {
    var ls := Readdir(y);
    if ls.None? {
      return None;
    }
    var months := MonthDirs(ls.value);
    var index := index0;
    ghost var log: seq<TweetIndexEntry> := [];
    var i := 0;
    while i < |months|
      invariant 0 <= i <= |months|
      invariant CollectAll(months[..i], MonthScanner(y.name)) == Some(log)
      invariant index == Assign(index0, log, EntryId)
    {
      var next := IndexMonth(index, y.name, months[i]);
      if next.None? {
        CollectAllStop(months, i, MonthScanner(y.name));
        return None;
      }
      ghost var w := ScanMonth(y.name, months[i]).value;
      CollectAllStep(months, i, MonthScanner(y.name), log, w);
      AssignAppend(index0, log, w, EntryId);
      log := log + w;
      index := next.value;
      i := i + 1;
    }
    assert months[..i] == months;
    return Some(index);
  }

  method IndexMonth(index0: Index, year: string, m: Entry) returns (r: Option<Index>)
    ensures r == Applied(index0, ScanMonth(year, m))
  {
    var ls := Readdir(m);
    if ls.None? {
      return None;
    }
    var files := DayFiles(ls.value);
    var index := index0;
    ghost var log: seq<TweetIndexEntry> := [];
    var i := 0;
    while i < |files|
      invariant 0 <= i <= |files|
      invariant CollectAll(files[..i], DayScanner(year, m.name)) == Some(log)
      invariant index == Assign(index0, log, EntryId)
    {
      var next := IndexDayFile(index, year, m.name, files[i]);
      if next.None? {
        CollectAllStop(files, i, DayScanner(year, m.name));
        return None;
      }
      ghost var w := ScanDayFile(year, m.name, files[i]).value;
      CollectAllStep(files, i, DayScanner(year, m.name), log, w);
      AssignAppend(index0, log, w, EntryId);
      log := log + w;
      index := next.value;
      i := i + 1;
    }
    assert files[..i] == files;
    return Some(index);
  }

  method IndexDayFile(index0: Index, year: string, month: string, f: Entry) returns (r: Option<Index>)
    ensures r == Applied(index0, ScanDayFile(year, month, f))
  {
    var c := ReadJson(f);
    if c.Unparseable? {
      return None;
    }
    if !c.DayObject? {
      return Some(index0);
    }
    var body := c.body;
    var index := index0;
    var i := 0;
    while i < |body|
      invariant 0 <= i <= |body|
      invariant index == Assign(index0, DayEntries(year, month, f.name, body[..i]), EntryId)
    {
      assert body[..i + 1][..i] == body[..i];
      var l := body[i];
      if HasTweetId(l) {
        var e := MakeEntry(year, month, f.name, l);
        AssignAppend(index0, DayEntries(year, month, f.name, body[..i]), [e], EntryId);
        index := index[l.tweet_id.value := e];
      } else {
        assert DayEntries(year, month, f.name, body[..i]) + [] == DayEntries(year, month, f.name, body[..i]);
      }
      i := i + 1;
    }
    assert body[..i] == body;
    return Some(index);
  }

  /** Year directories are exactly the four-digit entries, taken in name order;
      month directories likewise with two digits. */
  lemma DirOrder(ls: seq<Entry>)
    ensures SortedBy(YearDirs(ls), ByName)
    ensures forall e :: e in YearDirs(ls) <==> e in ls && IsYearDir(e)
    ensures SortedBy(MonthDirs(ls), ByName)
    ensures forall e :: e in MonthDirs(ls) <==> e in ls && IsMonthDir(e)
  {
    KeyOrderTotal(ByName, (e: Entry) => e.name, false);
    SortFilterSpec(ls, IsYearDir, ByName);
    SortFilterSpec(ls, IsMonthDir, ByName);
  }

  /** A day document writes exactly the IDs of its tweets that have one, each
      entry keyed by its own ID and pointing at the day file. */
  lemma {:induction false} DayEntriesSpec(year: string, month: string, dayFile: string, body: seq<Like>)
    ensures forall k :: k in Keys(DayEntries(year, month, dayFile, body), EntryId) <==>
              exists l :: l in body && HasTweetId(l) && l.tweet_id.value == k
    ensures forall e :: e in DayEntries(year, month, dayFile, body) ==>
              e.filePath == "likes/" + year + "/" + month + "/" + dayFile
              && e.year == year && e.month == month && e.day == ReplaceFirst(dayFile, ".json", "")
              && exists l :: l in body && l.tweet_id == Some(e.id) && l.liked_at == e.likedAt
    decreases |body|
  {
    if body != [] {
      var b' := body[..|body| - 1];
      var l := body[|body| - 1];
      DayEntriesSpec(year, month, dayFile, b');
      var w := DayEntries(year, month, dayFile, body);
      var w' := DayEntries(year, month, dayFile, b');
      assert body == b' + [l];
      if HasTweetId(l) {
        assert w == w' + [MakeEntry(year, month, dayFile, l)];
        KeysAppend(w', MakeEntry(year, month, dayFile, l), EntryId);
      } else {
        assert w == w';
      }
      forall k | exists l' :: l' in body && HasTweetId(l') && l'.tweet_id.value == k
        ensures k in Keys(w, EntryId)
      {
        var l' :| l' in body && HasTweetId(l') && l'.tweet_id.value == k;
        if l' != l {
          assert l' in b';
        }
      }
    }
  }

  lemma MonthEntriesShape(year: string, m: Entry, e: TweetIndexEntry)
    requires ScanMonth(year, m).Some? && e in ScanMonth(year, m).value
    ensures e.year == year && e.month == m.name
  {
    var files := DayFiles(Readdir(m).value);
    CollectAllMembers(files, DayScanner(year, m.name), e);
    var k :| 0 <= k < |files| && e in ScanDayFile(year, m.name, files[k]).value;
    var c := ReadJson(files[k]);
    assert c.DayObject?;
    DayEntriesShape(year, m.name, files[k].name, c.body, e);
  }

  lemma {:induction false} DayEntriesShape(year: string, month: string, dayFile: string, body: seq<Like>, e: TweetIndexEntry)
    requires e in DayEntries(year, month, dayFile, body)
    ensures e.year == year && e.month == month
    decreases |body|
  {
    var l := body[|body| - 1];
    var w' := DayEntries(year, month, dayFile, body[..|body| - 1]);
    if e in w' {
      DayEntriesShape(year, month, dayFile, body[..|body| - 1], e);
    } else {
      assert e == MakeEntry(year, month, dayFile, l);
    }
  }

  lemma YearEntriesShape(y: Entry, e: TweetIndexEntry)
    requires ScanYear(y).Some? && e in ScanYear(y).value
    ensures e.year == y.name && |e.month| == 2 && AllDigits(e.month)
  {
    var months := MonthDirs(Readdir(y).value);
    CollectAllMembers(months, MonthScanner(y.name), e);
    var j :| 0 <= j < |months| && e in ScanMonth(y.name, months[j]).value;
    SortFilterMember(Readdir(y).value, IsMonthDir, ByName, months[j]);
    MonthEntriesShape(y.name, months[j], e);
  }

  /** Every write of a run comes from a four-digit year directory and a two-digit
      month directory. */
  lemma StoreEntriesShape(root: Entry, e: TweetIndexEntry)
    requires ScanStore(root).Some? && e in ScanStore(root).value
    ensures |e.year| == 4 && AllDigits(e.year) && |e.month| == 2 && AllDigits(e.month)
  {
    var years := YearDirs(Readdir(root).value);
    CollectAllMembers(years, ScanYear, e);
    var i :| 0 <= i < |years| && e in ScanYear(years[i]).value;
    SortFilterMember(Readdir(root).value, IsYearDir, ByName, years[i]);
    YearEntriesShape(years[i], e);
  }

  /** The finished index: its keys are exactly the written IDs, every entry is
      stored under its own ID, and each holds the last write for that ID. */
  lemma IndexSpec(log: seq<TweetIndexEntry>, k: string)
    ensures k in Assign(map[], log, EntryId) <==> k in Keys(log, EntryId)
    ensures k in Assign(map[], log, EntryId) ==>
              0 <= LastKey(log, k, EntryId)
              && Assign(map[], log, EntryId)[k] == log[LastKey(log, k, EntryId)]
              && Assign(map[], log, EntryId)[k].id == k
  {
    AssignDomain(map[], log, EntryId, k);
    if k in Keys(log, EntryId) {
      AssignValue(map[], log, EntryId, k);
      LastKeyFound(log, k, EntryId);
    }
  }
}
