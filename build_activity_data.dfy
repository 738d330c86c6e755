/** The activity summary (src/scripts/build-activity-data.ts): the like count
    of each day file, with its date and weekday label, reduced to the seven
    latest days in ascending date order. */
module Activity {
  import opened LikeTypes
  import opened Text
  import opened Seqs
  import opened FileTree

  /** One day of the summary; `dayName` is absent when the weekday is not
      a valid index (an invalid date). */
  datatype ActivityData = ActivityData(date: string, count: nat, dayName: Option<string>)

  /** The cache written to `public/activity-data.json`. */
  datatype ActivityCache = ActivityCache(activities: seq<ActivityData>, lastUpdated: string)

  /** The Japanese weekday labels, Sunday first. */
  const DayNames: seq<string> := ["\U{65E5}", "\U{6708}", "\U{706B}", "\U{6C34}", "\U{6728}", "\U{91D1}", "\U{571F}"]

  /** `dayNames[w]` */
  function DayName(w: int): (r: Option<string>)
    ensures r.Some? <==> 0 <= w < 7
    ensures r.Some? ==> r.value == DayNames[w]
  {
    if 0 <= w < 7 then Some(DayNames[w]) else None
  }

  /** `${year}-${month.padStart(2, '0')}-${day.padStart(2, '0')}` */
  function DateString(year: string, month: string, day: string): string {
    year + "-" + Pad2(month) + "-" + Pad2(day)
  }

  /** Node's `path.basename(name, ext)` on a name without `/`: a name equal
      to the extension gives `''`; otherwise the extension is removed when the
      name ends with it. (A day file name matches `[0-9][0-9].json`, so it is
      never `.json` itself.) */
  function WithoutExt(name: string, ext: string): (r: string)
    ensures name == ext ==> r == ""
    ensures EndsWith(name, ext) ==> r + ext == name
    ensures !EndsWith(name, ext) ==> r == name
  {
    if name == ext then ""
    else if EndsWith(name, ext) && |name| > |ext| then name[..|name| - |ext|] else name
  }

  /** The entry one file contributes, or `None` when it is skipped: its
      relative path does not have exactly three segments, or reading or
      parsing it throws, which the `catch` swallows. `weekday` gives
      `new Date(Number(year), Number(month) - 1, Number(day)).getDay()`. */
  function FileActivity(f: StoreFile, weekday: (string, string, string) -> int): Option<ActivityData> {
    if |f.path| != 3 then None
    else if f.content.Unparseable? then None
    else
      var year, month := f.path[0], f.path[1];
      var day := WithoutExt(f.path[2], ".json");
      Some(ActivityData(DateString(year, month, day), BodyCount(f.content), DayName(weekday(year, month, day))))
  }

  function FileCollector(weekday: (string, string, string) -> int): StoreFile -> Option<ActivityData> {
    f => FileActivity(f, weekday)
  }

  /** Comparator `b.date.localeCompare(a.date)`. */
  predicate LaterDateFirst(a: ActivityData, b: ActivityData) {
    StrLe(b.date, a.date)
  }

  /** Comparator `a.date.localeCompare(b.date)`. */
  predicate EarlierDateFirst(a: ActivityData, b: ActivityData) {
    StrLe(a.date, b.date)
  }

  /** `.sort(latest first).slice(0, 7).sort(earliest first)` */
  function LatestSeven(xs: seq<ActivityData>): seq<ActivityData> {
    SortBy(Take(SortBy(xs, LaterDateFirst), 7), EarlierDateFirst)
  }

  /** `buildActivityData`, given the files the glob finds, the weekday of a
      date and the clock's Tokyo-time string. */
  method BuildActivityData(files: seq<StoreFile>, weekday: (string, string, string) -> int, now: string)
    returns (cache: ActivityCache)
    ensures cache == ActivityCache(LatestSeven(Collect(GlobDayFiles(files), FileCollector(weekday))), now)
  {
    var dayFiles := GlobDayFiles(files);
    var activityData: seq<ActivityData> := [];
    for i := 0 to |dayFiles|
      invariant activityData == Collect(dayFiles[..i], FileCollector(weekday))
    {
      CollectStep(dayFiles, i, FileCollector(weekday));
      var a := FileActivity(dayFiles[i], weekday);
      if a.Some? {
        activityData := activityData + [a.value];
      }
    }
    assert dayFiles[..|dayFiles|] == dayFiles;
    var sortedActivities := LatestSeven(activityData);
    cache := ActivityCache(sortedActivities, now);
  }

  /** A file is skipped exactly when its path does not have three segments or
      it cannot be read and parsed; otherwise its count is the body length
      (0 without an array body) and its date the padded `yyyy-mm-dd` of its
      path, the day being the file name without `.json`. */
  lemma FileActivitySpec(f: StoreFile, weekday: (string, string, string) -> int)
    ensures FileActivity(f, weekday).None? <==> |f.path| != 3 || f.content.Unparseable?
    ensures FileActivity(f, weekday).Some? ==>
              var a := FileActivity(f, weekday).value;
              && a.count == (if f.content.DayObject? then |f.content.body| else 0)
              && (IsDayFileName(f.path[2]) ==> a.date == f.path[0] + "-" + Pad2(f.path[1]) + "-" + f.path[2][..2])
  {
    if FileActivity(f, weekday).Some? && IsDayFileName(f.path[2]) {
      var n := f.path[2];
      assert n[2..] == ".json";
      assert WithoutExt(n, ".json") == n[..2];
    }
  }

  lemma DateOrdersTotal()
    ensures TotalPreorder(LaterDateFirst) && TotalPreorder(EarlierDateFirst)
  {
    KeyOrderTotal(LaterDateFirst, (x: ActivityData) => x.date, true);
    KeyOrderTotal(EarlierDateFirst, (x: ActivityData) => x.date, false);
  }

  /** An entry past the seventh of the latest-first order is dated no later
      than one among the first seven. */
  lemma LeftOutNotLater(xs: seq<ActivityData>, x: ActivityData, y: ActivityData)
    requires var d := SortBy(xs, LaterDateFirst);
             x in multiset(d[Min(7, |xs|)..]) && y in multiset(d[..Min(7, |xs|)])
    ensures StrLe(x.date, y.date)
  {
    DateOrdersTotal();
    TakeSorted(xs, LaterDateFirst, 7);
    assert LaterDateFirst(y, x);
  }

  /** The summary holds `min(7, n)` of the entries, in ascending date order,
      and every entry left out is dated no later than every entry kept. */
  lemma LatestSevenSpec(xs: seq<ActivityData>)
    ensures var r := LatestSeven(xs);
            && |r| == Min(7, |xs|)
            && SortedBy(r, EarlierDateFirst)
            && multiset(r) <= multiset(xs)
            && forall x, y :: x in multiset(xs) - multiset(r) && y in r ==> StrLe(x.date, y.date)
  {
    var d := SortBy(xs, LaterDateFirst);
    var k := Min(7, |xs|);
    var t := Take(d, 7);
    var r := SortBy(t, EarlierDateFirst);
    DateOrdersTotal();
    SortBySorted(t, EarlierDateFirst);
    SortByPerm(t, EarlierDateFirst);
    TakeSorted(xs, LaterDateFirst, 7);
    assert multiset(xs) == multiset(r) + multiset(d[k..]);
    forall x, y | x in multiset(xs) - multiset(r) && y in r ensures StrLe(x.date, y.date) {
      assert x in multiset(d[k..]);
      assert y in multiset(d[..k]);
      LeftOutNotLater(xs, x, y);
    }
  }
}
