/** The data behind the home page (src/app/page.tsx): the dates listed in
    the content directory, and the seven-day activity chart, taken from the
    prebuilt summary when it can be read and otherwise computed from the
    seven latest listed days. */
module HomePage {
  import opened LikeTypes
  import opened Text
  import opened Seqs
  import opened FileTree
  import opened LikesProcessor
  import opened Activity
  import ActivityHelper

  /** The date a day file lists: one leading zero dropped from the month
      and from the file name without `.json`. */
  function ListedDate(year: string, month: string, dayFile: string): DateInfo {
    DateInfo(year, StripLeadingZero(month), StripLeadingZero(ReplaceFirst(dayFile, ".json", "")))
  }

  /** The date pushed for one entry of a month directory, if it is a `.json` file name. */
  function DayEntryDate(year: string, month: string, d: Entry): Option<DateInfo> {
    if IsJsonEntry(d) then Some(ListedDate(year, month, d.name)) else None
  }

  function DayCollector(year: string, month: string): Entry -> Option<DateInfo> {
    d => DayEntryDate(year, month, d)
  }

  /** The dates pushed for the entries of one month directory, in listing order. */
  function DayDates(year: string, month: string, days: seq<Entry>): seq<DateInfo> {
    Collect(days, DayCollector(year, month))
  }

  /** The dates of one month entry; `None` when listing it throws. */
  function MonthDates(year: string, m: Entry): Option<seq<DateInfo>> {
    if Readdir(m).None? then None else Some(DayDates(year, m.name, Readdir(m).value))
  }

  function MonthCollector(year: string): Entry -> Option<seq<DateInfo>> {
    m => MonthDates(year, m)
  }

  /** The dates of one year entry; `None` when listing it or one of its
      months throws. */
  function YearDates(y: Entry): Option<seq<DateInfo>> {
    if Readdir(y).None? then None else CollectAll(Readdir(y).value, MonthCollector(y.name))
  }

  function YearCollector(): Entry -> Option<seq<DateInfo>> {
    y => YearDates(y)
  }

  /** `getAllDates` on the content directory; `None` when it rejects. */
  function AllDates(root: Entry): Option<seq<DateInfo>> {
    if Readdir(root).None? then None else CollectAll(Readdir(root).value, YearCollector())
  }

  /** `getAllDates`: three nested `readdir` loops pushing into `dates`. */
  method GetAllDates(root: Entry) returns (r: Option<seq<DateInfo>>)
    ensures r == AllDates(root)
  {
    var years := Readdir(root);
    if years.None? {
      return None;
    }
    var dates: seq<DateInfo> := [];
    for i := 0 to |years.value|
      invariant CollectAll(years.value[..i], YearCollector()) == Some(dates)
    {
      var y := years.value[i];
      var next := PushYear(dates, y);
      if next.None? {
        CollectAllStop(years.value, i, YearCollector());
        return None;
      }
      CollectAllStep(years.value, i, YearCollector(), dates, YearDates(y).value);
      dates := next.value;
    }
    assert years.value[..|years.value|] == years.value;
    return Some(dates);
  }

  /** The loop over the months of one year. */
  method PushYear(acc: seq<DateInfo>, y: Entry) returns (r: Option<seq<DateInfo>>)
    ensures YearDates(y).None? ==> r.None?
    ensures YearDates(y).Some? ==> r == Some(acc + YearDates(y).value)
  {
    var months := Readdir(y);
    if months.None? {
      return None;
    }
    var dates := acc;
    var pushed: seq<DateInfo> := [];
    for j := 0 to |months.value|
      invariant CollectAll(months.value[..j], MonthCollector(y.name)) == Some(pushed)
      invariant dates == acc + pushed
    {
      var m := months.value[j];
      var days := Readdir(m);
      if days.None? {
        CollectAllStop(months.value, j, MonthCollector(y.name));
        return None;
      }
      CollectAllStep(months.value, j, MonthCollector(y.name), pushed, MonthDates(y.name, m).value);
      dates := PushDays(dates, y.name, m.name, days.value);
      pushed := pushed + DayDates(y.name, m.name, days.value);
    }
    assert months.value[..|months.value|] == months.value;
    return Some(dates);
  }

  /** The loop over the entries of one month. */
  method PushDays(acc: seq<DateInfo>, year: string, month: string, days: seq<Entry>) returns (r: seq<DateInfo>)
    ensures r == acc + DayDates(year, month, days)
  {
    r := acc;
    for k := 0 to |days|
      invariant r == acc + DayDates(year, month, days[..k])
    {
      CollectStep(days, k, DayCollector(year, month));
      var day := days[k];
      if EndsWith(day.name, ".json") {
        r := r + [ListedDate(year, month, day.name)];
      }
    }
    assert days[..|days|] == days;
  }

  /** A date is pushed for exactly the `.json` entries of the month. */
  lemma DayDatesMembers(year: string, month: string, days: seq<Entry>, x: DateInfo)
    ensures x in DayDates(year, month, days) <==>
              exists d :: d in days && IsJsonEntry(d) && x == ListedDate(year, month, d.name)
  {
    CollectMembers(days, DayCollector(year, month), x);
  }

  /** A year lists the dates of its months, and only when every month can be
      listed. */
  lemma YearDatesMembers(y: Entry, x: DateInfo)
    requires YearDates(y).Some?
    ensures Readdir(y).Some?
    ensures forall m :: m in Readdir(y).value ==> Readdir(m).Some?
    ensures x in YearDates(y).value <==>
              exists m :: m in Readdir(y).value && x in DayDates(y.name, m.name, Readdir(m).value)
  {
    var months := Readdir(y).value;
    CollectAllElements(months, MonthCollector(y.name), x);
    forall m | m in months ensures Readdir(m).Some? {
      assert MonthDates(y.name, m).Some?;
    }
    if x in YearDates(y).value {
      var m :| m in months && x in MonthDates(y.name, m).value;
    }
  }

  /** When `getAllDates` resolves, every year and month entry could be
      listed, and it lists the dates of its years; with the two lemmas above,
      one date per `.json` entry two levels below the content directory,
      named by its year and month directories and its file name. */
  lemma AllDatesMembers(root: Entry, x: DateInfo)
    requires AllDates(root).Some?
    ensures Readdir(root).Some?
    ensures forall y :: y in Readdir(root).value ==> YearDates(y).Some?
    ensures x in AllDates(root).value <==> exists y :: y in Readdir(root).value && x in YearDates(y).value
  {
    var years := Readdir(root).value;
    CollectAllElements(years, YearCollector(), x);
  }

  /** A day document the canonicaliser writes, `<year>/<mm>/<dd>.json`, is
      listed with the unpadded strings the activity chart looks dates up by,
      and padding them again gives back its path. */
  lemma ListedDayFile(d: LocalDay)
    requires 1 <= d.month <= 12 && 1 <= d.day <= 31
    ensures var p := DayPathOf(d);
            var info := ListedDate(p.year, p.month, p.day + ".json");
            && info == DateInfo(NatToString(d.year), NatToString(d.month), NatToString(d.day))
            && ActivityHelper.DayPath(info) == [p.year, p.month, p.day + ".json"]
  {
    var p := DayPathOf(d);
    DayPathSpec(d);
    DayFileStem(p.day + ".json");
    assert (p.day + ".json")[..2] == p.day;
    PadThenStrip(d.month);
    PadThenStrip(d.day);
  }

  /** `public/activity-data.json`: absent (the probing read fails), present
      but its parse throws, or parsed, with its `activities` member. */
  datatype StaticActivity = NoStaticFile | BadStaticFile | StaticFile(activities: Option<seq<ActivityData>>)

  /** Comparator `b.dateObj.getTime() - a.dateObj.getTime()` on a date's
      instant: `a` may stand before `b` when it is not earlier. */
  function LaterDayFirst(dayInstant: DateInfo -> int): (DateInfo, DateInfo) -> bool {
    (a: DateInfo, b: DateInfo) => dayInstant(b) <= dayInstant(a)
  }

  lemma LaterDayFirstTotal(dayInstant: DateInfo -> int)
    ensures TotalPreorder(LaterDayFirst(dayInstant))
  {
  }

  /** `sortedDates`: the seven latest listed dates. */
  function LatestDates(allDates: seq<DateInfo>, dayInstant: DateInfo -> int): seq<DateInfo> {
    Take(SortBy(allDates, LaterDayFirst(dayInstant)), 7)
  }

  /** The point pushed for one of them; `None` when reading or parsing its
      file throws. `weekday` gives `dateObj.getDay()`. */
  function FallbackPoint(info: DateInfo, read: seq<string> -> Content, weekday: DateInfo -> int): Option<ActivityData> {
    var c := read(ActivityHelper.DayPath(info));
    if c.Unparseable? then None
    else Some(ActivityData(DateString(info.year, info.month, info.day), BodyCount(c), DayName(weekday(info))))
  }

  function PointCollector(read: seq<string> -> Content, weekday: DateInfo -> int): DateInfo -> Option<ActivityData> {
    info => FallbackPoint(info, read, weekday)
  }

  /** The chart computed when the summary cannot be used. */
  function Fallback(allDates: seq<DateInfo>, dayInstant: DateInfo -> int, read: seq<string> -> Content,
                    weekday: DateInfo -> int): seq<ActivityData> {
    SortBy(Collect(LatestDates(allDates, dayInstant), PointCollector(read, weekday)), EarlierDateFirst)
  }

  /** `getRecentActivityData` of the page; `None` when it rejects, which
      only `getAllDates` can make it do. */
  method GetRecentActivityData(staticFile: StaticActivity, root: Entry, dayInstant: DateInfo -> int,
                               read: seq<string> -> Content, weekday: DateInfo -> int)
    returns (r: Option<seq<ActivityData>>)
    ensures staticFile.StaticFile? ==>
              r == Some(if staticFile.activities.Some? then staticFile.activities.value else [])
    ensures !staticFile.StaticFile? && AllDates(root).None? ==> r.None?
    ensures !staticFile.StaticFile? && AllDates(root).Some? ==>
              r == Some(Fallback(AllDates(root).value, dayInstant, read, weekday))
  {
    if staticFile.StaticFile? {
      return Some(if staticFile.activities.Some? then staticFile.activities.value else []);
    }
    var allDates := GetAllDates(root);
    if allDates.None? {
      return None;
    }
    var sortedDates := LatestDates(allDates.value, dayInstant);
    var activityData: seq<ActivityData> := [];
    for i := 0 to |sortedDates|
      invariant activityData == Collect(sortedDates[..i], PointCollector(read, weekday))
    {
      CollectStep(sortedDates, i, PointCollector(read, weekday));
      var p := FallbackPoint(sortedDates[i], read, weekday);
      if p.Some? {
        activityData := activityData + [p.value];
      }
    }
    assert sortedDates[..|sortedDates|] == sortedDates;
    return Some(SortBy(activityData, EarlierDateFirst));
  }

  /** The point of a readable date counts the likes of its `body` (0
      without one), is dated `yyyy-mm-dd` padded, and is labelled when its
      weekday is a valid index. */
  lemma FallbackPointSpec(info: DateInfo, read: seq<string> -> Content, weekday: DateInfo -> int)
    ensures var c := read(ActivityHelper.DayPath(info));
            var p := FallbackPoint(info, read, weekday);
            && (p.None? <==> c.Unparseable?)
            && (p.Some? ==>
                  && p.value.count == (if c.DayObject? then |c.body| else 0)
                  && p.value.date == info.year + "-" + Pad2(info.month) + "-" + Pad2(info.day)
                  && (p.value.dayName.Some? <==> 0 <= weekday(info) < 7))
  {
  }

  /** The seven latest dates: `min(7, n)` of the listed dates, none of them
      earlier than a date left out. */
  lemma LatestDatesSpec(allDates: seq<DateInfo>, dayInstant: DateInfo -> int)
    ensures var l := LatestDates(allDates, dayInstant);
            && |l| == Min(7, |allDates|)
            && multiset(l) <= multiset(allDates)
            && forall x, y :: x in multiset(allDates) - multiset(l) && y in l ==> dayInstant(x) <= dayInstant(y)
  {
    var d := SortBy(allDates, LaterDayFirst(dayInstant));
    var k := Min(7, |allDates|);
    LaterDayFirstTotal(dayInstant);
    TakeSorted(allDates, LaterDayFirst(dayInstant), 7);
    forall x, y | x in multiset(allDates) - multiset(LatestDates(allDates, dayInstant)) && y in LatestDates(allDates, dayInstant)
      ensures dayInstant(x) <= dayInstant(y)
    {
      assert x in multiset(d[k..]);
      assert y in multiset(d[..k]);
      assert LaterDayFirst(dayInstant)(y, x);
    }
  }

  /** The fallback chart has at most seven points, in ascending date order,
      one for each of the seven latest dates whose file can be read. */
  lemma FallbackSpec(allDates: seq<DateInfo>, dayInstant: DateInfo -> int, read: seq<string> -> Content,
                     weekday: DateInfo -> int, x: ActivityData)
    ensures var r := Fallback(allDates, dayInstant, read, weekday);
            && |r| <= 7
            && SortedBy(r, EarlierDateFirst)
            && (x in r <==> exists info :: info in LatestDates(allDates, dayInstant) && FallbackPoint(info, read, weekday) == Some(x))
  {
    var ps := Collect(LatestDates(allDates, dayInstant), PointCollector(read, weekday));
    DateOrdersTotal();
    SortByPerm(ps, EarlierDateFirst);
    SortBySorted(ps, EarlierDateFirst);
    CollectMembers(LatestDates(allDates, dayInstant), PointCollector(read, weekday), x);
    assert x in SortBy(ps, EarlierDateFirst) <==> x in multiset(ps);
  }
}
