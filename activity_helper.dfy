/** The seven-day activity chart computed at request time
    (src/lib/activity-helper.ts): one point per day from six days before
    today up to today, with the day's like count when the day is listed. */
module ActivityHelper {
  import opened LikeTypes
  import opened Text
  import opened Calendar
  import opened Activity

  /** `Array.isArray(tweets) ? tweets.length : 0` as the source writes it:
      only a file that parses to a top-level array is counted. */
  function ArrayCount(c: Content): nat {
    if c.ArrayValue? then c.length else 0
  }

  /** The count the stored `{ body: Like[] }` format calls for: the length
      of `body`, and 0 for a file that cannot be read or parsed or has no
      array body. */
  function DayCount(c: Content): nat {
    if c.DayObject? then |c.body| else 0
  }

  /** The unpadded year, month and day strings of a date, as
      `getFullYear()`, `getMonth() + 1` and `getDate()` print them. */
  function DateInfoOf(t: Date): DateInfo
    requires Valid(t)
  {
    DateInfo(IntToString(t.year), NatToString(t.month), NatToString(t.day))
  }

  /** The stored file of a listed date: `<year>/<mm>/<dd>.json`. */
  function DayPath(info: DateInfo): seq<string> {
    [info.year, Pad2(info.month), Pad2(info.day) + ".json"]
  }

  /** The point pushed for the day `i` days before `today`: `read` gives the
      parsed file at a path, and `countOf` the count taken from it. A date
      not listed in `allDates` counts 0 without a read. */
  function Point(today: Date, i: nat, allDates: seq<DateInfo>, read: seq<string> -> Content,
                 countOf: Content -> nat): ActivityData
    requires Valid(today)
  {
    var t := DaysBefore(today, i);
    var info := DateInfoOf(t);
    var count := if info in allDates then countOf(read(DayPath(info))) else 0;
    ActivityData(DateString(info.year, info.month, info.day), count, Some(DayNames[Weekday(t)]))
  }

  /** The points pushed by the first `n` rounds of the loop, which runs
      `i` from 6 down to 0. */
  function Window(today: Date, n: nat, allDates: seq<DateInfo>, read: seq<string> -> Content,
                  countOf: Content -> nat): (r: seq<ActivityData>)
    requires Valid(today) && n <= 7
    ensures |r| == n
  {
    if n == 0 then [] else Window(today, n - 1, allDates, read, countOf) + [Point(today, 7 - n, allDates, read, countOf)]
  }

  /** The seven points `getRecentActivityData` returns, with the counting
      rule `countOf`. */
  function RecentActivity(today: Date, allDates: seq<DateInfo>, read: seq<string> -> Content,
                          countOf: Content -> nat): seq<ActivityData>
    requires Valid(today)
  {
    Window(today, 7, allDates, read, countOf)
  }

  /** `getRecentActivityData`, given the listed dates, the clock's date and
      the file reader, with the day count taken from `body`. */
  method GetRecentActivityData(allDates: seq<DateInfo>, today: Date, read: seq<string> -> Content)
    returns (activityData: seq<ActivityData>)
    requires Valid(today)
    ensures activityData == RecentActivity(today, allDates, read, DayCount)
  {
    activityData := [];
    var i: int := 6;
    while i >= 0
      invariant -1 <= i <= 6
      invariant activityData == Window(today, 6 - i, allDates, read, DayCount)
    {
      var targetDate := DaysBefore(today, i);
      var year := IntToString(targetDate.year);
      var month := NatToString(targetDate.month);
      var day := NatToString(targetDate.day);
      var count := 0;
      if DateInfo(year, month, day) in allDates {
        count := DayCount(read([year, Pad2(month), Pad2(day) + ".json"]));
      }
      var dayName := DayNames[Weekday(targetDate)];
      activityData := activityData + [ActivityData(DateString(year, month, day), count, Some(dayName))];
      i := i - 1;
    }
  }

  lemma {:induction false} WindowAt(today: Date, n: nat, allDates: seq<DateInfo>, read: seq<string> -> Content,
                                    countOf: Content -> nat, k: nat)
    requires Valid(today) && k < n <= 7
    ensures Window(today, n, allDates, read, countOf)[k] == Point(today, 6 - k, allDates, read, countOf)
  {
    if k < n - 1 {
      WindowAt(today, n - 1, allDates, read, countOf, k);
    }
  }

  lemma ModShift(n: int, j: int)
    ensures (n - j) % 7 == (n % 7 - j) % 7
  {
    var q := n / 7;
    assert n - j == 7 * q + (n % 7 - j);
  }

  /** Going back `j` days goes back `j` weekdays. */
  lemma WeekdayBack(today: Date, j: nat)
    requires Valid(today)
    ensures Weekday(DaysBefore(today, j)) == (Weekday(today) - j) % 7
  {
    DaysBeforeNumber(today, j);
    ModShift(DayNumber(today) + 4, j);
  }

  /** The point for the day `j` days back carries that day's padded
      `yyyy-mm-dd` date and weekday label, and counts 0 unless the date,
      in unpadded form, is listed, and then the count of the file read. */
  lemma PointSpec(today: Date, j: nat, allDates: seq<DateInfo>, read: seq<string> -> Content,
                  countOf: Content -> nat)
    requires Valid(today)
    ensures var p := Point(today, j, allDates, read, countOf);
            var info := DateInfoOf(DaysBefore(today, j));
            && p.date == info.year + "-" + Pad2(info.month) + "-" + Pad2(info.day)
            && p.dayName == Some(DayNames[(Weekday(today) - j) % 7])
            && (info !in allDates ==> p.count == 0)
            && (info in allDates ==> p.count == countOf(read(DayPath(info))))
  {
    WeekdayBack(today, j);
  }

  /** Exactly seven points, oldest first: point `k` is the day `6 - k` days
      before today (whose day number `Calendar.DaysBeforeNumber` gives), so
      the last is today; each point is as `PointSpec` describes. */
  lemma RecentActivitySpec(today: Date, allDates: seq<DateInfo>, read: seq<string> -> Content,
                           countOf: Content -> nat, k: nat)
    requires Valid(today) && k < 7
    ensures var r := RecentActivity(today, allDates, read, countOf);
            var t := DaysBefore(today, 6 - k);
            && |r| == 7
            && (k == 6 ==> t == today)
            && r[k] == Point(today, 6 - k, allDates, read, countOf)
  {
    WindowAt(today, 7, allDates, read, countOf, k);
  }

  /** With the body count, a listed day whose file holds `{ body }` counts
      its likes, and any other file counts 0. */
  lemma DayCountSpec(today: Date, allDates: seq<DateInfo>, read: seq<string> -> Content, k: nat)
    requires Valid(today) && k < 7
    ensures var r := RecentActivity(today, allDates, read, DayCount);
            var info := DateInfoOf(DaysBefore(today, 6 - k));
            && (info in allDates && read(DayPath(info)).DayObject? ==> r[k].count == |read(DayPath(info)).body|)
            && (!read(DayPath(info)).DayObject? ==> r[k].count == 0)
  {
    RecentActivitySpec(today, allDates, read, DayCount, k);
    PointSpec(today, 6 - k, allDates, read, DayCount);
  }

  /** As written, a listed day stored in the `{ body }` format counts 0
      whatever it holds: today listed with one like gives 0 for today,
      where the body count gives 1. */
  lemma ArrayCountMissesDayDocuments(today: Date, l: Like)
    requires Valid(today)
    ensures var allDates := [DateInfoOf(today)];
            var read := (p: seq<string>) => DayObject([l]);
            && RecentActivity(today, allDates, read, ArrayCount)[6].count == 0
            && RecentActivity(today, allDates, read, DayCount)[6].count == 1
  {
    var allDates := [DateInfoOf(today)];
    var read := (p: seq<string>) => DayObject([l]);
    RecentActivitySpec(today, allDates, read, ArrayCount, 6);
    RecentActivitySpec(today, allDates, read, DayCount, 6);
    PointSpec(today, 0, allDates, read, ArrayCount);
    PointSpec(today, 0, allDates, read, DayCount);
  }
}
