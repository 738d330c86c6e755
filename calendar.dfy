/** Proleptic Gregorian calendar dates: the day arithmetic behind
    `setDate(getDate() - i)` and date-fns `subDays`, and the weekday behind
    `getDay()`. */
module Calendar {

  datatype Date = Date(year: int, month: int, day: int)

  predicate IsLeap(y: int) {
    y % 4 == 0 && (y % 100 != 0 || y % 400 == 0)
  }

  function DaysInMonth(y: int, m: int): int
    requires 1 <= m <= 12
  {
    if m == 2 then (if IsLeap(y) then 29 else 28)
    else if m == 4 || m == 6 || m == 9 || m == 11 then 30
    else 31
  }

  predicate Valid(d: Date) {
    1 <= d.month <= 12 && 1 <= d.day <= DaysInMonth(d.year, d.month)
  }

  /** The day before `d`. */
  function PrevDay(d: Date): (r: Date)
    requires Valid(d)
    ensures Valid(r)
  {
    if d.day > 1 then Date(d.year, d.month, d.day - 1)
    else if d.month > 1 then Date(d.year, d.month - 1, DaysInMonth(d.year, d.month - 1))
    else Date(d.year - 1, 12, 31)
  }

  /** The date `i` days before `d`. */
  function DaysBefore(d: Date, i: nat): (r: Date)
    requires Valid(d)
    ensures Valid(r)
  {
    if i == 0 then d else PrevDay(DaysBefore(d, i - 1))
  }

  /** Number of leap days in years 1 .. y (for y >= 0; extended to all y by floor division). */
  function LeapCount(y: int): int {
    y / 4 - y / 100 + y / 400
  }

  /** Days from 1 March to the first of the month `mp` months later (0 is March, 11 is February). */
  function MarchOffset(mp: int): int
    requires 0 <= mp <= 11
  {
    if mp == 0 then 0 else if mp == 1 then 31 else if mp == 2 then 61
    else if mp == 3 then 92 else if mp == 4 then 122 else if mp == 5 then 153
    else if mp == 6 then 184 else if mp == 7 then 214 else if mp == 8 then 245
    else if mp == 9 then 275 else if mp == 10 then 306 else 337
  }

  /** The year a date's March-based year starts in: January and February
      belong to the year before. */
  function MarchYear(d: Date): int {
    if d.month <= 2 then d.year - 1 else d.year
  }

  /** The month counted from March: 0 is March, 11 is February. */
  function MarchMonth(m: int): (mp: int)
    requires 1 <= m <= 12
    ensures 0 <= mp <= 11
  {
    if m > 2 then m - 3 else m + 9
  }

  /** Day number of 1 March of year `y`. */
  function YearBase(y: int): int {
    365 * y + LeapCount(y) - 719468
  }

  /** Days since 1970-01-01, counting years from March so that the leap day
      comes last. */
  function DayNumber(d: Date): int
    requires Valid(d)
  {
    YearBase(MarchYear(d)) + MarchOffset(MarchMonth(d.month)) + d.day - 1
  }

  lemma DivStep4(y: int)
    ensures y / 4 - (y - 1) / 4 == if y % 4 == 0 then 1 else 0
  {
  }

  lemma DivStep100(y: int)
    ensures y / 100 - (y - 1) / 100 == if y % 100 == 0 then 1 else 0
  {
  }

  lemma DivStep400(y: int)
    ensures y / 400 - (y - 1) / 400 == if y % 400 == 0 then 1 else 0
  {
  }

  lemma LeapCountStep(y: int)
    ensures LeapCount(y) - LeapCount(y - 1) == if IsLeap(y) then 1 else 0
  {
    DivStep4(y);
    DivStep100(y);
    DivStep400(y);
    Mod400Mod100(y);
    Mod100Mod4(y);
  }

  lemma Mod400Mod100(y: int)
    ensures y % 400 == 0 ==> y % 100 == 0
  {
    if y % 400 == 0 {
      var k := y / 400;
      assert y == 100 * (4 * k);
    }
  }

  lemma Mod100Mod4(y: int)
    ensures y % 100 == 0 ==> y % 4 == 0
  {
    if y % 100 == 0 {
      var k := y / 100;
      assert y == 4 * (25 * k);
    }
  }


  /** Stepping back one day lowers the day number by exactly one. */
  lemma PrevDayNumber(d: Date)
    requires Valid(d)
    ensures DayNumber(PrevDay(d)) == DayNumber(d) - 1
  {
    if d.day == 1 && d.month == 3 {
      PrevOfMarchFirst(d);
    } else {
      PrevSameMarchYear(d);
    }
  }

  /** Within one March-based year the day number is the year's base plus
      the offset of the day in that year. */
  lemma PrevSameMarchYear(d: Date)
    requires Valid(d) && !(d.day == 1 && d.month == 3)
    ensures DayNumber(PrevDay(d)) == DayNumber(d) - 1
  {
    assert MarchYear(PrevDay(d)) == MarchYear(d);
    PrevOffset(d);
  }

  /** Outside 1 March the day before is one day earlier in the March-based year. */
  lemma PrevOffset(d: Date)
    requires Valid(d) && !(d.day == 1 && d.month == 3)
    ensures var p := PrevDay(d);
            MarchOffset(MarchMonth(p.month)) + p.day == MarchOffset(MarchMonth(d.month)) + d.day - 1
  {
  }

  /** The day before 1 March is the last day of February, which ends the
      previous March-based year. */
  lemma PrevOfMarchFirst(d: Date)
    requires Valid(d) && d.day == 1 && d.month == 3
    ensures DayNumber(PrevDay(d)) == DayNumber(d) - 1
  {
    LeapCountStep(d.year);
    var y := d.year;
    assert PrevDay(d) == Date(y, 2, if IsLeap(y) then 29 else 28);
    assert YearBase(y) - YearBase(y - 1) == 365 + (if IsLeap(y) then 1 else 0);
  }

  /** The date `i` days back is exactly `i` day numbers earlier. */
  lemma {:induction false} DaysBeforeNumber(d: Date, i: nat)
    requires Valid(d)
    ensures DayNumber(DaysBefore(d, i)) == DayNumber(d) - i
  {
    if i > 0 {
      DaysBeforeNumber(d, i - 1);
      PrevDayNumber(DaysBefore(d, i - 1));
    }
  }

  /** `getDay()`: 0 is Sunday; 1970-01-01 was a Thursday. */
  function Weekday(d: Date): (w: int)
    requires Valid(d)
    ensures 0 <= w < 7
  {
    (DayNumber(d) + 4) % 7
  }

  /** The day before falls on the previous weekday. */
  lemma PrevDayWeekday(d: Date)
    requires Valid(d)
    ensures Weekday(PrevDay(d)) == (Weekday(d) + 6) % 7
  {
    PrevDayNumber(d);
    ModStep(DayNumber(d));
  }

  lemma ModStep(n: int)
    ensures (n - 1 + 4) % 7 == ((n + 4) % 7 + 6) % 7
  {
  }
}
