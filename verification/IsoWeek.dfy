/** The bucket keys of backup-retention.ts: ISO weeks computed with the runtime's UTC dates,
    as in section 4.1.4 of ISO 8601:2004.  Days are counted from 1970-01-01, a Thursday. */
module IsoWeek {

  datatype Date = Date(year: int, month: int, day: int)
  datatype Week = Week(year: int, week: int)

  predicate IsLeap(year: int) {
    year % 4 == 0 && (year % 100 != 0 || year % 400 == 0)
  }

  /** Leap years before `year`, counted from year 1. */
  function LeapsBefore(year: int): int {
    (year - 1) / 4 - (year - 1) / 100 + (year - 1) / 400
  }

  /** The day number of 1 January. */
  function YearStart(year: int): int {
    365 * (year - 1970) + LeapsBefore(year) - LeapsBefore(1970)
  }

  function DaysInMonth(year: int, month: int): int {
    if month == 2 then (if IsLeap(year) then 29 else 28)
    else if month in {4, 6, 9, 11} then 30
    else 31
  }

  function MonthStart(year: int, month: int): int
    requires 1 <= month <= 12
    decreases month
  {
    if month == 1 then 0 else MonthStart(year, month - 1) + DaysInMonth(year, month - 1)
  }

  predicate ValidDate(d: Date) {
    1 <= d.month <= 12 && 1 <= d.day <= DaysInMonth(d.year, d.month)
  }

  function DayNumber(d: Date): int
    requires ValidDate(d)
  {
    YearStart(d.year) + MonthStart(d.year, d.month) + d.day - 1
  }

  /** Monday is 1, Sunday is 7. */
  function Weekday(n: int): int { (n + 3) % 7 + 1 }

  function MondayOf(n: int): int { n - (Weekday(n) - 1) }

  // ---------------------------------------------------- the runtime's dates

  /** `Date.UTC` reads a year from 0 to 99 as one of the twentieth century. */
  function UtcYearArgument(year: int): int {
    if 0 <= year <= 99 then 1900 + year else year
  }

  /** `new Date(Date.UTC(year, month - 1, day))`, as a day number; a day past the end of
      the month (29 February of a century year read as 19xx) runs into the next one. */
  function DateUtc(d: Date): int
    requires 1 <= d.month <= 12
  {
    YearStart(UtcYearArgument(d.year)) + MonthStart(UtcYearArgument(d.year), d.month) + d.day - 1
  }

  /** `getUTCDay() || 7`. */
  function UtcWeekday(n: int): int {
    var sundayBased := (n + 4) % 7;
    if sundayBased == 0 then 7 else sundayBased
  }

  /** `getUTCFullYear()`: the year that contains day n, searched from a guess. */
  function YearFrom(n: int, guess: int): (year: int)
    ensures YearStart(year) <= n < YearStart(year + 1)
    decreases if n < YearStart(guess) then YearStart(guess) - n else if n >= YearStart(guess + 1) then n - YearStart(guess) else 0
  {
    YearLengths(guess);
    YearLengths(guess - 1);
    if n < YearStart(guess) then YearFrom(n, guess - 1)
    else if n >= YearStart(guess + 1) then YearFrom(n, guess + 1)
    else guess
  }

  function UtcFullYear(n: int): int { YearFrom(n, 1970) }

  /** `Math.ceil`. */
  function Ceil(x: real): int { -((-x).Floor) }

  /** `isoWeek`: shift to the Thursday of the week, then count weeks from its 1 January. */
  function IsoWeekOf(d: Date): Week
    requires 1 <= d.month <= 12
  {
    var value := DateUtc(d);
    var thursday := value + 4 - UtcWeekday(value);
    var weekYear := UtcFullYear(thursday);
    var yearStart := DateUtc(Date(weekYear, 1, 1));
    Week(weekYear, WeeksInto(thursday - yearStart))
  }

  /** The computation on a date object that is shifted in place: the standard's week, except for the
      misread days. */
  method ComputeIsoWeek(d: Date) returns (year: int, week: int)
    requires 1 <= d.month <= 12
    ensures Week(year, week) == IsoWeekOf(d)
    ensures ValidDate(d) && d.year >= 100 ==> (IsStandard(Week(year, week), MondayOf(DayNumber(d))) <==> !Misread(d))
  {
    if ValidDate(d) && d.year >= 100 { IsoWeekIsStandard(d); }
    hide ValidDate, IsStandard, MondayOf, DayNumber, YearStart, WeeksInto, Misread;
    var value := DateUtc(d);
    var weekday := UtcWeekday(value);
    value := value + 4 - weekday;
    year := UtcFullYear(value);
    var yearStart := DateUtc(Date(year, 1, 1));
    week := WeeksInto(value - yearStart);
  }

  /** The number of the week that a day falls in, for a day that many days after 1 January. */
  function WeeksInto(days: int): int {
    Ceil((days as real + 1.0) / 7.0)
  }

  // ------------------------------------------------------------- calendar facts

  lemma YearLengths(year: int)
    ensures YearStart(year + 1) - YearStart(year) == if IsLeap(year) then 366 else 365
  {
    LeapStep(year);
  }

  lemma LeapStep(year: int)
    ensures LeapsBefore(year + 1) - LeapsBefore(year) == if IsLeap(year) then 1 else 0
  {
    QuotientSteps(year);
    Multiples(year);
  }

  lemma Multiples(n: int)
    ensures n % 400 == 0 ==> n % 100 == 0
    ensures n % 100 == 0 ==> n % 4 == 0
  {
  }

  lemma QuotientSteps(n: int)
    ensures n / 4 - (n - 1) / 4 == if n % 4 == 0 then 1 else 0
    ensures n / 100 - (n - 1) / 100 == if n % 100 == 0 then 1 else 0
    ensures n / 400 - (n - 1) / 400 == if n % 400 == 0 then 1 else 0
  {
  }

  /** Years start in order. */
  lemma {:induction false} YearStartsIncrease(a: int, b: int)
    requires a < b
    ensures YearStart(a) < YearStart(b)
    decreases b - a
  {
    YearLengths(a);
    if a + 1 < b { YearStartsIncrease(a + 1, b); }
  }

  /** A day lies in a year of at least m exactly when it is not before the start of year m. */
  lemma YearAtLeast(n: int, year: int, m: int)
    requires YearStart(year) <= n < YearStart(year + 1)
    ensures year >= m <==> n >= YearStart(m)
  {
    if year > m { YearStartsIncrease(m, year); }
    if year + 1 < m { YearStartsIncrease(year + 1, m); }
  }

  lemma YearIsUnique(n: int, a: int, b: int)
    requires YearStart(a) <= n < YearStart(a + 1) && YearStart(b) <= n < YearStart(b + 1)
    ensures a == b
  {
    YearAtLeast(n, a, b);
    YearAtLeast(n, b, a);
  }

  lemma DayWithinYear(d: Date)
    requires ValidDate(d)
    ensures YearStart(d.year) <= DayNumber(d) < YearStart(d.year + 1)
  {
    YearLengths(d.year);
    MonthsFit(d.year, d.month);
  }

  lemma MonthsFit(year: int, month: int)
    requires 1 <= month <= 12
    ensures 0 <= MonthStart(year, month) && MonthStart(year, month) + DaysInMonth(year, month) <= (if IsLeap(year) then 366 else 365)
  {
    assert MonthStart(year, 1) == 0;
    assert MonthStart(year, 2) == 31;
    assert MonthStart(year, 4) == MonthStart(year, 2) + DaysInMonth(year, 2) + 31;
    assert MonthStart(year, 6) == MonthStart(year, 4) + 61;
    assert MonthStart(year, 8) == MonthStart(year, 6) + 61;
    assert MonthStart(year, 10) == MonthStart(year, 8) + 61;
    assert MonthStart(year, 12) == MonthStart(year, 10) + 61;
  }

  /** Both weekday formulas agree, and Thursdays are the multiples of seven. */
  lemma ThursdayOfWeek(n: int)
    ensures UtcWeekday(n) == Weekday(n)
    ensures n + 4 - Weekday(n) == MondayOf(n) + 3 == 7 * ((n + 3) / 7)
  {
  }

  lemma CeilSevenths(k: int)
    requires k >= 0
    ensures WeeksInto(k) == k / 7 + 1
  {
    var q, r := k / 7, k % 7;
    var x := (k as real + 1.0) / 7.0;
    assert x == q as real + (r as real + 1.0) / 7.0;
    assert 0.0 < (r as real + 1.0) / 7.0 <= 1.0;
    assert -(q as real) - 1.0 <= -x < -(q as real);
    assert (-x).Floor == -q - 1;
  }

  /** The day after: the next day of the month, the first of the next month, or New Year's Day. */
  function DayAfter(d: Date): Date {
    var lengths := [31, if d.year % 4 == 0 && (d.year % 100 != 0 || d.year % 400 == 0) then 29 else 28, 31, 30, 31, 30, 31, 31, 30, 31, 30, 31];
    if 1 <= d.month <= 12 && d.day < lengths[d.month - 1] then Date(d.year, d.month, d.day + 1)
    else if d.month < 12 then Date(d.year, d.month + 1, 1)
    else Date(d.year + 1, 1, 1)
  }

  /** Days are numbered as the Gregorian calendar has them, from 1970-01-01 on in both directions. */
  lemma DaysAreCounted(d: Date)
    requires ValidDate(d)
    ensures ValidDate(DayAfter(d)) && DayNumber(DayAfter(d)) == DayNumber(d) + 1
    ensures ValidDate(Date(1970, 1, 1)) && DayNumber(Date(1970, 1, 1)) == 0
  {
    var next := DayAfter(d);
    if next.year != d.year {
      assert MonthStart(d.year, 12) + 31 == if IsLeap(d.year) then 366 else 365 by { LastMonth(d.year); }
      YearLengths(d.year);
    } else if next.month != d.month {
      assert MonthStart(d.year, next.month) == MonthStart(d.year, d.month) + DaysInMonth(d.year, d.month);
    }
  }

  lemma LastMonth(year: int)
    ensures MonthStart(year, 12) == if IsLeap(year) then 335 else 334
  {
    assert MonthStart(year, 2) == 31;
    assert MonthStart(year, 4) == MonthStart(year, 2) + DaysInMonth(year, 2) + 31;
    assert MonthStart(year, 6) == MonthStart(year, 4) + 61;
    assert MonthStart(year, 8) == MonthStart(year, 6) + 61;
    assert MonthStart(year, 10) == MonthStart(year, 8) + 61;
    assert MonthStart(year, 12) == MonthStart(year, 10) + 61;
  }

  /** 5 January 1970 was a Monday, and every seventh day from it is. */
  lemma MondaysComeWeekly(n: int)
    ensures MondayOf(n) <= n < MondayOf(n) + 7
    ensures exists week: int :: MondayOf(n) == DayNumber(Date(1970, 1, 5)) + 7 * week
  {
    assert DayNumber(Date(1970, 1, 5)) == 4;
    var week := (n + 3) / 7 - 1;
    assert MondayOf(n) == 4 + 7 * week;
  }

  // ---------------------------------------------------------------- main results

  /** The first three days of year 100 belong to week 53 of year 99, which `Date.UTC`
      mistakes for 1999. */
  predicate Misread(d: Date) {
    d.year == 100 && d.month == 1 && d.day <= 3
  }

  /** Year 100 begins on a Friday, so its first three days are before its first Monday. */
  lemma MisreadDays(d: Date)
    requires ValidDate(d) && d.year >= 100
    ensures MondayOf(DayNumber(d)) + 3 >= YearStart(99)
    ensures MondayOf(DayNumber(d)) + 3 >= YearStart(100) <==> !Misread(d)
  {
    var n, start := DayNumber(d), YearStart(100);
    assert Weekday(start) == 5 && YearStart(99) == start - 365;
    if d.year > 100 {
      DayWithinYear(d);
      YearLengths(100);
      YearAtLeast(n, d.year, 101);
    } else if d.month > 1 {
      EarlierMonths(d.year, d.month);
    } else {
      assert n == start + d.day - 1;
    }
    assert n >= start + 3 <==> !Misread(d);
    ThursdayAgainst(n, start);
  }

  lemma ThursdayAgainst(n: int, friday: int)
    requires Weekday(friday) == 5 && n >= friday
    ensures MondayOf(n) + 3 >= friday <==> n >= friday + 3
    ensures MondayOf(n) + 3 >= friday - 1
  {
  }

  lemma UtcOfLateYears(d: Date)
    requires ValidDate(d) && d.year >= 100
    ensures DateUtc(d) == DayNumber(d)
    ensures IsoWeekOf(d).year == UtcFullYear(MondayOf(DayNumber(d)) + 3)
  {
    ThursdayOfWeek(DayNumber(d));
  }

  /** The week year is the year of the week's Thursday, and it is not one of 0 to 99
      except for the three misread days. */
  lemma WeekYearOf(d: Date)
    requires ValidDate(d) && d.year >= 100
    ensures var thursday, y := MondayOf(DayNumber(d)) + 3, IsoWeekOf(d).year;
            && YearStart(y) <= thursday < YearStart(y + 1)
            && (y >= 100 <==> !Misread(d))
            && (Misread(d) ==> y == 99)
  {
    UtcOfLateYears(d);
    MisreadDays(d);
    var thursday, y := MondayOf(DayNumber(d)) + 3, IsoWeekOf(d).year;
    YearAtLeast(thursday, y, 100);
    YearAtLeast(thursday, y, 99);
  }

  lemma EarlierMonths(year: int, month: int)
    requires 2 <= month <= 12
    ensures MonthStart(year, month) >= 31
    decreases month
  {
    if month > 2 { EarlierMonths(year, month - 1); }
  }

  /** The week number, counted from the year that the second `Date.UTC` understood. */
  lemma WeekNumberOf(d: Date)
    requires ValidDate(d) && d.year >= 100
    ensures var w, thursday := IsoWeekOf(d), MondayOf(DayNumber(d)) + 3;
            w.week == WeeksInto(thursday - YearStart(UtcYearArgument(w.year)))
  {
    assert DateUtc(d) == DayNumber(d);
    ThursdayOfWeek(DayNumber(d));
    JanuaryFirst(IsoWeekOf(d).year);
  }

  lemma JanuaryFirst(year: int)
    ensures DateUtc(Date(year, 1, 1)) == YearStart(UtcYearArgument(year))
  {
  }

  /** Exactly when the date is not misread, the result is the ISO week: the n-th Monday-to-Sunday
      week of its year, where week 1 is the one with 4 January; weeks run from 1 to 53. */
  lemma IsoWeekIsStandard(d: Date)
    requires ValidDate(d) && d.year >= 100
    ensures IsStandard(IsoWeekOf(d), MondayOf(DayNumber(d))) <==> !Misread(d)
    ensures Misread(d) ==> IsoWeekOf(d).week < 1
  {
    hide IsoWeekOf, YearStart, DayNumber, WeeksInto;
    WeekYearOf(d);
    WeekNumberOf(d);
    ThursdayOfWeek(DayNumber(d));
    WeekIsStandard(IsoWeekOf(d), MondayOf(DayNumber(d)));
  }

  lemma WeekIsStandard(w: Week, monday: int)
    requires w.year >= 99 && YearStart(w.year) <= monday + 3 < YearStart(w.year + 1)
    requires w.week == WeeksInto(monday + 3 - YearStart(UtcYearArgument(w.year)))
    requires (monday + 3) % 7 == 0
    ensures IsStandard(w, monday) <==> w.year >= 100
    ensures w.year == 99 ==> w.week < 1
  {
    if w.year == 99 { MisreadWeek(monday + 3); } else { StandardWeek(w, monday); }
  }

  lemma StandardWeek(w: Week, monday: int)
    requires YearStart(w.year) <= monday + 3 < YearStart(w.year + 1) && (monday + 3) % 7 == 0
    requires w.week == WeeksInto(monday + 3 - YearStart(w.year))
    ensures IsStandard(w, monday)
  {
    YearLengths(w.year);
    WeekNumber(monday + 3, YearStart(w.year));
  }

  /** The week that starts on this Monday, by the standard's definition. */
  predicate IsStandard(w: Week, monday: int) {
    1 <= w.week <= 53 && monday == MondayOf(YearStart(w.year) + 3) + 7 * (w.week - 1)
  }

  lemma WeekNumber(thursday: int, start: int)
    requires start <= thursday < start + 366 && thursday % 7 == 0
    ensures var week := WeeksInto(thursday - start);
            && 1 <= week <= 53 && week == (thursday - start) / 7 + 1
            && thursday - 3 == MondayOf(start + 3) + 7 * (week - 1)
  {
    CeilSevenths(thursday - start);
    FirstThursday(start, thursday);
  }

  /** Weeks counted from the first Thursday of the year are weeks counted from 1 January. */
  lemma FirstThursday(start: int, thursday: int)
    requires start <= thursday && thursday % 7 == 0
    ensures thursday - 3 == MondayOf(start + 3) + 7 * ((thursday - start) / 7)
  {
    var first := 7 * ((start + 6) / 7);
    assert MondayOf(start + 3) + 3 == first by { ThursdayOfWeek(start + 3); }
    assert start <= first < start + 7;
    assert (thursday - start) / 7 == (thursday - first) / 7;
  }

  lemma MisreadWeek(thursday: int)
    requires YearStart(99) <= thursday < YearStart(100)
    ensures WeeksInto(thursday - YearStart(1999)) < 1
  {
    YearStartsIncrease(100, 1999);
    var x := ((thursday - YearStart(1999)) as real + 1.0) / 7.0;
    assert x <= 0.0;
  }

  /** The misread days are the Friday to Sunday of one week. */
  lemma MisreadMonday(d: Date)
    requires ValidDate(d) && Misread(d)
    ensures MondayOf(DayNumber(d)) == YearStart(100) - 4
  {
    assert Weekday(YearStart(100)) == 5;
    assert DayNumber(d) == YearStart(100) + d.day - 1;
    WeekendAfter(DayNumber(d), YearStart(100));
  }

  lemma WeekendAfter(n: int, friday: int)
    requires Weekday(friday) == 5 && friday <= n <= friday + 2
    ensures MondayOf(n) == friday - 4
  {
  }

  /** The key depends on the week only. */
  lemma SameMondaySameKey(a: Date, b: Date)
    requires ValidDate(a) && ValidDate(b) && a.year >= 100 && b.year >= 100
    requires MondayOf(DayNumber(a)) == MondayOf(DayNumber(b))
    ensures IsoWeekOf(a) == IsoWeekOf(b)
  {
    hide IsoWeekOf, YearStart, DayNumber, WeeksInto, MondayOf;
    WeekYearOf(a);
    WeekYearOf(b);
    WeekNumberOf(a);
    WeekNumberOf(b);
    YearIsUnique(MondayOf(DayNumber(a)) + 3, IsoWeekOf(a).year, IsoWeekOf(b).year);
  }

  /** Two dates get the same key exactly when they lie in the same Monday-to-Sunday week: the misread
      days too, whose wrong key no other date has. */
  lemma SameWeekSameKey(a: Date, b: Date)
    requires ValidDate(a) && ValidDate(b) && a.year >= 100 && b.year >= 100
    ensures IsoWeekOf(a) == IsoWeekOf(b) <==> MondayOf(DayNumber(a)) == MondayOf(DayNumber(b))
  {
    hide IsoWeekOf, YearStart, DayNumber, WeeksInto, MondayOf, IsStandard;
    WeekYearOf(a);
    WeekYearOf(b);
    if MondayOf(DayNumber(a)) == MondayOf(DayNumber(b)) {
      SameMondaySameKey(a, b);
    } else if Misread(a) && Misread(b) {
      MisreadMonday(a);
      MisreadMonday(b);
    } else if !Misread(a) && !Misread(b) {
      IsoWeekIsStandard(a);
      IsoWeekIsStandard(b);
      StandardDecides(IsoWeekOf(a), IsoWeekOf(b), MondayOf(DayNumber(a)), MondayOf(DayNumber(b)));
    }
  }

  lemma StandardDecides(v: Week, w: Week, m: int, n: int)
    requires IsStandard(v, m) && IsStandard(w, n)
    requires YearStart(v.year) <= m + 3 < YearStart(v.year + 1) && YearStart(w.year) <= n + 3 < YearStart(w.year + 1)
    ensures v == w <==> m == n
  {
    if m == n {
      YearIsUnique(m + 3, v.year, w.year);
      StandardIsUnique(v, w, m);
    }
  }

  lemma StandardIsUnique(v: Week, w: Week, monday: int)
    requires v.year == w.year && IsStandard(v, monday) && IsStandard(w, monday)
    ensures v == w
  {
  }

  // ---------------------------------------------------------------- bucket keys

  datatype Unit = Day | WeekUnit | Month

  /** `bucketKey`, as the numbers that its text is padded and joined from. */
  function BucketKey(d: Date, unit: Unit): (int, int, int)
    requires ValidDate(d)
  {
    match unit
    case Month => (d.year, d.month, 0)
    case Day => (d.year, d.month, d.day)
    case WeekUnit => (IsoWeekOf(d).year, IsoWeekOf(d).week, 0)
  }

  /** Two dates share a bucket exactly when they are the same day, lie in the same
      Monday-to-Sunday week, or lie fewer than a month's days after the same first of a month. */
  lemma SameBucket(a: Date, b: Date)
    requires ValidDate(a) && ValidDate(b) && a.year >= 100 && b.year >= 100
    ensures BucketKey(a, Day) == BucketKey(b, Day) <==> DayNumber(a) == DayNumber(b)
    ensures BucketKey(a, WeekUnit) == BucketKey(b, WeekUnit) <==> MondayOf(DayNumber(a)) == MondayOf(DayNumber(b))
    ensures BucketKey(a, Month) == BucketKey(b, Month) <==> DayNumber(a) - a.day == DayNumber(b) - b.day
  {
    SameWeekSameKey(a, b);
    if DayNumber(a) - a.day == DayNumber(b) - b.day { FirstOfMonth(a, b); }
    if DayNumber(a) == DayNumber(b) { DateOfDay(a, b); }
  }

  /** A day number names one date. */
  lemma DateOfDay(a: Date, b: Date)
    requires ValidDate(a) && ValidDate(b) && DayNumber(a) == DayNumber(b)
    ensures a == b
  {
    DayWithinYear(a);
    DayWithinYear(b);
    YearIsUnique(DayNumber(a), a.year, b.year);
    if a.month < b.month { MonthsInOrder(a.year, a.month, b.month); }
    if b.month < a.month { MonthsInOrder(a.year, b.month, a.month); }
  }

  lemma {:induction false} MonthsInOrder(year: int, m: int, n: int)
    requires 1 <= m < n <= 12
    ensures MonthStart(year, m) + DaysInMonth(year, m) <= MonthStart(year, n)
    decreases n
  {
    if m + 1 < n { MonthsInOrder(year, m, n - 1); }
  }

  lemma FirstOfMonth(a: Date, b: Date)
    requires ValidDate(a) && ValidDate(b) && DayNumber(a) - a.day == DayNumber(b) - b.day
    ensures a.year == b.year && a.month == b.month
  {
    var x, y := a.(day := 1), b.(day := 1);
    assert DayNumber(x) == DayNumber(y);
    DateOfDay(x, y);
  }
}
