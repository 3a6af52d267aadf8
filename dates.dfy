/** Calendar dates with the semantics of the ECMAScript Date object (ECMA-262,
    section 21.4.1, the time-value abstract operations), written as integer
    functions over (year, month, day). Months are numbered 0..11 as getMonth()
    reports them; days 1..31 as getDate() reports them. */
module Dates {

  /** A local calendar date, as getFullYear(), getMonth() and getDate() report it. */
  datatype Date = Date(year: int, month: int, day: int)
  {
    /** The three fields name an existing day of the Gregorian calendar. */
    predicate Valid() {
      0 <= month < 12 && 1 <= day <= DaysInMonth(year, month)
    }
  }

  /** DaysInYear of section 21.4.1.3, as its four-way case split. */
  function DaysInYear(y: int): (n: int)
    ensures n == 365 || n == 366
  {
    if y % 4 != 0 then 365
    else if y % 100 != 0 then 366
    else if y % 400 != 0 then 365
    else 366
  }

  /** The Gregorian leap-year rule in its usual one-line form. */
  predicate IsLeapYear(y: int) {
    (y % 4 == 0 && y % 100 != 0) || y % 400 == 0
  }

  /** The length of month m of year y: the table behind MonthFromTime and
      DateFromTime of section 21.4.1, with February taking the leap day. */
  function DaysInMonth(y: int, m: int): (n: int)
    requires 0 <= m < 12
    ensures 28 <= n <= 31
  {
    if m == 1 then DaysInYear(y) - 337
    else if m == 3 || m == 5 || m == 8 || m == 10 then 30
    else 31
  }

  /** Days of year y that precede month m: the lengths of months 0..m - 1
      added up. DaysBeforeMonthTable checks the sums against the offsets that
      MonthFromTime of section 21.4.1 lists. */
  function DaysBeforeMonth(y: int, m: int): (n: int)
    requires 0 <= m < 12
    ensures 28 * m <= n <= 31 * m
  {
    if m == 0 then 0 else DaysBeforeMonth(y, m - 1) + DaysInMonth(y, m - 1)
  }

  /** DayFromYear of section 21.4.1.3 as a count: the day number of 1 January
      of year y, counted from 1 January 1970, one year at a time.
      DayFromYearMatchesFormula proves it equal to the standard's closed
      formula. */
  function DayFromYear(y: int): int
    decreases if y < 1970 then 1970 - y else y - 1970
  {
    if y == 1970 then 0
    else if y > 1970 then DayFromYear(y - 1) + DaysInYear(y - 1)
    else DayFromYear(y + 1) - DaysInYear(y)
  }

  /** The closed formula of section 21.4.1.3. Dafny's division rounds towards
      negative infinity for a positive divisor, as the standard's floor does. */
  function DayFromYearFormula(y: int): int {
    365 * (y - 1970) + (y - 1969) / 4 - (y - 1901) / 100 + (y - 1601) / 400
  }

  /** The day number Day(t) of the local midnight that starts date d. */
  function DayNumber(d: Date): int
    requires 0 <= d.month < 12
  {
    DayFromYear(d.year) + DaysBeforeMonth(d.year, d.month) + d.day - 1
  }

  /** WeekDay of section 21.4.1.6 on a day number: 0 is Sunday. */
  function WeekDayOf(n: int): (w: int)
    ensures 0 <= w < 7
  {
    (n + 4) % 7
  }

  /** The weekday of date d, as getDay() reports it. */
  function WeekDay(d: Date): (w: int)
    requires 0 <= d.month < 12
    ensures 0 <= w < 7
  {
    WeekDayOf(DayNumber(d))
  }

  /** The Date constructor's treatment of its year argument (section 21.4.2.1):
      a year from 0 to 99 means 1900 to 1999. */
  function MakeFullYear(y: int): (r: int)
    ensures 0 <= y <= 99 ==> r == 1900 + y
    ensures !(0 <= y <= 99) ==> r == y
  {
    if 0 <= y <= 99 then 1900 + y else y
  }

  /** Years the constructor takes literally. */
  predicate LiteralYear(y: int) {
    !(0 <= y <= 99)
  }

  /** Carries an out-of-range day of month m of year y into the neighbouring
      months until it names an existing date. NormalizeDayNumber proves that
      the result is the date whose day number is that of the 1st of (y, m)
      plus date - 1, as MakeDay requires. */
  function NormalizeDay(y: int, m: int, date: int): (r: Date)
    requires 0 <= m < 12
    ensures r.Valid()
  {
    if date < 1 then CarryBackward(y, m, date) else CarryForward(y, m, date)
  }

  /** A day before the 1st: step back a month at a time. */
  function CarryBackward(y: int, m: int, date: int): (r: Date)
    requires 0 <= m < 12 && date < 1
    ensures r.Valid()
    decreases 1 - date
  {
    var (py, pm) := if m == 0 then (y - 1, 11) else (y, m - 1);
    var earlier := date + DaysInMonth(py, pm);
    if earlier < 1 then CarryBackward(py, pm, earlier) else Date(py, pm, earlier)
  }

  /** A day past the 1st: step forward a month at a time while it overflows. */
  function CarryForward(y: int, m: int, date: int): (r: Date)
    requires 0 <= m < 12 && 1 <= date
    ensures r.Valid()
    decreases date
  {
    if date <= DaysInMonth(y, m) then Date(y, m, date)
    else
      var (ny, nm) := if m == 11 then (y + 1, 0) else (y, m + 1);
      CarryForward(ny, nm, date - DaysInMonth(y, m))
  }

  /** MakeDay of section 21.4.1.28 followed by YearFromTime, MonthFromTime and
      DateFromTime: the month carries into the year first, then the day into
      the months. */
  function MakeDay(y: int, m: int, date: int): (r: Date)
    ensures r.Valid()
  {
    NormalizeDay(y + m / 12, m % 12, date)
  }

  /** `new Date(y, m, d)`: the constructor's year rule, then MakeDay. */
  function NewDate(y: int, m: int, d: int): (r: Date)
    ensures r.Valid()
  {
    MakeDay(MakeFullYear(y), m, d)
  }

  // ---------------------------------------------------------------------------
  // The day number of a normalised date
  // ---------------------------------------------------------------------------

  /** Stepping back keeps the day number: the result lies date - 1 days from
      the 1st of (y, m). */
  lemma {:induction false} CarryBackwardDayNumber(y: int, m: int, date: int)
    requires 0 <= m < 12 && date < 1
    ensures DayNumber(CarryBackward(y, m, date)) == DayNumber(Date(y, m, 1)) + date - 1
    decreases 1 - date
  {
    if m == 0 {
      JanuaryAfterDecember(y);
      if date + 31 < 1 {
        CarryBackwardDayNumber(y - 1, 11, date + 31);
      }
    } else if date + DaysInMonth(y, m - 1) < 1 {
      CarryBackwardDayNumber(y, m - 1, date + DaysInMonth(y, m - 1));
    }
  }

  /** Stepping forward keeps the day number in the same way. */
  lemma {:induction false} CarryForwardDayNumber(y: int, m: int, date: int)
    requires 0 <= m < 12 && 1 <= date
    ensures DayNumber(CarryForward(y, m, date)) == DayNumber(Date(y, m, 1)) + date - 1
    decreases date
  {
    if date > DaysInMonth(y, m) {
      if m == 11 {
        DecemberToJanuary(y);
        CarryForwardDayNumber(y + 1, 0, date - 31);
      } else {
        CarryForwardDayNumber(y, m + 1, date - DaysInMonth(y, m));
      }
    }
  }

  /** The normalised date lies date - 1 days from the 1st of (y, m). */
  lemma NormalizeDayNumber(y: int, m: int, date: int)
    requires 0 <= m < 12
    ensures DayNumber(NormalizeDay(y, m, date)) == DayNumber(Date(y, m, 1)) + date - 1
  {
    if date < 1 {
      CarryBackwardDayNumber(y, m, date);
    } else {
      CarryForwardDayNumber(y, m, date);
    }
  }

  /** `new Date(y, m, d)` is the valid date d - 1 days from the 1st of month
      m mod 12 of the year the constructor's year rule and the month carry
      give. */
  lemma NewDateDayNumber(y: int, m: int, d: int)
    ensures DayNumber(NewDate(y, m, d)) == DayNumber(Date(MakeFullYear(y) + m / 12, m % 12, 1)) + d - 1
  {
    NormalizeDayNumber(MakeFullYear(y) + m / 12, m % 12, d);
  }

  // ---------------------------------------------------------------------------
  // Lemmas relating the month table to the day-number formula
  // ---------------------------------------------------------------------------

  /** The one-line leap rule and the standard's case split agree: February has
      29 days exactly in leap years. */
  lemma FebruaryLength(y: int)
    ensures DaysInMonth(y, 1) == 29 <==> IsLeapYear(y)
    ensures DaysInMonth(y, 1) == 28 <==> !IsLeapYear(y)
    ensures DaysInYear(y) == (if IsLeapYear(y) then 366 else 365)
  {
  }

  /** Each floor term of DayFromYear grows by one exactly when y is a multiple
      of its divisor. */
  lemma FloorStep4(y: int)
    ensures (y - 1968) / 4 - (y - 1969) / 4 == (if y % 4 == 0 then 1 else 0)
  {
  }

  lemma FloorStep100(y: int)
    ensures (y - 1900) / 100 - (y - 1901) / 100 == (if y % 100 == 0 then 1 else 0)
  {
  }

  lemma FloorStep400(y: int)
    ensures (y - 1600) / 400 - (y - 1601) / 400 == (if y % 400 == 0 then 1 else 0)
  {
  }

  /** The closed formula advances by exactly the length of the year. */
  lemma FormulaYearStep(y: int)
    ensures DayFromYearFormula(y + 1) == DayFromYearFormula(y) + DaysInYear(y)
  {
    FloorStep4(y);
    FloorStep100(y);
    FloorStep400(y);
    LeapDays(y);
    assert DayFromYearFormula(y + 1)
        == 365 * (y - 1970) + 365 + (y - 1968) / 4 - (y - 1900) / 100 + (y - 1600) / 400;
  }

  /** A year's length as the three divisibility corrections of the formula. */
  lemma LeapDays(y: int)
    ensures DaysInYear(y) == 365 + (if y % 4 == 0 then 1 else 0)
                                 - (if y % 100 == 0 then 1 else 0)
                                 + (if y % 400 == 0 then 1 else 0)
  {
    if y % 400 == 0 {
      var k := y / 400;
      assert y == 100 * (4 * k);
      assert y == 4 * (100 * k);
    } else if y % 100 == 0 {
      var k := y / 100;
      assert y == 4 * (25 * k);
    }
  }

  /** The year-by-year count and the standard's closed formula agree. */
  lemma {:induction false} DayFromYearMatchesFormula(y: int)
    ensures DayFromYear(y) == DayFromYearFormula(y)
    decreases if y < 1970 then 1970 - y else y - 1970
  {
    if y > 1970 {
      DayFromYearMatchesFormula(y - 1);
      FormulaYearStep(y - 1);
    } else if y < 1970 {
      DayFromYearMatchesFormula(y + 1);
      FormulaYearStep(y);
    }
  }

  /** The count advances by exactly the length of the year. */
  lemma YearStep(y: int)
    ensures DayFromYear(y + 1) == DayFromYear(y) + DaysInYear(y)
  {
  }

  /** 1 January of year y + 1 lies 31 days after 1 December of year y. */
  lemma DecemberToJanuary(y: int)
    ensures DayNumber(Date(y + 1, 0, 1)) == DayNumber(Date(y, 11, 1)) + 31
  {
    YearStep(y);
    MonthsFillYear(y);
  }

  /** The same step, seen from the January. */
  lemma JanuaryAfterDecember(y: int)
    ensures DayNumber(Date(y, 0, 1)) == DayNumber(Date(y - 1, 11, 1)) + 31
  {
    YearStep(y - 1);
    MonthsFillYear(y - 1);
  }

  /** The sums are the offsets MonthFromTime of section 21.4.1 lists, the
      leap day counting from March on. */
  lemma DaysBeforeMonthTable(y: int, m: int)
    requires 0 <= m < 12
    ensures var leap := DaysInYear(y) - 365;
            DaysBeforeMonth(y, m) ==
              if m == 0 then 0 else if m == 1 then 31
              else if m == 2 then 59 + leap else if m == 3 then 90 + leap
              else if m == 4 then 120 + leap else if m == 5 then 151 + leap
              else if m == 6 then 181 + leap else if m == 7 then 212 + leap
              else if m == 8 then 243 + leap else if m == 9 then 273 + leap
              else if m == 10 then 304 + leap else 334 + leap
  {
    var leap := DaysInYear(y) - 365;
    assert DaysBeforeMonth(y, 1) == 31;
    assert DaysBeforeMonth(y, 2) == 59 + leap;
    assert DaysBeforeMonth(y, 3) == 90 + leap;
    assert DaysBeforeMonth(y, 4) == 120 + leap;
    assert DaysBeforeMonth(y, 5) == 151 + leap;
    assert DaysBeforeMonth(y, 6) == 181 + leap;
    assert DaysBeforeMonth(y, 7) == 212 + leap;
    assert DaysBeforeMonth(y, 8) == 243 + leap;
    assert DaysBeforeMonth(y, 9) == 273 + leap;
    assert DaysBeforeMonth(y, 10) == 304 + leap;
  }

  /** The twelve month lengths add up to the length of the year. */
  lemma MonthsFillYear(y: int)
    ensures DaysBeforeMonth(y, 11) + DaysInMonth(y, 11) == DaysInYear(y)
  {
    DaysBeforeMonthTable(y, 11);
  }

  /** Day numbers of later years are larger. */
  lemma {:induction false} DayFromYearMonotone(a: int, b: int)
    requires a <= b
    ensures DayFromYear(a) + 365 * (b - a) <= DayFromYear(b)
    decreases b - a
  {
    if a < b {
      YearStep(a);
      DayFromYearMonotone(a + 1, b);
    }
  }

  /** Lexicographic order on valid dates. */
  predicate Before(a: Date, b: Date) {
    a.year < b.year
    || (a.year == b.year && a.month < b.month)
    || (a.year == b.year && a.month == b.month && a.day < b.day)
  }

  /** The day number is strictly increasing along the calendar. */
  lemma DayNumberIncreasing(a: Date, b: Date)
    requires a.Valid() && b.Valid() && Before(a, b)
    ensures DayNumber(a) < DayNumber(b)
  {
    MonthFitsYear(a.year, a.month);
    if a.year < b.year {
      YearStep(a.year);
      DayFromYearMonotone(a.year + 1, b.year);
    } else if a.month < b.month {
      DaysBeforeMonthIncreasing(a.year, a.month, b.month);
    }
  }

  lemma {:induction false} DaysBeforeMonthIncreasing(y: int, m: int, n: int)
    requires 0 <= m < n < 12
    ensures DaysBeforeMonth(y, m) + DaysInMonth(y, m) <= DaysBeforeMonth(y, n)
    decreases n - m
  {
    if m + 1 < n {
      DaysBeforeMonthIncreasing(y, m, n - 1);
    }
  }

  /** Every month ends within its year. */
  lemma MonthFitsYear(y: int, m: int)
    requires 0 <= m < 12
    ensures DaysBeforeMonth(y, m) + DaysInMonth(y, m) <= DaysInYear(y)
  {
    MonthsFillYear(y);
    if m < 11 {
      DaysBeforeMonthIncreasing(y, m, 11);
    }
  }

  /** Distinct valid dates have distinct day numbers, so the date that MakeDay
      finds is the only one with its day number. */
  lemma DayNumberInjective(a: Date, b: Date)
    requires a.Valid() && b.Valid()
    requires DayNumber(a) == DayNumber(b)
    ensures a == b
  {
    if Before(a, b) {
      DayNumberIncreasing(a, b);
    } else if Before(b, a) {
      DayNumberIncreasing(b, a);
    }
  }

  /** MakeDay leaves an existing date as it is. */
  lemma MakeDayOfValid(d: Date)
    requires d.Valid()
    ensures MakeDay(d.year, d.month, d.day) == d
  {
    var r := MakeDay(d.year, d.month, d.day);
    assert d.month / 12 == 0 && d.month % 12 == d.month;
    NormalizeDayNumber(d.year, d.month, d.day);
    DayNumberInjective(r, d);
  }

  /** k days on, the weekday has advanced by k, modulo a week. */
  lemma WeekDayShift(n: int, k: int)
    ensures WeekDayOf(n + k) == (WeekDayOf(n) + k) % 7
  {
    var q := (n + 4) / 7;
    assert n + 4 == 7 * q + WeekDayOf(n);
    assert n + k + 4 == 7 * q + (WeekDayOf(n) + k);
  }

  /** Consecutive days of one month fall on consecutive weekdays. */
  lemma WeekDayAdvances(y: int, m: int, k: int)
    requires 0 <= m < 12
    ensures WeekDay(Date(y, m, 1 + k)) == (WeekDay(Date(y, m, 1)) + k) % 7
  {
    assert DayNumber(Date(y, m, 1 + k)) == DayNumber(Date(y, m, 1)) + k;
    WeekDayShift(DayNumber(Date(y, m, 1)), k);
  }

  /** Days d1 and d2 of the same constructor arguments give the same date
      only when d1 == d2. */
  lemma NewDateInjective(y: int, m: int, d1: int, d2: int)
    requires NewDate(y, m, d1) == NewDate(y, m, d2)
    ensures d1 == d2
  {
    NewDateDayNumber(y, m, d1);
    NewDateDayNumber(y, m, d2);
  }

  /** Day 1 + k of a month falls k weekdays after day 1. */
  lemma NewDateWeekDay(y: int, m: int, k: int)
    ensures WeekDay(NewDate(y, m, k + 1)) == (WeekDay(NewDate(y, m, 1)) + k) % 7
  {
    NewDateDayNumber(y, m, k + 1);
    NewDateDayNumber(y, m, 1);
    WeekDayShift(DayNumber(NewDate(y, m, 1)), k);
  }

  /** For an existing day of month m (0..11) of the year the constructor makes
      of y, `new Date(y, m, d)` is that day. */
  lemma NewDateInMonth(y: int, m: int, d: int)
    requires 0 <= m < 12 && 1 <= d <= DaysInMonth(MakeFullYear(y), m)
    ensures NewDate(y, m, d) == Date(MakeFullYear(y), m, d)
  {
    MakeDayOfValid(Date(MakeFullYear(y), m, d));
  }

  /** Day 0 of the month after m is the last day of month m, in the year the
      constructor makes of y; for m = 11 the month carries into the next year
      and back. */
  lemma NewDateDayZero(y: int, m: int)
    requires 0 <= m < 12
    ensures NewDate(y, m + 1, 0) == Date(MakeFullYear(y), m, DaysInMonth(MakeFullYear(y), m))
  {
    var fy := MakeFullYear(y);
    var last := Date(fy, m, DaysInMonth(fy, m));
    NewDateDayNumber(y, m + 1, 0);
    if m == 11 {
      assert (m + 1) / 12 == 1 && (m + 1) % 12 == 0;
      DecemberToJanuary(fy);
    } else {
      assert (m + 1) / 12 == 0 && (m + 1) % 12 == m + 1;
    }
    DayNumberInjective(NewDate(y, m + 1, 0), last);
  }

  /** 1 January 1970, day number 0, was a Thursday. */
  lemma EpochIsThursday()
    ensures DayNumber(Date(1970, 0, 1)) == 0
    ensures WeekDay(Date(1970, 0, 1)) == 4
  {
  }
}
