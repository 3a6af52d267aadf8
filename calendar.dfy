/** The month-grid date picker (src/components/ui/Calendar.jsx). The widget
    owns only the displayed month; the selected date belongs to its owner and
    reaches it through the value a click delivers to onSelect. */
module CalendarWidget {
  import opened Dates
  import opened Seqs

  /** One grid cell: null for a leading blank, or a date. */
  type Cell = Option<Date>

  /** The length of a grid row, Monday to Sunday. */
  const Week: nat := 7

  /** `startOfMonth(date)`: the 1st of the month of date. */
  function StartOfMonth(d: Date): Date {
    NewDate(d.year, d.month, 1)
  }

  /** `endOfMonth(date)`: day 0 of the next month, the last day of this one. */
  function EndOfMonth(d: Date): Date {
    NewDate(d.year, d.month + 1, 0)
  }

  /** `addMonths(date, m)`: the 1st of the month m months away. */
  function AddMonths(d: Date, m: int): Date {
    NewDate(d.year, d.month + m, 1)
  }

  /** `startOfMonth(date)` is day 1 of date's month, in the year the
      constructor makes of date's year. */
  lemma StartOfMonthIsFirst(d: Date)
    requires 0 <= d.month < 12
    ensures StartOfMonth(d) == Date(MakeFullYear(d.year), d.month, 1)
  {
    NewDateInMonth(d.year, d.month, 1);
  }

  /** `isSameDay(a, b)`: both present and printing the same toDateString(),
      that is, with equal year, month and day. */
  predicate IsSameDay(a: Cell, b: Cell) {
    a.Some? && b.Some? && a.value == b.value
  }

  /** A getDay() value renumbered Monday-first: Monday 0, ..., Sunday 6. */
  function MondayFirst(w: int): (o: int)
    requires 0 <= w < 7
    ensures 0 <= o < 7
    ensures o == 0 <==> w == 1
    ensures o == 6 <==> w == 0
    ensures (o + 1) % 7 == w
  {
    (w + 6) % 7
  }

  /** The number of leading blanks: the Monday-first weekday of the 1st. */
  function Offset(month: Date): (o: int)
    ensures 0 <= o < Week
  {
    MondayFirst(WeekDay(StartOfMonth(month)))
  }

  /** n blank cells. */
  function Blanks(n: nat): (r: seq<Cell>)
    ensures |r| == n
    ensures forall i :: 0 <= i < n ==> r[i] == None
  {
    seq(n, i => None)
  }

  /** The dates the second loop of `grid()` has pushed after n rounds:
      `new Date(y, m, 1)` to `new Date(y, m, n)`. */
  function DatesUpTo(month: Date, n: nat): (r: seq<Cell>)
    ensures |r| == n
  {
    if n == 0 then [] else DatesUpTo(month, n - 1) + [Some(NewDate(month.year, month.month, n))]
  }

  /** All the dates the second loop pushes: up to the last day of the month. */
  function MonthDays(month: Date): (r: seq<Cell>)
    ensures |r| == EndOfMonth(month).day
  {
    DatesUpTo(month, EndOfMonth(month).day)
  }

  /** The `days` array of `grid()`: the blanks, then the days of the month. */
  function Days(month: Date): seq<Cell> {
    Blanks(Offset(month)) + MonthDays(month)
  }

  /** The rows `grid()` cuts `days` into: consecutive slices of seven, the last
      one possibly shorter, as `days.slice(i, i + 7)` gives them. */
  function Rows<T>(cells: seq<T>): seq<seq<T>>
    decreases |cells|
  {
    if cells == [] then []
    else if |cells| <= Week then [cells]
    else [cells[..Week]] + Rows(cells[Week..])
  }

  /** `grid()`: the rows of the displayed month. */
  function GridRows(month: Date): seq<seq<Cell>> {
    Rows(Days(month))
  }

  /** `rows.flat()`. */
  function Flatten<T>(rows: seq<seq<T>>): seq<T> {
    if rows == [] then [] else rows[0] + Flatten(rows[1..])
  }

  /** What a click on cell i of the flattened grid hands to onSelect: nothing
      for a blank, which is a disabled button, else the cell's date. */
  function Activate(cells: seq<Cell>, i: int): (r: Option<Date>)
    ensures r.Some? <==> 0 <= i < |cells| && cells[i].Some?
    ensures r.Some? ==> r == cells[i]
  {
    if 0 <= i < |cells| && cells[i].Some? then cells[i] else None
  }

  /** The widget's own state: the displayed month. */
  class Calendar {
    var month: Date

    /** The displayed month is an existing date. */
    predicate Valid()
      reads this
    {
      month.Valid()
    }

    /** `useState(new Date())`: the clock's current date is the parameter. */
    constructor (today: Date)
      requires today.Valid()
      ensures Valid() && month == today
    {
      month := today;
    }

    /** The "Prev month" button. */
    method PrevMonth()
      modifies this
      ensures Valid() && month == AddMonths(old(month), -1)
    {
      month := AddMonths(month, -1);
    }

    /** The "Next month" button. */
    method NextMonth()
      modifies this
      ensures Valid() && month == AddMonths(old(month), 1)
    {
      month := AddMonths(month, 1);
    }

    /** `grid()`: pad with blanks, push the month's dates, cut into rows of 7. */
    method Grid() returns (rows: seq<seq<Cell>>)
      ensures rows == GridRows(month)
    {
      var days := BuildDays(month);
      rows := CutRows(days);
    }

    /** A click on cell i of `grid().flat()`: the date handed to onSelect, if
        the cell is enabled. The displayed month is not changed, and the date
        is an existing day of it. */
    method Click(i: int) returns (chosen: Option<Date>)
      requires Valid()
      ensures chosen.Some? <==> 0 <= i < |Days(month)| && Days(month)[i].Some?
      ensures chosen.Some? ==> chosen == Days(month)[i]
      ensures chosen.Some? ==>
                chosen.value.Valid()
                && chosen.value.year == MakeFullYear(month.year)
                && chosen.value.month == month.month
    {
      var rows := Grid();
      RowsFlatten(Days(month));
      chosen := Activate(Flatten(rows), i);
      SelectionIsInDisplayedMonth(month, i);
    }
  }

  /** The two loops of `grid()` that fill `days`: one blank per leading
      weekday, then day 1 to the last day of the month. */
  method BuildDays(month: Date) returns (days: seq<Cell>)
    ensures days == Days(month)
  {
    var start := StartOfMonth(month);
    var end := EndOfMonth(month);
    days := [];
    var offset := MondayFirst(WeekDay(start));
    var i := 0;
    while i < offset
      invariant 0 <= i <= offset
      invariant days == Blanks(i)
    {
      days := days + [None];
      i := i + 1;
    }
    var d := 1;
    while d <= end.day
      invariant 1 <= d <= end.day + 1
      invariant days == Blanks(offset) + DatesUpTo(month, d - 1)
    {
      days := days + [Some(NewDate(month.year, month.month, d))];
      d := d + 1;
    }
  }

  /** The loop of `grid()` that pushes `days.slice(i, i + 7)` for i = 0, 7,
      14, ... */
  method CutRows<T>(cells: seq<T>) returns (rows: seq<seq<T>>)
    ensures rows == Rows(cells)
  {
    rows := [];
    var j := 0;
    while j < |cells|
      invariant 0 <= j
      invariant j < |cells| ==> rows + Rows(cells[j..]) == Rows(cells)
      invariant j >= |cells| ==> rows == Rows(cells)
      decreases |cells| - j
    {
      var slice := cells[j..if j + Week <= |cells| then j + Week else |cells|];
      RowsFirst(cells, j);
      rows := rows + [slice];
      j := j + Week;
    }
  }

  // ---------------------------------------------------------------------------
  // Row structure
  // ---------------------------------------------------------------------------

  /** Cutting the cells from position j on starts with the slice j .. j + 7,
      cut at the end of the list, and goes on from j + 7. */
  lemma RowsFirst<T>(cells: seq<T>, j: nat)
    requires j < |cells|
    ensures Rows(cells[j..])
         == [cells[j..if j + Week <= |cells| then j + Week else |cells|]]
          + (if j + Week < |cells| then Rows(cells[j + Week..]) else [])
  {
    var rest := cells[j..];
    if |rest| > Week {
      assert rest[..Week] == cells[j..j + Week] && rest[Week..] == cells[j + Week..];
    } else {
      assert rest == cells[j..|cells|];
    }
  }

  /** The rows concatenate back to the cell list. */
  lemma {:induction false} RowsFlatten<T>(cells: seq<T>)
    ensures Flatten(Rows(cells)) == cells
    decreases |cells|
  {
    if |cells| > Week {
      RowsFlatten(cells[Week..]);
      assert cells == cells[..Week] + cells[Week..];
    }
  }

  /** Row r is the slice from 7r to 7r + 7, cut at the end of the list; every
      row but the last is full, the last holds 1 to 7 cells, and there are
      ceil(|cells| / 7) rows. */
  lemma {:induction false} RowsShape<T>(cells: seq<T>)
    ensures |Rows(cells)| == (|cells| + Week - 1) / Week
    ensures forall r :: 0 <= r < |Rows(cells)| ==>
              Rows(cells)[r] == cells[Week * r..if Week * r + Week <= |cells| then Week * r + Week else |cells|]
    ensures forall r :: 0 <= r < |Rows(cells)| - 1 ==> |Rows(cells)[r]| == Week
    ensures Rows(cells) != [] ==> 1 <= |Rows(cells)[|Rows(cells)| - 1]| <= Week
    decreases |cells|
  {
    if |cells| > Week {
      var tail := cells[Week..];
      RowsShape(tail);
      var rows := Rows(cells);
      assert rows == [cells[..Week]] + Rows(tail);
      forall r | 1 <= r < |rows|
        ensures rows[r] == cells[Week * r..if Week * r + Week <= |cells| then Week * r + Week else |cells|]
      {
        assert rows[r] == Rows(tail)[r - 1];
      }
    }
  }

  /** Every displayed month takes four to six rows: its cells number the
      offset (0..6) plus the month's length (28..31). */
  lemma GridRowCount(month: Date)
    ensures |Days(month)| == Offset(month) + EndOfMonth(month).day
    ensures 28 <= |Days(month)| <= 37
    ensures 4 <= |GridRows(month)| <= 6
  {
    RowsShape(Days(month));
    assert 28 <= EndOfMonth(month).day <= 31;
  }

  // ---------------------------------------------------------------------------
  // The cells
  // ---------------------------------------------------------------------------

  /** Round k of the second loop pushed day k + 1. */
  lemma {:induction false} DatesUpToAt(month: Date, n: nat, k: int)
    requires 0 <= k < n
    ensures DatesUpTo(month, n)[k] == Some(NewDate(month.year, month.month, k + 1))
  {
    if k < n - 1 {
      DatesUpToAt(month, n - 1, k);
    }
  }

  /** The cells of `days`: blanks before the offset, then day k + 1 at
      position offset + k. */
  lemma DaysAt(month: Date, i: int)
    requires 0 <= i < |Days(month)|
    ensures i < Offset(month) ==> Days(month)[i] == None
    ensures i >= Offset(month) ==>
              Days(month)[i] == Some(NewDate(month.year, month.month, i - Offset(month) + 1))
  {
    if i >= Offset(month) {
      DatesUpToAt(month, EndOfMonth(month).day, i - Offset(month));
    }
  }

  /** Shifting a Monday-first column by k is shifting the weekday by k. */
  lemma ColumnShift(w: int, k: int, i: int)
    requires 0 <= w < 7 && i == MondayFirst(w) + k
    ensures i % 7 == MondayFirst((w + k) % 7)
  {
    var q := (w + k) / 7;
    assert w + k == 7 * q + (w + k) % 7;
    assert MondayFirst(w) + k == w + 6 + k - 7 * ((w + 6) / 7);
  }

  /** Day k + 1, placed at index offset + k, lands in the column of its
      weekday. */
  lemma DayColumn(month: Date, k: int, i: int)
    requires i == Offset(month) + k
    ensures i % Week == MondayFirst(WeekDay(NewDate(month.year, month.month, k + 1)))
  {
    var w := WeekDay(StartOfMonth(month));
    NewDateWeekDay(month.year, month.month, k);
    ColumnShift(w, k, i);
  }

  /** Every date stands in the column of its own weekday under the
      Mon..Sun header: the Monday-first number of its getDay(). */
  lemma DateInWeekdayColumn(month: Date, i: int)
    requires 0 <= i < |Days(month)| && Days(month)[i].Some?
    ensures var date := Days(month)[i].value;
            date.Valid() && i % Week == MondayFirst(WeekDay(date))
  {
    DateCell(month, i);
    DayColumn(month, i - Offset(month), i);
  }

  /** The grid's dates are pairwise distinct: two different cells never
      hold the same date. */
  lemma DaysDistinct(month: Date, i: int, j: int)
    requires 0 <= i < j < |Days(month)| && Days(month)[i].Some?
    ensures Days(month)[i] != Days(month)[j]
  {
    if Days(month)[j].Some? {
      DateCell(month, i);
      DateCell(month, j);
      var o := Offset(month);
      if Days(month)[i] == Days(month)[j] {
        NewDateInjective(month.year, month.month, i - o + 1, j - o + 1);
      }
    }
  }

  /** At most one cell carries the selection ring. */
  lemma AtMostOneHighlighted(month: Date, selected: Cell, i: int, j: int)
    requires 0 <= i < |Days(month)| && 0 <= j < |Days(month)|
    requires IsSameDay(Days(month)[i], selected) && IsSameDay(Days(month)[j], selected)
    ensures i == j
  {
    if i < j {
      DaysDistinct(month, i, j);
    } else if j < i {
      DaysDistinct(month, j, i);
    }
  }

  /** A non-blank cell is a date cell past the offset. */
  lemma DateCell(month: Date, i: int)
    requires 0 <= i < |Days(month)| && Days(month)[i].Some?
    ensures i >= Offset(month)
    ensures Days(month)[i].value == NewDate(month.year, month.month, i - Offset(month) + 1)
  {
    DaysAt(month, i);
  }

  /** The last day of a displayed month is the Gregorian month length of the
      year the constructor makes of its year (the year itself, unless it is
      0..99): 31, 30, or 28/29 for February by the leap rule. */
  lemma EndOfMonthIsLastDay(d: Date)
    requires 0 <= d.month < 12
    ensures var fy := MakeFullYear(d.year);
            EndOfMonth(d) == Date(fy, d.month, DaysInMonth(fy, d.month))
    ensures EndOfMonth(d).day == 29 <==> d.month == 1 && IsLeapYear(MakeFullYear(d.year))
    ensures EndOfMonth(d).day == 28 <==> d.month == 1 && !IsLeapYear(MakeFullYear(d.year))
    ensures EndOfMonth(d).day == 30 <==> d.month in {3, 5, 8, 10}
    ensures EndOfMonth(d).day == 31 <==> d.month in {0, 2, 4, 6, 7, 9, 11}
  {
    NewDateDayZero(d.year, d.month);
    FebruaryLength(MakeFullYear(d.year));
  }

  /** The non-blank cells are exactly day 1 to the last day of the displayed
      month, in ascending order, in the year the constructor makes of the
      displayed year. */
  lemma MonthDaysAreDisplayedMonth(month: Date, k: int)
    requires 0 <= month.month < 12
    requires 0 <= k < |MonthDays(month)|
    ensures |MonthDays(month)| == DaysInMonth(MakeFullYear(month.year), month.month)
    ensures MonthDays(month)[k] == Some(Date(MakeFullYear(month.year), month.month, k + 1))
  {
    EndOfMonthIsLastDay(month);
    DatesUpToAt(month, EndOfMonth(month).day, k);
    NewDateInMonth(month.year, month.month, k + 1);
  }

  /** A click can only ever select a date of the displayed month; a click on
      a blank selects nothing, so the owner's selection stays as it was. */
  lemma SelectionIsInDisplayedMonth(month: Date, i: int)
    requires 0 <= month.month < 12
    ensures i < Offset(month) ==> Activate(Days(month), i) == None
    ensures Activate(Days(month), i).Some? ==>
              var d := Activate(Days(month), i).value;
              d.year == MakeFullYear(month.year) && d.month == month.month
              && 1 <= d.day <= DaysInMonth(d.year, month.month)
  {
    if 0 <= i < |Days(month)| && i >= Offset(month) {
      MonthDaysAreDisplayedMonth(month, i - Offset(month));
      assert Days(month)[i] == MonthDays(month)[i - Offset(month)];
    }
  }

  // ---------------------------------------------------------------------------
  // Month navigation
  // ---------------------------------------------------------------------------

  /** `addMonths(d, k)` is the 1st of the month k months on, the month
      carrying into the year: counted in months, year * 12 + month moves by k
      from the year the constructor makes of d's year. */
  lemma AddMonthsCarries(d: Date, k: int)
    ensures AddMonths(d, k).day == 1
    ensures 0 <= AddMonths(d, k).month < 12
    ensures 12 * AddMonths(d, k).year + AddMonths(d, k).month == 12 * MakeFullYear(d.year) + d.month + k
  {
    var q, r := (d.month + k) / 12, (d.month + k) % 12;
    assert AddMonths(d, k) == NormalizeDay(MakeFullYear(d.year) + q, r, 1);
  }

  /** January minus one month is December of the year before; December plus
      one is January of the year after, both counted from the year the
      constructor makes of y. */
  lemma YearRollOver(y: int)
    ensures AddMonths(Date(y, 0, 1), -1) == Date(MakeFullYear(y) - 1, 11, 1)
    ensures AddMonths(Date(y, 11, 1), 1) == Date(MakeFullYear(y) + 1, 0, 1)
  {
    AddMonthsCarries(Date(y, 0, 1), -1);
    AddMonthsCarries(Date(y, 11, 1), 1);
  }

  /** Stepping j months and then k months is stepping j + k months, as long as
      the constructor takes both years literally. */
  lemma AddMonthsCompose(d: Date, j: int, k: int)
    requires LiteralYear(d.year) && LiteralYear(AddMonths(d, j).year)
    ensures AddMonths(AddMonths(d, j), k) == AddMonths(d, j + k)
  {
    AddMonthsCarries(d, j);
    AddMonthsCarries(AddMonths(d, j), k);
    AddMonthsCarries(d, j + k);
  }

  /** Next then Prev returns to the 1st of the original month. */
  lemma NextThenPrev(d: Date)
    requires LiteralYear(d.year) && LiteralYear(AddMonths(d, 1).year)
    requires 0 <= d.month < 12
    ensures AddMonths(AddMonths(d, 1), -1) == Date(d.year, d.month, 1)
  {
    AddMonthsCompose(d, 1, -1);
    AddMonthsCarries(d, 0);
  }

  /** Twelve months on and twelve back is the 1st of the original month. */
  lemma YearForwardAndBack(d: Date)
    requires LiteralYear(d.year) && LiteralYear(AddMonths(d, 12).year)
    requires 0 <= d.month < 12
    ensures AddMonths(AddMonths(d, 12), -12) == Date(d.year, d.month, 1)
  {
    AddMonthsCarries(d, 12);
    AddMonthsCompose(d, 12, -12);
    AddMonthsCarries(d, 0);
  }

  /** The constructor's two-digit-year rule breaks the round trip at year 100:
      Prev from January 100 shows December 99, and Next from there asks for
      `new Date(99, 12, 1)`, which is January 2000. */
  lemma CenturyJump()
    ensures AddMonths(Date(100, 0, 1), -1) == Date(99, 11, 1)
    ensures AddMonths(AddMonths(Date(100, 0, 1), -1), 1) == Date(2000, 0, 1)
  {
    YearRollOver(100);
    assert AddMonths(Date(99, 11, 1), 1) == NormalizeDay(2000, 0, 1);
  }
}
