/** The month view of the calendar page: `generateCalendarDays` lays out 42 consecutive days
    (six weeks) starting on the Sunday on or before the first of the selected month, each with
    that day's records and their total, and `getExpensesForDate` picks a day's records. The
    current day (`new Date()`) is the parameter `today`. */
module MonthGrid {
  import opened Dates
  import opened ExpenseStore

  const GridCells: nat := 42

  /** One cell of the grid. */
  datatype CalendarDay = CalendarDay(
    date: Moment,
    expenses: seq<Expense>,
    totalAmount: real,
    isCurrentMonth: bool,
    isToday: bool)

  /** `getExpensesForDate`: the records whose local calendar day (`toDateString`) is d, in
      list order. */
  function ExpensesOn(xs: seq<Expense>, d: CivilDate): (r: seq<Expense>)
    ensures |r| <= |xs|
    ensures forall i :: 0 <= i < |r| ==> r[i].date.date == d
    ensures forall e :: e in xs && e.date.date == d ==> e in r
    ensures forall e :: e in r ==> e in xs
    decreases |xs|
  {
    if xs == [] then []
    else
      assert forall e :: e in xs ==> e == xs[0] || e in xs[1..];
      (if xs[0].date.date == d then [xs[0]] else []) + ExpensesOn(xs[1..], d)
  }

  /** The filter distributes over concatenation, so the kept records stay in list order. */
  lemma {:induction false} ExpensesOnAppend(xs: seq<Expense>, ys: seq<Expense>, d: CivilDate)
    ensures ExpensesOn(xs + ys, d) == ExpensesOn(xs, d) + ExpensesOn(ys, d)
    decreases |xs|
  {
    if xs == [] {
      assert xs + ys == ys;
    } else {
      assert (xs + ys)[0] == xs[0];
      assert (xs + ys)[1..] == xs[1..] + ys;
      ExpensesOnAppend(xs[1..], ys, d);
    }
  }

  /** `new Date(year, month, 1)` for the selected month. */
  function FirstOfMonth(selected: Moment): CivilDate {
    MakeDate(selected.date.year, selected.date.month, 1)
  }

  /** `startDate.setDate(startDate.getDate() - firstDay.getDay())`. */
  function GridStart(selected: Moment): CivilDate {
    AddDays(FirstOfMonth(selected), -Weekday(FirstOfMonth(selected)))
  }

  /** What cell i of a grid starting on `start` holds: midnight of the i-th day after the
      start, that day's records and their total, whether its month number is the selected one
      and whether it is today. */
  predicate IsCell(cell: CalendarDay, i: int, start: CivilDate, expenses: seq<Expense>, month: int, today: Moment)
    requires Valid(start)
  {
    Valid(cell.date.date) && cell.date.ms == 0 &&
    DayNumber(cell.date.date) == DayNumber(start) + i &&
    cell.expenses == ExpensesOn(expenses, cell.date.date) &&
    cell.totalAmount == SumAmounts(cell.expenses) &&
    (cell.isCurrentMonth <==> cell.date.date.month == month) &&
    (cell.isToday <==> cell.date.date == today.date)
  }

  /** `generateCalendarDays`: 42 cells, one day apart, from the Sunday on or before the first
      of the selected month; at most one of them is today. */
  method GenerateCalendarDays(expenses: seq<Expense>, selected: Moment, today: Moment)
    returns (days: seq<CalendarDay>)
    ensures |days| == GridCells
    ensures days[0].date.date == GridStart(selected)
    ensures forall i :: 0 <= i < |days| ==> IsCell(days[i], i, GridStart(selected), expenses, selected.date.month, today)
    ensures forall i, j :: 0 <= i < j < |days| && days[i].isToday ==> !days[j].isToday
  {
    var month := selected.date.month;
    var firstDay := FirstOfMonth(selected);
    var startDate := AddDays(firstDay, -Weekday(firstDay));

    days := [];
    var currentDate := startDate;
    for i := 0 to GridCells
      invariant |days| == i
      invariant Valid(currentDate) && DayNumber(currentDate) == DayNumber(startDate) + i
      invariant forall k :: 0 <= k < i ==> IsCell(days[k], k, startDate, expenses, month, today)
    {
      var dayExpenses := ExpensesOn(expenses, currentDate);
      var totalAmount := SumAmounts(dayExpenses);
      var cell := CalendarDay(Moment(currentDate, 0), dayExpenses, totalAmount,
                              currentDate.month == month, currentDate == today.date);
      assert IsCell(cell, i, startDate, expenses, month, today);
      days := days + [cell];
      currentDate := NextDay(currentDate);
    }

    assert IsCell(days[0], 0, startDate, expenses, month, today);
    DayNumberInjective(days[0].date.date, startDate);
    forall i, j | 0 <= i < j < |days| && days[i].isToday
      ensures !days[j].isToday
    {
      assert IsCell(days[i], i, startDate, expenses, month, today);
      assert IsCell(days[j], j, startDate, expenses, month, today);
    }
  }

  /** The grid starts on a Sunday. */
  lemma StartIsSunday(selected: Moment)
    ensures Weekday(GridStart(selected)) == 0
  {
    ShiftToWeekday(FirstOfMonth(selected), 0);
  }

  /** The selected month as the grid sees it: the first falls in the first week, so the
      month's days fit into the 42 cells. */
  lemma FirstOfMonthFacts(selected: Moment)
    requires 0 <= selected.date.month < 12
    ensures FirstOfMonth(selected) == CivilDate(FullYear(selected.date.year), selected.date.month, 1)
    ensures Weekday(FirstOfMonth(selected)) + DaysInMonth(FullYear(selected.date.year), selected.date.month) <= GridCells
    ensures DayNumber(GridStart(selected)) == DayNumber(FirstOfMonth(selected)) - Weekday(FirstOfMonth(selected))
  {
    var y := FullYear(selected.date.year);
    assert FullYear(y) == y;
    MakeDateInRange(y, selected.date.month, 1);
  }

  /** Cell i of the grid shows a day of the selected month exactly when it lies in the run of
      cells starting at the first's weekday; there it is day i - weekday + 1. So every day of
      the month appears once, contiguously and in order, and `isCurrentMonth`, which compares
      only the month number, marks exactly that run. */
  lemma CellInMonth(selected: Moment, c: CivilDate, i: int)
    requires 0 <= selected.date.month < 12
    requires Valid(c) && 0 <= i < GridCells && DayNumber(c) == DayNumber(GridStart(selected)) + i
    ensures var w := Weekday(FirstOfMonth(selected));
      var dim := DaysInMonth(FullYear(selected.date.year), selected.date.month);
      (c.month == selected.date.month <==> w <= i < w + dim) &&
      (w <= i < w + dim ==> c == CivilDate(FullYear(selected.date.year), selected.date.month, i - w + 1))
  {
    FirstOfMonthFacts(selected);
    var y, m := FullYear(selected.date.year), selected.date.month;
    var first := CivilDate(y, m, 1);
    var w := Weekday(first);
    var dim := DaysInMonth(y, m);
    assert DayNumber(c) == DayNumber(first) - w + i;
    if w <= i < w + dim {
      var d := CivilDate(y, m, i - w + 1);
      assert DayNumber(d) == DayNumber(first) + i - w;
      DayNumberInjective(c, d);
    } else if c.month == m {
      SameMonthNearby(c, first);
    }
  }

  /** Day k of the selected month sits in cell weekday-of-the-first + k - 1. */
  lemma DayOfMonthCell(selected: Moment, k: int)
    requires 0 <= selected.date.month < 12
    requires 1 <= k <= DaysInMonth(FullYear(selected.date.year), selected.date.month)
    ensures var i := Weekday(FirstOfMonth(selected)) + k - 1;
      0 <= i < GridCells &&
      DayNumber(CivilDate(FullYear(selected.date.year), selected.date.month, k)) == DayNumber(GridStart(selected)) + i
  {
    FirstOfMonthFacts(selected);
  }
}
