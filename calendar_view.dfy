/** The month calendar (components/CalendarView.tsx): the grid of day cells
    for the month on view, month switching, and the per-cell markers. */
module CalendarView {
  import opened Types
  import opened Lists
  import opened Gregorian
  import Dashboard

  /** One grid cell: padding cells belong to the previous month and carry no date. */
  datatype DayCell = DayCell(day: int, current: bool, dateStr: Option<string>)

  /** `new Date(year, month, 1).getDay()`: how many padding cells precede day 1. */
  function FirstWeekday(year: int, month: int): (r: int)
    ensures 0 <= r < 7
  {
    var first := MakeDate(year, month, 1);
    Weekday(first)
  }

  /** `new Date(year, month, 0).getDate()`: the last day of the previous month. */
  function PrevMonthLastDay(year: int, month: int): int
  {
    MakeDate(year, month, 0).day
  }

  /** `new Date(year, month + 1, 0).getDate()`: the number of days of the month. */
  function LastDate(year: int, month: int): (r: nat)
    ensures r >= 1
  {
    MakeDate(year, month + 1, 0).day
  }

  function PaddingCell(day: int): DayCell
  {
    DayCell(day, false, None)
  }

  /** The date string of day `day` of the month: the date `new Date(year, month, day)`
      normalises to, written as year, month and day. */
  function CellDate(year: int, month: int, day: int): string
  {
    IsoDate(MakeDate(year, month, day))
  }

  /** The dating of the cells of a month, `d` standing for `new Date(year, month, d)`. */
  function DateOf(year: int, month: int): int -> string
  {
    (d: int) => CellDate(year, month, d)
  }

  /** The cell of day `day`, dated by `dateOf`. */
  function CurrentCell(day: int, dateOf: int -> string): DayCell
  {
    DayCell(day, true, Some(dateOf(day)))
  }

  /** The first `count` padding cells of a grid with `firstDay` of them,
      counting up to `prevMonthLastDay`. */
  function Padding(prevMonthLastDay: int, firstDay: int, count: nat): seq<DayCell>
  {
    if count == 0 then []
    else Padding(prevMonthLastDay, firstDay, count - 1) + [PaddingCell(prevMonthLastDay - firstDay + count)]
  }

  /** The cells of days 1..n of a month. */
  function Cells(n: nat, dateOf: int -> string): seq<DayCell>
  {
    if n == 0 then []
    else Cells(n - 1, dateOf) + [CurrentCell(n, dateOf)]
  }

  /** The grid of a month: its padding, then its days. */
  function Grid(year: int, month: int): seq<DayCell>
  {
    var firstDay, lastDate := FirstWeekday(year, month), LastDate(year, month);
    Padding(PrevMonthLastDay(year, month), firstDay, firstDay) + Cells(lastDate, DateOf(year, month))
  }

  /** The cell of day `d` in the grid of its month sits after the padding, is
      current, is numbered `d` and carries that day's own date string. */
  lemma GridDay(year: int, month: int, d: int)
    requires 0 <= month < 12 && 1 <= d <= DaysInMonth(year, month)
    ensures FirstWeekday(year, month) + d - 1 < |Grid(year, month)|
    ensures Grid(year, month)[FirstWeekday(year, month) + d - 1] ==
            DayCell(d, true, Some(IsoDate(Date(year, month, d))))
  {
    var firstDay, lastDate := FirstWeekday(year, month), LastDate(year, month);
    LastDayOfMonth(year, month);
    var dateOf := DateOf(year, month);
    FilledShape(firstDay, PrevMonthLastDay(year, month), lastDate, dateOf);
    assert Grid(year, month)[firstDay + d - 1] == CurrentCell(d, dateOf);
    MakeDateInMonth(year, month, d);
    assert dateOf(d) == IsoDate(Date(year, month, d));
  }

  /** The grid of a month holds `FirstWeekday` padding cells, none of them
      current, then one cell per day of the month. */
  lemma GridDays(year: int, month: int)
    requires 0 <= month < 12
    ensures |Grid(year, month)| == FirstWeekday(year, month) + DaysInMonth(year, month)
    ensures forall k :: 0 <= k < FirstWeekday(year, month) ==> !Grid(year, month)[k].current
  {
    var firstDay, lastDate := FirstWeekday(year, month), LastDate(year, month);
    LastDayOfMonth(year, month);
    FilledShape(firstDay, PrevMonthLastDay(year, month), lastDate, DateOf(year, month));
  }

  /** The two `push` loops of `getDaysInMonth`: `firstDay` padding cells
      counting up to `prevMonthLastDay`, then the cells of days 1..lastDate,
      dated by `dateOf`. */
  method FillGrid(firstDay: nat, prevMonthLastDay: int, lastDate: nat, dateOf: int -> string)
    returns (days: seq<DayCell>)
    ensures days == Padding(prevMonthLastDay, firstDay, firstDay) + Cells(lastDate, dateOf)
  {
    days := [];
    var i := firstDay - 1;
    while i >= 0
      invariant -1 <= i < firstDay
      invariant days == Padding(prevMonthLastDay, firstDay, firstDay - 1 - i)
    {
      days := days + [PaddingCell(prevMonthLastDay - i)];
      i := i - 1;
    }
    ghost var padding := days;
    for j := 1 to lastDate + 1
      invariant days == padding + Cells(j - 1, dateOf)
    {
      days := days + [CurrentCell(j, dateOf)];
    }
  }

  /** `getDaysInMonth(viewMonth)`: the weekday of the first, the last day of
      the previous month and the length of this one, then the two loops. */
  method MonthGrid(year: int, month: int) returns (days: seq<DayCell>)
    ensures days == Grid(year, month)
  {
    var firstDay := FirstWeekday(year, month);
    var prevMonthLastDay := PrevMonthLastDay(year, month);
    var lastDate := LastDate(year, month);
    days := FillGrid(firstDay, prevMonthLastDay, lastDate, DateOf(year, month));
  }

  lemma {:induction false} PaddingShape(prevMonthLastDay: int, firstDay: int, count: nat)
    ensures |Padding(prevMonthLastDay, firstDay, count)| == count
    ensures forall k :: 0 <= k < count ==>
              Padding(prevMonthLastDay, firstDay, count)[k] == PaddingCell(prevMonthLastDay - firstDay + 1 + k)
  {
    if count > 0 {
      PaddingShape(prevMonthLastDay, firstDay, count - 1);
    }
  }

  lemma {:induction false} CellsShape(n: nat, dateOf: int -> string)
    ensures |Cells(n, dateOf)| == n
    ensures forall d :: 1 <= d <= n ==> Cells(n, dateOf)[d - 1] == CurrentCell(d, dateOf)
  {
    if n > 0 {
      CellsShape(n - 1, dateOf);
    }
  }

  /** What `FillGrid` builds: `firstDay` padding cells numbered up to
      `prevMonthLastDay`, without a date, then one cell per day 1..lastDate
      in order. */
  lemma FilledShape(firstDay: nat, prevMonthLastDay: int, lastDate: nat, dateOf: int -> string)
    ensures var g := Padding(prevMonthLastDay, firstDay, firstDay) + Cells(lastDate, dateOf);
            |g| == firstDay + lastDate &&
            (forall k :: 0 <= k < firstDay ==> g[k] == PaddingCell(prevMonthLastDay - firstDay + 1 + k)) &&
            (forall d :: 1 <= d <= lastDate ==> g[firstDay + d - 1] == CurrentCell(d, dateOf))
  {
    PaddingShape(prevMonthLastDay, firstDay, firstDay);
    CellsShape(lastDate, dateOf);
    var p, c := Padding(prevMonthLastDay, firstDay, firstDay), Cells(lastDate, dateOf);
    forall d | 1 <= d <= lastDate ensures (p + c)[firstDay + d - 1] == CurrentCell(d, dateOf) {
      assert (p + c)[firstDay + d - 1] == c[d - 1];
    }
  }

  /** For a month index in 0..11 the grid's numbers are the calendar's: the
      month has `DaysInMonth` days, the padding counts down to the last day of
      the previous month, and cell `d` is dated the d-th of the month. */
  lemma GridCalendarFacts(year: int, month: int)
    requires 0 <= month < 12
    ensures LastDate(year, month) == DaysInMonth(year, month)
    ensures var p := FirstOfMonth(year, month - 1);
            PrevMonthLastDay(year, month) == DaysInMonth(p.year, p.month)
    ensures forall d :: 1 <= d <= DaysInMonth(year, month) ==>
              CellDate(year, month, d) == IsoDate(Date(year, month, d))
  {
    LastDayOfMonth(year, month);
    LastDayOfPreviousMonth(year, month);
    forall d | 1 <= d <= DaysInMonth(year, month)
      ensures CellDate(year, month, d) == IsoDate(Date(year, month, d))
    {
      MakeDateInMonth(year, month, d);
    }
  }

  /** The grid of the next month starts on the weekday after this month's last day. */
  lemma NextMonthStartsAfter(year: int, month: int)
    requires 0 <= month < 12
    ensures FirstWeekday(year, month + 1) == (FirstWeekday(year, month) + DaysInMonth(year, month)) % 7
  {
    FirstOfMonthInRange(year, month);
    assert MakeDate(year, month, 1) == Date(year, month, 1);
    assert MakeDate(year, month + 1, 1) == FirstOfMonth(year, month + 1);
    NextMonthFirstDay(year, month);
    WeekdayAfter(Date(year, month, 1), FirstOfMonth(year, month + 1), DaysInMonth(year, month));
  }

  // ---------------------------------------------------------------------------
  // Cell markers and selection
  // ---------------------------------------------------------------------------

  /** Some task of the list is dated `date`. */
  predicate SomeOnDate(tasks: seq<Task>, date: string)
  {
    exists i :: 0 <= i < |tasks| && tasks[i].date == date
  }

  /** A cell carries the task marker when it has a non-empty date string and
      some task is dated that day. */
  predicate HasTasks(tasks: seq<Task>, cell: DayCell)
  {
    Truthy(cell.dateStr) && SomeOnDate(tasks, cell.dateStr.value)
  }

  /** A cell is highlighted when its date string is the selected date; padding
      cells, having none, never are. */
  predicate IsSelected(cell: DayCell, selectedDate: string)
  {
    cell.dateStr == Some(selectedDate)
  }

  /** The date a click on the cell selects: the cell's own date string when it
      has one; padding cells are disabled and carry none, so the selection stays. */
  function ClickCell(cell: DayCell, selectedDate: string): string
  {
    if cell.current && Truthy(cell.dateStr) then cell.dateStr.value else selectedDate
  }

  /** Padding cells are never marked, selected or clickable. */
  lemma PaddingCellInert(tasks: seq<Task>, day: int, selectedDate: string)
    ensures !HasTasks(tasks, PaddingCell(day))
    ensures !IsSelected(PaddingCell(day), selectedDate)
    ensures ClickCell(PaddingCell(day), selectedDate) == selectedDate
  {
  }

  /** A current cell carries a marker exactly when the list shown after
      clicking it is not empty; clicking it selects it. */
  lemma CurrentCellMarker(tasks: seq<Task>, year: int, month: int, day: int, selectedDate: string)
    ensures var cell := CurrentCell(day, DateOf(year, month));
            HasTasks(tasks, cell) <==> Dashboard.DayTasks(tasks, ClickCell(cell, selectedDate)) != []
    ensures var cell := CurrentCell(day, DateOf(year, month));
            IsSelected(cell, ClickCell(cell, selectedDate))
  {
    var cell := CurrentCell(day, DateOf(year, month));
    var date := cell.dateStr.value;
    var list := Dashboard.DayTasks(tasks, date);
    if SomeOnDate(tasks, date) {
      var i :| 0 <= i < |tasks| && tasks[i].date == date;
      FilterMember(tasks, Dashboard.OnDate(date), tasks[i]);
    }
    if list != [] {
      FilterMember(tasks, Dashboard.OnDate(date), list[0]);
      var i :| 0 <= i < |tasks| && tasks[i] == list[0];
    }
  }

  /** Two different current cells of one month never show the same date, so at
      most one cell of the grid is selected. */
  lemma AtMostOneSelected(year: int, month: int, d1: int, d2: int, selectedDate: string)
    requires 0 <= month < 12
    requires 1 <= d1 <= DaysInMonth(year, month) && 1 <= d2 <= DaysInMonth(year, month)
    requires IsSelected(CurrentCell(d1, DateOf(year, month)), selectedDate)
    requires IsSelected(CurrentCell(d2, DateOf(year, month)), selectedDate)
    ensures d1 == d2
  {
    GridCalendarFacts(year, month);
    if d1 != d2 {
      IsoDateDistinctDays(Date(year, month, d1), Date(year, month, d2));
    }
  }

  /** The heading count is the length of the selected day's list. */
  function SelectedDayCount(tasks: seq<Task>, selectedDate: string): (r: nat)
    ensures r <= |tasks|
  {
    |Dashboard.DayTasks(tasks, selectedDate)|
  }

  // ---------------------------------------------------------------------------
  // The month on view
  // ---------------------------------------------------------------------------

  /** The calendar screen's own state: the month on view, as the `Date` it holds. */
  class Calendar {
    var viewMonth: Date

    /** The calendar opens on the month of the given day, keeping the day itself. */
    constructor (today: Date)
      ensures viewMonth == today
    {
      viewMonth := today;
    }

    /** `changeMonth(offset)`: the first day of the month `offset` months away. */
    method ChangeMonth(offset: int)
      modifies this
      ensures viewMonth == FirstOfMonth(old(viewMonth.year), old(viewMonth.month) + offset)
      ensures Valid(viewMonth) && viewMonth.day == 1
      ensures 12 * viewMonth.year + viewMonth.month == 12 * old(viewMonth.year) + old(viewMonth.month) + offset
    {
      viewMonth := FirstOfMonth(viewMonth.year, viewMonth.month + offset);
    }
  }

  /** Moving `offset` months and back lands on the first day of the starting month. */
  lemma ChangeMonthRoundTrip(year: int, month: int, offset: int)
    requires 0 <= month < 12
    ensures var there := FirstOfMonth(year, month + offset);
            FirstOfMonth(there.year, there.month - offset) == Date(year, month, 1)
  {
    var there := FirstOfMonth(year, month + offset);
    var back := FirstOfMonth(there.year, there.month - offset);
    assert 12 * back.year + back.month == 12 * year + month;
    MonthIndexUnique(back.year, back.month, year, month);
  }

  lemma MonthIndexUnique(y1: int, m1: int, y2: int, m2: int)
    requires 0 <= m1 < 12 && 0 <= m2 < 12 && 12 * y1 + m1 == 12 * y2 + m2
    ensures y1 == y2 && m1 == m2
  {
  }
}
