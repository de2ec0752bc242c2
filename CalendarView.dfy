/** The month grid of the calendar component: the number of days of the displayed
    month, the weekday of its 1st, the leading blank cells, one cell per day carrying the
    events that start on it and a today marker, the click rules, the event-type styles,
    and navigation between months. `today` and the local calendar date of an event's
    `start_time` are parameters: the wall clock and the time zone are not modelled. */
module CalendarView {
  import opened Wrappers
  import opened Seqs
  import opened CivilCalendar
  import opened Records

  /** The local calendar date of a `start_time` string, or None when the string does not
      parse (then `new Date(...)` is an Invalid Date and every getter comparison fails). */
  type LocalDateOf = string -> Option<CivilDate>

  /** The local dates a parser can return are real dates. */
  ghost predicate ParsesToValid(localDate: LocalDateOf)
  {
    forall t :: localDate(t).Some? ==> IsValid(localDate(t).value)
  }

  /** getDaysInMonth: the length of the month in the year the constructor reads, which
      DayZeroIsLastDay shows is `new Date(year, month + 1, 0).getDate()`. */
  function DaysInMonth(year: int, month: int): (n: int)
    requires 0 <= month < 12
    ensures 28 <= n <= 31
  {
    MonthLength(MakeFullYear(year), month)
  }

  /** Day 0 of the next month is the last day of this one: `new Date(year, month + 1, 0)`
      is (year, month, DaysInMonth), December rolling over into the next year and back. */
  lemma DayZeroIsLastDay(year: int, month: int)
    requires 0 <= month < 12
    ensures Construct(year, month + 1, 0) == CivilDate(MakeFullYear(year), month, DaysInMonth(year, month))
  {
    var y := MakeFullYear(year);
    var last := CivilDate(y, month, MonthLength(y, month));
    var c := Construct(year, month + 1, 0);
    DayBeforeNextMonth(y, month);
    DayNumberInjective(c, last);
  }

  /** February has 29 days exactly in leap years (years 0..99 are read as 1900..1999). */
  lemma FebruaryLength(year: int)
    ensures DaysInMonth(year, 1) == 29 <==> IsLeapYear(MakeFullYear(year))
    ensures !(0 <= year <= 99) ==> (DaysInMonth(year, 1) == 29 <==> IsLeapYear(year))
  {
  }

  /** getFirstDayOfMonth: the weekday, 0 = Sunday .. 6 = Saturday, of the month's 1st in
      the year the constructor reads; FirstDayIsConstructed ties it to `new Date(year, month, 1).getDay()`. */
  function FirstDayOfMonth(year: int, month: int): (w: int)
    requires 0 <= month < 12
    ensures 0 <= w <= 6
  {
    WeekDay(CivilDate(MakeFullYear(year), month, 1))
  }

  /** `new Date(year, month, 1)` is the 1st of (year, month), years 0..99 read as 1900..1999. */
  lemma FirstDayIsConstructed(year: int, month: int)
    requires 0 <= month < 12
    ensures Construct(year, month, 1) == CivilDate(MakeFullYear(year), month, 1)
    ensures FirstDayOfMonth(year, month) == WeekDay(Construct(year, month, 1))
  {
    ConstructValid(CivilDate(MakeFullYear(year), month, 1));
  }

  /** The grid of a month continues the week where the previous month's grid stopped. */
  lemma FirstDayOfFollowingMonth(year: int, month: int)
    requires 0 <= month < 12
    requires !(-1 <= year <= 99)
    ensures var n := FollowingMonth(year, month);
      FirstDayOfMonth(n.year, n.month) == (FirstDayOfMonth(year, month) + DaysInMonth(year, month)) % 7
  {
    var n := FollowingMonth(year, month);
    assert MakeFullYear(n.year) == n.year && MakeFullYear(year) == year;
    WeekDayStep(year, month);
  }

  /** The month names of the header, indexed by `getMonth`. */
  const MonthNames: seq<string> := ["Enero", "Febrero", "Marzo", "Abril", "Mayo", "Junio",
    "Julio", "Agosto", "Septiembre", "Octubre", "Noviembre", "Diciembre"]

  /** One cell of the grid: a leading blank, or a numbered day with the today marker and
      the events that start on that day. */
  datatype Cell = Blank | DayCell(day: int, isToday: bool, events: seq<CalendarEvent>)

  /** The events a cell shows; a blank shows none. */
  function CellEvents(c: Cell): seq<CalendarEvent>
  {
    if c.DayCell? then c.events else []
  }

  /** `dayEvents`: the events whose start falls on (year, month, day), in input order. */
  function DayEvents(events: seq<CalendarEvent>, localDate: LocalDateOf, year: int, month: int, day: int): (r: seq<CalendarEvent>)
    ensures forall e :: e in r <==> e in events && localDate(e.startTime) == Some(CivilDate(year, month, day))
    ensures IsSubsequence(r, events)
    ensures forall e :: Count(r, e) == if localDate(e.startTime) == Some(CivilDate(year, month, day)) then Count(events, e) else 0
  {
    Filter(events, (e: CalendarEvent) => localDate(e.startTime) == Some(CivilDate(year, month, day)))
  }

  /** `isToday`: today's day, month and year are those of the cell. */
  predicate IsToday(today: CivilDate, year: int, month: int, day: int)
    ensures IsToday(today, year, month, day) <==> today == CivilDate(year, month, day)
  {
    today.day == day && today.month == month && today.year == year
  }

  /** The cell of one day of the displayed month. */
  function MakeCell(year: int, month: int, events: seq<CalendarEvent>, localDate: LocalDateOf,
                    today: CivilDate, day: int): (cell: Cell)
    ensures cell.DayCell? && cell.day == day
    ensures cell.isToday <==> today == CivilDate(year, month, day)
  {
    DayCell(day, IsToday(today, year, month, day), DayEvents(events, localDate, year, month, day))
  }

  /** `n` leading blank cells. */
  function Blanks(n: nat): (r: seq<Cell>)
    ensures |r| == n && forall i :: 0 <= i < n ==> r[i] == Blank
  {
    if n == 0 then [] else Blanks(n - 1) + [Blank]
  }

  /** The cells of days 1..n, in ascending order of day. */
  function DayCells(year: int, month: int, events: seq<CalendarEvent>, localDate: LocalDateOf,
                    today: CivilDate, n: nat): (r: seq<Cell>)
    ensures |r| == n
    ensures forall k :: 0 <= k < n ==> r[k] == MakeCell(year, month, events, localDate, today, k + 1)
  {
    if n == 0 then [] else DayCells(year, month, events, localDate, today, n - 1)
                           + [MakeCell(year, month, events, localDate, today, n)]
  }

  /** The whole grid of a month: `firstDay` blanks, then the numbered days. */
  function Grid(year: int, month: int, events: seq<CalendarEvent>, localDate: LocalDateOf,
                today: CivilDate): (g: seq<Cell>)
    requires 0 <= month < 12
    ensures |g| == FirstDayOfMonth(year, month) + DaysInMonth(year, month) <= 37
  {
    Blanks(FirstDayOfMonth(year, month)) + DayCells(year, month, events, localDate, today, DaysInMonth(year, month))
  }

  /** The grid is `firstDay` blanks (0..6 of them) followed by exactly `daysInMonth`
      cells numbered 1..daysInMonth in ascending order, each with the events of its day. */
  lemma GridShape(year: int, month: int, events: seq<CalendarEvent>, localDate: LocalDateOf, today: CivilDate)
    requires 0 <= month < 12
    ensures var g, fd, n := Grid(year, month, events, localDate, today), FirstDayOfMonth(year, month), DaysInMonth(year, month);
      && 0 <= fd <= 6
      && |g| == fd + n
      && (forall i :: 0 <= i < fd ==> g[i] == Blank)
      && (forall i :: fd <= i < fd + n ==> g[i] == MakeCell(year, month, events, localDate, today, i - fd + 1))
  {
    var fd, n := FirstDayOfMonth(year, month), DaysInMonth(year, month);
    CellsShape(year, month, events, localDate, today, fd, n);
  }

  /** `fd` blanks followed by the cells of days 1..n, indexed. */
  lemma CellsShape(year: int, month: int, events: seq<CalendarEvent>, localDate: LocalDateOf, today: CivilDate,
                   fd: nat, n: nat)
    ensures var g := Blanks(fd) + DayCells(year, month, events, localDate, today, n);
      && |g| == fd + n
      && (forall i :: 0 <= i < fd ==> g[i] == Blank)
      && (forall i :: fd <= i < fd + n ==> g[i] == MakeCell(year, month, events, localDate, today, i - fd + 1))
  {
    var b, d := Blanks(fd), DayCells(year, month, events, localDate, today, n);
    assert forall i :: fd <= i < fd + n ==> (b + d)[i] == d[i - fd];
  }

  /** A cell is marked today exactly when the displayed month is today's month and the
      cell is the one of today's day: one cell in today's month, none in any other. */
  lemma TodayMarkedOnce(year: int, month: int, events: seq<CalendarEvent>, localDate: LocalDateOf, today: CivilDate)
    requires 0 <= month < 12 && !(0 <= year <= 99) && IsValid(today)
    ensures var g, fd := Grid(year, month, events, localDate, today), FirstDayOfMonth(year, month);
      forall i :: 0 <= i < |g| ==>
        ((g[i].DayCell? && g[i].isToday) <==> (today.year == year && today.month == month && i == fd + today.day - 1))
  {
    GridShape(year, month, events, localDate, today);
    var n := DaysInMonth(year, month);
    assert today.year == year && today.month == month ==> today.day <= n;
  }

  /** An event whose start falls in the displayed month appears in exactly one cell, the
      one of its day; every other event (another month, or an unparseable start)
      appears in no cell. */
  lemma EventPlacedOnce(year: int, month: int, events: seq<CalendarEvent>, localDate: LocalDateOf,
                        today: CivilDate, e: CalendarEvent)
    requires 0 <= month < 12 && !(0 <= year <= 99) && ParsesToValid(localDate)
    requires e in events
    ensures var g, fd, ld := Grid(year, month, events, localDate, today), FirstDayOfMonth(year, month), localDate(e.startTime);
      forall i :: 0 <= i < |g| ==>
        (e in CellEvents(g[i]) <==> (ld.Some? && ld.value.year == year && ld.value.month == month
                                     && i == fd + ld.value.day - 1))
  {
    GridShape(year, month, events, localDate, today);
    var g, fd := Grid(year, month, events, localDate, today), FirstDayOfMonth(year, month);
    var ld := localDate(e.startTime);
    forall i | 0 <= i < |g|
      ensures e in CellEvents(g[i]) <==> (ld.Some? && ld.value.year == year && ld.value.month == month
                                          && i == fd + ld.value.day - 1)
    {
      if ld.Some? && ld.value.year == year && ld.value.month == month {
        assert IsValid(ld.value);
        assert ld.value == CivilDate(year, month, ld.value.day);
      }
    }
  }

  /** In the displayed month: parses to a date of (year, month). */
  predicate InMonth(localDate: LocalDateOf, year: int, month: int, e: CalendarEvent)
  {
    localDate(e.startTime).Some? && localDate(e.startTime).value.year == year
      && localDate(e.startTime).value.month == month
  }

  /** The number of events shown over a sequence of cells. */
  function PlacedCount(cells: seq<Cell>): nat
  {
    if cells == [] then 0 else PlacedCount(cells[..|cells| - 1]) + |CellEvents(cells[|cells| - 1])|
  }

  /** The events placed in the grid are as many as the events of the displayed month. */
  lemma PlacedCountIsMonthCount(year: int, month: int, events: seq<CalendarEvent>, localDate: LocalDateOf, today: CivilDate)
    requires 0 <= month < 12 && !(0 <= year <= 99) && ParsesToValid(localDate)
    ensures PlacedCount(Grid(year, month, events, localDate, today))
            == |Filter(events, (e: CalendarEvent) => InMonth(localDate, year, month, e))|
  {
    var fd, n := FirstDayOfMonth(year, month), DaysInMonth(year, month);
    PlacedCountAppend(Blanks(fd), DayCells(year, month, events, localDate, today, n));
    BlanksPlaceNothing(fd);
    DayCellsCount(year, month, events, localDate, today, n);
    CountByDay(year, month, events, localDate, n);
  }

  /** Counting over two runs of cells adds up. */
  lemma {:induction false} PlacedCountAppend(a: seq<Cell>, b: seq<Cell>)
    ensures PlacedCount(a + b) == PlacedCount(a) + PlacedCount(b)
    decreases |b|
  {
    if b != [] {
      assert (a + b)[..|a + b| - 1] == a + b[..|b| - 1];
      PlacedCountAppend(a, b[..|b| - 1]);
    } else {
      assert a + b == a;
    }
  }

  /** Blank cells place no event. */
  lemma {:induction false} BlanksPlaceNothing(n: nat)
    ensures PlacedCount(Blanks(n)) == 0
  {
    if n > 0 {
      assert Blanks(n)[..n - 1] == Blanks(n - 1);
      BlanksPlaceNothing(n - 1);
    }
  }

  /** The events that fall on days 1..n of (year, month). */
  function UpToDay(events: seq<CalendarEvent>, localDate: LocalDateOf, year: int, month: int, n: int): seq<CalendarEvent>
  {
    Filter(events, (e: CalendarEvent) => InMonth(localDate, year, month, e) && localDate(e.startTime).value.day <= n)
  }

  /** The cells of days 1..n place as many events as fall on those days. */
  lemma {:induction false} DayCellsCount(year: int, month: int, events: seq<CalendarEvent>, localDate: LocalDateOf,
                                       today: CivilDate, n: nat)
    requires ParsesToValid(localDate)
    ensures PlacedCount(DayCells(year, month, events, localDate, today, n)) == |UpToDay(events, localDate, year, month, n)|
  {
    if n == 0 {
      NoneUpToDayZero(events, localDate, year, month);
    } else {
      var cells := DayCells(year, month, events, localDate, today, n);
      assert cells[..n - 1] == DayCells(year, month, events, localDate, today, n - 1);
      DayCellsCount(year, month, events, localDate, today, n - 1);
      UpToDaySplit(events, localDate, year, month, n);
    }
  }

  /** No event falls on a day below 1 of a month. */
  lemma {:induction false} NoneUpToDayZero(events: seq<CalendarEvent>, localDate: LocalDateOf, year: int, month: int)
    requires ParsesToValid(localDate)
    ensures UpToDay(events, localDate, year, month, 0) == []
  {
    if events != [] {
      var t := events[0].startTime;
      if localDate(t).Some? {
        assert IsValid(localDate(t).value);
      }
      assert UpToDay(events, localDate, year, month, 0) == UpToDay(events[1..], localDate, year, month, 0);
      NoneUpToDayZero(events[1..], localDate, year, month);
    }
  }

  /** The events up to day n are those up to day n - 1 plus those of day n, counted. */
  lemma {:induction false} UpToDaySplit(events: seq<CalendarEvent>, localDate: LocalDateOf, year: int, month: int, n: int)
    ensures |UpToDay(events, localDate, year, month, n)|
            == |UpToDay(events, localDate, year, month, n - 1)| + |DayEvents(events, localDate, year, month, n)|
  {
    if events != [] {
      UpToDaySplit(events[1..], localDate, year, month, n);
    }
  }

  /** Every event of the month falls on a day up to the month's length. */
  lemma {:induction false} CountByDay(year: int, month: int, events: seq<CalendarEvent>, localDate: LocalDateOf, n: nat)
    requires 0 <= month < 12 && ParsesToValid(localDate) && n == MonthLength(year, month)
    ensures UpToDay(events, localDate, year, month, n) == Filter(events, (e: CalendarEvent) => InMonth(localDate, year, month, e))
  {
    if events != [] {
      CountByDay(year, month, events[1..], localDate, n);
    }
  }

  /** `prevMonth`: `new Date(year, month - 1, 1)`. */
  function PrevMonthOf(d: CivilDate): (r: CivilDate)
    ensures IsValid(r) && r.day == 1
  {
    Construct(d.year, d.month - 1, 1)
  }

  /** `nextMonth`: `new Date(year, month + 1, 1)`. */
  function NextMonthOf(d: CivilDate): (r: CivilDate)
    ensures IsValid(r) && r.day == 1
  {
    Construct(d.year, d.month + 1, 1)
  }

  /** Going forward is the 1st of the following month: December rolls over to January
      of the next year. */
  lemma NextMonthRollover(d: CivilDate)
    requires IsValid(d) && !(0 <= d.year <= 99)
    ensures NextMonthOf(d) == FollowingMonth(d.year, d.month)
  {
    var n := FollowingMonth(d.year, d.month);
    assert (d.month + 1) / 12 == (if d.month == 11 then 1 else 0);
    assert (d.month + 1) % 12 == n.month;
    DayNumberInjective(NextMonthOf(d), n);
  }

  /** Going back is the 1st of the preceding month: January rolls back to December of
      the previous year. */
  lemma PrevMonthRollover(d: CivilDate)
    requires IsValid(d) && !(0 <= d.year <= 99)
    ensures PrevMonthOf(d) == if d.month == 0 then CivilDate(d.year - 1, 11, 1) else CivilDate(d.year, d.month - 1, 1)
  {
    var p := if d.month == 0 then CivilDate(d.year - 1, 11, 1) else CivilDate(d.year, d.month - 1, 1);
    assert (d.month - 1) / 12 == (if d.month == 0 then -1 else 0);
    assert (d.month - 1) % 12 == p.month;
    DayNumberInjective(PrevMonthOf(d), p);
  }

  /** The year boundaries: from December 2024 forward is January 2025, and back again. */
  lemma RolloverExamples()
    ensures NextMonthOf(CivilDate(2024, 11, 1)) == CivilDate(2025, 0, 1)
    ensures PrevMonthOf(CivilDate(2025, 0, 1)) == CivilDate(2024, 11, 1)
  {
    NextMonthRollover(CivilDate(2024, 11, 1));
    PrevMonthRollover(CivilDate(2025, 0, 1));
  }

  /** Forward then back returns to the 1st of the starting month. */
  lemma NextThenPrev(d: CivilDate)
    requires IsValid(d) && !(-1 <= d.year <= 99)
    ensures PrevMonthOf(NextMonthOf(d)) == CivilDate(d.year, d.month, 1)
  {
    NextMonthRollover(d);
    PrevMonthRollover(NextMonthOf(d));
  }

  /** Back then forward returns to the 1st of the starting month. */
  lemma PrevThenNext(d: CivilDate)
    requires IsValid(d) && !(0 <= d.year <= 100)
    ensures NextMonthOf(PrevMonthOf(d)) == CivilDate(d.year, d.month, 1)
  {
    PrevMonthRollover(d);
    NextMonthRollover(PrevMonthOf(d));
  }

  /** The two-digit-year rule breaks the round trip: back from January of year 100 is
      December of year 99, and forward from there the constructor reads 99 as 1999. */
  lemma TwoDigitYearJump()
    ensures PrevMonthOf(CivilDate(100, 0, 1)) == CivilDate(99, 11, 1)
    ensures NextMonthOf(CivilDate(99, 11, 1)) == CivilDate(2000, 0, 1)
  {
    PrevMonthRollover(CivilDate(100, 0, 1));
    NextMonthRollover(CivilDate(1999, 11, 1));
    assert NextMonthOf(CivilDate(99, 11, 1)) == NextMonthOf(CivilDate(1999, 11, 1));
  }

  /** Where a click lands: the empty area of a cell, or the k-th event listed in it. */
  datatype ClickTarget = CellArea | EventItem(index: int)

  /** A callback of the component's props, with its argument. */
  datatype Callback = DateClicked(date: CivilDate) | EventClicked(event: CalendarEvent)

  /** The callbacks that one click fires, in the grid of (year, month). A day cell's own
      handler calls `onDateClick` with `new Date(year, month, day)`, only when the prop is
      given; an event's handler stops propagation and calls `onEventClick`; blanks have
      no handler. */
  function Click(cell: Cell, year: int, month: int, target: ClickTarget, hasDateHandler: bool): (fired: seq<Callback>)
    ensures |fired| <= 1
    ensures (exists d :: DateClicked(d) in fired) <==> (cell.DayCell? && target == CellArea && hasDateHandler)
    ensures target.EventItem? ==> forall c :: c in fired ==> c.EventClicked? && c.event in CellEvents(cell)
    ensures (cell.DayCell? && target.EventItem? && 0 <= target.index < |cell.events|)
            ==> fired == [EventClicked(cell.events[target.index])]
    ensures cell.DayCell? && target == CellArea && hasDateHandler ==> fired == [DateClicked(Construct(year, month, cell.day))]
    ensures cell.Blank? ==> fired == []
  {
    match target
    case CellArea =>
      if cell.DayCell? && hasDateHandler then [DateClicked(Construct(year, month, cell.day))] else []
    case EventItem(k) =>
      if cell.DayCell? && 0 <= k < |cell.events| then [EventClicked(cell.events[k])] else []
  }

  /** Clicking the empty area of the cell of day k passes exactly (year, month, k). */
  lemma GridDateClick(year: int, month: int, events: seq<CalendarEvent>, localDate: LocalDateOf, today: CivilDate, i: int)
    requires 0 <= month < 12 && !(0 <= year <= 99)
    requires FirstDayOfMonth(year, month) <= i < |Grid(year, month, events, localDate, today)|
    ensures Click(Grid(year, month, events, localDate, today)[i], year, month, CellArea, true)
            == [DateClicked(CivilDate(year, month, i - FirstDayOfMonth(year, month) + 1))]
  {
    GridShape(year, month, events, localDate, today);
    ConstructValid(CivilDate(year, month, i - FirstDayOfMonth(year, month) + 1));
  }

  /** The colour scheme of an event chip. */
  datatype Style = Red | Blue | Amber | Gray

  /** The event-type style choice; every type string gets a style. */
  function EventStyle(eventType: string): (st: Style)
    ensures st == Red <==> eventType == "audiencia"
    ensures st == Blue <==> eventType == "reunion"
    ensures st == Amber <==> eventType == "vencimiento"
    ensures st == Gray <==> eventType != "audiencia" && eventType != "reunion" && eventType != "vencimiento"
  {
    if eventType == "audiencia" then Red
    else if eventType == "reunion" then Blue
    else if eventType == "vencimiento" then Amber
    else Gray
  }

  /** The component's state: the displayed date `currentDate`. */
  class Calendar {
    var current: CivilDate

    ghost predicate Valid()
      reads this
    {
      IsValid(current)
    }

    /** Initialised with the date of the moment of mounting. */
    constructor (now: CivilDate)
      requires IsValid(now)
      ensures Valid() && current == now
    {
      current := now;
    }

    method PrevMonth()
      requires Valid()
      modifies this
      ensures Valid() && current == PrevMonthOf(old(current))
    {
      current := Construct(current.year, current.month - 1, 1);
    }

    method NextMonth()
      requires Valid()
      modifies this
      ensures Valid() && current == NextMonthOf(old(current))
    {
      current := Construct(current.year, current.month + 1, 1);
    }

    /** The month name of the header; the displayed month always indexes the table. */
    function Title(): (name: string)
      reads this
      requires Valid()
      ensures name in MonthNames
    {
      MonthNames[current.month]
    }

    /** `renderCells`: push `firstDay` blanks, then one cell per day 1..daysInMonth. */
    method RenderCells(events: seq<CalendarEvent>, localDate: LocalDateOf, today: CivilDate) returns (cells: seq<Cell>)
      requires Valid()
      ensures cells == Grid(current.year, current.month, events, localDate, today)
    {
      var year, month := current.year, current.month;
      var firstDay := FirstDayOfMonth(year, month);
      var daysInMonth := DaysInMonth(year, month);
      cells := [];
      var i := 0;
      while i < firstDay
        invariant 0 <= i <= firstDay
        invariant cells == Blanks(i)
      {
        cells := cells + [Blank];
        i := i + 1;
      }
      var day := 1;
      while day <= daysInMonth
        invariant 1 <= day <= daysInMonth + 1
        invariant cells == Blanks(firstDay) + DayCells(year, month, events, localDate, today, day - 1)
      {
        var dayEvents := DayEvents(events, localDate, year, month, day);
        cells := cells + [DayCell(day, IsToday(today, year, month, day), dayEvents)];
        day := day + 1;
      }
    }
  }

  /** The May 2024 scenario: two events on the 15th and one on 1 June. The cell of the
      15th lists the first two in input order; the June event is under no day of May. */
  lemma MayScenario(e1: CalendarEvent, e2: CalendarEvent, e3: CalendarEvent)
    requires e1.startTime == "2024-05-15T11:30" && e2.startTime == "2024-05-15T09:00"
    requires e3.startTime == "2024-06-01T10:00"
    ensures var localDate := (t: string) =>
        if t == "2024-05-15T11:30" || t == "2024-05-15T09:00" then Some(CivilDate(2024, 4, 15))
        else if t == "2024-06-01T10:00" then Some(CivilDate(2024, 5, 1))
        else None;
      && DayEvents([e1, e2, e3], localDate, 2024, 4, 15) == [e1, e2]
      && forall day :: e3 !in DayEvents([e1, e2, e3], localDate, 2024, 4, day)
  {
    var localDate := (t: string) =>
        if t == "2024-05-15T11:30" || t == "2024-05-15T09:00" then Some(CivilDate(2024, 4, 15))
        else if t == "2024-06-01T10:00" then Some(CivilDate(2024, 5, 1))
        else None;
    assert [e1, e2, e3][1..] == [e2, e3] && [e2, e3][1..] == [e3] && [e3][1..] == [];
    assert DayEvents([e3], localDate, 2024, 4, 15) == [];
    assert DayEvents([e2, e3], localDate, 2024, 4, 15) == [e2];
    assert DayEvents([e1, e2, e3], localDate, 2024, 4, 15) == [e1, e2];
  }
}
