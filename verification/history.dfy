/**
 * The history screen's calendar: the month grid of day cells (blank cells
 * before the first day and after the last, whole weeks only) and the
 * lookup of the entry shown in a day cell.
 */
module History {
  import opened Wrappers
  import opened Calendar
  import opened Models
  import opened MoodViewModel

  /**
   * `daysInMonth()` once the calendar has been consulted: `firstWeekday`
   * (1 = Sunday) is the weekday of `firstOfMonth`, and `dayCount` is the
   * number of days in the month. The result is `firstWeekday - 1` blanks,
   * then the month's days in order, then blanks up to a whole week.
   */
  method MonthGrid(firstOfMonth: Date, firstWeekday: int, dayCount: int) returns (days: seq<Option<Date>>)
    requires 1 <= firstWeekday <= 7
    requires 1 <= dayCount
    ensures |days| % 7 == 0
    ensures |days| == 7 * ((firstWeekday - 1 + dayCount + 6) / 7)
    ensures forall i :: 0 <= i < firstWeekday - 1 ==> days[i] == None
    ensures forall i :: firstWeekday - 1 <= i < firstWeekday - 1 + dayCount ==>
      days[i] == Some(AddDays(firstOfMonth, i - (firstWeekday - 1)))
    ensures forall i :: firstWeekday - 1 + dayCount <= i < |days| ==> days[i] == None
    ensures |days| - (firstWeekday - 1 + dayCount) < 7
  {
    var lead := firstWeekday - 1;
    days := seq(lead, _ => None);
    var day := 1;
    while day <= dayCount
      invariant 1 <= day <= dayCount + 1
      invariant |days| == lead + day - 1
      invariant forall i :: 0 <= i < lead ==> days[i] == None
      invariant forall i :: lead <= i < |days| ==> days[i] == Some(AddDays(firstOfMonth, i - lead))
    {
      days := days + [Some(AddDays(firstOfMonth, day - 1))];
      day := day + 1;
    }
    var filled := lead + dayCount;
    var target := 7 * ((filled + 6) / 7);
    while |days| % 7 != 0
      invariant filled <= |days| <= target
      invariant forall i :: 0 <= i < lead ==> days[i] == None
      invariant forall i :: lead <= i < filled ==> days[i] == Some(AddDays(firstOfMonth, i - lead))
      invariant forall i :: filled <= i < |days| ==> days[i] == None
      decreases target - |days|
    {
      days := days + [None];
    }
  }

  /** What `daysInMonth()` asks the calendar about the month shown. */
  datatype MonthLayout = MonthLayout(firstOfMonth: Date, firstWeekday: int, dayCount: int)

  /**
   * For the month of `selectedDate`: its first day at midnight
   * (`calendar.date(from: [.year, .month] of selectedDate)`), that day's
   * weekday and the month's length (`range(of: .day, in: .month, for:)`).
   */
  function LayoutOf(selectedDate: Date): (layout: MonthLayout)
    ensures layout.firstOfMonth.seconds % SecondsPerDay == 0
    ensures SameMonth(layout.firstOfMonth, selectedDate) && DayOfMonth(layout.firstOfMonth) == 1
    ensures 1 <= layout.firstWeekday <= 7 && layout.firstWeekday == Weekday(layout.firstOfMonth)
    ensures 28 <= layout.dayCount <= 31 && layout.dayCount == DaysInMonth(MonthOf(selectedDate))
  {
    FirstOfMonth(selectedDate);
    var first := Date((selectedDate.Day() - (DayOfMonth(selectedDate) - 1)) * SecondsPerDay);
    MonthLayout(first, Weekday(first), DaysInMonth(MonthOf(selectedDate)))
  }

  /**
   * The month shown is exactly the `dayCount` consecutive days from
   * `firstOfMonth`, and each of its days is numbered from 1 there.
   */
  lemma LayoutSpansMonth(selectedDate: Date, x: Date)
    ensures var layout := LayoutOf(selectedDate);
      var first := layout.firstOfMonth.Day();
      && (SameMonth(x, selectedDate) <==> first <= x.Day() < first + layout.dayCount)
      && (SameMonth(x, selectedDate) ==> DayOfMonth(x) == x.Day() - first + 1)
  {
    MonthSpan(selectedDate, x);
  }

  /**
   * `days` is the grid of `layout`: one blank per weekday before the first,
   * the month's days in order, then blanks up to a whole number of weeks.
   */
  ghost predicate IsMonthGrid(layout: MonthLayout, days: seq<Option<Date>>)
  {
    var lead := layout.firstWeekday - 1;
    var n := layout.dayCount;
    && |days| % 7 == 0
    && 0 <= lead && 0 <= n && lead + n <= |days| < lead + n + 7
    && (forall i :: 0 <= i < lead ==> days[i] == None)
    && (forall i :: lead <= i < lead + n ==> days[i] == Some(AddDays(layout.firstOfMonth, i - lead)))
    && (forall i :: lead + n <= i < |days| ==> days[i] == None)
  }

  /** Cell `lead + j` of a grid holds the day `j` days after the first. */
  lemma GridCellAt(layout: MonthLayout, days: seq<Option<Date>>, j: int)
    requires IsMonthGrid(layout, days)
    requires 0 <= j < layout.dayCount
    ensures var k := layout.firstWeekday - 1 + j;
      0 <= k < |days| && days[k].Some? && days[k].value.Day() == layout.firstOfMonth.Day() + j
  {
    var k := layout.firstWeekday - 1 + j;
    assert days[k] == Some(AddDays(layout.firstOfMonth, j));
  }

  /** Every date cell of the selected month's grid is a day of that month, numbered by its column offset. */
  lemma GridCellsInMonth(selectedDate: Date, days: seq<Option<Date>>, i: int)
    ensures IsMonthGrid(LayoutOf(selectedDate), days) && 0 <= i < |days| && days[i].Some? ==>
      && SameMonth(days[i].value, selectedDate)
      && DayOfMonth(days[i].value) == i - (LayoutOf(selectedDate).firstWeekday - 1) + 1
  {
    var layout := LayoutOf(selectedDate);
    var lead := layout.firstWeekday - 1;
    if IsMonthGrid(layout, days) && 0 <= i < |days| && days[i].Some? {
      assert lead <= i < lead + layout.dayCount;
      GridCellAt(layout, days, i - lead);
      LayoutSpansMonth(selectedDate, days[i].value);
    }
  }

  /** Every day of the selected month has its cell in the grid, at its day of month after the blanks. */
  lemma MonthDaysInGrid(selectedDate: Date, days: seq<Option<Date>>, x: Date)
    ensures IsMonthGrid(LayoutOf(selectedDate), days) && SameMonth(x, selectedDate) ==>
      var k := LayoutOf(selectedDate).firstWeekday - 1 + DayOfMonth(x) - 1;
      0 <= k < |days| && days[k].Some? && SameDay(days[k].value, x)
  {
    var layout := LayoutOf(selectedDate);
    if IsMonthGrid(layout, days) && SameMonth(x, selectedDate) {
      LayoutSpansMonth(selectedDate, x);
      GridCellAt(layout, days, DayOfMonth(x) - 1);
    }
  }

  /** Every date cell of `days` is a day of `selectedDate`'s month, numbered by its offset past the `lead` blanks. */
  ghost predicate CellsInMonth(days: seq<Option<Date>>, selectedDate: Date, lead: int)
  {
    forall i :: 0 <= i < |days| && days[i].Some? ==>
      SameMonth(days[i].value, selectedDate) && DayOfMonth(days[i].value) == i - lead + 1
  }

  /** Every day of `selectedDate`'s month has a cell in `days`, at its day of month past the `lead` blanks. */
  ghost predicate MonthInCells(days: seq<Option<Date>>, selectedDate: Date, lead: int)
  {
    forall x: Date :: SameMonth(x, selectedDate) ==>
      var k := lead + DayOfMonth(x) - 1;
      0 <= k < |days| && days[k].Some? && SameDay(days[k].value, x)
  }

  /** The grid of the selected month shows that month's days and only them, each in its numbered place. */
  lemma GridShowsMonth(selectedDate: Date, days: seq<Option<Date>>)
    ensures IsMonthGrid(LayoutOf(selectedDate), days) ==>
      && CellsInMonth(days, selectedDate, LayoutOf(selectedDate).firstWeekday - 1)
      && MonthInCells(days, selectedDate, LayoutOf(selectedDate).firstWeekday - 1)
  {
    if IsMonthGrid(LayoutOf(selectedDate), days) {
      forall i | 0 <= i < |days| && days[i].Some?
        ensures SameMonth(days[i].value, selectedDate)
        ensures DayOfMonth(days[i].value) == i - (LayoutOf(selectedDate).firstWeekday - 1) + 1
      {
        GridCellsInMonth(selectedDate, days, i);
      }
      forall x: Date | SameMonth(x, selectedDate)
        ensures var k := LayoutOf(selectedDate).firstWeekday - 1 + DayOfMonth(x) - 1;
          0 <= k < |days| && days[k].Some? && SameDay(days[k].value, x)
      {
        MonthDaysInGrid(selectedDate, days, x);
      }
    }
  }

  /** `daysInMonth()` for the month shown on the history screen (`selectedDate`). */
  method MonthGridFor(selectedDate: Date) returns (days: seq<Option<Date>>)
    ensures IsMonthGrid(LayoutOf(selectedDate), days)
    ensures CellsInMonth(days, selectedDate, LayoutOf(selectedDate).firstWeekday - 1)
    ensures MonthInCells(days, selectedDate, LayoutOf(selectedDate).firstWeekday - 1)
  {
    var layout := LayoutOf(selectedDate);
    days := MonthGrid(layout.firstOfMonth, layout.firstWeekday, layout.dayCount);
    assert IsMonthGrid(layout, days);
    GridShowsMonth(selectedDate, days);
  }

  /** Entry `i` is the earliest one in `entries` on `d`'s calendar day. */
  ghost predicate IsFirstOnDay(entries: seq<MoodEntry>, i: int, d: Date)
  {
    && 0 <= i < |entries|
    && SameDay(entries[i].date, d)
    && forall j :: 0 <= j < i ==> !SameDay(entries[j].date, d)
  }

  /**
   * `entryForDate(d)`: the first entry in store order on `d`'s calendar
   * day, or none when no entry is on that day.
   */
  function EntryForDate(entries: seq<MoodEntry>, d: Date): (r: Option<MoodEntry>)
    ensures r == None <==> forall e :: e in entries ==> !SameDay(e.date, d)
    ensures r.Some? ==> exists i :: IsFirstOnDay(entries, i, d) && entries[i] == r.value
  {
    if |entries| == 0 then None
    else if SameDay(entries[0].date, d) then
      assert IsFirstOnDay(entries, 0, d);
      Some(entries[0])
    else
      var r := EntryForDate(entries[1..], d);
      assert r.Some? ==> exists i :: IsFirstOnDay(entries, i, d) && entries[i] == r.value by {
        if r.Some? {
          var i :| IsFirstOnDay(entries[1..], i, d) && entries[1..][i] == r.value;
          assert IsFirstOnDay(entries, i + 1, d);
        }
      }
      r
  }

  /** With one entry per day, the cell of a day shows that day's only entry. */
  lemma EntryForDateIsTheDaysEntry(entries: seq<MoodEntry>, d: Date, e: MoodEntry)
    requires OnePerDay(entries)
    requires e in entries && SameDay(e.date, d)
    ensures EntryForDate(entries, d) == Some(e)
  {
  }

  /** Right after a save, the selected day's cell shows the entry just saved. */
  lemma SavedEntryIsShown(s: State, id: EntryId, now: Date)
    requires s.selectedMood.Some?
    ensures EntryForDate(SaveEntry(s, id, now).entries, s.selectedDate) == Some(PendingEntry(s, id))
  {
  }
}
