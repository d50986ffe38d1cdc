/**
 The booking calendar's days for the displayed month: the grid of padding
 cells and day cells, the past-day and today flags of each cell, and the
 date label stored when a day is picked and compared back against each cell
 to highlight the selection.

 "Today" is a parameter rather than a clock reading. The dates the
 component compares are set to local midnight, and from the clock readings
 only the year, month and day are read, so comparisons are by whole days.
 */
module CalendarDays {
  import opened Options
  import opened Gregorian
  import opened Decimal
  import opened CalendarCursor

  datatype Cell = Padding | Day(day: int)

  /** The length of the displayed month, read in the calendar as the day of
      month of `new Date(year, month + 1, 0)`: that date is the last day of
      the displayed month, whose day is this length. */
  function MonthLength(c: Cursor): (n: int)
    ensures 28 <= n <= 31
    ensures Valid(Date(c.year, c.month, n)) && !Valid(Date(c.year, c.month, n + 1))
    ensures MakeDay(c.year, c.month + 1, 0) == DayNumber(c.year, c.month, n)
  {
    DayZeroIsLastDay(c.year, c.month);
    DaysInMonth(c.year, c.month)
  }

  /** `getDay` of the first of the displayed month (0 = Sunday): the number of
      padding cells before day 1. */
  function FirstWeekday(c: Cursor): (w: int)
    ensures 0 <= w < 7
  {
    WeekdayOf(MakeDay(c.year, c.month, 1))
  }

  /** The calendar grid: `FirstWeekday` padding cells, then the days of the
      month in order. */
  function Grid(c: Cursor): (g: seq<Cell>)
    ensures |g| == FirstWeekday(c) + MonthLength(c)
    ensures forall i :: 0 <= i < FirstWeekday(c) ==> g[i] == Padding
    ensures forall i :: FirstWeekday(c) <= i < |g| ==> g[i] == Day(i - FirstWeekday(c) + 1)
  {
    var blanks: seq<Cell> := seq(FirstWeekday(c), _ => Padding);
    var days: seq<Cell> := seq(MonthLength(c), i => Day(i + 1));
    assert forall i :: |blanks| <= i < |blanks| + |days| ==> (blanks + days)[i] == days[i - |blanks|];
    blanks + days
  }

  /** The day of the displayed month lies strictly before today: for a real
      day this is calendar order, and within today's month it compares the
      day of month alone. */
  function IsPastDate(c: Cursor, today: Date, day: int): (past: bool)
    ensures Valid(today) && 1 <= day <= MonthLength(c) ==>
      (past <==> Before(Date(c.year, c.month, day), today))
    ensures c == Start(today) ==> (past <==> day < today.day)
  {
    var past := MakeDay(c.year, c.month, day) < DayNumberOf(today);
    if Valid(today) && 1 <= day <= MonthLength(c) then
      DayNumberOrder(Date(c.year, c.month, day), today);
      past
    else
      past
  }

  /** The cell is today's date; such a cell is never a past day. */
  function IsToday(c: Cursor, today: Date, day: int): (isToday: bool)
    ensures isToday <==> Date(c.year, c.month, day) == today
    ensures isToday ==> !IsPastDate(c, today, day)
  {
    day == today.day && c.month == today.month && c.year == today.year
  }

  const MonthNames: seq<string> := [
    "JANUARY", "FEBRUARY", "MARCH", "APRIL", "MAY", "JUNE",
    "JULY", "AUGUST", "SEPTEMBER", "OCTOBER", "NOVEMBER", "DECEMBER"
  ]

  /** The first three letters of the month's name. */
  function Abbreviation(m: Month): (a: string)
    ensures |a| == 3
  {
    assert |MonthNames[m]| >= 3;
    MonthNames[m][..3]
  }

  /** Reads a month back from its abbreviation. */
  function MonthOfAbbreviation(a: string): Option<Month> {
    if a == "JAN" then Some(0) else if a == "FEB" then Some(1)
    else if a == "MAR" then Some(2) else if a == "APR" then Some(3)
    else if a == "MAY" then Some(4) else if a == "JUN" then Some(5)
    else if a == "JUL" then Some(6) else if a == "AUG" then Some(7)
    else if a == "SEP" then Some(8) else if a == "OCT" then Some(9)
    else if a == "NOV" then Some(10) else if a == "DEC" then Some(11)
    else None
  }

  /** The label stored for a picked day: "<MON>, <day> <year>". Its first
      three characters read back as the month, and after ", " come the day
      and the year, separated by a space. */
  function Label(c: Cursor, day: int): (text: string)
    ensures |text| >= 8
    ensures MonthOfAbbreviation(text[..3]) == Some(c.month)
    ensures text[3..5] == ", "
    ensures text[5..] == IntToString(day) + " " + IntToString(c.year)
  {
    var month, rest := Abbreviation(c.month), IntToString(day) + " " + IntToString(c.year);
    AbbreviationRoundTrip(c.month);
    assert (month + ", " + rest)[..3] == month && (month + ", " + rest)[5..] == rest;
    month + ", " + rest
  }

  /** A day cell is highlighted when the stored label is its own label: once
      a day of the shown month is stored, exactly that day's cell is. */
  function IsSelected(selected: Option<string>, c: Cursor, day: int): (highlighted: bool)
    ensures selected.None? ==> !highlighted
    ensures forall d :: selected == Some(Label(c, d)) ==> (highlighted <==> day == d)
  {
    assert forall d :: selected == Some(Label(c, d)) ==> (selected == Some(Label(c, day)) <==> day == d) by {
      forall d | selected == Some(Label(c, d)) {
        LabelInjective(c, d, c, day);
      }
    }
    selected == Some(Label(c, day))
  }

  // ---------------------------------------------------------------------
  // Properties
  // ---------------------------------------------------------------------

  /** Each day cell sits in the column of its weekday: with seven cells per
      row under the headers Sun..Sat, cell `i` is in column `i % 7`. */
  lemma GridColumnIsWeekday(c: Cursor, d: int)
    requires 1 <= d <= MonthLength(c)
    ensures Valid(Date(c.year, c.month, d))
    ensures Grid(c)[FirstWeekday(c) + d - 1] == Day(d)
    ensures (FirstWeekday(c) + d - 1) % 7 == WeekdayOf(DayNumber(c.year, c.month, d))
  {
    var first := DayNumber(c.year, c.month, 1);
    assert DayNumber(c.year, c.month, d) == first + (d - 1);
    WeekdayShift(first, d - 1);
  }

  /** For a valid day of the displayed month, "past" is the calendar order. */
  lemma PastIsBeforeToday(c: Cursor, today: Date, day: int)
    requires Valid(today) && 1 <= day <= MonthLength(c)
    ensures IsPastDate(c, today, day) <==> Before(Date(c.year, c.month, day), today)
    ensures IsToday(c, today, day) <==> Date(c.year, c.month, day) == today
  {
    DayNumberOrder(Date(c.year, c.month, day), today);
  }

  /** Today's cell is never a past day. */
  lemma TodayIsNotPast(c: Cursor, today: Date, day: int)
    requires IsToday(c, today, day)
    ensures !IsPastDate(c, today, day)
  {
  }

  /** On any month the calendar can show, the past days are exactly those of
      the current month before today's day; later months have none. */
  lemma PastDaysOfShownMonth(c: Cursor, today: Date, day: int)
    requires Valid(today) && NotBefore(c, today) && 1 <= day <= MonthLength(c)
    ensures IsPastDate(c, today, day) <==> (c == Start(today) && day < today.day)
  {
    PastIsBeforeToday(c, today, day);
  }

  lemma AbbreviationRoundTrip(m: Month)
    ensures MonthOfAbbreviation(Abbreviation(m)) == Some(m)
  {
    var abbreviations := ["JAN", "FEB", "MAR", "APR", "MAY", "JUN",
                          "JUL", "AUG", "SEP", "OCT", "NOV", "DEC"];
    assert Abbreviation(m) == abbreviations[m] by {
      assert MonthNames[m][..3] == abbreviations[m];
    }
  }

  /** When two strings agree, a space right after a shorter first part sits
      inside the longer one. */
  lemma SpaceInside(a: string, b: string, a': string, b': string)
    requires a + " " + b == a' + " " + b' && |a| < |a'|
    ensures a'[|a|] == ' '
  {
    var s := a + " " + b;
    assert s[|a|] == ' ';
    assert (a' + " " + b')[|a|] == a'[|a|];
  }

  /** Splitting at the first space recovers both halves when the first half
      has no space. */
  lemma SplitAtSpace(a: string, b: string, a': string, b': string)
    requires ' ' !in a && ' ' !in a'
    requires a + " " + b == a' + " " + b'
    ensures a == a' && b == b'
  {
    var s := a + " " + b;
    if |a| < |a'| {
      SpaceInside(a, b, a', b');
      assert false;
    } else if |a'| < |a| {
      SpaceInside(a', b', a, b);
      assert false;
    }
    assert a == s[..|a|] == a';
    assert b == s[|a| + 1..] == b';
  }

  /** Labels of different days, or of different months, never coincide. */
  lemma LabelInjective(c: Cursor, day: int, c': Cursor, day': int)
    ensures Label(c, day) == Label(c', day') <==> c == c' && day == day'
  {
    if Label(c, day) == Label(c', day') {
      NoSpace(day);
      NoSpace(day');
      SplitAtSpace(IntToString(day), IntToString(c.year), IntToString(day'), IntToString(c'.year));
      IntToStringInjective(day, day');
      IntToStringInjective(c.year, c'.year);
    }
  }

  /** Once day `d` of a month is picked, the highlighted cell of any
      displayed month is exactly that day in that month. */
  lemma SelectionHighlightsOneCell(c: Cursor, d: int, shown: Cursor, day: int)
    ensures IsSelected(Some(Label(c, d)), shown, day) <==> shown == c && day == d
  {
    LabelInjective(c, d, shown, day);
  }

  /** Picking the 20th while October 2026 is displayed stores the upper-case
      label "OCT, 20 2026". */
  lemma OctoberLabel()
    ensures Label(Cursor(9, 2026), 20) == "OCT, 20 2026"
  {
    SampleRenderings();
    assert Abbreviation(9) == "OCT";
    assert Label(Cursor(9, 2026), 20) == "OCT" + ", " + "20" + " " + "2026";
  }
}
