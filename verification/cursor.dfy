/**
 The calendar cursor: the (month, year) the booking calendar displays.
 The next-month control always moves forward, wrapping December into January
 of the next year; the previous-month control moves back, wrapping January
 into December of the previous year, but does nothing while the current
 month is displayed.
 */
module CalendarCursor {
  import opened Gregorian

  datatype Cursor = Cursor(month: Month, year: int)

  /** The month's position on a single timeline counted in months. */
  function Index(c: Cursor): int {
    12 * c.year + c.month
  }

  /** The cursor the calendar opens on: the current month. */
  function Start(today: Date): (c: Cursor)
    ensures c.month == today.month && c.year == today.year
  {
    Cursor(today.month, today.year)
  }

  /** The cursor shows the current month or a later one. */
  predicate NotBefore(c: Cursor, today: Date) {
    c.year > today.year || (c.year == today.year && c.month >= today.month)
  }

  function NextMonth(c: Cursor): (r: Cursor)
    ensures Index(r) == Index(c) + 1
    ensures r.year == c.year || r.year == c.year + 1
  {
    if c.month == 11 then Cursor(0, c.year + 1) else Cursor(c.month + 1, c.year)
  }

  function PrevMonth(c: Cursor, today: Date): (r: Cursor)
    ensures c == Start(today) ==> r == c
    ensures c != Start(today) ==> Index(r) == Index(c) - 1
  {
    if c.year == today.year && c.month == today.month then c
    else if c.month == 0 then Cursor(11, c.year - 1)
    else Cursor(c.month - 1, c.year)
  }

  /** `n` presses of the next-month control. */
  function NextMonths(c: Cursor, n: nat): Cursor
    decreases n
  {
    if n == 0 then c else NextMonths(NextMonth(c), n - 1)
  }

  /** One press of either calendar arrow. */
  datatype Arrow = Next | Prev

  function Navigate(c: Cursor, today: Date, arrows: seq<Arrow>): Cursor
    decreases |arrows|
  {
    if |arrows| == 0 then c
    else
      var c' := if arrows[0] == Next then NextMonth(c) else PrevMonth(c, today);
      Navigate(c', today, arrows[1..])
  }

  // ---------------------------------------------------------------------
  // Properties
  // ---------------------------------------------------------------------

  /** A cursor is determined by its index: month and year are the remainder
      and quotient of the index by 12. */
  lemma IndexDetermines(a: Cursor, b: Cursor)
    ensures Index(a) == Index(b) <==> a == b
    ensures a.month == Index(a) % 12 && a.year == Index(a) / 12
  {
  }

  /** "Not before the current month" is the index order. */
  lemma NotBeforeIsIndexOrder(c: Cursor, today: Date)
    ensures NotBefore(c, today) <==> Index(c) >= Index(Start(today))
  {
  }

  lemma {:induction false} NextMonthsIndex(c: Cursor, n: nat)
    ensures Index(NextMonths(c, n)) == Index(c) + n
    decreases n
  {
    if n > 0 {
      NextMonthsIndex(NextMonth(c), n - 1);
    }
  }

  /** Twelve presses of next-month reach the same month of the next year. */
  lemma TwelveMonthsLater(c: Cursor)
    ensures NextMonths(c, 12) == Cursor(c.month, c.year + 1)
  {
    NextMonthsIndex(c, 12);
    IndexDetermines(NextMonths(c, 12), Cursor(c.month, c.year + 1));
  }

  /** Previous-month undoes next-month from any month the calendar can show. */
  lemma PrevUndoesNext(c: Cursor, today: Date)
    requires NotBefore(c, today)
    ensures PrevMonth(NextMonth(c), today) == c
  {
    IndexDetermines(PrevMonth(NextMonth(c), today), c);
  }

  /** Next-month undoes previous-month whenever previous-month moved. */
  lemma NextUndoesPrev(c: Cursor, today: Date)
    requires c != Start(today)
    ensures NextMonth(PrevMonth(c, today)) == c
  {
    IndexDetermines(NextMonth(PrevMonth(c, today)), c);
  }

  /** Every displayable month is reached from the current month by pressing
      next-month as many times as it is months ahead. */
  lemma ReachableByNext(c: Cursor, today: Date)
    requires NotBefore(c, today)
    ensures NextMonths(Start(today), Index(c) - Index(Start(today))) == c
  {
    var n := Index(c) - Index(Start(today));
    NextMonthsIndex(Start(today), n);
    IndexDetermines(NextMonths(Start(today), n), c);
  }

  /** No sequence of arrow presses takes the calendar before the current
      month. */
  lemma {:induction false} NavigateStaysNotBefore(c: Cursor, today: Date, arrows: seq<Arrow>)
    requires NotBefore(c, today)
    ensures NotBefore(Navigate(c, today, arrows), today)
    decreases |arrows|
  {
    if |arrows| > 0 {
      var c' := if arrows[0] == Next then NextMonth(c) else PrevMonth(c, today);
      assert NotBefore(c', today) by {
        NotBeforeIsIndexOrder(c, today);
        NotBeforeIsIndexOrder(c', today);
      }
      NavigateStaysNotBefore(c', today, arrows[1..]);
    }
  }

  /** Pressing previous-month at the current month any number of times keeps
      the calendar there. */
  lemma {:induction false} PrevAtStartStays(today: Date, arrows: seq<Arrow>)
    requires forall i :: 0 <= i < |arrows| ==> arrows[i] == Prev
    ensures Navigate(Start(today), today, arrows) == Start(today)
    decreases |arrows|
  {
    if |arrows| > 0 {
      PrevAtStartStays(today, arrows[1..]);
    }
  }
}
