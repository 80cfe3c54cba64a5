/**
 * Calendar time as the engine sees it: instants are integer milliseconds of
 * local wall-clock time, and a calendar day is the integer number of days
 * since the local epoch (1970-01-01, a Thursday). Daylight-saving shifts are
 * not modelled, so a day is always 24 hours long.
 */
module CalendarTime {

  const MINUTE_MS: int := 60 * 1000
  const HOUR_MS: int := 60 * MINUTE_MS
  const DAY_MS: int := 24 * HOUR_MS

  /** The buffer kept between events when creating blocks or proposing slots (15 minutes). */
  const BUFFER_MS: int := 15 * 60 * 1000

  /** Length of the viewing window, in days. */
  const WEEK_DAYS: int := 7

  /** Calendar day of an instant (floor division; DAY_MS is positive). */
  function DayOf(t: int): int
  {
    t / DAY_MS
  }

  /** Local midnight at the start of a day. */
  function Midnight(day: int): int
  {
    day * DAY_MS
  }

  /** Day of the week as `Date.getDay` reports it: 0 = Sunday, 1 = Monday, ... */
  function Weekday(day: int): (w: int)
    ensures 0 <= w < 7
  {
    (day + 4) % 7
  }

  /** Moves an instant by whole days, keeping the time of day. */
  function AddDays(t: int, days: int): (r: int)
    ensures DayOf(r) == DayOf(t) + days
    ensures r - Midnight(DayOf(r)) == t - Midnight(DayOf(t))
  {
    t + days * DAY_MS
  }

  /**
   * The Monday on or before `day`: a Sunday goes back six days, every other
   * weekday goes back to the Monday of the same week.
   */
  function StartOfWeekDay(day: int): int
  {
    var w := Weekday(day);
    day - w + (if w == 0 then -6 else 1)
  }

  /** Midnight of the Monday that starts the week holding instant `t`. */
  function StartOfWeek(t: int): (r: int)
    ensures r <= t < r + WEEK_DAYS * DAY_MS
    ensures IsWeekStart(r)
  {
    var d := DayOf(t);
    StartOfWeekFacts(d);
    Midnight(StartOfWeekDay(d))
  }

  /** An instant that is midnight on a Monday. */
  predicate IsWeekStart(t: int)
  {
    t % DAY_MS == 0 && Weekday(DayOf(t)) == 1
  }

  lemma StartOfWeekFacts(day: int)
    ensures Weekday(StartOfWeekDay(day)) == 1
    ensures StartOfWeekDay(day) <= day < StartOfWeekDay(day) + WEEK_DAYS
  {
  }

  /** The week start of an instant depends only on its week: it is idempotent. */
  lemma StartOfWeekIdempotent(t: int)
    ensures StartOfWeek(StartOfWeek(t)) == StartOfWeek(t)
  {
    var s := StartOfWeek(t);
    assert DayOf(s) == StartOfWeekDay(DayOf(t));
  }

  /** Every instant of the week that starts at a week start maps back to it. */
  lemma StartOfWeekOfWeek(w: int, t: int)
    requires IsWeekStart(w)
    requires w <= t < w + WEEK_DAYS * DAY_MS
    ensures StartOfWeek(t) == w
  {
    var d := DayOf(w);
    assert w == d * DAY_MS;
    var k := DayOf(t) - d;
    assert 0 <= k < 7 by {
      assert d * DAY_MS <= t < (d + 7) * DAY_MS;
    }
    assert Weekday(d + k) == (1 + k) % 7;
  }

  /** Previous-week navigation: seven days back. */
  function PreviousWeek(viewStart: int): (r: int)
    ensures IsWeekStart(viewStart) ==> IsWeekStart(r)
    ensures NextWeek(r) == viewStart
  {
    AddDays(viewStart, -WEEK_DAYS)
  }

  /** Next-week navigation: seven days forward. */
  function NextWeek(viewStart: int): (r: int)
    ensures IsWeekStart(viewStart) ==> IsWeekStart(r)
    ensures r - viewStart == WEEK_DAYS * DAY_MS
  {
    AddDays(viewStart, WEEK_DAYS)
  }

  /** Navigation by weeks from a week start lands on the week start of the moved instant. */
  lemma NextWeekOfStart(t: int)
    ensures NextWeek(StartOfWeek(t)) == StartOfWeek(AddDays(t, WEEK_DAYS))
  {
    var w := StartOfWeek(t);
    StartOfWeekOfWeek(NextWeek(w), AddDays(t, WEEK_DAYS));
  }
}
