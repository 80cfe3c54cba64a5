/**
 * The slot finder of the conflict advisor: for each of the next fourteen
 * calendar days it scans the working hours 09:00-17:00 left to right,
 * proposing the start of every gap long enough for the event being moved
 * plus a 15-minute buffer on both sides, and it stops once enough slots are
 * found. The advisor keeps the more severe event of a pair and proposes
 * slots for the other.
 */
module Slots {

  import opened Optional
  import opened Seqs
  import opened Events
  import opened CalendarTime
  import opened Window
  import Severity

  /** Working hours of a day: 09:00 to 17:00 local time. */
  function Opening(day: int): int { Midnight(day) + 9 * HOUR_MS }
  function Closing(day: int): int { Midnight(day) + 17 * HOUR_MS }

  /** Days scanned, counting the current one. */
  const SEARCH_DAYS: nat := 14

  /** The number of slots the advisor asks for. */
  const ADVICE_COUNT: int := 3

  /** A gap must hold the event and a buffer before and after it. */
  function Need(duration: int): int
  {
    duration + 2 * BUFFER_MS
  }

  /** The events other than the one being moved. */
  function Others(events: seq<Shown>, id: string): (r: seq<Shown>)
    ensures forall e :: e in r <==> e in events && e.id != id
  {
    Filter((e: Shown) => e.id != id, events)
  }

  /** The events whose start falls on calendar day `day`. */
  function OnDay(events: seq<Shown>, day: int): (r: seq<Shown>)
    ensures forall e :: e in r <==> e in events && DayOf(e.start) == day
  {
    Filter((e: Shown) => DayOf(e.start) == day, events)
  }

  /**
   * Where the gap from the cursor to the next event ends. The code measures
   * it to the event's start (`AsWritten`); keeping slots inside working hours
   * calls for cutting it at closing time (`CutAtClosing`).
   */
  datatype GapTest = AsWritten | CutAtClosing

  function GapEnd(e: Shown, close: int, test: GapTest): int
  {
    match test
    case AsWritten => e.start
    case CutAtClosing => Min(e.start, close)
  }

  /**
   * The scan of one day from cursor `last`: before each event the gap from
   * the cursor is measured, and the cursor then moves to the latest end seen.
   * The gap to closing is measured last. A gap that fits yields the cursor
   * plus the buffer.
   */
  function DayScan(es: seq<Shown>, last: int, close: int, need: int, test: GapTest): seq<int>
    decreases |es|
  {
    if es == [] then
      (if close - last >= need then [last + BUFFER_MS] else [])
    else
      (if GapEnd(es[0], close, test) - last >= need then [last + BUFFER_MS] else [])
        + DayScan(es[1..], Max(last, es[0].end), close, need, test)
  }

  /** The slots of one day, for events sorted by start. */
  function DaySlots(sorted: seq<Shown>, day: int, need: int, test: GapTest): seq<int>
  {
    DayScan(OnDay(sorted, day), Opening(day), Closing(day), need, test)
  }

  /** Every slot of the first `days` days from `firstDay`, day by day. */
  function Candidates(sorted: seq<Shown>, firstDay: int, need: int, days: nat, test: GapTest): seq<int>
  {
    if days == 0 then []
    else Candidates(sorted, firstDay, need, days - 1, test) + DaySlots(sorted, firstDay + days - 1, need, test)
  }

  /** The first `n` elements of `s`, or all of them when there are fewer. */
  function Take(s: seq<int>, n: int): (r: seq<int>)
    ensures r <= s
    ensures |r| == if n < 0 then 0 else if |s| <= n then |s| else n
  {
    if |s| <= n then s else if n < 0 then [] else s[..n]
  }

  /**
   * The slots offered for `toMove`: the first candidates over fourteen days
   * from the day of `now`, skipping the event being moved. The count test
   * comes after a push, so at least one slot is returned when one exists
   * even for a count below one. With `AsWritten` this is `findNextSlots`.
   */
  function NextSlots(toMove: Shown, events: seq<Shown>, now: int, count: int, test: GapTest): seq<int>
  {
    var sorted := SortByStart(Others(events, toMove.id));
    Take(Candidates(sorted, DayOf(now), Need(toMove.end - toMove.start), SEARCH_DAYS, test), Max(count, 1))
  }

  lemma {:induction false} CandidatesPrefix(sorted: seq<Shown>, firstDay: int, need: int, k: nat, m: nat, test: GapTest)
    requires k <= m
    ensures Candidates(sorted, firstDay, need, k, test) <= Candidates(sorted, firstDay, need, m, test)
    decreases m
  {
    if k < m {
      CandidatesPrefix(sorted, firstDay, need, k, m - 1, test);
    }
  }

  /** One step of the scan: the test before event `j`, then the rest of the day from the moved cursor. */
  lemma DayScanStep(es: seq<Shown>, j: int, last: int, close: int, need: int, test: GapTest)
    requires 0 <= j < |es|
    ensures DayScan(es[j..], last, close, need, test)
      == (if GapEnd(es[j], close, test) - last >= need then [last + BUFFER_MS] else [])
         + DayScan(es[j + 1..], Max(last, es[j].end), close, need, test)
  {
    assert es[j..][1..] == es[j + 1..];
  }

  /** One more day of candidates is the day's scan appended. */
  lemma CandidatesStep(sorted: seq<Shown>, firstDay: int, need: int, i: nat, test: GapTest)
    ensures Candidates(sorted, firstDay, need, i + 1, test)
      == Candidates(sorted, firstDay, need, i, test) + DayScan(OnDay(sorted, firstDay + i), Opening(firstDay + i), Closing(firstDay + i), need, test)
  {
  }

  /** A prefix of `all` of length `n` is what `Take` returns. */
  lemma TakePrefix(slots: seq<int>, all: seq<int>, n: int)
    requires slots <= all && |slots| == n
    ensures Take(all, n) == slots
  {
  }

  /**
   * The scan of one day, appending to `found`: the cursor starts at opening
   * time, the gap before each event is measured to its start, and the scan
   * stops as soon as the slots reach the count.
   */
  method ScanDay(todays: seq<Shown>, open: int, close: int, need: int, count: int, found: seq<int>)
    returns (slots: seq<int>, full: bool)
    requires |found| < Max(count, 1)
    ensures full ==> |slots| == Max(count, 1) && slots <= found + DayScan(todays, open, close, need, AsWritten)
    ensures !full ==> slots == found + DayScan(todays, open, close, need, AsWritten) && |slots| < Max(count, 1)
  {
    slots, full := found, false;
    var last := open;
    assert todays[0..] == todays;
    var j := 0;
    while j < |todays|
      invariant 0 <= j <= |todays|
      invariant slots + DayScan(todays[j..], last, close, need, AsWritten) == found + DayScan(todays, open, close, need, AsWritten)
      invariant |slots| < Max(count, 1)
    {
      var event := todays[j];
      DayScanStep(todays, j, last, close, need, AsWritten);
      ghost var before := slots;
      ghost var head := if event.start - last >= need then [last + BUFFER_MS] else [];
      ghost var rest := DayScan(todays[j + 1..], Max(last, event.end), close, need, AsWritten);
      assert before + (head + rest) == (before + head) + rest;
      if event.start - last >= need {
        slots := slots + [last + BUFFER_MS];
        if |slots| >= count {
          full := true;
          return;
        }
      }
      last := Max(last, event.end);
      j := j + 1;
    }
    assert todays[j..] == [];
    if close - last >= need {
      slots := slots + [last + BUFFER_MS];
      if |slots| >= count {
        full := true;
        return;
      }
    }
  }

  /** The loop over the fourteen days, with its early return once `count` slots are found. */
  method ScanDays(sorted: seq<Shown>, firstDay: int, need: int, count: int) returns (slots: seq<int>)
    ensures slots == Take(Candidates(sorted, firstDay, need, SEARCH_DAYS, AsWritten), Max(count, 1))
  {
    slots := [];
    ghost var all := Candidates(sorted, firstDay, need, SEARCH_DAYS, AsWritten);
    for i := 0 to SEARCH_DAYS
      invariant slots == Candidates(sorted, firstDay, need, i, AsWritten)
      invariant |slots| < Max(count, 1)
    {
      var day := firstDay + i;
      var todays, open, close := OnDay(sorted, day), Opening(day), Closing(day);
      CandidatesStep(sorted, firstDay, need, i, AsWritten);
      ghost var found := slots;
      ghost var scan := DayScan(todays, open, close, need, AsWritten);
      assert Candidates(sorted, firstDay, need, i + 1, AsWritten) == found + scan;
      var full;
      slots, full := ScanDay(todays, open, close, need, count, slots);
      if full {
        CandidatesPrefix(sorted, firstDay, need, i + 1, SEARCH_DAYS, AsWritten);
        TakePrefix(slots, all, Max(count, 1));
        return;
      }
      assert slots == found + scan;
    }
  }

  /** `findNextSlots`: the other events sorted by start, then the day-by-day scan from the day of `now`. */
  method FindNextSlots(toMove: Shown, events: seq<Shown>, now: int, count: int) returns (slots: seq<int>)
    ensures slots == NextSlots(toMove, events, now, count, AsWritten)
  {
    var duration := toMove.end - toMove.start;
    var sorted := SortByStart(Others(events, toMove.id));
    slots := ScanDays(sorted, DayOf(now), Need(duration), count);
  }

  // ---------------------------------------------------------------- what a slot guarantees

  /** Slot `s` and event `e` keep the buffer: `e` ends a buffer before `s`, or starts a buffer after the moved event would end. */
  predicate Separated(e: Shown, s: int, need: int)
  {
    e.end + BUFFER_MS <= s || s - BUFFER_MS + need <= e.start
  }

  /**
   * Slot `s` on day `day`: at least a buffer after opening, clear of every
   * other event starting that day, and, when gaps are cut at closing, with
   * room for the moved event and its buffer before closing.
   */
  ghost predicate SlotOk(s: int, day: int, need: int, events: seq<Shown>, id: string, test: GapTest)
  {
    Opening(day) + BUFFER_MS <= s
    && (test == CutAtClosing ==> s - BUFFER_MS + need <= Closing(day))
    && forall e :: e in events && e.id != id && DayOf(e.start) == day ==> Separated(e, s, need)
  }

  lemma {:induction false} FilterSorted(p: Shown -> bool, s: seq<Shown>)
    requires SortedByStart(s)
    ensures SortedByStart(Filter(p, s))
  {
    if s != [] {
      FilterSorted(p, s[1..]);
      var rest := Filter(p, s[1..]);
      assert forall k :: 0 <= k < |rest| ==> s[0].start <= rest[k].start by {
        forall k | 0 <= k < |rest| ensures s[0].start <= rest[k].start {
          assert rest[k] in s[1..];
        }
      }
      SortedCons(s[0], rest);
    }
  }

  /**
   * Every slot of a scan is at least a buffer past the cursor and clears
   * every later event; when gaps are cut at closing it also fits before
   * closing.
   */
  lemma {:induction false} DayScanSeparated(es: seq<Shown>, last: int, close: int, need: int, test: GapTest)
    requires SortedByStart(es)
    ensures forall s :: s in DayScan(es, last, close, need, test) ==>
      last + BUFFER_MS <= s
      && (test == CutAtClosing ==> s - BUFFER_MS + need <= close)
      && forall e :: e in es ==> Separated(e, s, need)
    decreases |es|
  {
    if es != [] {
      var last' := Max(last, es[0].end);
      DayScanSeparated(es[1..], last', close, need, test);
      forall s | s in DayScan(es, last, close, need, test)
        ensures last + BUFFER_MS <= s
          && (test == CutAtClosing ==> s - BUFFER_MS + need <= close)
          && forall e :: e in es ==> Separated(e, s, need)
      {
        if s !in DayScan(es[1..], last', close, need, test) {
          assert s == last + BUFFER_MS;
          assert s - BUFFER_MS + need <= GapEnd(es[0], close, test) <= es[0].start;
          forall e | e in es ensures Separated(e, s, need) {
            var k :| 0 <= k < |es| && es[k] == e;
            assert es[0].start <= es[k].start;
          }
        } else {
          forall e | e in es ensures Separated(e, s, need) {
            if e != es[0] {
              assert e in es[1..];
            }
          }
        }
      }
    }
  }

  /** Cutting gaps at closing keeps exactly the slots of the code's scan that leave room before closing. */
  lemma {:induction false} CutKeepsInHours(es: seq<Shown>, last: int, close: int, need: int)
    ensures DayScan(es, last, close, need, CutAtClosing)
      == Filter((s: int) => s - BUFFER_MS + need <= close, DayScan(es, last, close, need, AsWritten))
    decreases |es|
  {
    var fits := (s: int) => s - BUFFER_MS + need <= close;
    var slot := [last + BUFFER_MS];
    assert Filter(fits, slot) == if close - last >= need then slot else [] by {
      assert slot[1..] == [];
    }
    if es != [] {
      var last' := Max(last, es[0].end);
      CutKeepsInHours(es[1..], last', close, need);
      var head := if es[0].start - last >= need then slot else [];
      FilterConcat(fits, head, DayScan(es[1..], last', close, need, AsWritten));
    }
  }

  /** Every slot of one day is good for that day. */
  lemma DaySlotsOk(events: seq<Shown>, id: string, day: int, need: int, test: GapTest)
    ensures forall s :: s in DaySlots(SortByStart(Others(events, id)), day, need, test) ==> SlotOk(s, day, need, events, id, test)
  {
    var sorted := SortByStart(Others(events, id));
    var todays := OnDay(sorted, day);
    FilterSorted((e: Shown) => DayOf(e.start) == day, sorted);
    DayScanSeparated(todays, Opening(day), Closing(day), need, test);
    forall s | s in DaySlots(sorted, day, need, test) ensures SlotOk(s, day, need, events, id, test) {
      forall e | e in events && e.id != id && DayOf(e.start) == day ensures Separated(e, s, need) {
        assert e in multiset(Others(events, id));
        assert e in multiset(sorted);
        assert e in todays;
      }
    }
  }

  /** Slot `s` is good for one of the `days` days from `firstDay`. */
  ghost predicate OkWithin(s: int, firstDay: int, days: int, need: int, events: seq<Shown>, id: string, test: GapTest)
  {
    exists d :: firstDay <= d < firstDay + days && SlotOk(s, d, need, events, id, test)
  }

  /** Every candidate is a slot of one of the scanned days. */
  lemma {:induction false} CandidatesFromDays(sorted: seq<Shown>, firstDay: int, need: int, days: nat, test: GapTest)
    ensures forall s :: s in Candidates(sorted, firstDay, need, days, test) ==>
      exists d :: firstDay <= d < firstDay + days && s in DaySlots(sorted, d, need, test)
  {
    if days > 0 {
      CandidatesFromDays(sorted, firstDay, need, days - 1, test);
    }
  }

  /**
   * At most max(count, 1) slots are offered, each on one of the fourteen
   * days from `now`, a buffer after opening and clear of the other events of
   * its day; with gaps cut at closing each also ends a buffer before closing.
   */
  lemma NextSlotsOk(toMove: Shown, events: seq<Shown>, now: int, count: int, test: GapTest)
    ensures |NextSlots(toMove, events, now, count, test)| <= Max(count, 1)
    ensures forall s :: s in NextSlots(toMove, events, now, count, test) ==>
      OkWithin(s, DayOf(now), SEARCH_DAYS, Need(toMove.end - toMove.start), events, toMove.id, test)
  {
    var need := Need(toMove.end - toMove.start);
    var sorted := SortByStart(Others(events, toMove.id));
    CandidatesFromDays(sorted, DayOf(now), need, SEARCH_DAYS, test);
    forall s | s in NextSlots(toMove, events, now, count, test)
      ensures OkWithin(s, DayOf(now), SEARCH_DAYS, need, events, toMove.id, test)
    {
      var all := Candidates(sorted, DayOf(now), need, SEARCH_DAYS, test);
      var i :| 0 <= i < |Take(all, Max(count, 1))| && Take(all, Max(count, 1))[i] == s;
      assert all[i] == s;
      assert s in all;
      var d :| DayOf(now) <= d < DayOf(now) + SEARCH_DAYS && s in DaySlots(sorted, d, need, test);
      DaySlotsOk(events, toMove.id, d, need, test);
      assert SlotOk(s, d, need, events, toMove.id, test);
    }
  }

  /** Only the events other than the moved one matter to the slots offered. */
  lemma NextSlotsSeesOthersOnly(toMove: Shown, events: seq<Shown>, now: int, count: int, test: GapTest)
    ensures NextSlots(toMove, events, now, count, test) == NextSlots(toMove, Others(events, toMove.id), now, count, test)
  {
    FilterIdempotent((x: Shown) => x.id != toMove.id, events);
  }

  lemma OthersSkipsMoved(before: seq<Shown>, e: Shown, after: seq<Shown>, id: string)
    requires e.id == id
    ensures Others(before + [e] + after, id) == Others(before + after, id)
  {
    var keep := (x: Shown) => x.id != id;
    var front := before + [e];
    assert Filter(keep, [e]) == [] by {
      assert [e][1..] == [];
    }
    calc {
      Filter(keep, front + after);
      { FilterConcat(keep, front, after); }
      Filter(keep, front) + Filter(keep, after);
      { FilterConcat(keep, before, [e]); assert Filter(keep, front) == Filter(keep, before); }
      Filter(keep, before) + Filter(keep, after);
      { FilterConcat(keep, before, after); }
      Filter(keep, before + after);
    }
  }

  /** Inserting an event with the moved event's id anywhere changes no slot. */
  lemma NextSlotsIgnoresMoved(toMove: Shown, before: seq<Shown>, e: Shown, after: seq<Shown>, now: int, count: int, test: GapTest)
    requires e.id == toMove.id
    ensures NextSlots(toMove, before + [e] + after, now, count, test) == NextSlots(toMove, before + after, now, count, test)
  {
    OthersSkipsMoved(before, e, after, toMove.id);
  }

  // ---------------------------------------------------------------- behaviour on concrete days

  const AFTERNOON: Shown := Shown("afternoon", None, 16 * HOUR_MS, 17 * HOUR_MS, "Google", false, Severity.Medium, false)
  const EVENING: Shown := Shown("evening", None, 19 * HOUR_MS, 20 * HOUR_MS, "Google", false, Severity.Medium, false)
  const MOVED: Shown := Shown("moved", None, 0, HOUR_MS, "Outlook", false, Severity.Low, false)

  /**
   * As written, the gap before an event that starts after closing is
   * measured to that event: with 16:00-17:00 and 19:00-20:00 on one day and
   * a one-hour event to move, 17:15 is offered although the event would
   * then end at 18:15. Cutting the gap at closing leaves only 09:15.
   */
  lemma SlotPastClosingAsWritten()
    ensures DaySlots([AFTERNOON, EVENING], 0, Need(HOUR_MS), AsWritten) == [9 * HOUR_MS + BUFFER_MS, 17 * HOUR_MS + BUFFER_MS]
    ensures 17 * HOUR_MS + BUFFER_MS + HOUR_MS > Closing(0)
    ensures DaySlots([AFTERNOON, EVENING], 0, Need(HOUR_MS), CutAtClosing) == [9 * HOUR_MS + BUFFER_MS]
  {
    var es := [AFTERNOON, EVENING];
    assert OnDay(es, 0) == es by {
      assert DayOf(AFTERNOON.start) == 0 && DayOf(EVENING.start) == 0;
      assert es[1..] == [EVENING];
      assert es[1..][1..] == [];
    }
    var need := Need(HOUR_MS);
    assert Opening(0) == 9 * HOUR_MS && Closing(0) == 17 * HOUR_MS;
    assert es[1..] == [EVENING];
    assert es[1..][1..] == [];
    assert DayScan([], 20 * HOUR_MS, 17 * HOUR_MS, need, AsWritten) == [];
    assert DayScan([EVENING], 17 * HOUR_MS, 17 * HOUR_MS, need, AsWritten) == [17 * HOUR_MS + BUFFER_MS];
    assert DayScan(es, 9 * HOUR_MS, 17 * HOUR_MS, need, AsWritten) == [9 * HOUR_MS + BUFFER_MS, 17 * HOUR_MS + BUFFER_MS];
    assert DayScan([], 20 * HOUR_MS, 17 * HOUR_MS, need, CutAtClosing) == [];
    assert DayScan([EVENING], 17 * HOUR_MS, 17 * HOUR_MS, need, CutAtClosing) == [];
    assert DayScan(es, 9 * HOUR_MS, 17 * HOUR_MS, need, CutAtClosing) == [9 * HOUR_MS + BUFFER_MS];
  }

  /** The two evening-day events, as the scan sees them when `MOVED` is moved. */
  lemma MovedDaySorted()
    ensures SortByStart(Others([AFTERNOON, EVENING], MOVED.id)) == [AFTERNOON, EVENING]
  {
    var es := [AFTERNOON, EVENING];
    assert es[1..] == [EVENING];
    assert es[1..][1..] == [];
    assert Others(es, MOVED.id) == es;
    assert SortByStart([EVENING]) == [EVENING];
  }

  /**
   * The same day through `findNextSlots`: the code offers 17:15 on the first
   * day for a one-hour event, and the scan cut at closing never does.
   */
  lemma NextSlotsPastClosingAsWritten()
    ensures 17 * HOUR_MS + BUFFER_MS in NextSlots(MOVED, [AFTERNOON, EVENING], 0, ADVICE_COUNT, AsWritten)
    ensures 17 * HOUR_MS + BUFFER_MS !in NextSlots(MOVED, [AFTERNOON, EVENING], 0, ADVICE_COUNT, CutAtClosing)
  {
    LateSlotOffered();
    LateSlotNotOfferedWhenCut();
  }

  lemma LateSlotOffered()
    ensures 17 * HOUR_MS + BUFFER_MS in NextSlots(MOVED, [AFTERNOON, EVENING], 0, ADVICE_COUNT, AsWritten)
  {
    var es := [AFTERNOON, EVENING];
    var need := Need(HOUR_MS);
    var late := 17 * HOUR_MS + BUFFER_MS;
    MovedDaySorted();
    SlotPastClosingAsWritten();
    assert Candidates(es, 0, need, 1, AsWritten) == [9 * HOUR_MS + BUFFER_MS, late];
    CandidatesPrefix(es, 0, need, 1, SEARCH_DAYS, AsWritten);
    var all := Candidates(es, 0, need, SEARCH_DAYS, AsWritten);
    assert all[1] == late;
    assert NextSlots(MOVED, es, 0, ADVICE_COUNT, AsWritten) == Take(all, 3);
    assert Take(all, 3)[1] == late;
  }

  lemma LateSlotNotOfferedWhenCut()
    ensures 17 * HOUR_MS + BUFFER_MS !in NextSlots(MOVED, [AFTERNOON, EVENING], 0, ADVICE_COUNT, CutAtClosing)
  {
    var es := [AFTERNOON, EVENING];
    var late := 17 * HOUR_MS + BUFFER_MS;
    NextSlotsOk(MOVED, es, 0, ADVICE_COUNT, CutAtClosing);
    forall d | 0 <= d < SEARCH_DAYS
      ensures !SlotOk(late, d, Need(HOUR_MS), es, MOVED.id, CutAtClosing)
    {
      LateOutsideHours(d);
    }
  }

  /** 17:15 is no day's slot for a one-hour event once the gap is cut at closing. */
  lemma LateOutsideHours(d: int)
    ensures !SlotOk(17 * HOUR_MS + BUFFER_MS, d, Need(HOUR_MS), [AFTERNOON, EVENING], MOVED.id, CutAtClosing)
  {
    if d <= 0 {
      assert 17 * HOUR_MS + Need(HOUR_MS) > Closing(d);
    }
  }

  const WORKDAY: Shown := Shown("workday", None, 9 * HOUR_MS, 17 * HOUR_MS, "Outlook", false, Severity.Medium, false)

  /** A day booked from 09:00 to 17:00 offers no slot for a one-hour event, whichever gap test is used. */
  lemma FullyBookedDay(test: GapTest)
    ensures DaySlots([WORKDAY], 0, Need(HOUR_MS), test) == []
  {
    assert OnDay([WORKDAY], 0) == [WORKDAY] by {
      assert DayOf(WORKDAY.start) == 0;
      assert [WORKDAY][1..] == [];
    }
    assert Opening(0) == 9 * HOUR_MS && Closing(0) == 17 * HOUR_MS;
    assert [WORKDAY][1..] == [];
    assert DayScan([], 17 * HOUR_MS, 17 * HOUR_MS, Need(HOUR_MS), test) == [];
  }

  /** On the first day the scan starts at 09:00 whatever the time: late in the afternoon it still offers 09:15 that day. */
  lemma SlotBeforeNow(toMove: Shown)
    requires toMove.start == 0 && toMove.end == HOUR_MS
    ensures var slots := NextSlots(toMove, [], 16 * HOUR_MS, ADVICE_COUNT, AsWritten);
      |slots| >= 1 && slots[0] == 9 * HOUR_MS + BUFFER_MS && slots[0] < 16 * HOUR_MS
  {
    var need := Need(HOUR_MS);
    assert Others([], toMove.id) == [];
    assert SortByStart([]) == [];
    assert OnDay([], 0) == [];
    CandidatesPrefix([], 0, need, 1, SEARCH_DAYS, AsWritten);
    assert Candidates([], 0, need, 1, AsWritten) == [9 * HOUR_MS + BUFFER_MS];
  }

  // ---------------------------------------------------------------- the advisor

  /**
   * `handleGetAiSuggestion`: keep the event whose severity ranks at least as
   * high as the other's (the first of the pair on a tie) and look for new
   * slots for the other one among the processed events.
   */
  method Advise(pair: Pair, processed: seq<Shown>, now: int) returns (keep: Shown, move: Shown, slots: seq<int>)
    ensures Severity.Rank(pair.a.severity) >= Severity.Rank(pair.b.severity) ==> keep == pair.a && move == pair.b
    ensures Severity.Rank(pair.a.severity) < Severity.Rank(pair.b.severity) ==> keep == pair.b && move == pair.a
    ensures Severity.Rank(keep.severity) >= Severity.Rank(move.severity)
    ensures slots == NextSlots(move, processed, now, ADVICE_COUNT, AsWritten)
    ensures |slots| <= ADVICE_COUNT
    ensures forall s :: s in slots ==> OkWithin(s, DayOf(now), SEARCH_DAYS, Need(move.end - move.start), processed, move.id, AsWritten)
  {
    if Severity.Rank(pair.a.severity) >= Severity.Rank(pair.b.severity) {
      keep := pair.a;
    } else {
      keep := pair.b;
    }
    move := if keep == pair.a then pair.b else pair.a;
    slots := FindNextSlots(move, processed, now, ADVICE_COUNT);
    NextSlotsOk(move, processed, now, ADVICE_COUNT, AsWritten);
  }
}
