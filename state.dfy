/**
 * The application state the handlers update: all fetched events, the queue
 * of unresolved conflict pairs, the ignored pair identities and the start
 * of the week on view. Server calls are replaced by their outcome, given as
 * a parameter; a failed call restores the events saved before the
 * optimistic update.
 */
module State {

  import opened Seqs
  import opened Events
  import opened CalendarTime
  import opened Window
  import opened Conflicts
  import opened Optional
  import Severity
  import Slots
  import Boundary

  /** How an optimistic mutation ended. */
  datatype Outcome = Refused | Done | RolledBack

  /** `prev.filter(e => e.id !== id)`: the events without the given id, in order. */
  function WithoutId(events: seq<CalEvent>, id: string): (r: seq<CalEvent>)
    ensures forall e :: e in r <==> e in events && e.id != id
    ensures Subseq(r, events)
    ensures forall e :: multiset(r)[e] == if e.id == id then 0 else multiset(events)[e]
  {
    var keep := (e: CalEvent) => e.id != id;
    FilterIsSubseq(keep, events);
    forall e ensures multiset(Filter(keep, events))[e] == if e.id == id then 0 else multiset(events)[e] {
      FilterCount(keep, events, e);
    }
    Filter(keep, events)
  }

  /** Deleting an id twice is deleting it once. */
  lemma WithoutIdIdempotent(events: seq<CalEvent>, id: string)
    ensures WithoutId(WithoutId(events, id), id) == WithoutId(events, id)
  {
    FilterIdempotent((e: CalEvent) => e.id != id, events);
  }

  /** Deleting an id that no event has changes nothing. */
  lemma WithoutAbsentId(events: seq<CalEvent>, id: string)
    requires forall k :: 0 <= k < |events| ==> events[k].id != id
    ensures WithoutId(events, id) == events
  {
    FilterAll((e: CalEvent) => e.id != id, events);
  }

  /** The moved copy of `e`: new start, and an end that keeps the moved event's duration. */
  function MovedTo(e: CalEvent, newStart: int, duration: int): CalEvent
  {
    e.(start := At(newStart), end := At(newStart + duration))
  }

  /**
   * `prev.map(e => e.id === id ? {...e, start, end} : e)`: every event with
   * the id is moved, every other event is left as it is.
   */
  function Rescheduled(events: seq<CalEvent>, id: string, newStart: int, duration: int): (r: seq<CalEvent>)
    ensures |r| == |events|
    ensures forall k :: 0 <= k < |events| && events[k].id != id ==> r[k] == events[k]
    ensures forall k :: 0 <= k < |events| && events[k].id == id ==>
      r[k].start == At(newStart) && r[k].end.At? && r[k].end.ms - r[k].start.ms == duration
      && r[k].(start := events[k].start, end := events[k].end) == events[k]
  {
    seq(|events|, k requires 0 <= k < |events| =>
      if events[k].id == id then MovedTo(events[k], newStart, duration) else events[k])
  }

  /** `prev.slice(1)`: the queue without its head; an empty queue stays empty. */
  function Rest(queue: seq<Pair>): (r: seq<Pair>)
    ensures queue == [] ==> r == []
    ensures queue != [] ==> [queue[0]] + r == queue
  {
    if queue == [] then [] else queue[1..]
  }

  /** The events the server reports as created, each marked as a boundary block. */
  function AsBoundaries(created: seq<CalEvent>): (r: seq<CalEvent>)
    ensures |r| == |created|
    ensures forall k :: 0 <= k < |created| ==> r[k].isBoundary && r[k].(isBoundary := created[k].isBoundary) == created[k]
  {
    seq(|created|, k requires 0 <= k < |created| => created[k].(isBoundary := true))
  }

  /** The state of the availability view. */
  class Planner {
    var allEvents: seq<CalEvent>
    var unresolved: seq<Pair>
    var ignored: seq<string>
    var viewStart: int

    /** The initial state: nothing loaded, nothing queued or ignored, the week of `now` on view. */
    constructor (now: int)
      ensures allEvents == [] && unresolved == [] && ignored == []
      ensures viewStart == StartOfWeek(now) && IsWeekStart(viewStart)
    {
      allEvents := [];
      unresolved := [];
      ignored := [];
      viewStart := StartOfWeek(now);
    }

    /** The queue holds no identity twice. */
    predicate QueueDistinct()
      reads this
    {
      DistinctIds(unresolved)
    }

    /** Loading a fetched list keeps exactly the events whose both dates are valid, in order. */
    method LoadEvents(raw: seq<CalEvent>)
      modifies this
      ensures allEvents == ParseEvents(raw)
      ensures forall e :: e in allEvents <==> e in raw && HasValidDates(e)
      ensures unresolved == old(unresolved) && ignored == old(ignored) && viewStart == old(viewStart)
    {
      allEvents := ParseEvents(raw);
    }

    /** Created boundary blocks are appended, each marked as a boundary. */
    method AddCreatedBoundaries(created: seq<CalEvent>)
      modifies this
      ensures allEvents == old(allEvents) + AsBoundaries(created)
      ensures allEvents[..|old(allEvents)|] == old(allEvents)
      ensures unresolved == old(unresolved) && ignored == old(ignored) && viewStart == old(viewStart)
    {
      allEvents := allEvents + AsBoundaries(created);
    }

    /** The processed events of the week on view. */
    method Processed() returns (r: seq<Shown>)
      ensures r == Window.Processed(allEvents, viewStart, ignored)
    {
      r := ProcessEvents(allEvents, viewStart, ignored);
    }

    /**
     * "Get AI Suggestions" in the conflict dialog: the advisor works on the
     * head of the queue and searches only the processed events of the week
     * on view, although its scan covers fourteen days.
     */
    method SuggestSlots(now: int) returns (keep: Shown, move: Shown, slots: seq<int>)
      requires unresolved != []
      ensures var pair := unresolved[0];
        (Severity.Rank(pair.a.severity) >= Severity.Rank(pair.b.severity) ==> keep == pair.a && move == pair.b)
        && (Severity.Rank(pair.a.severity) < Severity.Rank(pair.b.severity) ==> keep == pair.b && move == pair.a)
      ensures slots == Slots.NextSlots(move, Window.Processed(allEvents, viewStart, ignored), now, Slots.ADVICE_COUNT, Slots.AsWritten)
      ensures |slots| <= Slots.ADVICE_COUNT
    {
      var processed := Processed();
      keep, move, slots := Slots.Advise(unresolved[0], processed, now);
    }

    /**
     * `handleSubmit` then `handleCreateBoundary`: the form is checked against
     * the processed events of the week on view; for an accepted block the
     * server's reply, when it lists the created events, is appended as
     * boundaries.
     */
    method SubmitBoundary(form: Boundary.Form, reply: Option<seq<CalEvent>>) returns (verdict: Boundary.Verdict)
      modifies this
      ensures verdict == Boundary.Validate(form, Window.Processed(old(allEvents), viewStart, ignored))
      ensures verdict.Accepted? && reply.Some? ==> allEvents == old(allEvents) + AsBoundaries(reply.value)
      ensures !(verdict.Accepted? && reply.Some?) ==> allEvents == old(allEvents)
      ensures unresolved == old(unresolved) && ignored == old(ignored) && viewStart == old(viewStart)
    {
      var processed := Processed();
      verdict := Boundary.Validate(form, processed);
      if verdict.Accepted? && reply.Some? {
        AddCreatedBoundaries(reply.value);
      }
    }

    /**
     * `handleDeleteEvent`: refuse an event without id or calendar; otherwise
     * drop every event with its id at once, and put the saved list back when
     * the server call fails.
     */
    method DeleteEvent(target: Shown, succeeded: bool) returns (outcome: Outcome)
      modifies this
      ensures target.id == "" || target.calendar == "" ==> outcome == Refused && allEvents == old(allEvents)
      ensures target.id != "" && target.calendar != "" && succeeded ==>
        outcome == Done && allEvents == WithoutId(old(allEvents), target.id)
      ensures target.id != "" && target.calendar != "" && !succeeded ==>
        outcome == RolledBack && allEvents == old(allEvents)
      ensures unresolved == old(unresolved) && ignored == old(ignored) && viewStart == old(viewStart)
    {
      if target.id == "" || target.calendar == "" {
        return Refused;
      }
      var originalEvents := allEvents;
      allEvents := WithoutId(allEvents, target.id);
      if succeeded {
        outcome := Done;
      } else {
        allEvents := originalEvents;
        outcome := RolledBack;
      }
    }

    /**
     * `handleUpdateEventTime`: move every event with the id to the new start,
     * keeping the duration of the event being moved, and put the saved list
     * back when the server call fails.
     */
    method UpdateEventTime(toMove: Shown, newStart: int, succeeded: bool) returns (outcome: Outcome)
      modifies this
      ensures succeeded ==>
        outcome == Done && allEvents == Rescheduled(old(allEvents), toMove.id, newStart, toMove.end - toMove.start)
      ensures !succeeded ==> outcome == RolledBack && allEvents == old(allEvents)
      ensures unresolved == old(unresolved) && ignored == old(ignored) && viewStart == old(viewStart)
    {
      var duration := toMove.end - toMove.start;
      var originalEvents := allEvents;
      allEvents := Rescheduled(allEvents, toMove.id, newStart, duration);
      if succeeded {
        outcome := Done;
      } else {
        allEvents := originalEvents;
        outcome := RolledBack;
      }
    }

    /** `handleResolveConflict`: delete the event not kept and drop the head of the queue. */
    method ResolveConflict(toRemove: Shown, succeeded: bool) returns (outcome: Outcome)
      modifies this
      ensures unresolved == Rest(old(unresolved))
      ensures toRemove.id == "" || toRemove.calendar == "" ==> outcome == Refused && allEvents == old(allEvents)
      ensures toRemove.id != "" && toRemove.calendar != "" && succeeded ==>
        outcome == Done && allEvents == WithoutId(old(allEvents), toRemove.id)
      ensures toRemove.id != "" && toRemove.calendar != "" && !succeeded ==>
        outcome == RolledBack && allEvents == old(allEvents)
      ensures outcome == Done ==> allEvents == WithoutId(old(allEvents), toRemove.id)
      ensures outcome != Done ==> allEvents == old(allEvents)
      ensures ignored == old(ignored) && viewStart == old(viewStart)
      ensures old(QueueDistinct()) ==> QueueDistinct()
    {
      outcome := DeleteEvent(toRemove, succeeded);
      if QueueDistinct() {
        RestDistinct(unresolved);
      }
      unresolved := Rest(unresolved);
    }

    /** `handleReschedule`: move the event to the chosen slot and drop the head of the queue. */
    method Reschedule(toMove: Shown, newStart: int, succeeded: bool) returns (outcome: Outcome)
      modifies this
      ensures unresolved == Rest(old(unresolved))
      ensures succeeded ==>
        outcome == Done && allEvents == Rescheduled(old(allEvents), toMove.id, newStart, toMove.end - toMove.start)
      ensures !succeeded ==> outcome == RolledBack && allEvents == old(allEvents)
      ensures outcome == Done ==>
        allEvents == Rescheduled(old(allEvents), toMove.id, newStart, toMove.end - toMove.start)
      ensures outcome != Done ==> allEvents == old(allEvents)
      ensures ignored == old(ignored) && viewStart == old(viewStart)
      ensures old(QueueDistinct()) ==> QueueDistinct()
    {
      outcome := UpdateEventTime(toMove, newStart, succeeded);
      if QueueDistinct() {
        RestDistinct(unresolved);
      }
      unresolved := Rest(unresolved);
    }

    /** `handleIgnoreConflict`: the identity is appended; the queue itself is left alone. */
    method IgnoreConflict(conflictId: string)
      modifies this
      ensures ignored == old(ignored) + [conflictId]
      ensures old(ignored) <= ignored && conflictId in ignored
      ensures allEvents == old(allEvents) && unresolved == old(unresolved) && viewStart == old(viewStart)
    {
      ignored := ignored + [conflictId];
    }

    /**
     * The conflict-detection effect: collect the new pairs of the processed
     * events and append those whose identity is not yet queued.
     */
    method RefreshConflicts()
      modifies this
      ensures var processed := Window.Processed(allEvents, viewStart, ignored);
        unresolved == Enqueue(old(unresolved), Batch(processed, ignored, QueueIds(old(unresolved))))
      ensures old(unresolved) <= unresolved
      ensures forall k :: |old(unresolved)| <= k < |unresolved| ==> PairId(unresolved[k]) !in ignored
      ensures old(QueueDistinct()) && WellKeyed(Window.Processed(allEvents, viewStart, ignored)) ==> QueueDistinct()
      ensures allEvents == old(allEvents) && ignored == old(ignored) && viewStart == old(viewStart)
    {
      var processed := ProcessEvents(allEvents, viewStart, ignored);
      var conflicts := CollectConflicts(processed, ignored, unresolved);
      BatchMeaning(processed, ignored, unresolved);
      if old(QueueDistinct()) && WellKeyed(processed) {
        RefreshKeepsQueue(processed, ignored, unresolved);
      }
      RefreshAddsUnignored(processed, ignored, unresolved);
      unresolved := Enqueue(unresolved, conflicts);
    }

    /** Previous-week button: seven days back. */
    method GoToPreviousWeek()
      modifies this
      ensures viewStart == PreviousWeek(old(viewStart))
      ensures old(IsWeekStart(viewStart)) ==> IsWeekStart(viewStart)
      ensures allEvents == old(allEvents) && unresolved == old(unresolved) && ignored == old(ignored)
    {
      viewStart := PreviousWeek(viewStart);
    }

    /** Next-week button: seven days forward. */
    method GoToNextWeek()
      modifies this
      ensures viewStart == NextWeek(old(viewStart))
      ensures old(IsWeekStart(viewStart)) ==> IsWeekStart(viewStart)
      ensures allEvents == old(allEvents) && unresolved == old(unresolved) && ignored == old(ignored)
    {
      viewStart := NextWeek(viewStart);
    }

    /** Today button: the week holding `now`. */
    method GoToToday(now: int)
      modifies this
      ensures viewStart == StartOfWeek(now) && viewStart <= now < viewStart + WEEK_DAYS * DAY_MS
      ensures allEvents == old(allEvents) && unresolved == old(unresolved) && ignored == old(ignored)
    {
      viewStart := StartOfWeek(now);
    }
  }

  /**
   * An event outside the week on view changes no processed event, so neither
   * the advisor's fourteen-day scan nor the buffer check of a new block sees it.
   */
  lemma OtherWeeksUnseen(all: seq<CalEvent>, e: CalEvent, viewStart: int, ignored: seq<string>)
    requires !InView(e, viewStart)
    ensures Window.Processed(all + [e], viewStart, ignored) == Window.Processed(all, viewStart, ignored)
  {
    WindowConcat(all, [e], viewStart);
    assert WindowEvents([e], viewStart) == [] by {
      assert [e][1..] == [];
    }
    assert WindowEvents(all, viewStart) + [] == WindowEvents(all, viewStart);
  }

  /** Every pair one run of the effect appends has an identity outside the ignore list. */
  lemma RefreshAddsUnignored(p: seq<Shown>, ignored: seq<string>, queue: seq<Pair>)
    ensures var q := Enqueue(queue, Batch(p, ignored, QueueIds(queue)));
      forall k :: |queue| <= k < |q| ==> PairId(q[k]) !in ignored
  {
    var q := Enqueue(queue, Batch(p, ignored, QueueIds(queue)));
    BatchMeaning(p, ignored, queue);
    forall k | |queue| <= k < |q| ensures PairId(q[k]) !in ignored {
      assert q[k] in q[|queue|..];
    }
  }

  /** Dropping the head keeps the queue free of repeated identities. */
  lemma RestDistinct(queue: seq<Pair>)
    requires DistinctIds(queue)
    ensures DistinctIds(Rest(queue))
  {
    if queue != [] {
      forall k, l | 0 <= k < l < |queue| - 1 ensures PairId(queue[1..][k]) != PairId(queue[1..][l]) {
        assert queue[1..][k] == queue[k + 1] && queue[1..][l] == queue[l + 1];
      }
    }
  }
}
