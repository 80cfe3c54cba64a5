/**
 * Validation of the "create boundary" form: every field must be filled in,
 * the block must end after it starts, and it must keep a 15-minute buffer
 * from every processed event of the week.
 */
module Boundary {

  import opened Optional
  import opened Events
  import opened CalendarTime
  import Severity

  /**
   * The form: a title ("" when empty), a date as a calendar day and two
   * times of day in minutes. The date and time inputs yield either a
   * well-formed value or nothing.
   */
  datatype Form = Form(title: string, date: Option<int>, startTime: Option<int>, endTime: Option<int>)

  datatype Verdict =
    | Accepted(start: int, end: int)
    | MissingField
    | EndNotAfterStart
    | TooClose

  /** The local instant of a time of day on a calendar day. */
  function LocalTime(day: int, minutes: int): int
  {
    Midnight(day) + minutes * MINUTE_MS
  }

  /** The block [start, end) comes within a buffer of event `e`. */
  predicate Near(start: int, end: int, e: Shown)
  {
    start < e.end + BUFFER_MS && end + BUFFER_MS > e.start
  }

  /** `processedEvents.some(...)`: some event is within a buffer of the block. */
  function AnyNear(start: int, end: int, events: seq<Shown>): (r: bool)
    ensures r <==> exists k :: 0 <= k < |events| && Near(start, end, events[k])
  {
    if events == [] then
      false
    else
      var rest := AnyNear(start, end, events[1..]);
      assert forall k :: 1 <= k < |events| ==> events[k] == events[1..][k - 1];
      Near(start, end, events[0]) || rest
  }

  /** `handleSubmit`: the checks in order; the first that fails names the verdict. */
  function Validate(form: Form, events: seq<Shown>): Verdict
  {
    if form.title == "" || form.date.None? || form.startTime.None? || form.endTime.None? then
      MissingField
    else
      var start := LocalTime(form.date.value, form.startTime.value);
      var end := LocalTime(form.date.value, form.endTime.value);
      if start >= end then EndNotAfterStart
      else if AnyNear(start, end, events) then TooClose
      else Accepted(start, end)
  }

  /** The block keeps the buffer from `e`: it ends a buffer before `e` starts or starts a buffer after `e` ends. */
  predicate Clear(start: int, end: int, e: Shown)
  {
    end + BUFFER_MS <= e.start || e.end + BUFFER_MS <= start
  }

  /**
   * A form is accepted exactly when every field is filled in, the end is
   * after the start on that day, and the block is clear of every event by a
   * buffer; the accepted block is the one the form describes.
   */
  lemma ValidateMeaning(form: Form, events: seq<Shown>)
    ensures Validate(form, events).Accepted? <==>
      form.title != "" && form.date.Some? && form.startTime.Some? && form.endTime.Some?
      && form.startTime.value < form.endTime.value
      && forall e :: e in events ==> Clear(LocalTime(form.date.value, form.startTime.value), LocalTime(form.date.value, form.endTime.value), e)
    ensures Validate(form, events).Accepted? ==>
      Validate(form, events) == Accepted(LocalTime(form.date.value, form.startTime.value), LocalTime(form.date.value, form.endTime.value))
  {
    if form.title != "" && form.date.Some? && form.startTime.Some? && form.endTime.Some? {
      var start := LocalTime(form.date.value, form.startTime.value);
      var end := LocalTime(form.date.value, form.endTime.value);
      assert start < end <==> form.startTime.value < form.endTime.value;
      if AnyNear(start, end, events) {
        var k :| 0 <= k < |events| && Near(start, end, events[k]);
        NearMeansWithinBuffer(start, end, events[k]);
        assert events[k] in events;
      }
      if forall e :: e in events ==> Clear(start, end, e) {
      } else {
        var e :| e in events && !Clear(start, end, e);
        var k :| 0 <= k < |events| && events[k] == e;
        NearMeansWithinBuffer(start, end, e);
      }
    }
  }

  /** The buffer test is symmetric in time: a block closer than a buffer on either side is rejected. */
  lemma NearMeansWithinBuffer(start: int, end: int, e: Shown)
    ensures Near(start, end, e) <==> !Clear(start, end, e)
  {
  }

  const NINE_TO_TEN: Shown := Shown("standup", Some("Standup"), LocalTime(0, 9 * 60), LocalTime(0, 10 * 60), "Google", false, Severity.Low, false)

  /** With an event 09:00-10:00, a block 10:05-10:30 is too close and 10:15-10:30 is accepted. */
  lemma BufferExamples()
    ensures Validate(Form("Focus", Some(0), Some(10 * 60 + 5), Some(10 * 60 + 30)), [NINE_TO_TEN]) == TooClose
    ensures Validate(Form("Focus", Some(0), Some(10 * 60 + 15), Some(10 * 60 + 30)), [NINE_TO_TEN])
      == Accepted(LocalTime(0, 10 * 60 + 15), LocalTime(0, 10 * 60 + 30))
  {
  }

  /** A block of zero length, or one ending before it starts, is refused before the buffer test. */
  lemma EmptyBlockRejected(title: string, day: int, startTime: int, endTime: int, events: seq<Shown>)
    requires title != "" && endTime <= startTime
    ensures Validate(Form(title, Some(day), Some(startTime), Some(endTime)), events) == EndNotAfterStart
  {
  }

  /** An empty title is refused whatever the times. */
  lemma EmptyTitleRejected(form: Form, events: seq<Shown>)
    requires form.title == ""
    ensures Validate(form, events) == MissingField
  {
  }
}
