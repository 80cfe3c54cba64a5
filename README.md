# Availability and conflict engine — a Dafny model

This project models the availability and conflict engine of a unified-calendar
web application (`src/App.jsx`). The engine merges events from several
calendar providers into one week view. It does five things:

- It classifies each event's title into a severity: High, Medium or Low.
- It keeps the events of the seven-day window on view and drops repeated boundary blocks.
- It flags the events that strictly overlap an unignored peer.
- It queues the overlapping pairs for the user to resolve: keep one, move one, or ignore the pair.
- It proposes new slots for a moved event and validates new "boundary" blocks against a 15-minute buffer.

Time is local wall-clock time in integer milliseconds. A calendar day is the
floor of the instant divided by 86 400 000. Day 0 (1970-01-01) is a Thursday.
A JavaScript `Date` that may be missing or unparseable is the datatype `Stamp`.
A missing id or calendar is the empty string.

The files and their modules:

- `time.dfy` (`CalendarTime`): `addDays`, `getStartOfWeek` and week navigation.
- `severity.dfy` (`Severity`): `getEventSeverity`. Whole-word regular-expression matching is a scan, proved equal to an existential reference meaning.
- `events.dfy` (`Events`): the event records, the date-parsing filter, and `getConflictId`.
- `window.dfy` (`Window`): the `processedEvents` pipeline.
- `conflicts.dfy` (`Conflicts`): the conflict-detection effect and its queue update.
- `slots.dfy` (`Slots`): `findNextSlots` and `handleGetAiSuggestion`.
- `boundary.dfy` (`Boundary`): the checks of `BoundaryModal.handleSubmit`.
- `state.dfy` (`State`): the class `Planner`. It holds `allEvents`, the unresolved queue, the ignored identities and the week start. Its methods are the handlers.

Four behaviours of the code differ from what the engine's purpose suggests. The model follows the code:

- One might read an event's conflict flag as "overlaps some other event". The code sets it only through pairs whose identity is not ignored (src/App.jsx:349).
- One might expect an ignored pair to leave the unresolved queue. The code's ignore handler only appends to the ignore list (src/App.jsx:591). The queue head stays until it is kept or rescheduled.
- Slots are meant to lie inside 09:00–17:00 and clear of every other event. The code considers only events that start on the scanned day. It can also offer a slot past 17:00, because it measures the gap before an event to the event's start even when that is after closing; see Findings. `Slots.ScanDay`, `Slots.ScanDays`, `Slots.FindNextSlots` and `Slots.Advise` follow the code: their gap test is `AsWritten`. The same scan with the gap cut at closing (`CutAtClosing`) is the reference for the intended working-hours guarantee (`Slots.NextSlotsOk`, `Slots.CutKeepsInHours`).
- The advisor and the check of a new boundary block search only `processedEvents`, the events of the week on view (src/App.jsx:704, src/App.jsx:748). The advisor's scan nevertheless covers fourteen days from today. Events of other weeks are invisible to both (`State.OtherWeeksUnseen`), so a slot proposed outside the week on view can fall on an existing event.

## Model

| member | source | states |
|---|---|---|
| Severity.Rank | src/App.jsx:748 | The advisor's severity ranks: High 3, Low 1, Medium in between. |
| Severity.Classify | src/App.jsx:54-60 | The first tier whose keyword list matches the lower-cased title, High before Medium before Low, and Medium when none does. Its meaning is stated by Severity.ClassifyMeaning. |
| Severity.FindFrom | src/App.jsx:56-58 | The left-to-right scan for one keyword finds a match from position i exactly when a whole-word match (bounded by \b on both sides) exists at some j ≥ i. |
| Severity.TestAny | src/App.jsx:56-58 | Testing the alternation `\b(w1\|w2\|...)\b` succeeds exactly when some keyword has a whole-word match. |
| Severity.ClassifyMeaning | src/App.jsx:54-60 | The title is High iff a High keyword matches. It is Low iff no High or Medium keyword matches and a Low keyword does. Otherwise it is Medium. |
| Severity.HighWins | src/App.jsx:56 | A title containing a High keyword as a whole word is High, whatever else it contains. |
| Severity.MediumBeatsLow | src/App.jsx:57 | With no High keyword, a Medium keyword makes the title Medium even when Low keywords are present. |
| Severity.EmptyTitleIsMedium | src/App.jsx:55-59 | A missing or empty title is Medium. |
| Severity.CaseInsensitive | src/App.jsx:55 | Titles that are equal up to ASCII case get the same severity. |
| Severity.ClassifyLowered | src/App.jsx:55 | Lower-casing a title first does not change its severity. |
| Severity.ClientCallIsHigh | src/App.jsx:56 | "Client Call" is High. |
| Severity.StandupIsLow | src/App.jsx:58 | "Standup" is Low: it holds no High or Medium keyword. |
| Events.ParseEvents | src/App.jsx:211-221 | After fetching, an event is kept iff both its start and end are present and valid. The kept events keep their order, and every copy of a kept event survives. |
| Events.LexLe | src/App.jsx:62 | The order `sort()` puts two ids in: a character-by-character comparison where a proper prefix comes first. It is total (Events.LexTotal) and antisymmetric (Events.LexAntisymmetric). |
| Events.SortedJoin | src/App.jsx:62 | The two ids in sorted order joined with '\|'. |
| Events.ConflictId | src/App.jsx:62 | `getConflictId`: the sorted join of the two events' ids. |
| Events.ConflictIdSymmetric | src/App.jsx:62 | The pair identity does not depend on the order of the two events. |
| Events.SortedJoinInjective | src/App.jsx:62 | When no id contains '\|', two pairs share an identity only if they are made of the same two ids. |
| Events.SortedJoinCollision | src/App.jsx:62 | Ids that contain '\|' can collide: ("a\|b", "c") and ("a", "b\|c") share the identity "a\|b\|c". |
| CalendarTime.AddDays | src/App.jsx:19-23 | Adding n days moves the instant to the calendar day n later and keeps its time of day. |
| CalendarTime.StartOfWeek | src/App.jsx:24-31 | The week start is a Monday midnight at or before the instant, less than seven days before it. |
| CalendarTime.StartOfWeekIdempotent | src/App.jsx:24-31 | The start of the week of a week start is itself. |
| CalendarTime.StartOfWeekOfWeek | src/App.jsx:24-31 | Every instant of the week that begins at a week start maps back to that week start. |
| CalendarTime.PreviousWeek | src/App.jsx:603 | The previous-week button moves back seven days, stays on a week start, and the next-week button undoes it. |
| CalendarTime.NextWeek | src/App.jsx:603 | The next-week button moves forward exactly seven days and stays on a week start. |
| CalendarTime.NextWeekOfStart | src/App.jsx:19-31 | Moving to the next week from the week of t lands on the week of t plus seven days. |
| Window.WindowEvents | src/App.jsx:325-331 | An event is kept iff both dates are valid, it starts before the window end and it ends after the window start. Kept events are whole and in their original order. |
| Window.WindowConcat | src/App.jsx:328-331 | The window filter treats events independently: it distributes over concatenation. |
| Window.Annotate | src/App.jsx:334-335 | The copy of an event with valid dates, its severity computed from its title, and the conflict flag cleared. |
| Window.AnnotateAll | src/App.jsx:334-335 | Each kept event is copied with its severity and a cleared conflict flag, one for one. |
| Window.Dedup | src/App.jsx:338-343 | Keeps every non-boundary event and each boundary event whose key no earlier boundary event has. Its survivors are events of the input, never more of them. |
| Window.DedupBoundaries | src/App.jsx:338-343 | The loop with the growing key set computes the deduplicated list. |
| Window.DedupKeepsOthers | src/App.jsx:338-343 | Every non-boundary event survives deduplication, in its order. |
| Window.DedupKeepsKeys | src/App.jsx:338-343 | Deduplication loses no boundary key: every (title, start, end) key of the input is still present. |
| Window.DedupUniqueKeys | src/App.jsx:338-343 | At most one boundary event survives per key. |
| Window.DedupKeepsFirst | src/App.jsx:338-343 | The first boundary event with a given key is the one that survives. |
| Window.DedupIsSubseq | src/App.jsx:338-343 | Deduplication only deletes events; the survivors keep their order. |
| Window.DedupScenario | src/App.jsx:338-343 | Two boundary blocks with the same title and times collapse to one. A third one with another end survives. |
| Window.Flagged | src/App.jsx:346-351 | The reference meaning of the flagging loops: one event for each input event, flagged when it strictly overlaps another through an unignored identity. |
| Window.FlagConflicts | src/App.jsx:346-351 | After the nested loops, an event is flagged iff it was flagged before or some other event strictly overlaps it through a pair identity that is not ignored. |
| Window.IgnoreOnlyClears | src/App.jsx:349 | Ignoring one more identity never raises a flag. |
| Window.IgnoreIsPerPair | src/App.jsx:349 | Ignoring is per pair: an event stays flagged while it overlaps some peer through another identity. |
| Window.TouchingNeverClash | src/App.jsx:349 | Events that only touch, one ending when the other starts, never flag each other. |
| Window.OverlapFlagsBoth | src/App.jsx:349-350 | Two distinct events that strictly overlap through an unignored identity are both flagged. |
| Window.InsertByStart | src/App.jsx:353 | Insertion into a list sorted by start keeps it sorted and adds exactly the one element. |
| Window.SortByStart | src/App.jsx:353 | The sort returns a permutation of its input, ascending by start. |
| Window.SortByStartStable | src/App.jsx:353 | The sort is stable: events that start at the same instant keep their input order. |
| Window.Processed | src/App.jsx:322-354 | The reference meaning of `processedEvents`: window filter, annotation, deduplication, flagging, then the stable sort by start. |
| Window.ProcessedInWindow | src/App.jsx:325-354 | Every event of the processed list starts before the week ends and ends after it begins. |
| Window.ProcessEvents | src/App.jsx:322-354 | The memo computes filter, annotate, deduplicate, flag and sort. The result is sorted by start, and every event in it meets the window. |
| Conflicts.Batch | src/App.jsx:359-369 | The reference meaning of one run of the detection loops: the candidate pairs in row order. Its members are stated by Conflicts.BatchMeaning. |
| Conflicts.CollectConflicts | src/App.jsx:357-369 | The detection loops collect, in row order, the batch of candidate pairs. |
| Conflicts.RowMembers | src/App.jsx:360-368 | A row of the loops holds exactly the candidate pairs (i, k) of its columns. |
| Conflicts.BatchMembers | src/App.jsx:359-369 | The batch holds exactly the candidate pairs (i, j), i < j, of the rows scanned. |
| Conflicts.BatchMeaning | src/App.jsx:359-369 | A pair is collected iff both events are flagged, they strictly overlap, and its identity is neither ignored nor already queued. |
| Conflicts.BatchDistinct | src/App.jsx:359-369 | When window ids are distinct and '\|'-free, the batch never repeats an identity. |
| Conflicts.Enqueue | src/App.jsx:370-376 | The queue is extended, never rewritten. The added pairs are exactly the batch pairs whose identity is not yet queued. They come in batch order, and a pair the batch holds twice is added twice. |
| Conflicts.RefreshKeepsQueue | src/App.jsx:357-379 | For a well-keyed window, one run of the effect keeps the queue free of repeated identities. Every added pair has an unignored identity and two flagged, overlapping events. |
| Conflicts.RepeatedIdsRepeatPairs | src/App.jsx:359-369 | When two window events share an id, one batch can hold the same identity twice. |
| Slots.Others | src/App.jsx:747 | The scan considers exactly the events whose id differs from the moved event's. |
| Slots.DayScan | src/App.jsx:747 | The scan of one day. With `AsWritten` the gap before each event is measured to its start, as the code does. With `CutAtClosing` it is cut at 17:00. Its guarantees are Slots.DayScanSeparated and Slots.CutKeepsInHours. |
| Slots.DaySlots | src/App.jsx:747 | One day's scan from 09:00 to 17:00 over the events that start that day. |
| Slots.Candidates | src/App.jsx:747 | The slots of the first n days, day after day. |
| Slots.Take | src/App.jsx:747 | The early return keeps a prefix of the candidates, of the requested length or shorter. |
| Slots.NextSlots | src/App.jsx:747 | The first max(count, 1) candidates over fourteen days from the day of now, among the other events sorted by start. With `AsWritten` this is the value `findNextSlots` returns. |
| Slots.ScanDay | src/App.jsx:747 | The inner loop over one day's events tests `event.start - lastEventEnd`, as the code does, and keeps its cursor and early return. It appends the day's slots under the code's gap test, or stops with exactly the requested number. |
| Slots.ScanDays | src/App.jsx:747 | The loop over fourteen days returns the first max(count, 1) slots of the code's scan, or all of them when there are fewer. |
| Slots.FindNextSlots | src/App.jsx:747 | Returns exactly the code's slots: the moved event excluded, fourteen days from the day of now, the gap measured to each event's start. |
| Slots.DayScanSeparated | src/App.jsx:747 | Every slot lies at least a buffer past the cursor and clears every later event of the day by a buffer. With the gap cut at closing, the moved event also ends a buffer before 17:00. |
| Slots.CutKeepsInHours | src/App.jsx:747 | The scan cut at closing keeps exactly the code's slots that leave room for the event and its buffer before 17:00. |
| Slots.DaySlotsOk | src/App.jsx:747 | Every slot of a day starts at or after 09:15 and keeps the buffer from every other event starting that day. With the gap cut at closing it also ends a buffer before 17:00. |
| Slots.CandidatesFromDays | src/App.jsx:747 | Every candidate is a slot of one of the days scanned. |
| Slots.NextSlotsOk | src/App.jsx:747 | At most max(count, 1) slots are offered. Each lies on one of the fourteen days from now, starts at or after 09:15, and clears that day's other events. With the gap cut at closing, each also ends a buffer before 17:00. |
| Slots.NextSlotsSeesOthersOnly | src/App.jsx:747 | Only the events with another id matter: dropping every event with the moved event's id changes no slot. |
| Slots.OthersSkipsMoved | src/App.jsx:747 | An event with the moved event's id, wherever it stands, is filtered out. |
| Slots.NextSlotsIgnoresMoved | src/App.jsx:747 | Inserting an event with the moved event's id anywhere in the list changes no slot. |
| Slots.SlotPastClosingAsWritten | src/App.jsx:747 | As written, events 16:00–17:00 and 19:00–20:00 make the day's scan offer 17:15 for a one-hour event, past closing. The scan cut at closing offers only 09:15. |
| Slots.MovedDaySorted | src/App.jsx:747 | The two events of that day, other than the moved one, are already in start order. |
| Slots.LateSlotOffered | src/App.jsx:747 | `findNextSlots` on that day offers 17:15 for the one-hour event. |
| Slots.LateSlotNotOfferedWhenCut | src/App.jsx:747 | The fourteen-day scan cut at closing never offers 17:15 on that day. |
| Slots.LateOutsideHours | src/App.jsx:747 | Once the gap is cut at closing, 17:15 is no day's slot for a one-hour event. |
| Slots.NextSlotsPastClosingAsWritten | src/App.jsx:747 | Through the whole fourteen-day search, the code offers the after-hours slot 17:15 and the scan cut at closing does not. |
| Slots.FullyBookedDay | src/App.jsx:747 | A day booked from 09:00 to 17:00 offers no slot for a one-hour event, under either gap test. |
| Slots.SlotBeforeNow | src/App.jsx:747 | On the first day the code's scan starts at 09:00 whatever the time: at 16:00 it still offers 09:15 that day. |
| Slots.Advise | src/App.jsx:748 | The advisor keeps the first event when its rank is at least the second's, and the second otherwise. It proposes exactly the code's first three slots for the other event among the given events. Each is on one of the fourteen days, at or after 09:15, and clear of that day's other events. |
| Boundary.AnyNear | src/App.jsx:704 | `processedEvents.some(...)` holds iff some event starts before the block's end plus a buffer and ends after its start minus a buffer. |
| Boundary.Validate | src/App.jsx:704 | `handleSubmit`'s checks in order: a missing field, then an end not after the start, then an event within a buffer; the first that fails names the verdict, and otherwise the described block is accepted. Its meaning is stated by Boundary.ValidateMeaning. |
| Boundary.NearMeansWithinBuffer | src/App.jsx:704 | The code's buffer test on one event fails exactly when the block is not clear of it by a full buffer on either side. |
| Boundary.ValidateMeaning | src/App.jsx:704 | A form is accepted iff all fields are filled in, the start time is before the end time, and the block keeps a full buffer from every event on both sides. The accepted block is the one the form describes. |
| Boundary.BufferExamples | src/App.jsx:704 | Against a 09:00–10:00 event, 10:05–10:30 is too close and 10:15–10:30 is accepted. |
| Boundary.EmptyBlockRejected | src/App.jsx:704 | A block whose end is not after its start is refused before the buffer test. |
| Boundary.EmptyTitleRejected | src/App.jsx:704 | An empty title is refused whatever the times. |
| State.WithoutId | src/App.jsx:505 | Delete keeps exactly the events with another id, in their order. |
| State.WithoutIdIdempotent | src/App.jsx:505 | Deleting an id twice is deleting it once. |
| State.WithoutAbsentId | src/App.jsx:505 | Deleting an id no event has changes nothing. |
| State.Rescheduled | src/App.jsx:537-542 | Every event with the id gets the new start and an end that keeps the moved event's duration, with its other fields unchanged. Every other event is left as it is. |
| State.AsBoundaries | src/App.jsx:469-477 | One event for each created event: the same event, marked as a boundary. |
| State.Rest | src/App.jsx:582 | `slice(1)` drops exactly the head, and an empty queue stays empty. |
| State.RestDistinct | src/App.jsx:582 | Dropping the head keeps the queue free of repeated identities. |
| State.OtherWeeksUnseen | src/App.jsx:325-331 | Adding an event outside the week on view leaves the processed events, and so the advisor's search and the buffer check, unchanged. |
| State.RefreshAddsUnignored | src/App.jsx:363-376 | No pair the effect appends has an ignored identity. |
| State.Planner.constructor | src/App.jsx:141 | The initial state holds no events, an empty queue, an empty ignore list, and the week of now. |
| State.Planner.LoadEvents | src/App.jsx:211-223 | Loading stores exactly the fetched events with valid dates, in order. |
| State.Planner.AddCreatedBoundaries | src/App.jsx:469-477 | Created blocks are appended after the existing events, each marked as a boundary. |
| State.Planner.Processed | src/App.jsx:322-354 | Returns exactly the processed events of the current state. |
| State.Planner.SuggestSlots | src/App.jsx:729-748 | The suggestion works on the head of the queue. It keeps the higher-ranked event and proposes the code's slots for the other one, searching only the processed events of the week on view. |
| State.Planner.SubmitBoundary | src/App.jsx:704 | The form is checked against the processed events of the week on view. Only an accepted block with a reply listing the created events changes the state: they are appended as boundaries. Queue, ignore list and week are unchanged. |
| State.Planner.DeleteEvent | src/App.jsx:495-533 | An event without id or calendar is refused with no change. Otherwise a success removes every event with its id, and a failure restores the saved list. |
| State.Planner.UpdateEventTime | src/App.jsx:536-576 | A success moves every event with the id, keeping the duration. A failure restores the saved list. |
| State.Planner.ResolveConflict | src/App.jsx:579-583 | The delete handler's outcome is passed through. The handler refuses an event without id or calendar. A successful delete removes every event with that id, and a failed one restores the saved events. The queue head is dropped whatever the outcome, and the ignore list does not change. |
| State.Planner.Reschedule | src/App.jsx:585-589 | The update handler's outcome is passed through. A successful update moves every event with that id to the chosen start, keeping the duration, and a failed one restores the saved events. The queue head is dropped whatever the outcome, and the ignore list does not change. |
| State.Planner.IgnoreConflict | src/App.jsx:591 | The identity is appended to the ignore list, which only grows. Events and queue are unchanged. |
| State.Planner.RefreshConflicts | src/App.jsx:357-379 | The queue only grows, by pairs whose identity is not ignored. It stays free of repeated identities when the window is well keyed. |
| State.Planner.GoToPreviousWeek | src/App.jsx:603 | The previous-week button moves the view back seven days and keeps it on a week start. |
| State.Planner.GoToNextWeek | src/App.jsx:603 | The next-week button moves the view forward seven days and keeps it on a week start. |
| State.Planner.GoToToday | src/App.jsx:603 | The Today button shows the week that contains now. |

## Left out

- Network I/O is not modelled: fetching, creating, deleting and patching events, response and error-message parsing, and the title-suggestion call. The outcome of a mutation is the boolean `succeeded`, and the events a block creation returns are an optional parameter.
- Browser storage, the token and user session, and the window-focus listener are not modelled. Neither are rendering, pixel layout (floating point), locale formatting or the `setTimeout` delay of the advisor.
- Time zones and daylight-saving shifts are not modelled: a day is always 24 hours. Time-of-day inputs are whole minutes.
- Severity.Lower: only ASCII letters are lower-cased. `toLowerCase` on other letters is not modelled. \b uses the ASCII word class, as JavaScript does without the `u` flag.
- Boundary.Validate: the date and time inputs are either empty or well formed. A non-empty string that does not parse, which would give NaN and pass every comparison, is not modelled.
- Conflicts.RefreshKeepsQueue: "no repeated identity in the queue" is proved only when the window's ids are distinct and contain no '|'. Without that, one batch can repeat an identity (Conflicts.RepeatedIdsRepeatPairs), and ids containing '|' can collide (Events.SortedJoinCollision).
- State.Planner.RefreshConflicts: has the same restriction. The effect reads the queue both from the render and through the state updater. The model treats both as the same queue, so the second filter never drops a pair.
- State.Planner.DeleteEvent and State.Planner.UpdateEventTime: the rollback restores the list saved at the call. Updates from other handlers between the optimistic change and the server's answer are not modelled, because handlers run one at a time here.
- State.Planner.UpdateEventTime: a missing calendar makes the request fail, which is covered by `succeeded == false`.
- Slots.NextSlots: for a count below one, the source's test after each push returns one slot; the model keeps that. The advisor always asks for three.
- Events.LexLe: compares Unicode scalar values, where JavaScript's `sort` compares UTF-16 code units. The two orders differ only between characters outside the Basic Multilingual Plane and characters from U+E000 to U+FFFF.
- State.Planner.SubmitBoundary: when the server's reply lists no created events, the code refetches every event. That refresh is State.Planner.LoadEvents and is not chained here. A failed request leaves the events unchanged, as `reply == None` does.
- Window.TitleText: a title is either a string or missing, and a missing one reads "undefined" in the boundary key. A JSON `null` title, which would read "null", is not distinguished from a missing one.
- The handlers' error messages (`setFetchError`) and the closing of the detail view are not modelled.

## Findings

| source | as written | input that shows it | evidently intended | confidence | as-written member | corrected member |
|---|---|---|---|---|---|---|
| src/App.jsx:747 | The gap before an event is measured from the cursor to the event's start, even when the event starts after 17:00. | Events 16:00–17:00 and 19:00–20:00 on one day, moving a one-hour event. The gap 17:00–19:00 fits, so 17:15 is offered, and the event would end at 18:15. | A slot ends a buffer before 17:00: the gap before an event is cut at closing time. | not executed | Slots.NextSlotsPastClosingAsWritten | Slots.NextSlotsOk |
