/**
 * The processed-events pipeline of the weekly view: keep the events of the
 * seven-day window, annotate them with their severity, drop repeated boundary
 * blocks, flag the events that overlap an unignored peer and sort by start.
 */
module Window {

  import opened Optional
  import opened Seqs
  import opened Events
  import opened CalendarTime
  import Severity

  // ---------------------------------------------------------------- window filter

  /** Kept by the week filter: both dates valid, starts before the window ends, ends after it starts. */
  predicate InView(e: CalEvent, viewStart: int)
  {
    e.start.At? && e.end.At? && e.start.ms < AddDays(viewStart, WEEK_DAYS) && e.end.ms > viewStart
  }

  /** The half-open window filter over `allEvents`; events are kept whole, in their order. */
  function WindowEvents(all: seq<CalEvent>, viewStart: int): (r: seq<CalEvent>)
    ensures forall e :: e in r <==> e in all && InView(e, viewStart)
    ensures forall i :: 0 <= i < |r| ==> HasValidDates(r[i])
    ensures Subseq(r, all)
  {
    var keep := (e: CalEvent) => InView(e, viewStart);
    FilterIsSubseq(keep, all);
    Filter(keep, all)
  }

  /** The window filter treats the events independently: it commutes with concatenation. */
  lemma WindowConcat(a: seq<CalEvent>, b: seq<CalEvent>, viewStart: int)
    ensures WindowEvents(a + b, viewStart) == WindowEvents(a, viewStart) + WindowEvents(b, viewStart)
  {
    FilterConcat((e: CalEvent) => InView(e, viewStart), a, b);
  }

  /** The annotated copy `{...e, severity}` with the conflict flag reset. */
  function Annotate(e: CalEvent): Shown
    requires HasValidDates(e)
  {
    Shown(e.id, e.title, e.start.ms, e.end.ms, e.calendar, e.isBoundary, Severity.Classify(e.title), false)
  }

  function AnnotateAll(es: seq<CalEvent>): (r: seq<Shown>)
    requires forall i :: 0 <= i < |es| ==> HasValidDates(es[i])
    ensures |r| == |es|
    ensures forall i :: 0 <= i < |es| ==> r[i] == Annotate(es[i])
  {
    seq(|es|, i requires 0 <= i < |es| => Annotate(es[i]))
  }

  // ---------------------------------------------------------------- boundary deduplication

  /** The deduplication key `${title}|${start}|${end}`; a missing title prints as "undefined". */
  datatype Key = Key(title: string, start: int, end: int)

  function TitleText(t: Option<string>): string
  {
    match t
    case None => "undefined"
    case Some(s) => s
  }

  function KeyOf(e: Shown): Key
  {
    Key(TitleText(e.title), e.start, e.end)
  }

  /** The keys of the boundary events of `es`. */
  function BoundaryKeys(es: seq<Shown>): set<Key>
  {
    set i | 0 <= i < |es| && es[i].isBoundary :: KeyOf(es[i])
  }

  predicate NotBoundary(e: Shown)
  {
    !e.isBoundary
  }

  /**
   * What the deduplication loop computes: each event in turn is kept unless
   * it is a boundary event whose key an earlier boundary event already had.
   */
  function Dedup(es: seq<Shown>): (r: seq<Shown>)
    ensures forall x :: x in r ==> x in es
    ensures |r| <= |es|
  {
    if es == [] then []
    else
      var p, x := es[..|es| - 1], es[|es| - 1];
      assert forall y :: y in p ==> y in es;
      Dedup(p) + (if x.isBoundary && KeyOf(x) in BoundaryKeys(p) then [] else [x])
  }

  lemma BoundaryKeysAppend(p: seq<Shown>, x: Shown)
    ensures BoundaryKeys(p + [x]) == BoundaryKeys(p) + (if x.isBoundary then {KeyOf(x)} else {})
  {
    var q := p + [x];
    forall k | k in BoundaryKeys(q) ensures k in BoundaryKeys(p) + (if x.isBoundary then {KeyOf(x)} else {}) {
      var i :| 0 <= i < |q| && q[i].isBoundary && KeyOf(q[i]) == k;
      if i < |p| {
        assert q[i] == p[i];
      }
    }
    forall k | k in BoundaryKeys(p) ensures k in BoundaryKeys(q) {
      var i :| 0 <= i < |p| && p[i].isBoundary && KeyOf(p[i]) == k;
      assert q[i] == p[i];
    }
    if x.isBoundary {
      assert q[|p|] == x;
    }
  }

  /** The deduplication loop: a key set grows while events are pushed in order. */
  method DedupBoundaries(es: seq<Shown>) returns (unique: seq<Shown>)
    ensures unique == Dedup(es)
  {
    unique := [];
    var keys: set<Key> := {};
    for i := 0 to |es|
      invariant unique == Dedup(es[..i])
      invariant keys == BoundaryKeys(es[..i])
    {
      var event := es[i];
      assert es[..i + 1] == es[..i] + [event];
      assert es[..i + 1][..i] == es[..i];
      BoundaryKeysAppend(es[..i], event);
      if event.isBoundary {
        var key := KeyOf(event);
        if key !in keys {
          keys := keys + {key};
          unique := unique + [event];
        }
      } else {
        unique := unique + [event];
      }
    }
    assert es[..|es|] == es;
  }

  /** Every non-boundary event survives deduplication, in its order. */
  lemma {:induction false} DedupKeepsOthers(es: seq<Shown>)
    ensures Filter(NotBoundary, Dedup(es)) == Filter(NotBoundary, es)
    decreases |es|
  {
    if es != [] {
      var p, x := es[..|es| - 1], es[|es| - 1];
      assert es == p + [x];
      DedupKeepsOthers(p);
      var tail := if x.isBoundary && KeyOf(x) in BoundaryKeys(p) then [] else [x];
      FilterConcat(NotBoundary, Dedup(p), tail);
      FilterConcat(NotBoundary, p, [x]);
      assert Filter(NotBoundary, tail) == Filter(NotBoundary, [x]);
    }
  }

  /** Deduplication loses no key: every boundary key of the input is still present. */
  lemma {:induction false} DedupKeepsKeys(es: seq<Shown>)
    ensures BoundaryKeys(Dedup(es)) == BoundaryKeys(es)
    decreases |es|
  {
    if es != [] {
      var p, x := es[..|es| - 1], es[|es| - 1];
      assert es == p + [x];
      DedupKeepsKeys(p);
      BoundaryKeysAppend(p, x);
      if x.isBoundary && KeyOf(x) in BoundaryKeys(p) {
        assert Dedup(es) == Dedup(p);
      } else {
        BoundaryKeysAppend(Dedup(p), x);
      }
    }
  }

  /** At most one boundary event survives per key. */
  lemma {:induction false} DedupUniqueKeys(es: seq<Shown>)
    ensures var r := Dedup(es);
      forall i, j :: 0 <= i < j < |r| && r[i].isBoundary && r[j].isBoundary ==> KeyOf(r[i]) != KeyOf(r[j])
    decreases |es|
  {
    if es != [] {
      var p, x := es[..|es| - 1], es[|es| - 1];
      DedupUniqueKeys(p);
      DedupKeepsKeys(p);
      var d := Dedup(p);
      var r := Dedup(es);
      if !(x.isBoundary && KeyOf(x) in BoundaryKeys(p)) {
        assert r == d + [x];
        forall i | 0 <= i < |d| && d[i].isBoundary && x.isBoundary ensures KeyOf(d[i]) != KeyOf(x) {
          assert KeyOf(d[i]) in BoundaryKeys(d);
        }
      }
    }
  }

  /** The first boundary event with a given key is the one that survives. */
  lemma {:induction false} DedupKeepsFirst(es: seq<Shown>, i: nat)
    requires i < |es| && es[i].isBoundary
    requires forall j :: 0 <= j < i && es[j].isBoundary ==> KeyOf(es[j]) != KeyOf(es[i])
    ensures es[i] in Dedup(es)
    decreases |es|
  {
    var p, x := es[..|es| - 1], es[|es| - 1];
    if i == |es| - 1 {
      assert KeyOf(x) !in BoundaryKeys(p);
    } else {
      DedupKeepsFirst(p, i);
    }
  }

  /** Deduplication only deletes: the survivors keep their input order. */
  lemma {:induction false} DedupIsSubseq(es: seq<Shown>)
    ensures Subseq(Dedup(es), es)
    decreases |es|
  {
    if es != [] {
      var p, x := es[..|es| - 1], es[|es| - 1];
      var tail := if x.isBoundary && KeyOf(x) in BoundaryKeys(p) then [] else [x];
      DedupIsSubseq(p);
      assert Dedup(es) == Dedup(p) + tail;
      if tail == [] {
        SubseqAppendRight(Dedup(p), p, x);
        assert Dedup(es) == Dedup(p);
      } else {
        SubseqAppendBoth(Dedup(p), p, x);
      }
      assert Subseq(Dedup(es), p + [x]);
      assert es == p + [x];
    }
  }

  /** Two boundary blocks with equal title and times collapse to one; a third with another end survives. */
  lemma DedupScenario(a: Shown, b: Shown, c: Shown)
    requires a.isBoundary && b.isBoundary && c.isBoundary
    requires KeyOf(a) == KeyOf(b) && c.end != a.end
    ensures Dedup([a, b, c]) == [a, c]
  {
    assert [a, b, c][..2] == [a, b];
    assert [a, b][..1] == [a];
    assert [a][..0] == [];
    BoundaryKeysAppend([], a);
    assert [] + [a] == [a];
    assert BoundaryKeys([a]) == {KeyOf(a)};
    assert Dedup([a]) == [a];
    assert Dedup([a, b]) == [a];
    BoundaryKeysAppend([a], b);
    assert [a] + [b] == [a, b];
    assert BoundaryKeys([a, b]) == {KeyOf(a)};
    assert KeyOf(c) !in BoundaryKeys([a, b]);
  }

  // ---------------------------------------------------------------- conflict flags

  /** Events `i` and `j` of the window strictly overlap and their pair is not ignored. */
  ghost predicate Clash(u: seq<Shown>, i: int, j: int, ignored: seq<string>)
    requires 0 <= i < |u| && 0 <= j < |u|
  {
    i != j && Overlaps(u[i], u[j]) && ConflictId(u[i], u[j]) !in ignored
  }

  /** Event `k` strictly overlaps some other event of the window through an unignored pair. */
  ghost predicate HasClash(u: seq<Shown>, k: int, ignored: seq<string>)
    requires 0 <= k < |u|
  {
    exists m :: 0 <= m < |u| && Clash(u, k, m, ignored)
  }

  /** The detection pass's meaning: each event's flag says whether it has an unignored overlap. */
  ghost function Flagged(u: seq<Shown>, ignored: seq<string>): (v: seq<Shown>)
    ensures |v| == |u|
  {
    seq(|u|, k requires 0 <= k < |u| => u[k].(isConflict := HasClash(u, k, ignored)))
  }

  lemma ClashSymmetric(u: seq<Shown>, i: int, j: int, ignored: seq<string>)
    requires 0 <= i < |u| && 0 <= j < |u|
    ensures Clash(u, i, j, ignored) == Clash(u, j, i, ignored)
  {
    ConflictIdSymmetric(u[i], u[j]);
  }

  /** The pair (p, q), p < q, has been examined once the loops reach row i, column j. */
  predicate PairBefore(p: int, q: int, i: int, j: int)
  {
    p < i || (p == i && q < j)
  }

  function Min(a: int, b: int): int { if a < b then a else b }
  function Max(a: int, b: int): int { if a < b then b else a }

  /** Event `k` clashes with a partner through a pair the loops have already examined. */
  ghost predicate ClashBefore(u: seq<Shown>, k: int, i: int, j: int, ignored: seq<string>)
    requires 0 <= k < |u|
  {
    exists m :: 0 <= m < |u| && Clash(u, k, m, ignored) && PairBefore(Min(k, m), Max(k, m), i, j)
  }

  lemma ClashBeforeStep(u: seq<Shown>, i: int, j: int, k: int, ignored: seq<string>)
    requires 0 <= i < j < |u| && 0 <= k < |u|
    ensures ClashBefore(u, k, i, j + 1, ignored) <==>
      ClashBefore(u, k, i, j, ignored) || ((k == i || k == j) && Clash(u, i, j, ignored))
  {
    ClashSymmetric(u, i, j, ignored);
    if ClashBefore(u, k, i, j + 1, ignored) && !ClashBefore(u, k, i, j, ignored) {
      var m :| 0 <= m < |u| && Clash(u, k, m, ignored) && PairBefore(Min(k, m), Max(k, m), i, j + 1);
      assert Min(k, m) == i && Max(k, m) == j;
    }
    if k == i && Clash(u, i, j, ignored) {
      assert PairBefore(Min(k, j), Max(k, j), i, j + 1);
    }
    if k == j && Clash(u, i, j, ignored) {
      assert Clash(u, k, i, ignored) && PairBefore(Min(k, i), Max(k, i), i, j + 1);
    }
  }

  lemma ClashBeforeNextRow(u: seq<Shown>, i: int, k: int, ignored: seq<string>)
    requires 0 <= k < |u|
    ensures ClashBefore(u, k, i, |u|, ignored) <==> ClashBefore(u, k, i + 1, i + 2, ignored)
  {
    if ClashBefore(u, k, i + 1, i + 2, ignored) {
      var m :| 0 <= m < |u| && Clash(u, k, m, ignored) && PairBefore(Min(k, m), Max(k, m), i + 1, i + 2);
      assert PairBefore(Min(k, m), Max(k, m), i, |u|);
    }
  }

  lemma ClashBeforeAll(u: seq<Shown>, i: int, k: int, ignored: seq<string>)
    requires 0 <= k < |u| && i >= |u| - 1
    ensures ClashBefore(u, k, i, i + 1, ignored) <==> HasClash(u, k, ignored)
  {
    if HasClash(u, k, ignored) {
      var m :| 0 <= m < |u| && Clash(u, k, m, ignored);
      assert PairBefore(Min(k, m), Max(k, m), i, i + 1);
    }
  }

  /**
   * The nested detection loops: every pair i < j that strictly overlaps and
   * whose identity is not ignored sets the flag of both events.
   */
  method FlagConflicts(u: seq<Shown>, ignored: seq<string>) returns (v: seq<Shown>)
    ensures |v| == |u|
    ensures forall k :: 0 <= k < |u| ==> v[k] == u[k].(isConflict := u[k].isConflict || HasClash(u, k, ignored))
  {
    v := u;
    var i := 0;
    while i < |v| - 1
      invariant |v| == |u|
      invariant 0 <= i && (i <= |u| - 1 || i == 0)
      invariant forall k :: 0 <= k < |u| ==>
        v[k] == u[k].(isConflict := u[k].isConflict || ClashBefore(u, k, i, i + 1, ignored))
    {
      var j := i + 1;
      while j < |v|
        invariant |v| == |u|
        invariant i + 1 <= j <= |u|
        invariant forall k :: 0 <= k < |u| ==>
          v[k] == u[k].(isConflict := u[k].isConflict || ClashBefore(u, k, i, j, ignored))
      {
        var a, b := v[i], v[j];
        ghost var before := v;
        if a.start < b.end && a.end > b.start && ConflictId(a, b) !in ignored {
          v := v[i := v[i].(isConflict := true)][j := v[j].(isConflict := true)];
        }
        forall k | 0 <= k < |u|
          ensures v[k] == u[k].(isConflict := u[k].isConflict || ClashBefore(u, k, i, j + 1, ignored))
        {
          ClashBeforeStep(u, i, j, k, ignored);
        }
        j := j + 1;
      }
      forall k | 0 <= k < |u|
        ensures v[k] == u[k].(isConflict := u[k].isConflict || ClashBefore(u, k, i + 1, i + 2, ignored))
      {
        ClashBeforeNextRow(u, i, k, ignored);
      }
      i := i + 1;
    }
    forall k | 0 <= k < |u|
      ensures v[k] == u[k].(isConflict := u[k].isConflict || HasClash(u, k, ignored))
    {
      ClashBeforeAll(u, i, k, ignored);
    }
  }

  /** Ignoring one more pair id never raises a flag. */
  lemma IgnoreOnlyClears(u: seq<Shown>, k: int, ignored: seq<string>, id: string)
    requires 0 <= k < |u|
    requires HasClash(u, k, ignored + [id])
    ensures HasClash(u, k, ignored)
  {
    var m :| 0 <= m < |u| && Clash(u, k, m, ignored + [id]);
    assert Clash(u, k, m, ignored);
  }

  /** Ignoring is per pair: an event stays flagged while it overlaps a peer through another pair id. */
  lemma IgnoreIsPerPair(u: seq<Shown>, k: int, m: int, ignored: seq<string>, id: string)
    requires 0 <= k < |u| && 0 <= m < |u|
    requires Clash(u, k, m, ignored) && ConflictId(u[k], u[m]) != id
    ensures HasClash(u, k, ignored + [id])
  {
    assert Clash(u, k, m, ignored + [id]);
  }

  /** Events that only touch (one ends when the other starts) are never flagged through each other. */
  lemma TouchingNeverClash(u: seq<Shown>, k: int, m: int, ignored: seq<string>)
    requires 0 <= k < |u| && 0 <= m < |u|
    requires u[k].end == u[m].start || u[m].end == u[k].start
    ensures !Clash(u, k, m, ignored)
  {
  }

  /** Two distinct events that strictly overlap through an unignored pair are both flagged. */
  lemma OverlapFlagsBoth(u: seq<Shown>, i: int, j: int, ignored: seq<string>)
    requires 0 <= i < |u| && 0 <= j < |u| && i != j
    requires Overlaps(u[i], u[j]) && ConflictId(u[i], u[j]) !in ignored
    ensures Flagged(u, ignored)[i].isConflict && Flagged(u, ignored)[j].isConflict
  {
    assert Clash(u, i, j, ignored);
    ClashSymmetric(u, i, j, ignored);
    assert Clash(u, j, i, ignored);
  }

  // ---------------------------------------------------------------- stable sort by start

  predicate SortedByStart(s: seq<Shown>)
  {
    forall i, j :: 0 <= i < j < |s| ==> s[i].start <= s[j].start
  }

  /** The events of `s` starting at instant `t`, in their order in `s`. */
  function SameStart(s: seq<Shown>, t: int): seq<Shown>
  {
    if s == [] then [] else (if s[0].start == t then [s[0]] else []) + SameStart(s[1..], t)
  }

  lemma SameStartCons(x: Shown, s: seq<Shown>, t: int)
    ensures SameStart([x] + s, t) == (if x.start == t then [x] else []) + SameStart(s, t)
  {
    assert ([x] + s)[1..] == s;
  }

  lemma SortedCons(y: Shown, s: seq<Shown>)
    requires SortedByStart(s)
    requires forall j :: 0 <= j < |s| ==> y.start <= s[j].start
    ensures SortedByStart([y] + s)
  {
  }

  /** Inserts `x` before the first element that does not start earlier. */
  function InsertByStart(x: Shown, s: seq<Shown>): (r: seq<Shown>)
    requires SortedByStart(s)
    ensures SortedByStart(r)
    ensures multiset(r) == multiset(s) + multiset{x}
  {
    if s == [] then [x]
    else if x.start <= s[0].start then
      SortedCons(x, s);
      [x] + s
    else
      var rest := InsertByStart(x, s[1..]);
      assert s == [s[0]] + s[1..];
      assert forall j :: 0 <= j < |rest| ==> s[0].start <= rest[j].start by {
        forall j | 0 <= j < |rest| ensures s[0].start <= rest[j].start {
          assert rest[j] in multiset(rest);
        }
      }
      SortedCons(s[0], rest);
      [s[0]] + rest
  }

  lemma InsertByStartPast(x: Shown, s: seq<Shown>)
    requires SortedByStart(s) && s != [] && s[0].start < x.start
    ensures InsertByStart(x, s) == [s[0]] + InsertByStart(x, s[1..])
  {
  }

  /** An event `y` starting before `x` comes first in the same-start list of `t` whichever of the two starts at `t`. */
  lemma SameStartPast(x: Shown, y: Shown, rest: seq<Shown>, tail: seq<Shown>, t: int)
    requires y.start < x.start
    requires SameStart(rest, t) == (if x.start == t then [x] else []) + SameStart(tail, t)
    ensures SameStart([y] + rest, t) == (if x.start == t then [x] else []) + SameStart([y] + tail, t)
  {
    SameStartCons(y, rest, t);
    SameStartCons(y, tail, t);
    var hx := if x.start == t then [x] else [];
    var later := SameStart(tail, t);
    if y.start == t {
      assert hx == [];
      assert hx + ([y] + later) == [y] + later;
      assert [y] + (hx + later) == [y] + later;
    } else {
      assert [] + (hx + later) == hx + later;
      assert [] + later == later;
    }
  }

  /** Insertion puts `x` ahead of the events that start when it does. */
  lemma {:induction false} InsertByStartStable(x: Shown, s: seq<Shown>, t: int)
    requires SortedByStart(s)
    ensures SameStart(InsertByStart(x, s), t) == (if x.start == t then [x] else []) + SameStart(s, t)
  {
    if s == [] {
      SameStartCons(x, [], t);
      assert [x] + [] == [x];
    } else if x.start <= s[0].start {
      SameStartCons(x, s, t);
    } else {
      InsertByStartStable(x, s[1..], t);
      InsertByStartPast(x, s);
      SameStartPast(x, s[0], InsertByStart(x, s[1..]), s[1..], t);
      assert s == [s[0]] + s[1..];
    }
  }

  /**
   * `sort((a, b) => a.start - b.start)`: ascending by start and a permutation
   * of its input.
   */
  function SortByStart(s: seq<Shown>): (r: seq<Shown>)
    ensures SortedByStart(r)
    ensures multiset(r) == multiset(s)
  {
    if s == [] then []
    else
      assert s == [s[0]] + s[1..];
      InsertByStart(s[0], SortByStart(s[1..]))
  }

  /** The sort is stable: the events that start at any one instant keep their input order. */
  lemma {:induction false} SortByStartStable(s: seq<Shown>, t: int)
    ensures SameStart(SortByStart(s), t) == SameStart(s, t)
  {
    if s != [] {
      SortByStartStable(s[1..], t);
      InsertByStartStable(s[0], SortByStart(s[1..]), t);
      SameStartCons(s[0], s[1..], t);
      assert s == [s[0]] + s[1..];
    }
  }

  // ---------------------------------------------------------------- the whole pipeline

  /** The reference meaning of the processed events for a window and an ignore list. */
  ghost function Processed(all: seq<CalEvent>, viewStart: int, ignored: seq<string>): seq<Shown>
  {
    SortByStart(Flagged(Dedup(AnnotateAll(WindowEvents(all, viewStart))), ignored))
  }

  /** Every processed event meets the window: it starts before the week ends and ends after it begins. */
  lemma ProcessedInWindow(all: seq<CalEvent>, viewStart: int, ignored: seq<string>)
    ensures forall x :: x in Processed(all, viewStart, ignored) ==> x.start < AddDays(viewStart, WEEK_DAYS) && x.end > viewStart
  {
    var validEvents := WindowEvents(all, viewStart);
    var eventsWithSeverity := AnnotateAll(validEvents);
    var uniqueEvents := Dedup(eventsWithSeverity);
    var flagged := Flagged(uniqueEvents, ignored);
    var r := SortByStart(flagged);
    forall x | x in r ensures x.start < AddDays(viewStart, WEEK_DAYS) && x.end > viewStart {
      assert x in multiset(r);
      var k :| 0 <= k < |flagged| && flagged[k] == x;
      assert uniqueEvents[k] in eventsWithSeverity;
      var n :| 0 <= n < |eventsWithSeverity| && eventsWithSeverity[n] == uniqueEvents[k];
      assert validEvents[n] in validEvents;
    }
  }

  /** `processedEvents`: filter, annotate, deduplicate, flag conflicts, sort. */
  method ProcessEvents(all: seq<CalEvent>, viewStart: int, ignored: seq<string>) returns (r: seq<Shown>)
    ensures r == Processed(all, viewStart, ignored)
    ensures SortedByStart(r)
    ensures forall x :: x in r ==> x.start < AddDays(viewStart, WEEK_DAYS) && x.end > viewStart
  {
    var validEvents := WindowEvents(all, viewStart);
    var eventsWithSeverity := AnnotateAll(validEvents);
    var uniqueEvents := DedupBoundaries(eventsWithSeverity);
    var flagged := FlagConflicts(uniqueEvents, ignored);
    assert forall k :: 0 <= k < |uniqueEvents| ==> !uniqueEvents[k].isConflict by {
      forall k | 0 <= k < |uniqueEvents| ensures !uniqueEvents[k].isConflict {
        assert uniqueEvents[k] in eventsWithSeverity;
      }
    }
    assert flagged == Flagged(uniqueEvents, ignored);
    r := SortByStart(flagged);
    ProcessedInWindow(all, viewStart, ignored);
  }
}
