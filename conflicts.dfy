/**
 * The conflict-detection pass over the processed events: every pair of
 * flagged events that strictly overlap, whose identity is neither ignored
 * nor already queued, is collected in row order, and the batch is appended
 * to the unresolved queue, skipping identities the queue already holds.
 */
module Conflicts {

  import opened Seqs
  import opened Events
  import Optional
  import Severity

  /** The identity of a queued pair. */
  function PairId(x: Pair): string
  {
    ConflictId(x.a, x.b)
  }

  /** The identities of the queued pairs, in queue order. */
  function QueueIds(queue: seq<Pair>): (r: seq<string>)
    ensures |r| == |queue|
    ensures forall k :: 0 <= k < |queue| ==> r[k] == PairId(queue[k])
  {
    seq(|queue|, k requires 0 <= k < |queue| => PairId(queue[k]))
  }

  /** The test of the detection loops for the pair at positions i < j. */
  predicate Candidate(p: seq<Shown>, i: int, j: int, ignored: seq<string>, queued: seq<string>)
    requires 0 <= i < |p| && 0 <= j < |p|
  {
    p[i].isConflict && p[j].isConflict && p[i].start < p[j].end && p[i].end > p[j].start
    && ConflictId(p[i], p[j]) !in ignored && ConflictId(p[i], p[j]) !in queued
  }

  /** The pairs the inner loop collects for row `i` from columns i+1 up to (excluding) `j`. */
  function RowUpTo(p: seq<Shown>, i: int, j: int, ignored: seq<string>, queued: seq<string>): seq<Pair>
    requires 0 <= i < |p| && j <= |p|
    decreases j
  {
    if j <= i + 1 then
      []
    else
      var found := if Candidate(p, i, j - 1, ignored, queued) then [Pair(p[i], p[j - 1])] else [];
      RowUpTo(p, i, j - 1, ignored, queued) + found
  }

  /** The pairs the loops collect over rows 0 up to (excluding) `n`. */
  function BatchUpTo(p: seq<Shown>, n: int, ignored: seq<string>, queued: seq<string>): seq<Pair>
    requires n <= |p|
    decreases n
  {
    if n <= 0 then []
    else BatchUpTo(p, n - 1, ignored, queued) + RowUpTo(p, n - 1, |p|, ignored, queued)
  }

  /** The whole batch of one detection pass. */
  function Batch(p: seq<Shown>, ignored: seq<string>, queued: seq<string>): seq<Pair>
  {
    BatchUpTo(p, |p|, ignored, queued)
  }

  /** The detection loops over rows i < |p| - 1 and columns j > i. */
  method CollectConflicts(p: seq<Shown>, ignored: seq<string>, queue: seq<Pair>) returns (conflicts: seq<Pair>)
    ensures conflicts == Batch(p, ignored, QueueIds(queue))
  {
    var queued := QueueIds(queue);
    conflicts := [];
    var i := 0;
    while i < |p| - 1
      invariant 0 <= i <= |p|
      invariant conflicts == BatchUpTo(p, i, ignored, queued)
    {
      var j := i + 1;
      while j < |p|
        invariant i + 1 <= j <= |p|
        invariant conflicts == BatchUpTo(p, i, ignored, queued) + RowUpTo(p, i, j, ignored, queued)
      {
        var eventA, eventB := p[i], p[j];
        if eventA.isConflict && eventB.isConflict && eventA.start < eventB.end && eventA.end > eventB.start {
          var conflictId := ConflictId(eventA, eventB);
          if conflictId !in ignored && conflictId !in queued {
            conflicts := conflicts + [Pair(eventA, eventB)];
          }
        }
        j := j + 1;
      }
      i := i + 1;
    }
    LastRowEmpty(p, i, ignored, queued);
  }

  /** Rows from |p| - 1 on contribute nothing, so stopping there collects the whole batch. */
  lemma LastRowEmpty(p: seq<Shown>, i: int, ignored: seq<string>, queued: seq<string>)
    requires 0 <= i <= |p| && i >= |p| - 1
    ensures BatchUpTo(p, i, ignored, queued) == Batch(p, ignored, queued)
  {
    if i < |p| {
      assert RowUpTo(p, i, |p|, ignored, queued) == [];
    }
  }

  /** A row holds exactly the candidate pairs (i, k) with i < k < j. */
  lemma {:induction false} RowMembers(p: seq<Shown>, i: int, j: int, ignored: seq<string>, queued: seq<string>)
    requires 0 <= i < |p| && j <= |p|
    ensures forall x :: x in RowUpTo(p, i, j, ignored, queued) <==>
      exists k :: i < k < j && Candidate(p, i, k, ignored, queued) && x == Pair(p[i], p[k])
    decreases j
  {
    if j > i + 1 {
      RowMembers(p, i, j - 1, ignored, queued);
    }
  }

  /** The batch holds exactly the candidate pairs (i, j), i < j, of the rows before `n`. */
  lemma {:induction false} BatchMembers(p: seq<Shown>, n: int, ignored: seq<string>, queued: seq<string>)
    requires n <= |p|
    ensures forall x :: x in BatchUpTo(p, n, ignored, queued) <==>
      exists i, j :: 0 <= i < n && i < j < |p| && Candidate(p, i, j, ignored, queued) && x == Pair(p[i], p[j])
    decreases n
  {
    if n > 0 {
      BatchMembers(p, n - 1, ignored, queued);
      RowMembers(p, n - 1, |p|, ignored, queued);
    }
  }

  /**
   * A pair is collected exactly when both events are flagged, they strictly
   * overlap, and its identity is neither ignored nor queued.
   */
  lemma BatchMeaning(p: seq<Shown>, ignored: seq<string>, queue: seq<Pair>)
    ensures forall x :: x in Batch(p, ignored, QueueIds(queue)) <==>
      exists i, j :: 0 <= i < j < |p| && x == Pair(p[i], p[j])
        && p[i].isConflict && p[j].isConflict && Overlaps(p[i], p[j])
        && PairId(x) !in ignored && PairId(x) !in QueueIds(queue)
  {
    BatchMembers(p, |p|, ignored, QueueIds(queue));
  }

  /** The ids of a window: pairwise distinct, and none holds the '|' separator. */
  predicate WellKeyed(p: seq<Shown>)
  {
    (forall i, j :: 0 <= i < j < |p| ==> p[i].id != p[j].id)
    && forall i :: 0 <= i < |p| ==> '|' !in p[i].id
  }

  /** No identity occurs twice. */
  predicate DistinctIds(q: seq<Pair>)
  {
    forall k, l :: 0 <= k < l < |q| ==> PairId(q[k]) != PairId(q[l])
  }

  /** Two pairs of positions i < j and i' < j' of a well-keyed window share an identity only if they are the same positions. */
  lemma SamePositions(p: seq<Shown>, i: int, j: int, i': int, j': int)
    requires WellKeyed(p)
    requires 0 <= i < j < |p| && 0 <= i' < j' < |p|
    requires ConflictId(p[i], p[j]) == ConflictId(p[i'], p[j'])
    ensures i == i' && j == j'
  {
    SortedJoinInjective(p[i].id, p[j].id, p[i'].id, p[j'].id);
  }

  lemma {:induction false} RowDistinct(p: seq<Shown>, i: int, j: int, ignored: seq<string>, queued: seq<string>)
    requires WellKeyed(p)
    requires 0 <= i < |p| && j <= |p|
    ensures DistinctIds(RowUpTo(p, i, j, ignored, queued))
    decreases j
  {
    if j > i + 1 {
      RowDistinct(p, i, j - 1, ignored, queued);
      RowMembers(p, i, j - 1, ignored, queued);
      var r := RowUpTo(p, i, j - 1, ignored, queued);
      if Candidate(p, i, j - 1, ignored, queued) {
        forall k | 0 <= k < |r| ensures PairId(r[k]) != ConflictId(p[i], p[j - 1]) {
          assert r[k] in r;
          var m :| i < m < j - 1 && Candidate(p, i, m, ignored, queued) && r[k] == Pair(p[i], p[m]);
          if PairId(r[k]) == ConflictId(p[i], p[j - 1]) {
            SamePositions(p, i, m, i, j - 1);
          }
        }
      }
    }
  }

  lemma {:induction false} BatchDistinct(p: seq<Shown>, n: int, ignored: seq<string>, queued: seq<string>)
    requires WellKeyed(p)
    requires n <= |p|
    ensures DistinctIds(BatchUpTo(p, n, ignored, queued))
    decreases n
  {
    if n > 0 {
      BatchDistinct(p, n - 1, ignored, queued);
      BatchMembers(p, n - 1, ignored, queued);
      RowDistinct(p, n - 1, |p|, ignored, queued);
      RowMembers(p, n - 1, |p|, ignored, queued);
      var b := BatchUpTo(p, n - 1, ignored, queued);
      var r := RowUpTo(p, n - 1, |p|, ignored, queued);
      forall k, l | 0 <= k < |b| && 0 <= l < |r| ensures PairId(b[k]) != PairId(r[l]) {
        assert b[k] in b && r[l] in r;
        var i, j :| 0 <= i < n - 1 && i < j < |p| && Candidate(p, i, j, ignored, queued) && b[k] == Pair(p[i], p[j]);
        var m :| n - 1 < m < |p| && Candidate(p, n - 1, m, ignored, queued) && r[l] == Pair(p[n - 1], p[m]);
        if PairId(b[k]) == PairId(r[l]) {
          SamePositions(p, i, j, n - 1, m);
        }
      }
    }
  }

  /**
   * The state update of the effect: the batch, cleared of identities the
   * queue already holds, is appended; an empty batch changes nothing.
   */
  function Enqueue(queue: seq<Pair>, conflicts: seq<Pair>): (r: seq<Pair>)
    ensures queue <= r
    ensures forall x :: x in r[|queue|..] <==> x in conflicts && PairId(x) !in QueueIds(queue)
    ensures Subseq(r[|queue|..], conflicts)
    ensures forall x :: multiset(r[|queue|..])[x] == if PairId(x) !in QueueIds(queue) then multiset(conflicts)[x] else 0
  {
    if |conflicts| > 0 then
      var existing := QueueIds(queue);
      var keep := (x: Pair) => PairId(x) !in existing;
      var added := Filter(keep, conflicts);
      FilterIsSubseq(keep, conflicts);
      forall x ensures multiset(added)[x] == if PairId(x) !in existing then multiset(conflicts)[x] else 0 {
        FilterCount(keep, conflicts, x);
      }
      assert (queue + added)[|queue|..] == added;
      queue + added
    else
      queue
  }

  /**
   * One run of the effect keeps the queue free of repeated identities when
   * the window is well keyed, and every pair it adds has an identity that
   * is not ignored and strictly overlapping, flagged events.
   */
  lemma RefreshKeepsQueue(p: seq<Shown>, ignored: seq<string>, queue: seq<Pair>)
    requires WellKeyed(p) && DistinctIds(queue)
    ensures var q := Enqueue(queue, Batch(p, ignored, QueueIds(queue)));
      DistinctIds(q)
      && forall k :: |queue| <= k < |q| ==>
        PairId(q[k]) !in ignored && q[k].a.isConflict && q[k].b.isConflict && Overlaps(q[k].a, q[k].b)
  {
    var b := Batch(p, ignored, QueueIds(queue));
    var q := Enqueue(queue, b);
    BatchMeaning(p, ignored, queue);
    BatchDistinct(p, |p|, ignored, QueueIds(queue));
    if |b| > 0 {
      var existing := QueueIds(queue);
      var added := Filter((x: Pair) => PairId(x) !in existing, b);
      assert q == queue + added;
      FilterIsSubseq((x: Pair) => PairId(x) !in existing, b);
      SubseqDistinct(added, b);
      forall k, l | 0 <= k < l < |q| ensures PairId(q[k]) != PairId(q[l]) {
        if l >= |queue| && k < |queue| {
          assert q[l] in added;
          assert PairId(q[k]) in existing;
        } else if k >= |queue| {
          assert q[k] == added[k - |queue|] && q[l] == added[l - |queue|];
        }
      }
      forall k | |queue| <= k < |q|
        ensures PairId(q[k]) !in ignored && q[k].a.isConflict && q[k].b.isConflict && Overlaps(q[k].a, q[k].b)
      {
        assert q[k] in added;
      }
    }
  }

  /** Deleting pairs keeps the identities distinct. */
  lemma {:induction false} SubseqDistinct(a: seq<Pair>, b: seq<Pair>)
    requires Subseq(a, b) && DistinctIds(b)
    ensures DistinctIds(a)
    decreases |b|
  {
    if a != [] && b != [] {
      if a[0] == b[0] {
        SubseqDistinct(a[1..], b[1..]);
        forall l | 0 < l < |a| ensures PairId(a[0]) != PairId(a[l]) {
          SubseqMember(a[1..], b[1..], l - 1);
          var m :| 0 <= m < |b[1..]| && b[1..][m] == a[l];
          assert b[m + 1] == a[l];
        }
      } else {
        SubseqDistinct(a, b[1..]);
      }
    }
  }

  /** Every element of a subsequence occurs in the sequence. */
  lemma {:induction false} SubseqMember(a: seq<Pair>, b: seq<Pair>, k: int)
    requires Subseq(a, b) && 0 <= k < |a|
    ensures a[k] in b
    decreases |b|
  {
    if a[0] == b[0] {
      if k > 0 {
        SubseqMember(a[1..], b[1..], k - 1);
      }
    } else {
      SubseqMember(a, b[1..], k);
    }
  }

  const EVENT_X: Shown := Shown("x", Optional.None, 0, 10, "Google", false, Severity.Medium, true)
  const EVENT_Y: Shown := Shown("y", Optional.None, 0, 10, "Outlook", false, Severity.Medium, true)

  /**
   * Without distinct ids the batch can repeat an identity: two overlapping
   * copies of "x" around one "y" yield the identity "x|y" twice.
   */
  lemma RepeatedIdsRepeatPairs()
    ensures var p := [EVENT_X, EVENT_Y, EVENT_X];
      var b := Batch(p, [], []);
      |b| == 3 && PairId(b[0]) == PairId(b[2]) == "x|y"
  {
    var p := [EVENT_X, EVENT_Y, EVENT_X];
    assert LexLe("x", "y");
    assert ConflictId(EVENT_X, EVENT_Y) == "x|y";
    assert ConflictId(EVENT_Y, EVENT_X) == "x|y";
    assert RowUpTo(p, 0, 3, [], []) == [Pair(EVENT_X, EVENT_Y), Pair(EVENT_X, EVENT_X)];
    assert RowUpTo(p, 1, 3, [], []) == [Pair(EVENT_Y, EVENT_X)];
    assert RowUpTo(p, 2, 3, [], []) == [];
  }
}
