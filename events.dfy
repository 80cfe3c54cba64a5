/**
 * The engine's data: calendar events as the application holds them, the
 * annotated copies shown for the current week, conflict pairs and their
 * string identity.
 */
module Events {

  import opened Optional
  import opened Seqs
  import Severity

  /** A JavaScript Date as the engine sees it: a valid instant, or a missing or unparseable one. */
  datatype Stamp = Invalid | At(ms: int)

  /**
   * An event of `allEvents`. `id` and `calendar` are strings, "" standing for
   * a missing value; a missing title is `None`.
   */
  datatype CalEvent = CalEvent(
    id: string,
    title: Option<string>,
    start: Stamp,
    end: Stamp,
    calendar: string,
    isBoundary: bool)

  /** A copy of an event with valid instants, annotated with its severity and the transient conflict flag. */
  datatype Shown = Shown(
    id: string,
    title: Option<string>,
    start: int,
    end: int,
    calendar: string,
    isBoundary: bool,
    severity: Severity.Level,
    isConflict: bool)

  /** An entry of the unresolved-conflict queue: two shown events, in window order. */
  datatype Pair = Pair(a: Shown, b: Shown)

  predicate HasValidDates(e: CalEvent)
  {
    e.start.At? && e.end.At?
  }

  /**
   * The date-parsing step after fetching: events whose start or end is
   * missing or unparseable are dropped, the others kept in order.
   */
  function ParseEvents(raw: seq<CalEvent>): (r: seq<CalEvent>)
    ensures forall e :: e in r <==> e in raw && HasValidDates(e)
    ensures forall i :: 0 <= i < |r| ==> HasValidDates(r[i])
    ensures Subseq(r, raw)
    ensures forall e :: multiset(r)[e] == if HasValidDates(e) then multiset(raw)[e] else 0
  {
    FilterIsSubseq(HasValidDates, raw);
    forall e ensures multiset(Filter(HasValidDates, raw))[e] == if HasValidDates(e) then multiset(raw)[e] else 0 {
      FilterCount(HasValidDates, raw, e);
    }
    Filter(HasValidDates, raw)
  }

  /** Strict interval overlap: touching endpoints do not overlap. */
  predicate Overlaps(a: Shown, b: Shown)
  {
    a.start < b.end && a.end > b.start
  }

  /** `Array.prototype.sort` on two strings: lexicographic order of their characters. */
  function LexLe(a: string, b: string): bool
  {
    if a == [] then true
    else if b == [] then false
    else if a[0] != b[0] then a[0] < b[0]
    else LexLe(a[1..], b[1..])
  }

  lemma {:induction false} LexTotal(a: string, b: string)
    ensures LexLe(a, b) || LexLe(b, a)
  {
    if a != [] && b != [] && a[0] == b[0] {
      LexTotal(a[1..], b[1..]);
    }
  }

  lemma {:induction false} LexAntisymmetric(a: string, b: string)
    requires LexLe(a, b) && LexLe(b, a)
    ensures a == b
  {
    if a != [] && b != [] {
      LexAntisymmetric(a[1..], b[1..]);
      assert a == [a[0]] + a[1..];
      assert b == [b[0]] + b[1..];
    }
  }

  /** The two ids sorted and joined with '|'. */
  function SortedJoin(x: string, y: string): string
  {
    if LexLe(x, y) then x + "|" + y else y + "|" + x
  }

  /** `getConflictId`: the identity of the pair of two events. */
  function ConflictId(a: Shown, b: Shown): string
  {
    SortedJoin(a.id, b.id)
  }

  /** The identity does not depend on the order of the two events. */
  lemma ConflictIdSymmetric(a: Shown, b: Shown)
    ensures ConflictId(a, b) == ConflictId(b, a)
  {
    LexTotal(a.id, b.id);
    if LexLe(a.id, b.id) && LexLe(b.id, a.id) {
      LexAntisymmetric(a.id, b.id);
    }
  }

  /** Splitting at a separator that occurs in neither left part recovers both parts. */
  lemma SplitAtSeparator(x1: string, y1: string, x2: string, y2: string)
    requires '|' !in x1 && '|' !in x2
    requires x1 + "|" + y1 == x2 + "|" + y2
    ensures x1 == x2 && y1 == y2
  {
    var s := x1 + "|" + y1;
    assert |x1| == |x2| by {
      assert s[|x1|] == '|' && (x2 + "|" + y2)[|x2|] == '|';
    }
    assert x1 == s[..|x1|] == x2;
    assert y1 == s[|x1| + 1..] == y2;
  }

  /** When no id contains '|', two pairs share an identity only if they are made of the same two ids. */
  lemma SortedJoinInjective(a: string, b: string, c: string, d: string)
    requires '|' !in a && '|' !in b && '|' !in c && '|' !in d
    requires SortedJoin(a, b) == SortedJoin(c, d)
    ensures (a == c && b == d) || (a == d && b == c)
  {
    var (x1, y1) := if LexLe(a, b) then (a, b) else (b, a);
    var (x2, y2) := if LexLe(c, d) then (c, d) else (d, c);
    SplitAtSeparator(x1, y1, x2, y2);
  }

  /** An id containing '|' lets two different pairs of ids share one identity. */
  lemma SortedJoinCollision()
    ensures "a|b" != "a" && SortedJoin("a|b", "c") == SortedJoin("a", "b|c")
  {
    assert LexLe("a", "a|b");
    assert LexLe("a|b", "c");
    assert LexLe("a", "b|c");
  }
}
