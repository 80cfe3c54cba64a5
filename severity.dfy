/**
 * The severity classifier: an event title is lower-cased and searched for
 * whole keywords of three tiers, High before Medium before Low; a title that
 * matches none of them, an empty title and a missing title are Medium.
 */
module Severity {

  import opened Optional

  datatype Level = High | Medium | Low

  /** The order the conflict advisor compares severities by: High 3, Medium 2, Low 1. */
  function Rank(l: Level): (r: int)
    ensures 1 <= r <= 3
    ensures r == 3 <==> l == High
    ensures r == 1 <==> l == Low
  {
    match l
    case High => 3
    case Medium => 2
    case Low => 1
  }

  const HIGH_WORDS: seq<string> := ["client", "interview", "deadline", "presentation", "review", "qbr"]
  const MEDIUM_WORDS: seq<string> := ["planning", "apollo", "brainstorm", "session", "workshop"]
  const LOW_WORDS: seq<string> := ["standup", "sync", "catch-up", "team", "internal", "follow up"]

  /** Lower-casing of one character (ASCII letters only). */
  function LowerChar(c: char): char
  {
    if 'A' <= c <= 'Z' then (c as int - 'A' as int + 'a' as int) as char else c
  }

  function Lower(s: string): (r: string)
    ensures |r| == |s|
    ensures forall i :: 0 <= i < |s| ==> r[i] == LowerChar(s[i])
  {
    seq(|s|, i requires 0 <= i < |s| => LowerChar(s[i]))
  }

  /** A character of the regular-expression class \w. */
  predicate IsWordChar(c: char)
  {
    ('a' <= c <= 'z') || ('A' <= c <= 'Z') || ('0' <= c <= '9') || c == '_'
  }

  /** Whether position `p` of `s` holds a word character; outside the string there is none. */
  predicate WordAt(s: string, p: int)
  {
    0 <= p < |s| && IsWordChar(s[p])
  }

  /** The \b assertion at position `p`: a word character on exactly one side. */
  predicate BoundaryAt(s: string, p: int)
  {
    WordAt(s, p - 1) != WordAt(s, p)
  }

  /** `w` occurs in `s` at position `i`, delimited by word boundaries on both sides. */
  predicate MatchAt(s: string, w: string, i: int)
  {
    0 <= i && i + |w| <= |s| && s[i..i + |w|] == w && BoundaryAt(s, i) && BoundaryAt(s, i + |w|)
  }

  /** Reference meaning of a whole-word match: some position matches. */
  ghost predicate HasWord(s: string, w: string)
  {
    exists i :: MatchAt(s, w, i)
  }

  /** Reference meaning of one regular expression `\b(w1|w2|...)\b`: some keyword matches. */
  ghost predicate HasAnyWord(s: string, ws: seq<string>)
  {
    exists k :: 0 <= k < |ws| && HasWord(s, ws[k])
  }

  /** The left-to-right scan a regular-expression engine performs for one keyword. */
  function FindFrom(s: string, w: string, i: nat): (found: bool)
    decreases |s| - i
    ensures found <==> exists j :: i <= j && MatchAt(s, w, j)
  {
    if i + |w| > |s| then
      assert forall j :: i <= j ==> !MatchAt(s, w, j);
      false
    else if MatchAt(s, w, i) then
      true
    else
      var rest := FindFrom(s, w, i + 1);
      assert forall j :: i <= j ==> (MatchAt(s, w, j) <==> (j == i && MatchAt(s, w, i)) || (i + 1 <= j && MatchAt(s, w, j)));
      rest
  }

  /** Tries the alternatives of the regular expression; true when some keyword matches. */
  function TestAny(s: string, ws: seq<string>): (found: bool)
    ensures found <==> HasAnyWord(s, ws)
  {
    if ws == [] then
      false
    else
      var here := FindFrom(s, ws[0], 0);
      var rest := TestAny(s, ws[1..]);
      assert HasAnyWord(s, ws) <==> HasWord(s, ws[0]) || HasAnyWord(s, ws[1..]) by {
        if HasAnyWord(s, ws[1..]) {
          var k :| 0 <= k < |ws[1..]| && HasWord(s, ws[1..][k]);
          assert HasWord(s, ws[k + 1]);
        }
        if HasAnyWord(s, ws) {
          var k :| 0 <= k < |ws| && HasWord(s, ws[k]);
          if k > 0 { assert HasWord(s, ws[1..][k - 1]); }
        }
      }
      here || rest
  }

  /** The text the classifier searches: the lower-cased title, or "" when the title is missing or empty. */
  function SearchText(title: Option<string>): string
  {
    match title
    case None => ""
    case Some(t) => Lower(t)
  }

  /** `getEventSeverity`: the first tier whose regular expression matches wins; Medium by default. */
  function Classify(title: Option<string>): Level
  {
    var s := SearchText(title);
    if TestAny(s, HIGH_WORDS) then High
    else if TestAny(s, MEDIUM_WORDS) then Medium
    else if TestAny(s, LOW_WORDS) then Low
    else Medium
  }

  /** The three tiers in priority order, against the reference meaning of a match. */
  lemma ClassifyMeaning(title: Option<string>)
    ensures var s := SearchText(title);
      && (Classify(title) == High <==> HasAnyWord(s, HIGH_WORDS))
      && (Classify(title) == Low <==> !HasAnyWord(s, HIGH_WORDS) && !HasAnyWord(s, MEDIUM_WORDS) && HasAnyWord(s, LOW_WORDS))
      && (Classify(title) == Medium <==>
            !HasAnyWord(s, HIGH_WORDS) && (HasAnyWord(s, MEDIUM_WORDS) || !HasAnyWord(s, LOW_WORDS)))
  {
  }

  /** A title containing a High keyword is High whatever else it contains. */
  lemma HighWins(t: string, k: nat, i: int)
    requires k < |HIGH_WORDS| && MatchAt(Lower(t), HIGH_WORDS[k], i)
    ensures Classify(Some(t)) == High
  {
    assert HasWord(Lower(t), HIGH_WORDS[k]);
  }

  /** A Medium keyword beats any Low keyword when no High keyword is present. */
  lemma MediumBeatsLow(t: string, k: nat, i: int)
    requires k < |MEDIUM_WORDS| && MatchAt(Lower(t), MEDIUM_WORDS[k], i)
    requires !HasAnyWord(Lower(t), HIGH_WORDS)
    ensures Classify(Some(t)) == Medium
  {
    assert HasWord(Lower(t), MEDIUM_WORDS[k]);
  }

  /** Nothing matches in the empty text, so empty and missing titles are Medium. */
  lemma EmptyTitleIsMedium(title: Option<string>)
    requires title == None || title == Some("")
    ensures Classify(title) == Medium
  {
    var s := SearchText(title);
    assert s == [];
    forall ws: seq<string>, k | 0 <= k < |ws| ensures !HasWord(s, ws[k]) {
      assert forall i :: !MatchAt(s, ws[k], i);
    }
  }

  lemma LowerIdempotent(t: string)
    ensures Lower(Lower(t)) == Lower(t)
  {
  }

  /** Matching ignores case: titles equal up to ASCII case get the same severity. */
  lemma CaseInsensitive(t1: string, t2: string)
    requires Lower(t1) == Lower(t2)
    ensures Classify(Some(t1)) == Classify(Some(t2))
  {
  }

  /** Lower-casing a title first does not change its severity. */
  lemma ClassifyLowered(t: string)
    ensures Classify(Some(Lower(t))) == Classify(Some(t))
  {
    LowerIdempotent(t);
  }

  /** A keyword cannot match where its first character does not occur. */
  lemma AbsentFirstChar(s: string, w: string)
    requires |w| > 0 && forall j :: 0 <= j < |s| ==> s[j] != w[0]
    ensures !HasWord(s, w)
  {
  }

  /** "Client Call" is High. */
  lemma ClientCallIsHigh()
    ensures Classify(Some("Client Call")) == High
  {
    var c := Lower("Client Call");
    assert c[..6] == "client";
    assert MatchAt(c, HIGH_WORDS[0], 0);
    HighWins("Client Call", 0, 0);
  }

  /** A keyword cannot match where its first two characters never occur together. */
  lemma AbsentFirstPair(s: string, w: string)
    requires |w| > 1 && forall j :: 0 <= j < |s| - 1 ==> !(s[j] == w[0] && s[j + 1] == w[1])
    ensures !HasWord(s, w)
  {
    forall i ensures !MatchAt(s, w, i) {
      if 0 <= i && i + |w| <= |s| {
        assert s[i..i + |w|][0] == s[i];
        assert s[i..i + |w|][1] == s[i + 1];
      }
    }
  }

  lemma StandupHasNoHighWord()
    ensures !HasAnyWord("standup", HIGH_WORDS)
  {
    var u := "standup";
    AbsentFirstChar(u, "client");
    AbsentFirstChar(u, "interview");
    AbsentFirstChar(u, "review");
    AbsentFirstChar(u, "qbr");
    forall k | 0 <= k < |HIGH_WORDS| ensures !HasWord(u, HIGH_WORDS[k]) {
      if k == 2 || k == 3 {
        assert |HIGH_WORDS[k]| > |u|;
      }
    }
  }

  lemma StandupHasNoMediumWord()
    ensures !HasAnyWord("standup", MEDIUM_WORDS)
  {
    var u := "standup";
    AbsentFirstChar(u, "brainstorm");
    AbsentFirstChar(u, "workshop");
    AbsentFirstPair(u, "apollo");
    AbsentFirstPair(u, "session");
    forall k | 0 <= k < |MEDIUM_WORDS| ensures !HasWord(u, MEDIUM_WORDS[k]) {
      if k == 0 {
        assert |MEDIUM_WORDS[k]| > |u|;
      }
    }
  }

  /** "Standup" is Low: it holds the Low keyword "standup" and no High or Medium keyword. */
  lemma StandupIsLow()
    ensures Classify(Some("Standup")) == Low
  {
    var u := Lower("Standup");
    assert u == "standup";
    assert MatchAt(u, LOW_WORDS[0], 0);
    assert HasWord(u, LOW_WORDS[0]);
    StandupHasNoHighWord();
    StandupHasNoMediumWord();
  }
}
