/**
  Catalog matching (app.py:101-124): every catalog entry is scored against
  the guessed side and the box count, the first entry with the highest score
  is kept, and it is reported when its score reaches the threshold 1;
  otherwise the result is "No suitable match found" with link "#".
*/
module Matcher {
  import opened Wrappers
  import opened RunningMax
  import opened Features

  /**
    A catalog entry as read from the JSON catalog. Every field the matcher
    reads may be absent. `hasOtherFields` records whether the entry has any
    key besides these (an id, a layout type, ...): Python treats an entry
    with no keys at all as false.
  */
  datatype Component = Component(
    side: Option<string>,
    minBoxes: Option<int>,
    maxBoxes: Option<int>,
    name: Option<string>,
    link: Option<string>,
    hasOtherFields: bool)

  const DefaultSide := "unknown"
  const DefaultMinBoxes := 0
  const DefaultMaxBoxes := 1000
  const MinMatchScore := 1
  const NoMatchName := "No suitable match found"
  const NoMatchLink := "#"

  /** An entry that is an empty JSON object. */
  predicate IsEmptyRecord(c: Component) {
    c.side.None? && c.minBoxes.None? && c.maxBoxes.None? && c.name.None? && c.link.None? && !c.hasOtherFields
  }

  /** Python's `str.lower()` on the ASCII letters. */
  function LowerChar(ch: char): char {
    if 'A' <= ch <= 'Z' then (ch as int - 'A' as int + 'a' as int) as char else ch
  }

  function Lower(s: string): (r: string)
    ensures |r| == |s|
    ensures forall i :: 0 <= i < |s| ==> r[i] == LowerChar(s[i])
  {
    seq(|s|, i requires 0 <= i < |s| => LowerChar(s[i]))
  }

  /** `component.get('dominant_side', 'unknown').lower()` */
  function SideOf(c: Component): string {
    Lower(c.side.GetOr(DefaultSide))
  }

  function MinBoxes(c: Component): int {
    c.minBoxes.GetOr(DefaultMinBoxes)
  }

  function MaxBoxes(c: Component): int {
    c.maxBoxes.GetOr(DefaultMaxBoxes)
  }

  /** The component sides each guess agrees with. */
  function AcceptedSides(g: Guess): set<string> {
    match g
    case Left => {"left"}
    case Right => {"right"}
    case Balanced => {"center", "balanced"}
  }

  /**
    The per-component score (app.py:103-109): 2 for side agreement plus 1
    for a box count inside [min_boxes, max_boxes]. The contract gives the
    side rule as a table of accepted sides, independent of the if/elif.
  */
  function Score(c: Component, g: Guess, boxCount: int): (r: int)
    ensures 0 <= r <= 3
    ensures r >= 2 <==> SideOf(c) in AcceptedSides(g)
    ensures r % 2 == 1 <==> MinBoxes(c) <= boxCount <= MaxBoxes(c)
  {
    var side := SideOf(c);
    var sideScore :=
      if g == Balanced && side in ["center", "balanced"] then 2
      else if GuessName(g) == side then 2
      else 0;
    sideScore + (if MinBoxes(c) <= boxCount <= MaxBoxes(c) then 1 else 0)
  }

  /** An entry without a side scores at most 1: the default "unknown" agrees with no guess. */
  lemma ScoreMissingSide(c: Component, g: Guess, boxCount: int)
    requires c.side.None?
    ensures Score(c, g, boxCount) <= 1
  {
    assert SideOf(c) == DefaultSide by {
      assert Lower(DefaultSide) == DefaultSide;
    }
  }

  /** Moving the box count into an entry's range from outside it raises the entry's score by exactly 1. */
  lemma ScoreEntersRange(c: Component, g: Guess, outside: int, inside: int)
    requires !(MinBoxes(c) <= outside <= MaxBoxes(c))
    requires MinBoxes(c) <= inside <= MaxBoxes(c)
    ensures Score(c, g, inside) == Score(c, g, outside) + 1
  {
  }

  function Scores(catalog: seq<Component>, g: Guess, boxCount: int): (r: seq<int>)
    ensures |r| == |catalog|
    ensures forall i :: 0 <= i < |catalog| ==> r[i] == Score(catalog[i], g, boxCount)
  {
    seq(|catalog|, i requires 0 <= i < |catalog| => Score(catalog[i], g, boxCount))
  }

  /** Entry `i` wins: the scan starting at -1 with a strict `>` update ends on it. */
  predicate IsWinner(catalog: seq<Component>, g: Guess, boxCount: int, i: nat) {
    IsFirstMaxAbove(Scores(catalog, g, boxCount), -1, i)
  }

  /**
    The loop at app.py:101-113: `best_score` starts at -1 and
    `best_match_component` is replaced only by a strictly higher score.
  */
  method SelectBest(catalog: seq<Component>, g: Guess, boxCount: int)
    returns (best: Option<Component>, bestScore: int)
    ensures best.None? <==> catalog == []
    ensures best.None? ==> bestScore == -1
    ensures Decide(best, bestScore) == MatchCatalog(catalog, g, boxCount)
    ensures best.Some? ==> exists i: nat :: IsWinner(catalog, g, boxCount, i)
                                      && best.value == catalog[i] && bestScore == Score(catalog[i], g, boxCount)
  {
    best, bestScore := None, -1;
    ghost var scores := Scores(catalog, g, boxCount);
    ghost var at: Option<nat> := None;
    for i := 0 to |catalog|
      invariant at == ArgMaxAbove(scores[..i], -1) && (at.Some? ==> at.value < i)
      invariant best == Pick(catalog, at) && bestScore == BestKey(scores, -1, at)
      invariant i > 0 ==> at.Some?
    {
      ArgMaxAboveStep(scores, -1, i);
      var component := catalog[i];
      var currentScore := Score(component, g, boxCount);
      if currentScore > bestScore {
        bestScore, best := currentScore, Some(component);
        at := Some(i);
      }
    }
    assert scores[..|catalog|] == scores;
    if at.Some? {
      assert IsWinner(catalog, g, boxCount, at.value);
    }
  }

  /** What the matching step reports. A missing `name` or `link` on the winner raises a KeyError. */
  datatype Verdict = Found(name: string, link: string) | NoSuitableMatch | MissingKey(key: string)

  /** app.py:115-122, given the surviving best entry and its score. */
  function Decide(best: Option<Component>, bestScore: int): Verdict {
    if best.Some? && !IsEmptyRecord(best.value) && bestScore >= MinMatchScore then
      if best.value.name.None? then MissingKey("name")
      else if best.value.link.None? then MissingKey("link")
      else Found(best.value.name.value, best.value.link.value)
    else
      NoSuitableMatch
  }

  /** The whole matching step as one function of the catalog, the guess and the box count. */
  function MatchCatalog(catalog: seq<Component>, g: Guess, boxCount: int): Verdict {
    var scores := Scores(catalog, g, boxCount);
    var at := ArgMaxAbove(scores, -1);
    Decide(Pick(catalog, at), BestKey(scores, -1, at))
  }

  /**
    The matching step decides on the winner alone, the first entry of maximal
    score: it reports the winner's name and link exactly when the winner
    scores at least 1, is not an empty record and has both keys; a winner
    that passes the threshold but lacks a key makes the step fail; any
    other winner gives no match.
  */
  lemma MatchCatalogWinner(catalog: seq<Component>, g: Guess, boxCount: int, i: nat)
    requires IsWinner(catalog, g, boxCount, i)
    ensures var c := catalog[i];
      MatchCatalog(catalog, g, boxCount).Found? <==>
        Score(c, g, boxCount) >= MinMatchScore && !IsEmptyRecord(c) && c.name.Some? && c.link.Some?
    ensures var c := catalog[i];
      MatchCatalog(catalog, g, boxCount).Found? ==> MatchCatalog(catalog, g, boxCount) == Found(c.name.value, c.link.value)
    ensures var c := catalog[i];
      MatchCatalog(catalog, g, boxCount).MissingKey? <==>
        Score(c, g, boxCount) >= MinMatchScore && !IsEmptyRecord(c) && (c.name.None? || c.link.None?)
  {
    ArgMaxAboveUnique(Scores(catalog, g, boxCount), -1, i);
  }

  /** A non-empty catalog always has a winner, since every score is at least 0 > -1. */
  lemma WinnerExists(catalog: seq<Component>, g: Guess, boxCount: int) returns (i: nat)
    requires catalog != []
    ensures IsWinner(catalog, g, boxCount, i)
  {
    var scores := Scores(catalog, g, boxCount);
    assert scores[0] > -1;
    i := ArgMaxAbove(scores, -1).value;
  }

  /** When no entry scores 1 or more (in particular, for an empty catalog) nothing is reported. */
  lemma NoMatchBelowThreshold(catalog: seq<Component>, g: Guess, boxCount: int)
    requires forall c :: c in catalog ==> Score(c, g, boxCount) < MinMatchScore
    ensures MatchCatalog(catalog, g, boxCount) == NoSuitableMatch
  {
    if catalog != [] {
      var i := WinnerExists(catalog, g, boxCount);
      MatchCatalogWinner(catalog, g, boxCount, i);
      assert catalog[i] in catalog;
    }
  }
}
