/**
 * The shelf-location metaphor (`determineShelfLocation`): a label chosen
 * from the number of distinct matched themes and the style subtotal.
 */
module Shelf {
  import opened Wrappers

  const SimilarVoiceOneOver := "One shelf over, similar voice"
  const AdjacentShelf := "Adjacent shelf"
  const KindredSpirit := "Nearby shelf, kindred spirit"
  const NearbyShelf := "Nearby shelf"
  const SameAisle := "Same aisle, different perspective"
  const SimilarVoiceElsewhere := "Different section, similar voice"
  const WorthExploring := "Worth exploring"

  /** The seven labels the metaphor can produce. */
  const Labels: set<string> :=
    {SimilarVoiceOneOver, AdjacentShelf, KindredSpirit, NearbyShelf, SameAisle, SimilarVoiceElsewhere, WorthExploring}

  /** The labels that credit the writing style. */
  const VoiceLabels: set<string> := {SimilarVoiceOneOver, KindredSpirit, SimilarVoiceElsewhere}

  /** The if-chain: first matching branch wins. */
  function DetermineShelfLocation(themeCount: int, styleScore: real): (loc: string)
    ensures loc in Labels
  {
    if themeCount == 1 && styleScore > 20.0 then SimilarVoiceOneOver
    else if themeCount == 1 then AdjacentShelf
    else if themeCount == 2 && styleScore > 15.0 then KindredSpirit
    else if themeCount == 2 then NearbyShelf
    else if themeCount == 3 then SameAisle
    else if styleScore > 25.0 then SimilarVoiceElsewhere
    else WorthExploring
  }

  /** One row of the decision table: an optional theme count, an optional style threshold, a location. */
  datatype Row = Row(themeCount: Option<int>, styleAbove: Option<real>, location: string)

  /** The decision table, in priority order; an absent condition matches anything. */
  const Table: seq<Row> := [
    Row(Some(1), Some(20.0), SimilarVoiceOneOver),
    Row(Some(1), None, AdjacentShelf),
    Row(Some(2), Some(15.0), KindredSpirit),
    Row(Some(2), None, NearbyShelf),
    Row(Some(3), None, SameAisle),
    Row(None, Some(25.0), SimilarVoiceElsewhere),
    Row(None, None, WorthExploring)
  ]

  predicate RowMatches(row: Row, themeCount: int, styleScore: real) {
    (row.themeCount.None? || row.themeCount.value == themeCount) &&
    (row.styleAbove.None? || styleScore > row.styleAbove.value)
  }

  /** The label of the first row that matches, if any does. */
  function FirstMatch(rows: seq<Row>, themeCount: int, styleScore: real): Option<string>
    decreases |rows|
  {
    if rows == [] then None
    else if RowMatches(rows[0], themeCount, styleScore) then Some(rows[0].location)
    else FirstMatch(rows[1..], themeCount, styleScore)
  }

  /** The if-chain is the decision table read first-match, and the table always matches. */
  lemma ShelfLocationIsTable(themeCount: int, styleScore: real)
    ensures FirstMatch(Table, themeCount, styleScore) == Some(DetermineShelfLocation(themeCount, styleScore))
  {
    var k, st := themeCount, styleScore;
    forall i | 0 <= i < |Table| ensures Table[i..][0] == Table[i] && Table[i..][1..] == Table[i + 1..] { }
    assert Table[7..] == [];
    assert FirstMatch(Table[5..], k, st) == if st > 25.0 then Some(SimilarVoiceElsewhere) else Some(WorthExploring);
    assert FirstMatch(Table[3..], k, st) ==
      if k == 2 then Some(NearbyShelf) else if k == 3 then Some(SameAisle) else FirstMatch(Table[5..], k, st);
    assert FirstMatch(Table[1..], k, st) ==
      if k == 1 then Some(AdjacentShelf) else if k == 2 && st > 15.0 then Some(KindredSpirit) else FirstMatch(Table[3..], k, st);
    assert Table[0..] == Table;
  }

  /** The label tells the theme count: one, two, three, or any other number. */
  lemma ShelfLocationByThemeCount(themeCount: int, styleScore: real)
    ensures var loc := DetermineShelfLocation(themeCount, styleScore);
      (loc in {SimilarVoiceOneOver, AdjacentShelf} <==> themeCount == 1) &&
      (loc in {KindredSpirit, NearbyShelf} <==> themeCount == 2) &&
      (loc == SameAisle <==> themeCount == 3) &&
      (loc in {SimilarVoiceElsewhere, WorthExploring} <==> themeCount !in {1, 2, 3})
  {
  }

  /**
   * A style label needs a style subtotal above 20 (one theme), above 15
   * (two themes) or above 25 (no theme, or four or more); three themes never get one.
   */
  lemma ShelfLocationVoice(themeCount: int, styleScore: real)
    ensures DetermineShelfLocation(themeCount, styleScore) in VoiceLabels <==>
      (themeCount == 1 && styleScore > 20.0) ||
      (themeCount == 2 && styleScore > 15.0) ||
      (themeCount !in {1, 2, 3} && styleScore > 25.0)
  {
  }

  /** A higher style subtotal never takes a style label away or changes the theme group. */
  lemma ShelfLocationStyleMonotone(themeCount: int, low: real, high: real)
    requires low <= high
    ensures DetermineShelfLocation(themeCount, low) in VoiceLabels ==>
      DetermineShelfLocation(themeCount, high) == DetermineShelfLocation(themeCount, low)
  {
  }
}
