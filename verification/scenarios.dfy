/** Worked examples of the pipeline on a two-player roster. */
module Scenarios {
  import opened Seqs
  import opened Text
  import opened Roster
  import opened Home
  import opened PlayerList

  const Zara := Player("1", Given("Zara"), Bowler, Given(5), Missing)
  const Amit := Player("2", Given("Amit"), Batsman, Given(2), Missing)

  /** Selecting batsmen keeps only Amit. */
  lemma FilterBatsmen()
    ensures FilterByType([Zara, Amit], "batsman") == [Amit]
  {
    var r := FilterByType([Zara, Amit], "batsman");
    assert multiset(r) == multiset{Amit};
    assert |r| == 1 && r[0] in multiset(r);
  }

  /** "a" occurs in both names once lower-cased, so both stay, in their order. */
  lemma SearchLowerA()
    ensures SearchByName([Zara, Amit], "a") == [Zara, Amit]
  {
    assert Lower("a") == "a";
    assert Lower("Zara") == "zara";
    assert Lower("Amit") == "amit";
    assert StartsWith("ara", "a");
    assert StartsWith("amit", "a");
    assert NameMatches(Zara, "a");
    assert NameMatches(Amit, "a");
    FilterKeepsAllIff([Zara, Amit], p => NameMatches(p, "a"));
  }

  /** Sorting by rank puts Amit (2) before Zara (5). */
  lemma SortByRank(now: int, collate: (string, string) -> int)
    ensures SortPlayers([Zara, Amit], "rank", now, collate) == [Amit, Zara]
  {
  }

  /** Clearing the sort key shows the filtered players in roster order. */
  lemma ClearedSortKeepsRosterOrder(now: int, collate: (string, string) -> int)
    ensures Visible([Zara, Amit], Query("", "a", ""), now, collate) == [Zara, Amit]
  {
    SearchLowerA();
  }

  /** Page 3 of 25 players holds the last five, at positions 20 to 24. */
  lemma ThirdPageOfTwentyFive(players: seq<Player>)
    requires |players| == 25
    ensures CurrentPlayers(players, 3) == players[20..25]
    ensures |CurrentPlayers(players, 3)| == 5
    ensures PageCount(|players|) == 3
  {
  }

  /** An empty roster has no page buttons and an empty first page. */
  lemma EmptyRoster()
    ensures PageButtons([]) == []
    ensures CurrentPlayers([], 1) == []
  {
  }
}
