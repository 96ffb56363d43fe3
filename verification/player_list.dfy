/**
  The player list component: the page of players shown, the page buttons,
  and the highlighted sort button.
 */
module PlayerList {
  import opened Roster
  import opened SearchParams

  const PlayersPerPage: nat := 10

  function Min(a: int, b: int): int {
    if a <= b then a else b
  }

  /**
    The position a relative index argument of `Array.prototype.slice`
    designates in a sequence of length `len`: negative values count back
    from the end; the result is clamped to `0..len`.
   */
  function ResolveIndex(relative: int, len: nat): (k: nat)
    ensures k <= len
    ensures relative >= 0 ==> k == Min(relative, len)
    ensures relative < 0 ==> k == if len + relative < 0 then 0 else len + relative
  {
    if relative < 0 then (if len + relative < 0 then 0 else len + relative)
    else if relative < len then relative
    else len
  }

  /** `Array.prototype.slice(start, end)`: never fails, empty when the range is. */
  function Slice<T>(s: seq<T>, start: int, end: int): (r: seq<T>)
    ensures 0 <= start <= end ==> r == s[Min(start, |s|)..Min(end, |s|)]
    ensures 0 <= end <= start ==> r == []
  {
    var from := ResolveIndex(start, |s|);
    var to := ResolveIndex(end, |s|);
    if from < to then s[from..to] else []
  }

  /**
    `currentPlayers`: the players on page `currentPage` (1-based). At most one
    page's worth, and empty, without error, past the end of the list.
   */
  function CurrentPlayers(players: seq<Player>, currentPage: int): (r: seq<Player>)
    ensures |r| <= PlayersPerPage
    ensures currentPage >= 1 ==>
      r == players[Min((currentPage - 1) * PlayersPerPage, |players|)..Min(currentPage * PlayersPerPage, |players|)]
    ensures currentPage >= 1 && (currentPage - 1) * PlayersPerPage >= |players| ==> r == []
  {
    var indexOfLastPlayer := currentPage * PlayersPerPage;
    var indexOfFirstPlayer := indexOfLastPlayer - PlayersPerPage;
    Slice(players, indexOfFirstPlayer, indexOfLastPlayer)
  }

  /** `Math.ceil(n / playersPerPage)`: the fewest pages that hold `n` players. */
  function PageCount(n: nat): (c: nat)
    ensures c * PlayersPerPage >= n
    ensures c == 0 || (c - 1) * PlayersPerPage < n
    ensures c == 0 <==> n == 0
  {
    (n + PlayersPerPage - 1) / PlayersPerPage
  }

  /** The page numbers the page buttons select, in order. */
  function PageButtons(players: seq<Player>): (r: seq<int>)
    ensures |r| == PageCount(|players|)
    ensures forall i :: 0 <= i < |r| ==> r[i] == i + 1
    ensures forall i :: 0 <= i < |r| ==> 1 <= r[i] <= PageCount(|players|)
    ensures forall i :: 0 <= i < |r| ==> CurrentPlayers(players, r[i]) != []
  {
    seq(PageCount(|players|), index => index + 1)
  }

  /** Every player is shown on exactly the page the button at index `k / 10` selects, at position `k % 10`. */
  lemma EveryPlayerHasAButton(players: seq<Player>, k: int)
    requires 0 <= k < |players|
    ensures var buttons := PageButtons(players);
      && k / PlayersPerPage < |buttons|
      && k % PlayersPerPage < |CurrentPlayers(players, buttons[k / PlayersPerPage])|
      && CurrentPlayers(players, buttons[k / PlayersPerPage])[k % PlayersPerPage] == players[k]
  {
    var page := k / PlayersPerPage + 1;
    assert (page - 1) * PlayersPerPage <= k < page * PlayersPerPage;
  }

  /** The first `k` pages, one after the other. */
  function PagesUpTo(players: seq<Player>, k: nat): seq<Player> {
    if k == 0 then [] else PagesUpTo(players, k - 1) + CurrentPlayers(players, k)
  }

  /** The first `k` pages hold the first `k` pages' worth of players, in order. */
  lemma {:induction false} PagesUpToIsPrefix(players: seq<Player>, k: nat)
    ensures PagesUpTo(players, k) == players[..Min(k * PlayersPerPage, |players|)]
  {
    if k > 0 {
      PagesUpToIsPrefix(players, k - 1);
      var a := Min((k - 1) * PlayersPerPage, |players|);
      var b := Min(k * PlayersPerPage, |players|);
      assert players[..a] + players[a..b] == players[..b];
    }
  }

  /** All pages, one after the other, are the whole list: nothing is lost or repeated. */
  lemma AllPagesMakeTheList(players: seq<Player>)
    ensures PagesUpTo(players, PageCount(|players|)) == players
  {
    PagesUpToIsPrefix(players, PageCount(|players|));
  }

  // ---------------------------------------------------------------------------
  // Sort-button highlight

  /** `currentSort` on mount: the URL's `sort` value, or "" without one. */
  function InitialSort(params: Params): (s: string)
    ensures "sort" in params ==> s == params["sort"]
    ensures s == "" <==> !("sort" in params) || params["sort"] == ""
  {
    Get(params, "sort")
  }

  /** The effect on a URL change: adopt a non-empty `sort` value, otherwise keep the highlight. */
  function SyncSortFromUrl(currentSort: string, params: Params): (s: string)
    ensures Get(params, "sort") != "" ==> s == Get(params, "sort")
    ensures Get(params, "sort") == "" ==> s == currentSort
  {
    var sortParam := Get(params, "sort");
    if sortParam != "" then sortParam else currentSort
  }

  /** The effect does not change the highlight the URL seeded. */
  lemma SyncAfterMountIsNoOp(params: Params)
    ensures SyncSortFromUrl(InitialSort(params), params) == InitialSort(params)
  {
  }

  /** `handleSort`: clicking the highlighted button clears the highlight, any other highlights it. */
  function ToggleSort(currentSort: string, key: SortKey): (s: string)
    ensures s == "" <==> currentSort == KeyName(key)
    ensures s != "" ==> s == KeyName(key)
  {
    if currentSort == KeyName(key) then "" else KeyName(key)
  }

  /**
    Two clicks on one button restore the highlight only when it was on that
    button or on none; a highlight on another button ends up cleared.
   */
  lemma ToggleTwice(currentSort: string, key: SortKey)
    ensures ToggleSort(ToggleSort(currentSort, key), key) ==
      if currentSort == "" || currentSort == KeyName(key) then currentSort else ""
  {
  }
}
