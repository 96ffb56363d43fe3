/**
  The roster query pipeline of the home page: filter by category, filter by
  name, sort by a key, all recomputed from the full player list whenever the
  query changes; plus the query state and its mirror in the URL.
 */
module Home {
  import opened Seqs
  import opened Sorting
  import opened Text
  import opened Roster
  import opened SearchParams

  // ---------------------------------------------------------------------------
  // Category filter

  predicate HasType(p: Player, selectedType: string) {
    TypeName(p.kind) == selectedType
  }

  /** Keeps the players of the selected category; an empty selection keeps everyone. */
  function FilterByType(players: seq<Player>, selectedType: string): (r: seq<Player>)
    ensures selectedType == "" ==> r == players
    ensures selectedType != "" ==> IsSubsequence(r, players)
    ensures selectedType != "" ==> forall i :: 0 <= i < |r| ==> HasType(r[i], selectedType)
    ensures selectedType != "" ==>
      forall p :: multiset(r)[p] == if HasType(p, selectedType) then multiset(players)[p] else 0
  {
    if selectedType != "" then Filter(players, p => HasType(p, selectedType)) else players
  }

  /** Filtering by the same category twice is filtering once. */
  lemma FilterByTypeIdempotent(players: seq<Player>, selectedType: string)
    ensures FilterByType(FilterByType(players, selectedType), selectedType) == FilterByType(players, selectedType)
  {
    if selectedType != "" {
      FilterKeepsAllIff(FilterByType(players, selectedType), p => HasType(p, selectedType));
    }
  }

  /** A non-empty category no player type has (an unknown URL value) selects nobody. */
  lemma UnknownTypeSelectsNobody(players: seq<Player>, selectedType: string)
    requires selectedType != ""
    requires forall t :: TypeName(t) != selectedType
    ensures FilterByType(players, selectedType) == []
  {
    FilterDropsAllIff(players, p => HasType(p, selectedType));
  }

  // ---------------------------------------------------------------------------
  // Name search

  /** The player has a name that contains `query`, ignoring case. */
  predicate NameMatches(p: Player, query: string) {
    p.name.Given? && Contains(Lower(p.name.value), Lower(query))
  }

  /** Keeps the players whose name contains the query, ignoring case; an empty query keeps everyone. */
  function SearchByName(players: seq<Player>, query: string): (r: seq<Player>)
    ensures query == "" ==> r == players
    ensures query != "" ==> IsSubsequence(r, players)
    ensures query != "" ==> forall i :: 0 <= i < |r| ==> NameMatches(r[i], query)
    ensures query != "" ==>
      forall p :: multiset(r)[p] == if NameMatches(p, query) then multiset(players)[p] else 0
  {
    if query != "" then Filter(players, p => NameMatches(p, query)) else players
  }

  /** Queries that differ only in letter case select the same players. */
  lemma SearchIgnoresCase(players: seq<Player>, q1: string, q2: string)
    requires q1 != "" && q2 != ""
    requires Lower(q1) == Lower(q2)
    ensures SearchByName(players, q1) == SearchByName(players, q2)
  {
    FilterExtensional(players, p => NameMatches(p, q1), p => NameMatches(p, q2));
  }

  /** Searching twice for the same query is searching once. */
  lemma SearchIdempotent(players: seq<Player>, query: string)
    ensures SearchByName(SearchByName(players, query), query) == SearchByName(players, query)
  {
    if query != "" {
      FilterKeepsAllIff(SearchByName(players, query), p => NameMatches(p, query));
    }
  }

  // ---------------------------------------------------------------------------
  // Sorting

  /** The comparator a `sort` URL value selects: "name", "rank", and everything else by age. */
  function KeyOf(sortBy: string): (k: SortKey)
    ensures k == ByName <==> sortBy == "name"
    ensures k == ByRank <==> sortBy == "rank"
  {
    if sortBy == "name" then ByName
    else if sortBy == "rank" then ByRank
    else ByAge
  }

  /** A sort key read back from its URL value is the same key. */
  lemma KeyOfKeyName(k: SortKey)
    ensures KeyOf(KeyName(k)) == k
  {
  }

  /** `a.name || ''`. */
  function NameKey(p: Player): string {
    Or(p.name, "")
  }

  /** `a.rank || 0`. */
  function RankKey(p: Player): int {
    Or(p.rank, 0)
  }

  /** `getAge(dob)`: zero for a falsy (missing or zero) date of birth, else the time since birth. */
  function AgeKey(p: Player, now: int): int {
    if p.dob.Missing? || p.dob.value == 0 then 0 else now - p.dob.value
  }

  /** The comparator passed to `sort`; `collate` stands for `String.prototype.localeCompare`. */
  function Compare(key: SortKey, now: int, collate: (string, string) -> int, a: Player, b: Player): int {
    match key
    case ByName => collate(NameKey(a), NameKey(b))
    case ByRank => RankKey(a) - RankKey(b)
    case ByAge => AgeKey(a, now) - AgeKey(b, now)
  }

  /** `collate` orders strings totally and transitively, as a consistent comparator must. */
  ghost predicate ConsistentCollation(collate: (string, string) -> int) {
    && (forall x, y :: collate(x, y) <= 0 || collate(y, x) <= 0)
    && (forall x, y, z :: collate(x, y) <= 0 && collate(y, z) <= 0 ==> collate(x, z) <= 0)
  }

  /**
    `a` may come before `b`: the comparator does not put `b` first. The rank
    and age comparators always give a total preorder; the name comparator
    does when collation is consistent.
   */
  function Order(key: SortKey, now: int, collate: (string, string) -> int): (le: (Player, Player) -> bool)
    requires key == ByName ==> ConsistentCollation(collate)
    ensures TotalPreorder(le)
  {
    (a: Player, b: Player) => Compare(key, now, collate, a, b) <= 0
  }

  /**
    `sortPlayers`: a stable ascending sort of a copy of `players` under the
    comparator `sortBy` selects.
   */
  function SortPlayers(players: seq<Player>, sortBy: string, now: int, collate: (string, string) -> int): (r: seq<Player>)
    requires sortBy == "name" ==> ConsistentCollation(collate)
    ensures multiset(r) == multiset(players)
    ensures forall i, j :: 0 <= i < j < |r| ==> Compare(KeyOf(sortBy), now, collate, r[i], r[j]) <= 0
    ensures forall p :: Ties(r, p, Order(KeyOf(sortBy), now, collate)) == Ties(players, p, Order(KeyOf(sortBy), now, collate))
  {
    Sort(players, Order(KeyOf(sortBy), now, collate))
  }

  /** Sorting an already sorted list by the same key changes nothing. */
  lemma SortPlayersIdempotent(players: seq<Player>, sortBy: string, now: int, collate: (string, string) -> int)
    requires sortBy == "name" ==> ConsistentCollation(collate)
    ensures SortPlayers(SortPlayers(players, sortBy, now, collate), sortBy, now, collate)
      == SortPlayers(players, sortBy, now, collate)
  {
    SortIdempotent(players, Order(KeyOf(sortBy), now, collate));
  }

  /** Sorting by rank: a missing rank counts as 0, so unranked players never follow a positively ranked one. */
  lemma RankSortPutsUnrankedFirst(players: seq<Player>, now: int, collate: (string, string) -> int)
    ensures var r := SortPlayers(players, "rank", now, collate);
      forall i, j :: 0 <= i < j < |r| && (r[j].rank.Missing? || r[j].rank.value == 0) ==>
        !(r[i].rank.Given? && r[i].rank.value > 0)
  {
  }

  /**
    Sorting by any key other than "name" and "rank" sorts by age: known birth
    dates from latest to earliest, and unknown ones ahead of anyone born
    before `now`.
   */
  lemma AgeSortYoungestFirst(players: seq<Player>, sortBy: string, now: int, collate: (string, string) -> int)
    requires sortBy != "name" && sortBy != "rank"
    ensures var r := SortPlayers(players, sortBy, now, collate);
      && (forall i, j :: 0 <= i < j < |r| && r[i].dob.Given? && r[i].dob.value != 0 && r[j].dob.Given? && r[j].dob.value != 0 ==>
            r[i].dob.value >= r[j].dob.value)
      && (forall i, j :: 0 <= i < j < |r| && (r[j].dob.Missing? || r[j].dob.value == 0) && r[i].dob.Given? && r[i].dob.value != 0 ==>
            r[i].dob.value >= now)
  {
  }

  // ---------------------------------------------------------------------------
  // The pipeline

  /** The query state: category, search text and sort key, each "" when unset. */
  datatype Query = Query(selectedType: string, searchQuery: string, sortBy: string)

  /** A player passes both filters of `q`. */
  predicate Selected(q: Query, p: Player) {
    && (q.selectedType == "" || HasType(p, q.selectedType))
    && (q.searchQuery == "" || NameMatches(p, q.searchQuery))
  }

  /** The players `q` selects, in roster order: one filter by both conditions. */
  function Selection(players: seq<Player>, q: Query): seq<Player> {
    Filter(players, p => Selected(q, p))
  }

  /** The category stage followed by the search stage is the single filter `Selection`. */
  lemma FilterStagesFuse(players: seq<Player>, q: Query)
    ensures SearchByName(FilterByType(players, q.selectedType), q.searchQuery) == Selection(players, q)
  {
    var typeOk := p => q.selectedType == "" || HasType(p, q.selectedType);
    var nameOk := p => q.searchQuery == "" || NameMatches(p, q.searchQuery);
    var byType := FilterByType(players, q.selectedType);
    if q.selectedType == "" {
      FilterKeepsAllIff(players, typeOk);
    } else {
      FilterExtensional(players, p => HasType(p, q.selectedType), typeOk);
    }
    assert byType == Filter(players, typeOk);
    if q.searchQuery == "" {
      FilterKeepsAllIff(byType, nameOk);
    } else {
      FilterExtensional(byType, p => NameMatches(p, q.searchQuery), nameOk);
    }
    assert SearchByName(byType, q.searchQuery) == Filter(byType, nameOk);
    FilterFuse(players, typeOk, nameOk, p => Selected(q, p));
  }

  /**
    The list shown for `q`: category filter, then name search, then sort,
    from the full list. Unsorted it is the selection in roster order; sorted
    it is the stable sort of that selection.
   */
  function Visible(players: seq<Player>, q: Query, now: int, collate: (string, string) -> int): (r: seq<Player>)
    requires q.sortBy == "name" ==> ConsistentCollation(collate)
    ensures forall p :: multiset(r)[p] == if Selected(q, p) then multiset(players)[p] else 0
    ensures q.sortBy == "" ==> r == Selection(players, q)
    ensures q.sortBy == "" ==> IsSubsequence(r, players)
    ensures q.sortBy != "" ==> StablySorted(Selection(players, q), r, Order(KeyOf(q.sortBy), now, collate))
    ensures q.sortBy != "" ==> forall i, j :: 0 <= i < j < |r| ==> Compare(KeyOf(q.sortBy), now, collate, r[i], r[j]) <= 0
  {
    var byType := FilterByType(players, q.selectedType);
    var found := SearchByName(byType, q.searchQuery);
    FilterStagesFuse(players, q);
    if q.sortBy == "" then
      assert IsSubsequence(found, players) by {
        SubsequenceIsReflexive(players);
        SubsequenceIsReflexive(byType);
        SubsequenceTransitive(found, byType, players);
      }
      found
    else
      SortPlayers(found, q.sortBy, now, collate)
  }

  /** Any stable sort of the selection is the list shown: the pipeline's output is fully determined. */
  lemma VisibleIsTheStableSortOfSelection(players: seq<Player>, q: Query, now: int, collate: (string, string) -> int, r: seq<Player>)
    requires q.sortBy == "name" ==> ConsistentCollation(collate)
    requires q.sortBy != ""
    requires StablySorted(Selection(players, q), r, Order(KeyOf(q.sortBy), now, collate))
    ensures r == Visible(players, q, now, collate)
  {
    var le := Order(KeyOf(q.sortBy), now, collate);
    StableSortIsUnique(Selection(players, q), r, le);
    StableSortIsUnique(Selection(players, q), Visible(players, q, now, collate), le);
  }

  /**
    `handleSort` also re-sorts the shown list by the clicked key; when that
    key is already the sort key, the result is the list already shown.
   */
  lemma ResortingShownListChangesNothing(players: seq<Player>, q: Query, key: SortKey, now: int, collate: (string, string) -> int)
    requires q.sortBy == KeyName(key)
    requires q.sortBy == "name" ==> ConsistentCollation(collate)
    ensures SortPlayers(Visible(players, q, now, collate), KeyName(key), now, collate) == Visible(players, q, now, collate)
  {
    FilterStagesFuse(players, q);
    SortPlayersIdempotent(SearchByName(FilterByType(players, q.selectedType), q.searchQuery), q.sortBy, now, collate);
  }

  // ---------------------------------------------------------------------------
  // Query state and the URL

  /** The initial query state, read from the URL on mount. */
  function QueryFromUrl(params: Params): (q: Query)
    ensures q.selectedType == Get(params, "type")
    ensures q.searchQuery == Get(params, "search")
    ensures q.sortBy == Get(params, "sort")
  {
    Query(Get(params, "type"), Get(params, "search"), Get(params, "sort"))
  }

  datatype HomeState = HomeState(params: Params, query: Query)

  /** The URL holds exactly the query state, so reloading it reproduces the view. */
  predicate Mirrored(st: HomeState) {
    QueryFromUrl(st.params) == st.query
  }

  /** The state on mount. */
  function Mount(params: Params): (st: HomeState)
    ensures st.params == params
    ensures Mirrored(st)
  {
    HomeState(params, QueryFromUrl(params))
  }

  /** `handleTypeFilter`: select a category and record it in the URL. */
  function HandleTypeFilter(st: HomeState, selectedType: string): (r: HomeState)
    ensures r.query == st.query.(selectedType := selectedType)
    ensures Get(r.params, "type") == selectedType
    ensures "type" in r.params <==> selectedType != ""
    ensures forall k :: k != "type" ==> (k in r.params <==> k in st.params) && Get(r.params, k) == Get(st.params, k)
    ensures Mirrored(st) ==> Mirrored(r)
  {
    HomeState(Update(st.params, "type", selectedType), st.query.(selectedType := selectedType))
  }

  /** `handleSearch`: set the search text and record it in the URL. */
  function HandleSearch(st: HomeState, query: string): (r: HomeState)
    ensures r.query == st.query.(searchQuery := query)
    ensures Get(r.params, "search") == query
    ensures "search" in r.params <==> query != ""
    ensures forall k :: k != "search" ==> (k in r.params <==> k in st.params) && Get(r.params, k) == Get(st.params, k)
    ensures Mirrored(st) ==> Mirrored(r)
  {
    HomeState(Update(st.params, "search", query), st.query.(searchQuery := query))
  }

  /** `handleSort`: set the sort key and record it in the URL. */
  function HandleSort(st: HomeState, key: SortKey): (r: HomeState)
    ensures r.query == st.query.(sortBy := KeyName(key))
    ensures Get(r.params, "sort") == KeyName(key)
    ensures forall k :: k != "sort" ==> (k in r.params <==> k in st.params) && Get(r.params, k) == Get(st.params, k)
    ensures Mirrored(st) ==> Mirrored(r)
  {
    HomeState(Update(st.params, "sort", KeyName(key)), st.query.(sortBy := KeyName(key)))
  }
}
