# Cricket roster query pipeline, in Dafny

A model of the logic of a small cricket-roster web page. The page holds the full list of players. It shows them through a fixed pipeline:

1. keep the players of a selected category (`type`);
2. keep the players whose name contains a search text, ignoring case;
3. sort by name, rank or age;
4. show one page of ten.

The query (category, search text, sort key) lives in component state. It is mirrored into the URL query string, so a shared link reproduces the category, search and sort (not the page, which is local to the list). The sort buttons highlight the last sort key clicked or read from the URL (see Findings).

Every value is immutable, so `sortPlayers` leaving its argument untouched (it sorts a copy) holds by construction.

Modules, one concept each:

- `Seqs`: order-preserving subsequences, and `Filter` (`Array.prototype.filter`).
- `Sorting`: a stable sort over any total preorder, and the proof that the stable-sort specification has exactly one result. Stability is required of `Array.prototype.sort` by section 22.1.3.27 of ECMAScript 2019.
- `Text`: ASCII lower-casing and substring containment (`includes`).
- `SearchParams`: the URL query string as a map.
- `Roster`: players (with their optional fields), categories and sort keys.
- `Home` (`src/pages/Home.tsx`): the filter/search/sort pipeline, `sortPlayers`, the query state and its URL mirror.
- `PlayerList` (`src/components/PlayerList.tsx`): the page slice, the page buttons, and the sort-button highlight.
- `SortButtons`: one sort-button click across both components (see Findings).
- `Scenarios`: worked examples.

Behaviour of the code worth noting:

- A non-empty category that no player has gives an empty list, not "no filter". An example is an unknown URL `type`.
- Any sort key other than `name` or `rank` sorts by age. This includes unknown URL values. It is never "no sort".
- The number of page buttons is `ceil(n/10)`, which is 0 for an empty list. There is no minimum of one.
- The category values are `batsman`, `bowler`, `allRounder` and `wicketKeeper`.
- A missing or zero date of birth counts as age 0. Sorting by age therefore puts such players with the youngest, ahead of everyone born before "now". The model keeps this, although it is probably unintended.

## Model

| member | source | states |
|---|---|---|
| Seqs.Filter | src/pages/Home.tsx:31 | The result is an order-preserving subsequence of the input. Every element passes the predicate. Each passing value occurs exactly as often as in the input, and failing values not at all. |
| Seqs.FilterKeepsAllIff | src/pages/Home.tsx:30-32 | A filter returns its input unchanged exactly when every element passes. |
| Seqs.FilterDropsAllIff | src/pages/Home.tsx:30-32 | A filter returns nothing exactly when no element passes. |
| Seqs.FilterFuse | src/pages/Home.tsx:30-38 | Two filters in a row equal one filter by the conjunction of their predicates. |
| Seqs.FilterCommutes | src/pages/Home.tsx:30-38 | The category and search stages can run in either order with the same result. |
| Sorting.Insert | src/pages/Home.tsx:48 | Inserting keeps the elements, preserves sortedness, and places the new element ahead of the elements it ties with. |
| Sorting.Sort | src/pages/Home.tsx:48 | The sort returns a permutation of its input, sorted by the order. For every element, its ties keep their input order, i.e. the sort is stable. |
| Sorting.SortedWithSameTiesAreEqual | src/pages/Home.tsx:48 | Two sorted sequences with the same ties for every element are identical. |
| Sorting.StableSortIsUnique | src/pages/Home.tsx:48 | Any stable sort of a list equals `Sort`, so the result does not depend on which stable algorithm the engine uses. |
| Sorting.SortIdempotent | src/pages/Home.tsx:48 | Sorting a sorted list again by the same order changes nothing. |
| Text.Lower | src/pages/Home.tsx:36 | Lower-casing keeps the length and turns each ASCII capital into its small letter. Every other character stays unchanged. |
| Text.LowerIdempotent | src/pages/Home.tsx:36 | Lower-casing twice is lower-casing once. |
| Text.ContainsIffOccurs | src/pages/Home.tsx:36 | `includes` holds exactly when the pattern occurs as a slice of the text at some position. |
| Text.ContainsEmpty | src/pages/Home.tsx:36 | Every text includes the empty pattern. |
| SearchParams.Update | src/pages/Home.tsx:79-87 | Reading the key back gives the new value, or "" once it is removed. The key is present iff the value is non-empty. Every other key keeps its presence and value. |
| SearchParams.UpdateIdempotent | src/pages/Home.tsx:79-87 | Writing the same value twice is writing it once. |
| SearchParams.UpdatesCommute | src/pages/Home.tsx:79-87 | Updates of different parameters commute. |
| Home.FilterByType | src/pages/Home.tsx:30-32 | With an empty selection, the players come back unchanged. Otherwise the result is exactly the subsequence of players whose type equals the selection, in order. |
| Home.FilterByTypeIdempotent | src/pages/Home.tsx:30-32 | Applying the category filter twice is applying it once. |
| Home.UnknownTypeSelectsNobody | src/pages/Home.tsx:12-14 | A non-empty selection that names no category yields an empty list. It does not mean "no filter". |
| Home.SearchByName | src/pages/Home.tsx:34-38 | With an empty query, the players come back unchanged. Otherwise the result is exactly the subsequence of players that have a name containing the query, ignoring case. `NameMatches` requires a name, so nameless players are excluded. |
| Home.SearchIgnoresCase | src/pages/Home.tsx:36 | Queries that differ only in letter case select the same players. |
| Home.SearchIdempotent | src/pages/Home.tsx:34-38 | Searching twice for the same query is searching once. |
| Home.KeyOf | src/pages/Home.tsx:49-53 | "name" selects the name comparator, "rank" the rank comparator, and every other value the age comparator. |
| Home.KeyOfKeyName | src/pages/Home.tsx:73-75 | A sort key written to the URL reads back as the same key. |
| Home.Order | src/pages/Home.tsx:48-60 | The rank and age comparators always induce a total preorder. The name comparator does so whenever collation is consistent. |
| Home.SortPlayers | src/pages/Home.tsx:47-61 | The result is a permutation of the input, ascending under the selected comparator. Players that compare equal keep their input order. |
| Home.SortPlayersIdempotent | src/pages/Home.tsx:47-61 | Re-sorting the output of `sortPlayers` by the same key and the same "now" returns it unchanged. |
| Home.RankSortPutsUnrankedFirst | src/pages/Home.tsx:51-52 | Under the rank sort, a player with a missing or zero rank never follows a player with a positive rank. |
| Home.AgeSortYoungestFirst | src/pages/Home.tsx:53-58 | Any key other than name or rank gives the age sort. Known birth dates run from latest to earliest. Missing birth dates come after no one born before "now". |
| Home.FilterStagesFuse | src/pages/Home.tsx:28-38 | The category stage followed by the search stage equals `Selection`: one filter of the full list by both conditions, with an empty parameter accepting everyone. |
| Home.Visible | src/pages/Home.tsx:27-45 | The shown list holds exactly the players passing both filters, each as often as in the full list. With no sort key, it is `Selection`, in roster order. With a sort key, it is a stable sort of `Selection` under that key: ascending, with tied players in roster order. |
| Home.VisibleIsTheStableSortOfSelection | src/pages/Home.tsx:27-45 | Under a sort key, any stable sort of the selection equals the shown list, so the pipeline's output is fully determined. |
| Home.ResortingShownListChangesNothing | src/pages/Home.tsx:76 | When the clicked key is already the sort key, `handleSort` re-sorts the shown list by it and gets the same list back. |
| Home.QueryFromUrl | src/pages/Home.tsx:12-16 | The initial category, search text and sort key are the URL's `type`, `search` and `sort` values, or "" when absent. |
| Home.Mount | src/pages/Home.tsx:9-16 | On mount, the query state mirrors the URL. |
| Home.HandleTypeFilter | src/pages/Home.tsx:63-66 | Changing the category changes only the category, and the URL keeps mirroring the query. The URL's `type` then reads back as the new value, and is removed when that value is empty. Every other URL parameter, including ones the page does not use, keeps its presence and value. |
| Home.HandleSearch | src/pages/Home.tsx:68-71 | Changing the search text changes only the search text, and the URL keeps mirroring the query. The URL's `search` then reads back as the new value, and is removed when that value is empty. Every other URL parameter, including ones the page does not use, keeps its presence and value. |
| Home.HandleSort | src/pages/Home.tsx:73-75 | Choosing a sort key sets only the sort key, and the URL keeps mirroring the query. The URL's `sort` then reads back as the new value. Every other URL parameter, including ones the page does not use, keeps its presence and value. |
| PlayerList.ResolveIndex | src/components/PlayerList.tsx:33 | A `slice` index argument resolves into `0..length`. Negative arguments count back from the end. |
| PlayerList.Slice | src/components/PlayerList.tsx:33 | For `0 <= start <= end`, `slice(start, end)` is the sub-sequence from `start` up to `end`, with both clamped to the length (so the last page may run past the end). For `0 <= end <= start` the result is empty. |
| PlayerList.CurrentPlayers | src/components/PlayerList.tsx:31-33 | A page never has more than ten players. Page p (p >= 1) is `players[(p-1)*10 .. min(p*10, n)]`. A page past the end is empty and raises no error. |
| PlayerList.PageCount | src/components/PlayerList.tsx:122 | The page count is the least c with 10c >= n. It is 0 exactly when the list is empty. |
| PlayerList.PageButtons | src/components/PlayerList.tsx:122-125 | There are `ceil(n/10)` buttons, and the button at index i selects page i + 1. Each selects a page in `1..ceil(n/10)` that is not empty. |
| PlayerList.EveryPlayerHasAButton | src/components/PlayerList.tsx:122-125 | Each player at position k is shown at position k mod 10 of the page that the button at index k div 10 selects. |
| PlayerList.PagesUpToIsPrefix | src/components/PlayerList.tsx:31-33 | The first k pages, concatenated, are the first `min(10k, n)` players. |
| PlayerList.AllPagesMakeTheList | src/components/PlayerList.tsx:122 | Concatenating pages 1 to `ceil(n/10)` reproduces the list exactly. |
| PlayerList.InitialSort | src/components/PlayerList.tsx:27-29 | The initial highlight is the URL's `sort` value when present. It is empty exactly when the URL has no non-empty `sort` value. |
| PlayerList.SyncSortFromUrl | src/components/PlayerList.tsx:37-42 | The effect adopts a non-empty URL `sort` value and otherwise leaves the highlight alone. |
| PlayerList.SyncAfterMountIsNoOp | src/components/PlayerList.tsx:37-42 | Right after mount, the effect does not change the highlight the URL seeded. |
| PlayerList.ToggleSort | src/components/PlayerList.tsx:44-46 | The new highlight is empty exactly when the clicked key was highlighted, and is the clicked key otherwise. |
| PlayerList.ToggleTwice | src/components/PlayerList.tsx:44-46 | Two clicks on one button restore the highlight only when it was on that button or on none. Otherwise they clear it. |
| SortButtons.MountedHighlightMatchesSort | src/components/PlayerList.tsx:27-29 | On mount, the highlighted button equals the sort key the home page reads from the same URL. |
| SortButtons.Click | src/components/PlayerList.tsx:44-46 | As written, a click always sets the sort to the clicked key, while the highlight toggles: it becomes empty exactly when the clicked key was highlighted, and is the clicked key otherwise. |
| SortButtons.RepeatedClickDesyncs | src/pages/Home.tsx:73-75 | When a button is not highlighted, two clicks on it leave the list sorted by its key with no button highlighted, so highlight and sort disagree. |
| SortButtons.ClickIntended | src/components/PlayerList.tsx:44-46 | The corrected click keeps the highlight and the applied sort equal. |
| SortButtons.IntendedClickKeepsSync | src/components/PlayerList.tsx:44-46 | With the corrected click, highlight and sort stay in step, and, when no button or this button was highlighted, a second click undoes the first. |
| Scenarios.FilterBatsmen | src/pages/Home.tsx:30-32 | Selecting `batsman` from [Zara (bowler), Amit (batsman)] gives [Amit]. |
| Scenarios.SearchLowerA | src/pages/Home.tsx:34-38 | Searching "a" keeps both Zara and Amit, in their order. |
| Scenarios.SortByRank | src/pages/Home.tsx:51-52 | Sorting by rank gives [Amit (2), Zara (5)]. |
| Scenarios.ClearedSortKeepsRosterOrder | src/pages/Home.tsx:40-44 | With no sort key, the filtered players appear in roster order. |
| Scenarios.ThirdPageOfTwentyFive | src/components/PlayerList.tsx:31-33 | With 25 players, page 3 holds positions 20 to 24, and there are 3 pages. |
| Scenarios.EmptyRoster | src/components/PlayerList.tsx:122 | An empty roster has no page buttons and an empty first page. |

## Left out

- Rendering (JSX, CSS classes, icons) and `Link` navigation are left out. The model only carries the player `id` the links use.
- React hook scheduling, effect ordering and state batching are left out. The list shown is modelled as `Home.Visible` of the full list and the query.
- `handleSort` also sets the shown list to `sortPlayers(filteredPlayers, key)` (src/pages/Home.tsx:76). When the key differs from the current sort key, the pipeline effect re-runs and overwrites that list. When it is the same key, the effect does not re-run, and the re-sorted list stays. `Home.ResortingShownListChangesNothing` shows that this list equals `Home.Visible` for the same "now".
- Home.ResortingShownListChangesNothing: assumes the re-sort uses the same "now". For the age key the source reads the clock afresh. A later "now" raises every known age by the same amount, but unknown ages stay 0. Players born between the two clock readings can therefore change places with players whose birth date is unknown.
- The `getPlayers` fetch (src/pages/Home.tsx:18-25) is I/O. The full player list is a parameter. `src/api/getPlayers` is not part of this model.
- The `types` module is not part of this model. `Roster.Player` keeps only the fields the page reads: `id`, `name?`, `type`, `rank?` and `dob?`.
- Roster.PlayerType: the four values come from the selector's options (src/components/PlayerList.tsx:35). A player type outside these four cannot be represented. `Home.UnknownTypeSelectsNobody` relies on this closed set.
- `localeCompare` is a parameter `collate`. For the name sort it is required to be a consistent comparator, as `Array.prototype.sort` requires.
- Text.Lower: lowers ASCII capitals only. The model does not include `toLowerCase`'s full Unicode case mapping, which is a foreign function.
- Home.SortPlayers: "now" is one integer parameter for the whole sort. The source reads the clock again on every comparison, so a sort that spans a clock tick may see slightly different ages.
- Home.SortPlayers: rank and date of birth are unbounded integers. The model omits JavaScript number semantics (NaN, infinities, fractions, rounding of large differences).
- SearchParams.Update: the query string is a map. The model omits repeated keys and parameter order in `URLSearchParams`, and the browser history entry that `setSearchParams` pushes.
- `currentPage` is a parameter of `PlayerList.CurrentPlayers`. The values the page buttons set are `PlayerList.PageButtons`. The page is not reset when the list shrinks, and the model reflects this by allowing any page.
- PlayerList.SyncSortFromUrl: when React re-runs the effect is not modelled; the function only gives what one run does.

## Findings

| source | as written | input that shows it | evidently intended | confidence | as-written member | corrected member |
|---|---|---|---|---|---|---|
| src/pages/Home.tsx:73-75 | `handleSort` always sets the sort key to the clicked key. The list component's click handler (src/components/PlayerList.tsx:44-46) toggles the highlight off when the button is already highlighted. | From no sort, click "Sort by Name" twice. No button is highlighted, but the list and the URL stay sorted by name. The second click leaves the URL unchanged, so the effect at src/components/PlayerList.tsx:37-42 does not re-highlight the button. | A second click on the highlighted button clears the sort as well, so the highlight always shows the applied sort. | medium, not executed | SortButtons.Click (shown by SortButtons.RepeatedClickDesyncs) | SortButtons.ClickIntended (proved by SortButtons.IntendedClickKeepsSync) |
