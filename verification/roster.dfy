/**
  The records the roster page works on. The source declares them in a
  `types` module that is not part of this model; only the fields the page
  reads are kept.
 */
module Roster {
  /**
    A field the source declares optional (`field?: T`): either missing from
    the record or given a value.
   */
  datatype Field<T> = Missing | Given(value: T)

  /** `field || fallback` for a field whose falsy value equals `fallback`. */
  function Or<T>(f: Field<T>, fallback: T): T {
    if f.Given? then f.value else fallback
  }

  /** The player categories offered by the type selector. */
  datatype PlayerType = Batsman | Bowler | AllRounder | WicketKeeper

  /** The string value a category has in the data and in the URL. */
  function TypeName(t: PlayerType): string {
    match t
    case Batsman => "batsman"
    case Bowler => "bowler"
    case AllRounder => "allRounder"
    case WicketKeeper => "wicketKeeper"
  }

  /**
    A player. `kind` is the source's `type` field; `rank` and `dob` (date of
    birth, milliseconds since the epoch) are integers.
   */
  datatype Player = Player(
    id: string,
    name: Field<string>,
    kind: PlayerType,
    rank: Field<int>,
    dob: Field<int>)

  /** The keys the sort buttons pass. */
  datatype SortKey = ByName | ByRank | ByAge

  /** The string value a sort key has in the URL. */
  function KeyName(k: SortKey): string {
    match k
    case ByName => "name"
    case ByRank => "rank"
    case ByAge => "age"
  }
}
