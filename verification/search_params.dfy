/**
  The URL query string (`URLSearchParams`) as a map from parameter name to
  value, with the two operations the page uses on it.
 */
module SearchParams {

  type Params = map<string, string>

  /** `searchParams.get(key) || ''`: a missing parameter reads as the empty string. */
  function Get(params: Params, key: string): string {
    if key in params then params[key] else ""
  }

  /** `updateSearchParams`: set `key` to a non-empty `value`, remove `key` for an empty one. */
  function Update(params: Params, key: string, value: string): (r: Params)
    ensures Get(r, key) == value
    ensures key in r <==> value != ""
    ensures forall k :: k != key ==> (k in r <==> k in params)
    ensures forall k :: k != key && k in params ==> r[k] == params[k]
  {
    if value != "" then params[key := value] else params - {key}
  }

  /** Writing the same value twice is writing it once. */
  lemma UpdateIdempotent(params: Params, key: string, value: string)
    ensures Update(Update(params, key, value), key, value) == Update(params, key, value)
  {
  }

  /** Updates of different parameters commute. */
  lemma UpdatesCommute(params: Params, k1: string, v1: string, k2: string, v2: string)
    requires k1 != k2
    ensures Update(Update(params, k1, v1), k2, v2) == Update(Update(params, k2, v2), k1, v1)
  {
  }
}
