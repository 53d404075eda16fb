/** An optional value: `None` stands for a JavaScript `null` or `undefined` argument. */
module Optional {

  datatype Option<+T> = None | Some(value: T) {

    /** The value, or `default` when there is none (JavaScript's `value || default`). */
    function GetOr(default: T): (r: T)
      ensures Some? ==> r == value
      ensures None? ==> r == default
    {
      match this
      case Some(v) => v
      case None => default
    }
  }
}

/**
 * A grid's filter settings: a map from filter name to that filter's
 * parameters, and the shallow merge that `applyFilters` performs on it.
 */
module Filters {
  import opened Optional

  /** A filter parameter as the filter library receives it; the grid never looks inside. */
  datatype Param = Flag(on: bool) | Number(n: real) | Text(s: string)

  type FilterMap = map<string, Param>

  /**
   * `Object.assign(current, update || {})`: every key of `update` takes its
   * value from `update`, every other key of `current` keeps its value, and a
   * missing `update` changes nothing.
   */
  function MergeFilters(current: FilterMap, update: Option<FilterMap>): (r: FilterMap)
    ensures update.None? ==> r == current
    ensures update.Some? ==> r.Keys == current.Keys + update.value.Keys
    ensures update.Some? ==> forall k :: k in update.value ==> r[k] == update.value[k]
    ensures forall k :: k in current && (update.None? || k !in update.value) ==> k in r && r[k] == current[k]
  {
    match update
    case None => current
    case Some(u) => current + u
  }

  /** Merging an empty map is the identity. */
  lemma MergeEmpty(current: FilterMap)
    ensures MergeFilters(current, Some(map[])) == current
  {
    assert MergeFilters(current, Some(map[])).Keys == current.Keys;
  }

  /** Merging the same filters a second time changes nothing more. */
  lemma MergeIdempotent(current: FilterMap, update: Option<FilterMap>)
    ensures MergeFilters(MergeFilters(current, update), update) == MergeFilters(current, update)
  {
    var once := MergeFilters(current, update);
    var twice := MergeFilters(once, update);
    assert twice.Keys == once.Keys;
    assert forall k :: k in twice ==> twice[k] == once[k];
  }

  /** Two merges in a row are one merge of the second update over the first. */
  lemma MergeTwice(current: FilterMap, first: FilterMap, second: FilterMap)
    ensures MergeFilters(MergeFilters(current, Some(first)), Some(second))
         == MergeFilters(current, Some(MergeFilters(first, Some(second))))
  {
    var lhs := MergeFilters(MergeFilters(current, Some(first)), Some(second));
    var rhs := MergeFilters(current, Some(MergeFilters(first, Some(second))));
    assert lhs.Keys == rhs.Keys;
    assert forall k :: k in lhs ==> lhs[k] == rhs[k];
  }
}
