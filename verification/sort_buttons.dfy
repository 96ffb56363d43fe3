/**
  One click on a sort button, as the two components handle it together: the
  list component toggles its highlight, and the home page sets the sort key
  the pipeline uses.
 */
module SortButtons {
  import opened Roster
  import opened PlayerList
  import opened SearchParams
  import Home

  /** The highlighted button (`currentSort`) and the key the list is sorted by (`sortBy`). */
  datatype SortView = SortView(highlight: string, sortBy: string)

  /** The highlight shows the sort the list actually has. */
  predicate InSync(v: SortView) {
    v.highlight == v.sortBy
  }

  /** A click as written: the highlight toggles, but the home page always sorts by the clicked key. */
  function Click(v: SortView, key: SortKey): (r: SortView)
    ensures r.sortBy == KeyName(key)
    ensures r.highlight == "" <==> v.highlight == KeyName(key)
    ensures r.highlight != "" ==> r.highlight == KeyName(key)
    ensures InSync(v) && v.sortBy != KeyName(key) ==> InSync(r)
  {
    SortView(ToggleSort(v.highlight, key), KeyName(key))
  }

  /**
    From any view where the button is not highlighted, two clicks on it leave
    the list sorted by its key with no button highlighted.
   */
  lemma RepeatedClickDesyncs(v: SortView, key: SortKey)
    requires v.highlight != KeyName(key)
    ensures var w := Click(Click(v, key), key);
      w.highlight == "" && w.sortBy == KeyName(key) && !InSync(w)
  {
  }

  /** A click that clears the sort together with the highlight. */
  function ClickIntended(v: SortView, key: SortKey): (r: SortView)
    ensures InSync(r)
    ensures r.highlight == "" <==> v.highlight == KeyName(key)
    ensures r.highlight != "" ==> r.sortBy == KeyName(key)
  {
    var next := ToggleSort(v.highlight, key);
    SortView(next, next)
  }

  /**
    With the intended click, the highlight always shows the applied sort, and,
    when no button or this button was highlighted, a second click undoes the first.
   */
  lemma IntendedClickKeepsSync(v: SortView, key: SortKey)
    requires InSync(v)
    requires v.highlight == "" || v.highlight == KeyName(key)
    ensures InSync(ClickIntended(v, key))
    ensures ClickIntended(ClickIntended(v, key), key) == v
  {
    ToggleTwice(v.highlight, key);
  }

  /** On mount the highlighted button is the sort the home page applies. */
  lemma MountedHighlightMatchesSort(params: Params)
    ensures InSync(SortView(InitialSort(params), Home.Mount(params).query.sortBy))
  {
  }
}
