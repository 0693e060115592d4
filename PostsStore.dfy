/**
 * The posts page's UI preferences: search term, author filter, sort order and view
 * mode. Only the view mode and sort order are persisted across sessions.
 */
module PostsStore {
  import opened Types
  import opened Constants

  datatype UIState = UIState(searchTerm: string, selectedUserId: string, sortOrder: SortOrder, viewMode: ViewMode)

  /** What `partialize` hands to storage. */
  datatype PersistedPrefs = PersistedPrefs(viewMode: ViewMode, sortOrder: SortOrder)

  const Initial: UIState := UIState("", "all", Desc, Grid)

  /** `resetFilters`: search, author and sort back to their initial values; the view mode stays. */
  function FiltersReset(s: UIState): (r: UIState)
    ensures r.viewMode == s.viewMode
    ensures r.searchTerm == Initial.searchTerm && r.selectedUserId == Initial.selectedUserId
    ensures r.sortOrder == Initial.sortOrder
  {
    s.(searchTerm := "", selectedUserId := "all", sortOrder := Desc)
  }

  lemma ResetFiltersIdempotent(s: UIState)
    ensures FiltersReset(FiltersReset(s)) == FiltersReset(s)
  {
  }

  /** The persisted projection: exactly the view mode and the sort order. */
  function Partialize(s: UIState): (p: PersistedPrefs)
    ensures p.viewMode == s.viewMode && p.sortOrder == s.sortOrder
  {
    PersistedPrefs(s.viewMode, s.sortOrder)
  }

  /** The state a new session starts from: the initial state with the stored preferences merged in. */
  function Rehydrate(p: PersistedPrefs): (s: UIState)
    ensures Partialize(s) == p
    ensures s.searchTerm == Initial.searchTerm && s.selectedUserId == Initial.selectedUserId
  {
    Initial.(viewMode := p.viewMode, sortOrder := p.sortOrder)
  }

  /** Storing and restoring loses no persisted preference, and the filters start afresh. */
  lemma PersistRoundTrip(s: UIState)
    ensures Partialize(Rehydrate(Partialize(s))) == Partialize(s)
    ensures Rehydrate(Partialize(s)).searchTerm == "" && Rehydrate(Partialize(s)).selectedUserId == "all"
  {
  }

  /** Search term and author filter never reach storage. */
  lemma FiltersNotPersisted(s: UIState, term: string, userId: string)
    ensures Partialize(s.(searchTerm := term, selectedUserId := userId)) == Partialize(s)
  {
  }

  class PostsUIStore {
    var searchTerm: string
    var selectedUserId: string
    var sortOrder: SortOrder
    var viewMode: ViewMode

    function State(): UIState
      reads this
    {
      UIState(searchTerm, selectedUserId, sortOrder, viewMode)
    }

    /** What is written to storage after every change. */
    function Persisted(): PersistedPrefs
      reads this
    {
      Partialize(State())
    }

    constructor()
      ensures State() == Initial
    {
      searchTerm := "";
      selectedUserId := "all";
      sortOrder := Desc;
      viewMode := Grid;
    }

    method SetSearchTerm(term: string)
      modifies this
      ensures State() == old(State()).(searchTerm := term)
      ensures Persisted() == old(Persisted())
    {
      searchTerm := term;
    }

    method SetSelectedUserId(userId: string)
      modifies this
      ensures State() == old(State()).(selectedUserId := userId)
      ensures Persisted() == old(Persisted())
    {
      selectedUserId := userId;
    }

    method SetSortOrder(order: SortOrder)
      modifies this
      ensures State() == old(State()).(sortOrder := order)
    {
      sortOrder := order;
    }

    method SetViewMode(mode: ViewMode)
      modifies this
      ensures State() == old(State()).(viewMode := mode)
    {
      viewMode := mode;
    }

    method ResetFilters()
      modifies this
      ensures State() == FiltersReset(old(State()))
      ensures Persisted() == old(Persisted()).(sortOrder := Initial.sortOrder)
    {
      searchTerm := "";
      selectedUserId := "all";
      sortOrder := Desc;
    }
  }
}
