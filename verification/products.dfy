/**
  The products slice of the Redux store: the loaded catalogue, a loading flag,
  the last error and the two browsing filters. Each reducer writes its own
  fields and leaves every other field as it was.
 */
module Products {
  import opened Wrappers
  import opened Catalog

  datatype ProductsState = ProductsState(
    items: seq<Product>,
    loading: bool,
    error: Option<string>,
    selectedCategory: string,
    searchQuery: string)

  const InitialState := ProductsState([], false, None, "All", "")

  /** `setLoading`: only the loading flag changes. */
  function SetLoading(s: ProductsState, loading: bool): (r: ProductsState)
    ensures r.loading == loading
    ensures r.items == s.items && r.error == s.error
    ensures r.selectedCategory == s.selectedCategory && r.searchQuery == s.searchQuery
  {
    s.(loading := loading)
  }

  /** `setProducts`: a successful load stores the list, stops loading and clears the error. */
  function SetProducts(s: ProductsState, items: seq<Product>): (r: ProductsState)
    ensures r.items == items && !r.loading && r.error == None
    ensures r.selectedCategory == s.selectedCategory && r.searchQuery == s.searchQuery
  {
    s.(items := items, loading := false, error := None)
  }

  /** `setError`: a failed load records the message and stops loading, keeping the old list. */
  function SetError(s: ProductsState, message: string): (r: ProductsState)
    ensures r.error == Some(message) && !r.loading
    ensures r.items == s.items
    ensures r.selectedCategory == s.selectedCategory && r.searchQuery == s.searchQuery
  {
    s.(error := Some(message), loading := false)
  }

  /** `setSelectedCategory`: only the category changes. */
  function SetSelectedCategory(s: ProductsState, category: string): (r: ProductsState)
    ensures r.selectedCategory == category
    ensures r.items == s.items && r.loading == s.loading && r.error == s.error
    ensures r.searchQuery == s.searchQuery
  {
    s.(selectedCategory := category)
  }

  /** `setSearchQuery`: only the query changes. */
  function SetSearchQuery(s: ProductsState, query: string): (r: ProductsState)
    ensures r.searchQuery == query
    ensures r.items == s.items && r.loading == s.loading && r.error == s.error
    ensures r.selectedCategory == s.selectedCategory
  {
    s.(searchQuery := query)
  }

  /** `clearProducts`: empties the list and clears the error; loading and the filters stay. */
  function ClearProducts(s: ProductsState): (r: ProductsState)
    ensures r.items == [] && r.error == None
    ensures r.loading == s.loading
    ensures r.selectedCategory == s.selectedCategory && r.searchQuery == s.searchQuery
  {
    s.(items := [], error := None)
  }

  /** The actions the products slice exports, one per reducer. */
  datatype ProductsAction =
    | Loading(flag: bool)
    | Loaded(products: seq<Product>)
    | Failed(message: string)
    | SelectCategory(category: string)
    | Search(query: string)
    | Reset

  /** One dispatch: each field moves only under the actions that own it. */
  function Reduce(s: ProductsState, a: ProductsAction): (r: ProductsState)
    ensures a.Loaded? || a.Failed? ==> !r.loading
    ensures !a.Loading? && !a.Loaded? && !a.Failed? ==> r.loading == s.loading
    ensures !a.Loaded? && !a.Reset? ==> r.items == s.items
    ensures !a.Failed? ==> r.error == None || r.error == s.error
    ensures r.selectedCategory == (if a.SelectCategory? then a.category else s.selectedCategory)
    ensures r.searchQuery == (if a.Search? then a.query else s.searchQuery)
  {
    match a
    case Loading(flag) => SetLoading(s, flag)
    case Loaded(products) => SetProducts(s, products)
    case Failed(message) => SetError(s, message)
    case SelectCategory(category) => SetSelectedCategory(s, category)
    case Search(query) => SetSearchQuery(s, query)
    case Reset => ClearProducts(s)
  }

  /** No action in the sequence is a failed load. */
  predicate NoFailures(actions: seq<ProductsAction>)
  {
    forall i | 0 <= i < |actions| :: !actions[i].Failed?
  }

  /** No action in the sequence replaces or clears the list. */
  predicate KeepsList(actions: seq<ProductsAction>)
  {
    forall i | 0 <= i < |actions| :: !actions[i].Loaded? && !actions[i].Reset?
  }

  /**
    Dispatches the actions in order, each to the state the previous one left.
    Without a failed load no error appears, and without a load or a reset the
    list stays as it was.
   */
  function Run(s: ProductsState, actions: seq<ProductsAction>): (r: ProductsState)
    ensures s.error == None && NoFailures(actions) ==> r.error == None
    ensures KeepsList(actions) ==> r.items == s.items
    decreases |actions|
  {
    if |actions| == 0 then s
    else
      assert NoFailures(actions) ==> NoFailures(actions[1..]) by {
        forall i | 0 <= i < |actions| - 1 ensures actions[1..][i] == actions[i + 1] {}
      }
      assert KeepsList(actions) ==> KeepsList(actions[1..]) by {
        forall i | 0 <= i < |actions| - 1 ensures actions[1..][i] == actions[i + 1] {}
      }
      Run(Reduce(s, actions[0]), actions[1..])
  }

  /** The category after a run: the payload of the last category action, or the starting one. */
  function LastCategory(start: string, actions: seq<ProductsAction>): string
    decreases |actions|
  {
    if |actions| == 0 then start
    else
      var last := actions[|actions| - 1];
      if last.SelectCategory? then last.category
      else LastCategory(start, actions[..|actions| - 1])
  }

  /** The query after a run: the payload of the last search action, or the starting one. */
  function LastQuery(start: string, actions: seq<ProductsAction>): string
    decreases |actions|
  {
    if |actions| == 0 then start
    else
      var last := actions[|actions| - 1];
      if last.Search? then last.query
      else LastQuery(start, actions[..|actions| - 1])
  }

  // ----- Properties -----

  lemma InitialStateIsIdle()
    ensures InitialState.items == [] && !InitialState.loading && InitialState.error == None
    ensures InitialState.selectedCategory == "All" && InitialState.searchQuery == ""
  {
  }

  lemma ClearProductsIdempotent(s: ProductsState)
    ensures ClearProducts(ClearProducts(s)) == ClearProducts(s)
  {
  }

  /** Raising the loading flag before a successful load makes no difference to the loaded state. */
  lemma LoadCycle(s: ProductsState, items: seq<Product>)
    ensures SetProducts(SetLoading(s, true), items) == SetProducts(s, items)
  {
  }

  /** A successful load erases an earlier failure entirely. */
  lemma LoadAfterFailure(s: ProductsState, message: string, items: seq<Product>)
    ensures SetProducts(SetError(s, message), items) == SetProducts(s, items)
  {
  }

  /** The two browsing filters are independent of each other. */
  lemma FiltersCommute(s: ProductsState, category: string, query: string)
    ensures SetSearchQuery(SetSelectedCategory(s, category), query)
         == SetSelectedCategory(SetSearchQuery(s, query), category)
  {
  }

  /** Running actions from the end: the run of `actions + [a]` is one more step after the run of `actions`. */
  lemma {:induction false} RunSnoc(s: ProductsState, actions: seq<ProductsAction>, a: ProductsAction)
    ensures Run(s, actions + [a]) == Reduce(Run(s, actions), a)
    decreases |actions|
  {
    if |actions| > 0 {
      assert (actions + [a])[1..] == actions[1..] + [a];
      RunSnoc(Reduce(s, actions[0]), actions[1..], a);
    }
  }

  /** Only category actions move the category, and the last one wins. */
  lemma {:induction false} RunCategory(s: ProductsState, actions: seq<ProductsAction>)
    ensures Run(s, actions).selectedCategory == LastCategory(s.selectedCategory, actions)
    decreases |actions|
  {
    if |actions| > 0 {
      var init := actions[..|actions| - 1];
      assert actions == init + [actions[|actions| - 1]];
      RunSnoc(s, init, actions[|actions| - 1]);
      RunCategory(s, init);
    }
  }

  /** Only search actions move the query, and the last one wins. */
  lemma {:induction false} RunQuery(s: ProductsState, actions: seq<ProductsAction>)
    ensures Run(s, actions).searchQuery == LastQuery(s.searchQuery, actions)
    decreases |actions|
  {
    if |actions| > 0 {
      var init := actions[..|actions| - 1];
      assert actions == init + [actions[|actions| - 1]];
      RunSnoc(s, init, actions[|actions| - 1]);
      RunQuery(s, init);
    }
  }

  /** A run that ends with a load, successful or not, leaves the slice not loading. */
  lemma RunEndingInResultStopsLoading(s: ProductsState, actions: seq<ProductsAction>, a: ProductsAction)
    requires a.Loaded? || a.Failed?
    ensures !Run(s, actions + [a]).loading
    ensures a.Loaded? ==> Run(s, actions + [a]).error == None
    ensures a.Failed? ==> Run(s, actions + [a]).error == Some(a.message)
  {
    RunSnoc(s, actions, a);
  }
}
