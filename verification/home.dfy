/**
  The home screen's two derived values: the badge count it selects from the
  cart slice, and the catalogue narrowed by the search box and the category
  chips.
 */
module Home {
  import opened Sequences
  import opened Text
  import opened Catalog
  import Cart

  /** The category chip that shows every product. */
  const AllCategories := "All"

  /** The `cartCount` selector: the quantities of the cart's lines added up from the left. */
  method SelectCartCount(items: seq<CartItem>) returns (count: int)
    ensures count == Cart.ItemCount(items)
    ensures Cart.PositiveQuantities(items) ==> count >= |items|
  {
    count := 0;
    var i := 0;
    while i < |items|
      invariant 0 <= i <= |items|
      invariant count == Cart.ItemCount(items[..i])
    {
      assert items[..i + 1][..i] == items[..i];
      count := count + items[i].quantity;
      i := i + 1;
    }
    assert items[..i] == items;
    SumAtLeastLength(items, Quantity);
  }

  /**
    The badge next to the cart icon, drawn only for a positive `cartCount`. An
    empty cart never shows it, nor does a cart whose units add up to zero or
    less. In a cart without negative quantities it shows exactly when some
    line holds a unit, so lines of quantity 0 neither show nor hide it.
   */
  function ShowBadge(items: seq<CartItem>): (shown: bool)
    ensures shown ==> |items| > 0
    ensures shown ==> Cart.ItemCount(items) > 0
    ensures Cart.PositiveQuantities(items) ==> (shown <==> |items| > 0)
    ensures (forall i | 0 <= i < |items| :: items[i].quantity >= 0) ==>
              (shown <==> exists i | 0 <= i < |items| :: items[i].quantity > 0)
  {
    SumAtLeastLength(items, Quantity);
    SumPositiveIff(items, Quantity);
    Cart.ItemCount(items) > 0
  }

  /** A cart whose lines all hold `q` units counts `q` per line, not one per line. */
  lemma UniformCartCount(items: seq<CartItem>, q: int)
    requires forall i | 0 <= i < |items| :: items[i].quantity == q
    ensures Cart.ItemCount(items) == q * |items|
  {
    SumOfConstant(items, Quantity, q);
  }

  /**
    The search box: the query occurs in the product's name, ignoring ASCII
    case. An empty box matches every product, every occurrence of the query in
    the name matches, and a match is a stretch of the name that equals the
    query once both are lower-cased.
   */
  function MatchesSearch(product: Product, query: string): (ok: bool)
    ensures |query| == 0 ==> ok
    ensures Includes(product.name, query) ==> ok
    ensures ok <==> OccursIgnoringCase(product.name, query)
  {
    IncludesEmpty(Lower(product.name));
    IncludesLower(product.name, query);
    LowerOccurrence(product.name, query);
    Includes(Lower(product.name), Lower(query))
  }

  /** Some stretch of `name` as long as `query` equals it after both are lower-cased. */
  ghost predicate OccursIgnoringCase(name: string, query: string)
  {
    exists i | 0 <= i <= |name| - |query| :: Lower(Stretch(name, i, |query|)) == Lower(query)
  }

  /** The `n` characters of `s` from position `i` on. */
  function Stretch(s: string, i: int, n: nat): string
    requires 0 <= i <= |s| - n
  {
    s[i..i + n]
  }

  /** Searching the lower-cased name for the lower-cased query finds exactly the case-blind occurrences. */
  lemma LowerOccurrence(name: string, query: string)
    ensures Includes(Lower(name), Lower(query)) <==> OccursIgnoringCase(name, query)
  {
    if Includes(Lower(name), Lower(query)) {
      var i :| 0 <= i <= |name| - |query| && Lower(query) <= Lower(name)[i..];
      LowerSlice(name, i, i + |query|);
      assert Lower(Stretch(name, i, |query|)) == Lower(query);
    }
    if OccursIgnoringCase(name, query) {
      var i :| 0 <= i <= |name| - |query| && Lower(Stretch(name, i, |query|)) == Lower(query);
      LowerSlice(name, i, i + |query|);
      assert Lower(query) <= Lower(name)[i..];
    }
  }

  /** The category chips: "All" lets everything through, any other chip only its own category. */
  function MatchesCategory(product: Product, category: string): (ok: bool)
    ensures category == AllCategories ==> ok
    ensures category != AllCategories ==> (ok <==> product.category == category)
    ensures product.category == category ==> ok
  {
    category == AllCategories || product.category == category
  }

  function ProductMatches(category: string, query: string): Product -> bool
  {
    (product: Product) => MatchesSearch(product, query) && MatchesCategory(product, category)
  }

  /** `filteredProducts`: the catalogue in its own order, keeping the products both filters accept. */
  function FilterProducts(products: seq<Product>, category: string, query: string): (r: seq<Product>)
    ensures IsSubsequence(r, products)
    ensures forall p :: p in r <==> p in products && MatchesSearch(p, query) && MatchesCategory(p, category)
    ensures category != AllCategories ==> forall i | 0 <= i < |r| :: r[i].category == category
    ensures |r| == CountIf(products, ProductMatches(category, query))
  {
    FilterIsSubsequence(products, ProductMatches(category, query));
    FilterMembers(products, ProductMatches(category, query));
    Filter(products, ProductMatches(category, query))
  }

  /** With the "All" chip and an empty search box the whole catalogue is shown. */
  lemma ShowsEverythingInitially(products: seq<Product>)
    ensures FilterProducts(products, AllCategories, "") == products
  {
    forall i | 0 <= i < |products| ensures ProductMatches(AllCategories, "")(products[i]) {
      IncludesEmpty(Lower(products[i].name));
    }
    FilterKeepsAll(products, ProductMatches(AllCategories, ""));
  }

  /** Queries that differ only in ASCII case select the same products. */
  lemma SearchIgnoresCase(products: seq<Product>, category: string, query: string, other: string)
    requires Lower(query) == Lower(other)
    ensures FilterProducts(products, category, query) == FilterProducts(products, category, other)
  {
    FilterCongruent(products, ProductMatches(category, query), ProductMatches(category, other));
  }

  /** A product's name may be written in any ASCII case without changing whether it matches. */
  lemma NameCaseIrrelevant(product: Product, query: string)
    ensures MatchesSearch(product.(name := Lower(product.name)), query) == MatchesSearch(product, query)
  {
    LowerIdempotent(product.name);
  }

  /** Refining the query (the new one contains the old) can only drop products, never add or reorder them. */
  lemma RefiningQueryNarrows(products: seq<Product>, category: string, shorter: string, longer: string)
    requires Includes(longer, shorter)
    ensures IsSubsequence(FilterProducts(products, category, longer), FilterProducts(products, category, shorter))
  {
    IncludesLower(longer, shorter);
    forall i | 0 <= i < |products|
      ensures ProductMatches(category, longer)(products[i]) ==> ProductMatches(category, shorter)(products[i])
    {
      if MatchesSearch(products[i], longer) {
        IncludesTransitive(Lower(products[i].name), Lower(longer), Lower(shorter));
      }
    }
    FilterMonotone(products, ProductMatches(category, longer), ProductMatches(category, shorter));
  }

  /** Any one category shows a subsequence of what the "All" chip shows for the same query. */
  lemma CategoryNarrowsAll(products: seq<Product>, category: string, query: string)
    ensures IsSubsequence(FilterProducts(products, category, query), FilterProducts(products, AllCategories, query))
  {
    FilterMonotone(products, ProductMatches(category, query), ProductMatches(AllCategories, query));
  }
}
