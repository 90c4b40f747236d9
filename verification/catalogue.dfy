/** The storefront's product listing page: the search and category filter,
    the three orderings, the category list and the URL query it writes. */
module Catalogue {
  import opened Wrappers
  import opened Text
  import opened Sorting
  import opened Seqs
  import opened Records

  /** `matchesSearch && matchesCategory`; an empty category filter is off. */
  predicate Keep(p: Product, search: string, category: string) {
    && (ContainsIgnoreCase(p.name, search) || ContainsIgnoreCase(p.description, search))
    && (category == "" || p.category == Some(category))
  }

  datatype SortMode = PriceLow | PriceHigh | ByName

  /** The `switch (sortBy)`: any value other than the two price modes sorts
      by name. */
  function ParseSort(sortBy: string): (m: SortMode)
    ensures m == PriceLow <==> sortBy == "price-low"
    ensures m == PriceHigh <==> sortBy == "price-high"
  {
    if sortBy == "price-low" then PriceLow
    else if sortBy == "price-high" then PriceHigh
    else ByName
  }

  /** "`a` may come before `b`" for the comparator of each mode; names are
      ordered by code points. */
  function Before(mode: SortMode): (Product, Product) -> bool {
    match mode
    case PriceLow => (a: Product, b: Product) => a.price <= b.price
    case PriceHigh => (a: Product, b: Product) => a.price >= b.price
    case ByName => (a: Product, b: Product) => StrLe(a.name, b.name)
  }

  lemma BeforeIsTotalPreorder(mode: SortMode)
    ensures TotalPreorder(Before(mode))
  {
    if mode == ByName {
      forall a: Product, b: Product
        ensures Before(mode)(a, b) || Before(mode)(b, a)
      {
        StrLeTotal(a.name, b.name);
      }
      forall a: Product, b: Product, c: Product | Before(mode)(a, b) && Before(mode)(b, c)
        ensures Before(mode)(a, c)
      {
        StrLeTransitive(a.name, b.name, c.name);
      }
    }
  }

  /** `filteredProducts` */
  function FilteredProducts(products: seq<Product>, search: string, sortBy: string, category: string)
    : (r: seq<Product>)
    ensures multiset(r) == multiset(Filter(products, p => Keep(p, search, category)))
    ensures SortedBy(r, Before(ParseSort(sortBy)))
    ensures forall p :: p in r <==> p in products && Keep(p, search, category)
    ensures |r| <= |products|
  {
    var kept := Filter(products, p => Keep(p, search, category));
    BeforeIsTotalPreorder(ParseSort(sortBy));
    var r := InsertionSort(kept, Before(ParseSort(sortBy)));
    assert forall p :: p in r <==> p in multiset(r);
    assert forall p :: p in kept <==> p in multiset(kept);
    assert |r| == |multiset(r)| == |kept|;
    r
  }

  /** The ascending mode really is cheapest first, and the descending mode
      dearest first. */
  lemma PriceOrders(products: seq<Product>, search: string, category: string, i: int, j: int)
    requires 0 <= i < j < |FilteredProducts(products, search, "price-low", category)|
    requires j < |FilteredProducts(products, search, "price-high", category)|
    ensures FilteredProducts(products, search, "price-low", category)[i].price
            <= FilteredProducts(products, search, "price-low", category)[j].price
    ensures FilteredProducts(products, search, "price-high", category)[i].price
            >= FilteredProducts(products, search, "price-high", category)[j].price
  {
    var lo := FilteredProducts(products, search, "price-low", category);
    var hi := FilteredProducts(products, search, "price-high", category);
    assert Before(PriceLow)(lo[i], lo[j]);
    assert Before(PriceHigh)(hi[i], hi[j]);
  }

  /** With no search and no category, every product is listed. */
  lemma NoFilterKeepsAll(products: seq<Product>, sortBy: string)
    ensures multiset(FilteredProducts(products, "", sortBy, "")) == multiset(products)
  {
    forall i | 0 <= i < |products|
      ensures Keep(products[i], "", "")
    {
      ContainsEmpty(LowerStr(products[i].name));
    }
    FilterAll(products, p => Keep(p, "", ""));
  }

  /** `[...new Set(products.map(p => p.category).filter(Boolean))]`:
      distinct non-empty categories in order of first appearance. */
  function Categories(products: seq<Product>): (r: seq<string>)
    ensures forall i, j :: 0 <= i < j < |r| ==> r[i] != r[j]
    ensures forall c :: c in r <==> c != "" && exists i :: 0 <= i < |products| && products[i].category == Some(c)
  {
    if |products| == 0 then []
    else
      var last := products[|products| - 1];
      var before := Categories(products[..|products| - 1]);
      assert forall i :: 0 <= i < |products| - 1 ==> products[..|products| - 1][i] == products[i];
      if last.category.Some? && last.category.value != "" && last.category.value !in before
      then before + [last.category.value]
      else before
  }

  /** The query string written back to the URL, as (key, value) pairs in
      insertion order. */
  function UrlParams(search: string, sortBy: string, category: string): (r: seq<(string, string)>)
    ensures ("search", search) in r <==> search != ""
    ensures ("sort", sortBy) in r <==> sortBy != "name"
    ensures ("category", category) in r <==> category != ""
    ensures forall kv :: kv in r ==> kv == ("search", search) || kv == ("sort", sortBy) || kv == ("category", category)
  {
    (if search != "" then [("search", search)] else [])
    + (if sortBy != "name" then [("sort", sortBy)] else [])
    + (if category != "" then [("category", category)] else [])
  }

  /** `URLSearchParams.get`: the first value under `key`, if any. */
  function Lookup(params: seq<(string, string)>, key: string): Option<string> {
    if |params| == 0 then None
    else if params[0].0 == key then Some(params[0].1)
    else Lookup(params[1..], key)
  }

  /** `searchParams.get(key) || default`: an absent parameter and an empty
      one both give the default. */
  function ReadParam(params: seq<(string, string)>, key: string, default: string): string {
    var got := Lookup(params, key);
    if got.Some? && got.value != "" then got.value else default
  }

  lemma LookupConcat(x: seq<(string, string)>, y: seq<(string, string)>, key: string)
    ensures Lookup(x + y, key) == if Lookup(x, key).Some? then Lookup(x, key) else Lookup(y, key)
  {
    if |x| == 0 {
      assert x + y == y;
    } else {
      assert (x + y)[0] == x[0];
      assert (x + y)[1..] == x[1..] + y;
      LookupConcat(x[1..], y, key);
    }
  }

  /** Reading the written parameters back restores the page state. The
      one exception is an empty sort key: it is written as `sort=`, and
      `|| 'name'` reads that back as the default `name`. */
  lemma UrlRoundTrip(search: string, sortBy: string, category: string)
    ensures ReadParam(UrlParams(search, sortBy, category), "search", "") == search
    ensures ReadParam(UrlParams(search, sortBy, category), "sort", "name") == (if sortBy == "" then "name" else sortBy)
    ensures ReadParam(UrlParams(search, sortBy, category), "category", "") == category
  {
    var a := if search != "" then [("search", search)] else [];
    var b := if sortBy != "name" then [("sort", sortBy)] else [];
    var c := if category != "" then [("category", category)] else [];
    assert UrlParams(search, sortBy, category) == a + b + c;
    LookupConcat(a + b, c, "search");
    LookupConcat(a, b, "search");
    LookupConcat(a + b, c, "sort");
    LookupConcat(a, b, "sort");
    LookupConcat(a + b, c, "category");
    LookupConcat(a, b, "category");
  }
}
