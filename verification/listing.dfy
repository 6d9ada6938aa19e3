/** The paginated, category-filtered listing (`getAllProducts`) and the plain
    full listings (`getProducts`, `getAdminProducts`). */
module Listing {
  import opened Types
  import opened Seqs
  import opened Text

  const DefaultPage: nat := 1
  const DefaultLimit: nat := 12

  /** The query string of a listing request, with `page` and `limit` already
      parsed: `None` is a missing or unparsable value. */
  datatype ListQuery = ListQuery(category: Option<string>, page: Option<nat>, limit: Option<nat>)

  /** The response body of a listing request. */
  datatype Listing = Listing(
    products: Catalog,
    productsCount: nat,
    resultPerPage: nat,
    filteredProductsCount: nat,
    currentPage: nat,
    totalPages: nat
  )

  function Min(a: int, b: int): int {
    if a <= b then a else b
  }

  /** A product is in category `q` when it has a non-empty category equal to
      `q` up to case. A product without a category is in none, a match has
      a category as long as the query, and a product whose category is
      exactly a non-empty query is in it. */
  function MatchesCategory(p: Product, q: string): (b: bool)
    ensures b ==> p.category.Some? && p.category.value != "" && EqualsIgnoreCase(p.category.value, q)
    ensures b ==> p.category.Some? && |p.category.value| == |q| > 0
    ensures p.category == Some(q) && q != "" ==> b
  {
    p.category.Some? && p.category.value != "" && EqualsIgnoreCase(p.category.value, q)
  }

  /** The catalog restricted to a category; no restriction when the query
      parameter is absent or empty. */
  function FilterByCategory(ps: Catalog, category: Option<string>): (r: Catalog)
    ensures multiset(r) <= multiset(ps)
    ensures !Truthy(category) ==> r == ps
    ensures Truthy(category) ==> forall k :: 0 <= k < |r| ==> MatchesCategory(r[k], category.value)
    ensures Truthy(category) ==>
      forall p :: multiset(r)[p] == if MatchesCategory(p, category.value) then multiset(ps)[p] else 0
  {
    if Truthy(category) then
      FilterMultiset(ps, InCategory(category.value));
      Filter(ps, InCategory(category.value))
    else ps
  }

  /** The category filter keeps catalog order: filtering two catalogs laid
      end to end is filtering each and laying the results end to end. */
  lemma FilterByCategoryAppend(a: Catalog, b: Catalog, category: Option<string>)
    ensures FilterByCategory(a + b, category) == FilterByCategory(a, category) + FilterByCategory(b, category)
  {
    if Truthy(category) {
      FilterAppend(a, b, InCategory(category.value));
    }
  }

  function InCategory(q: string): Product -> bool {
    p => MatchesCategory(p, q)
  }

  /** With a category, the filtered count is the number of catalog positions
      holding a product of that category. */
  lemma CategoryCount(ps: Catalog, category: Option<string>)
    ensures Truthy(category) ==>
      |FilterByCategory(ps, category)| == |Positions(ps, InCategory(category.value), |ps|)|
  {
    if Truthy(category) {
      FilterCount(ps, InCategory(category.value));
    }
  }

  /** The category filter compares case-insensitively: two queries that differ
      only in the case of their letters select the same products. */
  lemma FilterIgnoresCase(ps: Catalog, q1: string, q2: string)
    requires EqualsIgnoreCase(q1, q2)
    ensures FilterByCategory(ps, Some(q1)) == FilterByCategory(ps, Some(q2))
  {
    assert |q1| == |Lower(q1)| == |Lower(q2)| == |q2|;
    if q1 != "" {
      FilterCongruent(ps, InCategory(q1), InCategory(q2));
    }
  }

  /** `parseInt(x) || d`: a missing, unparsable or zero value falls back to `d`. */
  function OrDefault(n: Option<nat>, d: nat): (r: nat)
    ensures r == d || (n.Some? && r == n.value)
    ensures r > 0 <==> d > 0 || (n.Some? && n.value > 0)
    ensures n.Some? && n.value > 0 ==> r == n.value
    ensures n.None? || n.value == 0 ==> r == d
  {
    if n.None? || n.value == 0 then d else n.value
  }

  /** JavaScript's `s.slice(start, end)` for non-negative bounds: the indices
      are clamped to the length, and an empty range gives an empty result. */
  function Slice<T>(s: seq<T>, start: nat, end: nat): (r: seq<T>)
    ensures multiset(r) <= multiset(s)
    ensures |r| <= if end <= start then 0 else end - start
    ensures start >= |s| ==> r == []
    ensures forall k :: 0 <= k < |r| ==> start + k < |s| && r[k] == s[start + k]
    ensures start < end && start < |s| ==> |r| == Min(end, |s|) - start
  {
    var b := Min(start, |s|);
    var e := Min(end, |s|);
    if e <= b then []
    else
      assert s == s[..b] + s[b..e] + s[e..];
      s[b..e]
  }

  /** Index of the first element of page `page` (counting from 1). */
  function PageStart(page: nat, perPage: nat): (start: nat)
    requires page >= 1
    ensures start + perPage == page * perPage
  {
    (page - 1) * perPage
  }

  /** Page `page` (counting from 1) of `perPage` elements. */
  function Page<T>(s: seq<T>, page: nat, perPage: nat): (r: seq<T>)
    requires page >= 1 && perPage >= 1
    ensures multiset(r) <= multiset(s)
    ensures |r| <= perPage
    ensures PageStart(page, perPage) >= |s| ==> r == []
    ensures forall k :: 0 <= k < |r| ==> PageStart(page, perPage) + k < |s| && r[k] == s[PageStart(page, perPage) + k]
    ensures PageStart(page, perPage) < |s| ==> |r| == Min(perPage, |s| - PageStart(page, perPage))
  {
    var start := PageStart(page, perPage);
    Slice(s, start, start + perPage)
  }

  /** `Math.ceil(n / d)` on whole numbers. */
  function CeilDiv(n: nat, d: nat): (r: nat)
    requires d >= 1
    ensures r * d >= n
    ensures r == 0 || (r - 1) * d < n
  {
    if n == 0 then 0 else (n - 1) / d + 1
  }

  /** A page is non-empty exactly when its number is at most the page count. */
  lemma PageNonEmptyIff<T>(s: seq<T>, page: nat, perPage: nat)
    requires page >= 1 && perPage >= 1
    ensures Page(s, page, perPage) != [] <==> page <= CeilDiv(|s|, perPage)
  {
    var n := CeilDiv(|s|, perPage);
    if page <= n {
      MulMonotone(page - 1, n - 1, perPage);
    } else {
      MulMonotone(n, page - 1, perPage);
    }
  }

  lemma MulMonotone(a: nat, b: nat, c: nat)
    requires a <= b
    ensures a * c <= b * c
  {
  }

  /** Pages 1 to `n` laid end to end. */
  function Pages<T>(s: seq<T>, perPage: nat, n: nat): seq<T>
    requires perPage >= 1
  {
    if n == 0 then [] else Pages(s, perPage, n - 1) + Page(s, n, perPage)
  }

  /** Page `page` is the slice between the clamped page bounds. */
  lemma PageIsSlice<T>(s: seq<T>, page: nat, perPage: nat, start: nat)
    requires page >= 1 && perPage >= 1
    requires start == PageStart(page, perPage)
    ensures Min(start, |s|) <= Min(start + perPage, |s|)
    ensures Page(s, page, perPage) == s[Min(start, |s|)..Min(start + perPage, |s|)]
  {
  }

  lemma PrefixSplit<T>(s: seq<T>, a: nat, b: nat)
    requires a <= b <= |s|
    ensures s[..a] + s[a..b] == s[..b]
  {
  }

  /** The first `n` pages are the first `n * perPage` elements (`end` is that product). */
  lemma {:induction false} PagesArePrefix<T>(s: seq<T>, perPage: nat, n: nat, end: nat)
    requires perPage >= 1
    requires end == n * perPage
    ensures Pages(s, perPage, n) == s[..Min(end, |s|)]
  {
    if n > 0 {
      var start := PageStart(n, perPage);
      PagesArePrefix(s, perPage, n - 1, start);
      PageIsSlice(s, n, perPage, start);
      PrefixSplit(s, Min(start, |s|), Min(end, |s|));
    }
  }

  /** Pages 1 to the page count partition the sequence: nothing is lost or repeated. */
  lemma PagesCoverAll<T>(s: seq<T>, perPage: nat)
    requires perPage >= 1
    ensures Pages(s, perPage, CeilDiv(|s|, perPage)) == s
  {
    PagesArePrefix(s, perPage, CeilDiv(|s|, perPage), CeilDiv(|s|, perPage) * perPage);
  }

  /** With a category, a page of the filtered catalog holds only products of that category. */
  lemma PageInCategory(s: Catalog, page: nat, perPage: nat, category: Option<string>)
    requires page >= 1 && perPage >= 1
    requires Truthy(category) ==> forall k :: 0 <= k < |s| ==> MatchesCategory(s[k], category.value)
    ensures Truthy(category) ==>
      forall k :: 0 <= k < |Page(s, page, perPage)| ==> MatchesCategory(Page(s, page, perPage)[k], category.value)
  {
  }

  /** `getAllProducts`: filter by category, then cut out one page, and report
      the unfiltered count, the filtered count and the page count. */
  function GetAllProducts(ps: Catalog, q: ListQuery): (r: Listing)
    ensures r.productsCount == |ps|
    ensures r.resultPerPage == (if q.limit.Some? && q.limit.value > 0 then q.limit.value else 12)
    ensures r.currentPage == (if q.page.Some? && q.page.value > 0 then q.page.value else 1)
    ensures r.filteredProductsCount <= r.productsCount
    ensures !Truthy(q.category) ==> r.filteredProductsCount == |ps|
    ensures |r.products| <= r.resultPerPage
    ensures multiset(r.products) <= multiset(ps)
    ensures Truthy(q.category) ==>
      forall k :: 0 <= k < |r.products| ==> MatchesCategory(r.products[k], q.category.value)
    ensures r.resultPerPage >= 1 && r.totalPages == CeilDiv(r.filteredProductsCount, r.resultPerPage)
    ensures r.products == Page(FilterByCategory(ps, q.category), r.currentPage, r.resultPerPage)
    ensures r.products == [] <==> r.currentPage > r.totalPages
  {
    var filtered := FilterByCategory(ps, q.category);
    var perPage := OrDefault(q.limit, DefaultLimit);
    var page := OrDefault(q.page, DefaultPage);
    var products := Page(filtered, page, perPage);
    PageNonEmptyIff(filtered, page, perPage);
    PageInCategory(filtered, page, perPage, q.category);
    Listing(products, |ps|, perPage, |filtered|, page, CeilDiv(|filtered|, perPage))
  }

  /** With a category, `filteredProductsCount` is the number of catalog
      positions holding a product of that category; products without a
      category are never counted. */
  lemma FilteredCountIsMatches(ps: Catalog, q: ListQuery)
    requires Truthy(q.category)
    ensures GetAllProducts(ps, q).filteredProductsCount == |Positions(ps, InCategory(q.category.value), |ps|)|
    ensures forall i :: 0 <= i < |ps| && ps[i].category.None? ==> i !in Positions(ps, InCategory(q.category.value), |ps|)
  {
    CategoryCount(ps, q.category);
  }

  /** The listed products are the slice of the filtered catalog that
      `getAllProducts` cuts out: from `(page - 1) * limit` to `page * limit`,
      both clamped to the filtered length. */
  lemma ListedPage(ps: Catalog, q: ListQuery)
    ensures var r := GetAllProducts(ps, q);
      var start := PageStart(r.currentPage, r.resultPerPage);
      r.products == Sliced(FilterByCategory(ps, q.category), start, start + r.resultPerPage)
  {
    var r := GetAllProducts(ps, q);
    PageAsSlice(FilterByCategory(ps, q.category), r.products, r.currentPage, r.resultPerPage);
  }

  /** A page, written as a slice with both bounds clamped to the length. */
  lemma PageAsSlice<T>(s: seq<T>, products: seq<T>, page: nat, perPage: nat)
    requires page >= 1 && perPage >= 1
    requires products == Page(s, page, perPage)
    ensures products == Sliced(s, PageStart(page, perPage), PageStart(page, perPage) + perPage)
  {
    PageIsSlice(s, page, perPage, PageStart(page, perPage));
  }

  /** The sub-sequence `s[a..b]`, with both bounds clamped to the length and
      `b` raised to `a`: the index-range reference for `Slice`. */
  function Sliced<T>(s: seq<T>, a: nat, b: nat): seq<T> {
    s[Min(a, |s|)..Min(if a <= b then b else a, |s|)]
  }

  /** `getProducts` and `getAdminProducts`: the whole catalog, unfiltered and unpaginated. */
  function AllProducts(ps: Catalog): (r: Catalog)
    ensures r == FilterByCategory(ps, None) && r == FilterByCategory(ps, Some(""))
  {
    ps
  }

  /** Laying pages 1 to `totalPages` end to end, with the page size the
      listing reports, yields every product of the category exactly once and
      in catalog order (each page being what `getAllProducts` returns for
      it, by `ListedPage`); with no category it yields the full listing of
      `getProducts`. */
  lemma ListingPagesCover(ps: Catalog, category: Option<string>, limit: Option<nat>)
    ensures var first := GetAllProducts(ps, ListQuery(category, None, limit));
      Pages(FilterByCategory(ps, category), first.resultPerPage, first.totalPages) == FilterByCategory(ps, category)
    ensures !Truthy(category) ==>
      var first := GetAllProducts(ps, ListQuery(category, None, limit));
      Pages(FilterByCategory(ps, category), first.resultPerPage, first.totalPages) == AllProducts(ps)
  {
    PagesCoverAll(FilterByCategory(ps, category), OrDefault(limit, DefaultLimit));
  }
}
