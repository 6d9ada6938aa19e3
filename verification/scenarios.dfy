/** Request sequences traced through the handlers: the listing of a
    two-product catalog, two reviews by different users, the same user
    reviewing twice, and the removal of the last review. */
module Scenarios {
  import opened Types
  import opened Seqs
  import opened Text
  import opened Listing
  import opened Lookup
  import opened Products
  import opened Reviews

  /** A product with only an id, a category and a price. */
  function Bare(id: string, category: string, price: real): Product {
    Product(id, None, Some(price), None, Some(category), None, None, None, None, None, None)
  }

  /** Which of the two example products are in category "books". */
  lemma BooksMatches()
    ensures !MatchesCategory(Bare("1", "Electronics", 10.0), "books")
    ensures MatchesCategory(Bare("2", "Books", 5.0), "books")
  {
    DifferentLengthsDiffer("Electronics", "books");
    LowerBooks();
  }

  /** Strings of different lengths are not equal up to case. */
  lemma DifferentLengthsDiffer(a: string, b: string)
    requires |a| != |b|
    ensures !EqualsIgnoreCase(a, b)
  {
  }

  lemma LowerBooks()
    ensures Lower("Books") == "books" && Lower("books") == "books"
  {
  }

  /** Filtering a pair whose first element fails and second passes. */
  lemma FilterPair<T(!new)>(a: T, b: T, P: T -> bool)
    requires !P(a) && P(b)
    ensures Filter([a, b], P) == [b]
  {
    assert [a, b][1..] == [b];
    assert Filter([b], P) == [b] + Filter([b][1..], P);
  }

  /** Listing a category from two products of which only the second is in it
      returns the second product alone, on one page. */
  lemma PairListing(a: Product, b: Product, c: string)
    requires c != ""
    requires !MatchesCategory(a, c) && MatchesCategory(b, c)
    ensures var r := GetAllProducts([a, b], ListQuery(Some(c), Some(1), Some(12)));
      && r.products == [b]
      && r.productsCount == 2
      && r.filteredProductsCount == 1
      && r.totalPages == 1
  {
    FilterPair(a, b, InCategory(c));
    ListedPage([a, b], ListQuery(Some(c), Some(1), Some(12)));
    PageIsSlice([b], 1, 12, 0);
    assert [b][0..1] == [b];
  }

  /** Listing category "books" from an electronics product and a books
      product returns the books product alone, on one page. */
  lemma BooksListing()
    ensures var ps := [Bare("1", "Electronics", 10.0), Bare("2", "Books", 5.0)];
      var r := GetAllProducts(ps, ListQuery(Some("books"), Some(1), Some(12)));
      && r.products == [ps[1]]
      && r.productsCount == 2
      && r.filteredProductsCount == 1
      && r.totalPages == 1
  {
    BooksMatches();
    PairListing(Bare("1", "Electronics", 10.0), Bare("2", "Books", 5.0), "books");
  }

  /** A create request with empty strings is answered 400 and saves nothing,
      although its negative price alone would pass the guard. */
  lemma EmptyFieldsRejected(ps: Catalog, freshId: string, created: string, updated: string)
    ensures var req := CreateRequest(Some(""), Some(-10.0), Some(""), Some(""), Some("invalid-url"));
      && CreateProduct(ps, req, freshId, created, updated) == Err(MissingFields)
      && Status(MissingFields) == 400
      && TruthyNumber(req.price)
  {
  }

  /** The catalog after a review request (the catalog itself when the request fails). */
  function Reviewed(ps: Catalog, productId: string, actor: Option<User>, rating: real,
                    freshId: string, now: string): Catalog
  {
    var r := CreateProductReview(ps, productId, actor, rating, None, freshId, now);
    if r.Ok? then r.value.catalog else ps
  }

  /** After a review request on an existing product, the product found
      under `productId` is the one found before with the review added. */
  lemma ReviewedDetails(ps: Catalog, productId: string, actor: Option<User>, rating: real,
                        freshId: string, now: string)
    requires HasId(ps, productId)
    ensures var after := Reviewed(ps, productId, actor, rating, freshId, now);
      && HasId(after, productId)
      && GetProductDetails(after, productId).value
         == AddReview(GetProductDetails(ps, productId).value, actor, rating, None, freshId, now)
  {
    var after := Reviewed(ps, productId, actor, rating, freshId, now);
    var i := FindProductIndex(ps, productId).value;
    assert forall j :: 0 <= j < i ==> after[j] == ps[j];
    assert after[i].id == productId;
    assert FindProductIndex(after, productId) == Some(i);
  }

  lemma UpsertIntoEmpty(rv: Review)
    ensures Upsert([], rv) == [rv]
  {
  }

  lemma UpsertOtherUser(a: Review, b: Review)
    requires a.user != b.user
    ensures Upsert([a], b) == [a, b]
  {
    assert !HasUser([a], b.user);
  }

  lemma UpsertSameUser(a: Review, b: Review)
    requires a.user == b.user
    ensures Upsert([a], b) == [b]
  {
    assert [a][0].user == b.user;
    assert HasUser([a], b.user);
  }

  lemma SumPair(a: Review, b: Review)
    ensures Sum([a, b]) == a.rating + b.rating
  {
    assert [a, b][1..] == [b];
    assert [b][1..] == [];
    assert Sum([b]) == b.rating + Sum([]);
    assert Sum([a, b]) == a.rating + Sum([b]);
  }

  lemma AveragePair(a: Review, b: Review, x: real, y: real)
    requires a.rating == x && b.rating == y
    ensures Average([a, b]) == (x + y) / 2.0
  {
    SumPair(a, b);
  }

  lemma AverageSingle(a: Review, y: real)
    requires a.rating == y
    ensures Average([a]) == y
  {
    assert [a][1..] == [];
    assert Sum([a]) == a.rating + Sum([]);
  }

  /** Reviews by two different users of a product without reviews: both
      reviews are kept, and `ratings` is their mean (4.5 for ratings 4 and 5). */
  lemma TwoUsersAverage(p: Product, u1: User, u2: User, x: real, y: real)
    requires p.reviews.GetOr([]) == []
    requires u1.id != u2.id
    ensures var q := AddReview(AddReview(p, Some(u1), x, None, "r1", "t1"), Some(u2), y, None, "r2", "t2");
      && q.reviews == Some([NewReview(Some(u1), x, None, "r1", "t1"), NewReview(Some(u2), y, None, "r2", "t2")])
      && q.numOfReviews == Some(2)
      && q.ratings == Some((x + y) / 2.0)
      && (x == 4.0 && y == 5.0 ==> q.ratings == Some(4.5))
  {
    var rv1 := NewReview(Some(u1), x, None, "r1", "t1");
    var rv2 := NewReview(Some(u2), y, None, "r2", "t2");
    UpsertIntoEmpty(rv1);
    UpsertOtherUser(rv1, rv2);
    AveragePair(rv1, rv2, x, y);
  }

  /** The same user reviewing a product without reviews twice: one entry,
      holding the second rating, and `ratings` equal to that rating. */
  lemma SameUserTwice(p: Product, u: User, x: real, y: real)
    requires p.reviews.GetOr([]) == []
    ensures var q := AddReview(AddReview(p, Some(u), x, None, "r1", "t1"), Some(u), y, None, "r2", "t2");
      && q.reviews == Some([NewReview(Some(u), y, None, "r2", "t2")])
      && q.numOfReviews == Some(1)
      && q.ratings == Some(y)
  {
    var rv1 := NewReview(Some(u), x, None, "r1", "t1");
    var rv2 := NewReview(Some(u), y, None, "r2", "t2");
    UpsertIntoEmpty(rv1);
    UpsertSameUser(rv1, rv2);
    AverageSingle(rv2, y);
  }

  /** Two review requests on the same product, as the handler serves them:
      the product found afterwards has had both reviews added in order. */
  lemma ReviewedTwice(ps: Catalog, productId: string, a1: Option<User>, a2: Option<User>, x: real, y: real)
    requires HasId(ps, productId)
    ensures var once := Reviewed(ps, productId, a1, x, "r1", "t1");
      var twice := Reviewed(once, productId, a2, y, "r2", "t2");
      && HasId(twice, productId)
      && GetProductDetails(twice, productId).value
         == AddReview(AddReview(GetProductDetails(ps, productId).value, a1, x, None, "r1", "t1"), a2, y, None, "r2", "t2")
  {
    ReviewedDetails(ps, productId, a1, x, "r1", "t1");
    ReviewedDetails(Reviewed(ps, productId, a1, x, "r1", "t1"), productId, a2, y, "r2", "t2");
  }

  /** Deleting the only review leaves no reviews, `ratings` 0 and `numOfReviews` 0. */
  lemma DeleteLastReview(ps: Catalog, productId: string, rv: Review)
    requires HasId(ps, productId)
    requires GetProductDetails(ps, productId).value.reviews == Some([rv])
    ensures DeleteReview(ps, productId, rv.id).Ok?
    ensures var p := GetProductDetails(DeleteReview(ps, productId, rv.id).value.catalog, productId).value;
      p.reviews == Some([]) && p.ratings == Some(0.0) && p.numOfReviews == Some(0)
  {
    var after := DeleteReview(ps, productId, rv.id).value.catalog;
    var i := FindProductIndex(ps, productId).value;
    assert Filter([rv], IdIsNot(rv.id)) == [];
    assert forall j :: 0 <= j < i ==> after[j] == ps[j];
    assert after[i].id == productId;
  }
}
