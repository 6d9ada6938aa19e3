/** The catalog invariant the handlers are meant to keep: ids are unique, and
    every product that has a review list stores aggregates that agree with it
    and holds at most one review per user. */
module Invariants {
  import opened Types
  import opened Seqs
  import opened Lookup
  import opened Products
  import opened Reviews

  predicate Consistent(p: Product) {
    p.reviews.Some? ==> Aggregated(p) && OneReviewPerUser(p.reviews.value)
  }

  predicate WellFormed(ps: Catalog) {
    && UniqueIds(ps)
    && forall i :: 0 <= i < |ps| ==> Consistent(ps[i])
  }

  /** Creating a product under an id not yet in use keeps the invariant. */
  lemma CreateKeepsWellFormed(ps: Catalog, req: CreateRequest, freshId: string, created: string, updated: string)
    requires WellFormed(ps)
    requires !HasId(ps, freshId)
    requires CreateProduct(ps, req, freshId, created, updated).Ok?
    ensures WellFormed(CreateProduct(ps, req, freshId, created, updated).value.catalog)
  {
    var w := CreateProduct(ps, req, freshId, created, updated).value;
    CreateThenGet(ps, req, freshId, created, updated);
    assert forall i :: 0 <= i < |ps| ==> w.catalog[i] == ps[i];
  }

  /** The patch does not send any review field. */
  predicate LeavesReviewsAlone(patch: Patch) {
    patch.reviews.None? && patch.ratings.None? && patch.numOfReviews.None?
  }

  /** An update whose patch leaves the review fields alone keeps the invariant. */
  lemma UpdateKeepsWellFormed(ps: Catalog, id: string, patch: Patch, now: string)
    requires WellFormed(ps)
    requires LeavesReviewsAlone(patch)
    requires UpdateProduct(ps, id, patch, now).Ok?
    ensures WellFormed(UpdateProduct(ps, id, patch, now).value.catalog)
  {
    UpdateKeepsIds(ps, id, patch, now);
    var w := UpdateProduct(ps, id, patch, now).value;
    var i := FindProductIndex(ps, id).value;
    assert w.catalog[i].reviews == ps[i].reviews;
    assert w.catalog[i].ratings == ps[i].ratings;
    assert w.catalog[i].numOfReviews == ps[i].numOfReviews;
    assert Consistent(w.catalog[i]);
  }

  /** The update handler spreads the whole request body, so a patch that sends
      `numOfReviews` breaks the agreement between the aggregates and the
      review list. */
  lemma UpdateCanBreakAggregates()
    ensures var p := Product("p1", None, None, None, None, None, None, None, Some([]), Some(0.0), Some(0));
      var patch := Patch(None, None, None, None, None, None, None, None, None, None, Some(7));
      && WellFormed([p])
      && UpdateProduct([p], "p1", patch, "t").Ok?
      && !WellFormed(UpdateProduct([p], "p1", patch, "t").value.catalog)
  {
    var p := Product("p1", None, None, None, None, None, None, None, Some([]), Some(0.0), Some(0));
    var patch := Patch(None, None, None, None, None, None, None, None, None, None, Some(7));
    assert FindProductIndex([p], "p1") == Some(0);
    var q := UpdateProduct([p], "p1", patch, "t").value.catalog[0];
    assert q.numOfReviews == Some(7);
    assert !Consistent(q);
  }

  /** Deleting a product keeps the invariant. */
  lemma DeleteKeepsWellFormed(ps: Catalog, id: string)
    requires WellFormed(ps)
    requires DeleteProduct(ps, id).Ok?
    ensures WellFormed(DeleteProduct(ps, id).value.catalog)
  {
    DeleteRemovesProduct(ps, id);
    var rest := DeleteProduct(ps, id).value.catalog;
    var i := FindProductIndex(ps, id).value;
    assert rest == RemoveAt(ps, i);
    forall j | 0 <= j < |rest| ensures Consistent(rest[j]) {
      assert rest[j] == if j < i then ps[j] else ps[j + 1];
    }
  }

  /** Submitting a review keeps the invariant. */
  lemma ReviewUpsertKeepsWellFormed(ps: Catalog, productId: string, actor: Option<User>, rating: real,
                                    comment: Option<string>, freshId: string, now: string)
    requires WellFormed(ps)
    requires CreateProductReview(ps, productId, actor, rating, comment, freshId, now).Ok?
    ensures WellFormed(CreateProductReview(ps, productId, actor, rating, comment, freshId, now).value.catalog)
  {
    var after := CreateProductReview(ps, productId, actor, rating, comment, freshId, now).value.catalog;
    var i := FindProductIndex(ps, productId).value;
    var before := ps[i].reviews.GetOr([]);
    UpsertKeepsOneReviewPerUser(before, NewReview(actor, rating, comment, freshId, now));
    assert forall j :: 0 <= j < |ps| && j != i ==> after[j] == ps[j];
    assert Consistent(after[i]);
    assert forall j :: 0 <= j < |ps| ==> after[j].id == ps[j].id;
  }

  /** Deleting a review keeps the invariant. */
  lemma ReviewDeleteKeepsWellFormed(ps: Catalog, productId: string, reviewId: string)
    requires WellFormed(ps)
    requires DeleteReview(ps, productId, reviewId).Ok?
    ensures WellFormed(DeleteReview(ps, productId, reviewId).value.catalog)
  {
    var after := DeleteReview(ps, productId, reviewId).value.catalog;
    var i := FindProductIndex(ps, productId).value;
    FilterKeepsOneReviewPerUser(ps[i].reviews.value, IdIsNot(reviewId));
    assert forall j :: 0 <= j < |ps| && j != i ==> after[j] == ps[j];
    assert Consistent(after[i]);
    assert forall j :: 0 <= j < |ps| ==> after[j].id == ps[j].id;
  }

  /** Deleting a review id that the product does not hold, from a consistent
      catalog, saves exactly the catalog that was loaded. */
  lemma DeleteUnknownReviewSavesSameCatalog(ps: Catalog, productId: string, reviewId: string)
    requires WellFormed(ps)
    requires DeleteReview(ps, productId, reviewId).Ok?
    requires forall rev :: rev in GetProductDetails(ps, productId).value.reviews.value ==> rev.id != reviewId
    ensures DeleteReview(ps, productId, reviewId).value.catalog == ps
  {
    var after := DeleteReview(ps, productId, reviewId).value.catalog;
    var i := FindProductIndex(ps, productId).value;
    var revs := ps[i].reviews.value;
    DeleteReviewFilters(revs, reviewId);
    assert Filter(revs, IdIsNot(reviewId)) == revs;
    assert after[i] == ps[i];
  }
}
