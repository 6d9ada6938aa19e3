/** The products file around the handlers: every request loads the whole
    catalog, computes its outcome, and only on success writes the whole
    catalog back. */
module Store {
  import opened Types
  import opened Lookup
  import opened Products
  import opened Reviews
  import opened Invariants

  /** The products file's content: `None` when the file is missing,
      unreadable, empty or not valid JSON. A file holding valid JSON that is
      not an array of products is not modelled. */
  type File = Option<Catalog>

  /** `readProductsFromFile`: the stored catalog, the empty catalog when there is none. */
  function Load(file: File): (r: Catalog)
    ensures file.None? ==> r == []
    ensures file.Some? ==> r == file.value
  {
    file.GetOr([])
  }

  /** What a request leaves behind: the file afterwards and the client's response. */
  datatype Response<T> = Response(file: File, result: Result<T>)

  /** Finish a request. A handler error is answered without writing; a
      successful outcome is written with `writeProductsToFile`, and a write
      that throws becomes a 500 with the file as it was. */
  function Commit<T>(file: File, outcome: Result<Write<T>>, writeSucceeds: bool): (r: Response<T>)
    ensures r.result.Ok? <==> outcome.Ok? && writeSucceeds
    ensures r.result.Err? ==> r.file == file
    ensures outcome.Err? ==> r.result == Err(outcome.error)
    ensures outcome.Ok? && !writeSucceeds ==> r.result == Err(ServerError)
    ensures r.result.Ok? ==> Load(r.file) == outcome.value.catalog && r.result.value == outcome.value.body
  {
    match outcome
    case Err(e) => Response(file, Err(e))
    case Ok(w) =>
      if writeSucceeds then Response(Some(w.catalog), Ok(w.body))
      else Response(file, Err(ServerError))
  }

  /** Deleting an unknown product answers 404 and leaves the file as it was,
      whether or not a write would have succeeded. */
  lemma DeleteUnknownProductKeepsFile(file: File, id: string, writeSucceeds: bool)
    requires !HasId(Load(file), id)
    ensures Commit(file, DeleteProduct(Load(file), id), writeSucceeds) == Response(file, Err(NotFound))
  {
  }

  /** Deleting a review id the product does not hold is not an error: the
      handler answers success and rewrites the file, and from a consistent
      catalog the next load sees the same catalog as before. */
  lemma DeleteUnknownReviewKeepsCatalog(file: File, productId: string, reviewId: string)
    requires WellFormed(Load(file))
    requires GetProductDetails(Load(file), productId).Ok?
    requires GetProductDetails(Load(file), productId).value.reviews.Some?
    requires forall rev :: rev in GetProductDetails(Load(file), productId).value.reviews.value ==> rev.id != reviewId
    ensures var r := Commit(file, DeleteReview(Load(file), productId, reviewId), true);
      r.result == Ok("Review deleted successfully") && Load(r.file) == Load(file)
  {
    DeleteUnknownReviewSavesSameCatalog(Load(file), productId, reviewId);
  }

  /** A missing, unreadable, empty or unparsable file reads as the empty catalog, so the
      first successful create replaces it with a catalog holding just the new product. */
  lemma FirstCreateReplacesMissingFile(req: CreateRequest, freshId: string, created: string, updated: string)
    requires HasRequiredFields(req)
    ensures var r := Commit(None, CreateProduct(Load(None), req, freshId, created, updated), true);
      r.result.Ok? && r.file == Some([r.result.value])
  {
    var w := CreateProduct([], req, freshId, created, updated).value;
    assert w.catalog == w.catalog[..0] + [w.catalog[0]];
  }

  /** A consistent file stays consistent through a request whose outcome, if
      successful, is a consistent catalog (see the preservation lemmas of
      the handlers): errors and failed writes leave the file as it was. */
  lemma CommitKeepsWellFormed<T>(file: File, outcome: Result<Write<T>>, writeSucceeds: bool)
    requires file.Some? ==> WellFormed(file.value)
    requires outcome.Ok? ==> WellFormed(outcome.value.catalog)
    ensures WellFormed(Load(Commit(file, outcome, writeSucceeds).file))
  {
  }

  /** Two creates that load the same snapshot and write one after the other:
      the second write wins and the first product is lost. */
  lemma ConcurrentCreatesLoseFirst(file: File, req1: CreateRequest, req2: CreateRequest,
                                   id1: string, id2: string, created: string, updated: string)
    requires HasRequiredFields(req1) && HasRequiredFields(req2)
    requires id1 != id2
    requires !HasId(Load(file), id1)
    ensures var snapshot := Load(file);
      var first := Commit(file, CreateProduct(snapshot, req1, id1, created, updated), true);
      var second := Commit(first.file, CreateProduct(snapshot, req2, id2, created, updated), true);
      && first.result.Ok? && second.result.Ok?
      && HasId(Load(second.file), id2)
      && !HasId(Load(second.file), id1)
  {
    var snapshot := Load(file);
    var w := CreateProduct(snapshot, req2, id2, created, updated).value;
    assert w.catalog[|snapshot|].id == id2;
    assert forall j :: 0 <= j < |snapshot| ==> w.catalog[j] == snapshot[j];
  }
}
