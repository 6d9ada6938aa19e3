/** The admin mutations of the catalog: `createProduct`, `updateProduct` and
    `deleteProduct`. Each returns the whole catalog it would save; an error
    means nothing is saved. */
module Products {
  import opened Types
  import opened Seqs
  import opened Lookup

  /** The fields of a create request body that the handler reads; `price` is
      already numeric. */
  datatype CreateRequest = CreateRequest(
    title: Option<string>,
    price: Option<real>,
    description: Option<string>,
    category: Option<string>,
    imageUrl: Option<string>
  )

  /** JavaScript truthiness of an optional number (NaN is not modelled). */
  predicate TruthyNumber(x: Option<real>) {
    x.Some? && x.value != 0.0
  }

  /** The create handler's guard: every required field is truthy. */
  predicate HasRequiredFields(req: CreateRequest) {
    && Truthy(req.title)
    && TruthyNumber(req.price)
    && Truthy(req.description)
    && Truthy(req.category)
    && Truthy(req.imageUrl)
  }

  /** `createProduct`: reject a request missing a required field with 400;
      otherwise append a new product carrying the request's fields, the given
      fresh id and the two clock readings taken for `createdAt` and `updatedAt`. */
  function CreateProduct(ps: Catalog, req: CreateRequest, freshId: string, created: string, updated: string): (r: Result<Write<Product>>)
    ensures r.Err? <==>
      (req.title in {None, Some("")} || req.price in {None, Some(0.0)} || req.description in {None, Some("")}
       || req.category in {None, Some("")} || req.imageUrl in {None, Some("")})
    ensures r.Err? ==> r.error == MissingFields
    ensures r.Ok? ==> |r.value.catalog| == |ps| + 1
    ensures r.Ok? ==> r.value.catalog[..|ps|] == ps && r.value.catalog[|ps|] == r.value.body
    ensures r.Ok? ==>
      var p := r.value.body;
      && p.id == freshId
      && p.title == req.title && p.price == req.price && p.description == req.description
      && p.category == req.category && p.imageUrl == req.imageUrl
      && p.createdAt == Some(created) && p.updatedAt == Some(updated)
      && p.reviews.None? && p.ratings.None? && p.numOfReviews.None?
  {
    if !HasRequiredFields(req) then Err(MissingFields)
    else
      var p := Product(freshId, req.title, req.price, req.description, req.category, req.imageUrl,
                       Some(created), Some(updated), None, None, None);
      assert (ps + [p])[..|ps|] == ps;
      Ok(Write(ps + [p], p))
  }

  /** A product created with an id no other product has is then found by
      `getProductDetails`, and ids stay unique. */
  lemma CreateThenGet(ps: Catalog, req: CreateRequest, freshId: string, created: string, updated: string)
    requires !HasId(ps, freshId)
    requires CreateProduct(ps, req, freshId, created, updated).Ok?
    ensures var w := CreateProduct(ps, req, freshId, created, updated).value;
      GetProductDetails(w.catalog, freshId) == Ok(w.body)
    ensures UniqueIds(ps) ==> UniqueIds(CreateProduct(ps, req, freshId, created, updated).value.catalog)
  {
    var w := CreateProduct(ps, req, freshId, created, updated).value;
    var i := FindProductIndex(w.catalog, freshId);
    assert w.catalog[|ps|].id == freshId;
    assert forall j :: 0 <= j < |ps| ==> w.catalog[j] == ps[j];
  }

  /** The fields of an update request body. `id` and `updatedAt` may be sent
      but are overridden by the handler. */
  datatype Patch = Patch(
    id: Option<string>,
    title: Option<string>,
    price: Option<real>,
    description: Option<string>,
    category: Option<string>,
    imageUrl: Option<string>,
    createdAt: Option<string>,
    updatedAt: Option<string>,
    reviews: Option<seq<Review>>,
    ratings: Option<real>,
    numOfReviews: Option<nat>
  )

  /** A field of the merged record: the patch's value when it sends one, the current value otherwise. */
  function PickOption<T>(patched: Option<T>, current: Option<T>): Option<T> {
    if patched.Some? then patched else current
  }

  /** `{ ...current, ...patch, id, updatedAt: now }`. */
  function Merge(current: Product, patch: Patch, id: string, now: string): (merged: Product)
    ensures ShallowMerged(current, patch, id, now, merged)
  {
    Product(
      id,
      PickOption(patch.title, current.title),
      PickOption(patch.price, current.price),
      PickOption(patch.description, current.description),
      PickOption(patch.category, current.category),
      PickOption(patch.imageUrl, current.imageUrl),
      PickOption(patch.createdAt, current.createdAt),
      Some(now),
      PickOption(patch.reviews, current.reviews),
      PickOption(patch.ratings, current.ratings),
      PickOption(patch.numOfReviews, current.numOfReviews))
  }

  /** `merged` keeps every field of `current` the patch does not send and takes
      every field it does send, except that `id` stays `id` and `updatedAt`
      becomes `now`. */
  predicate ShallowMerged(current: Product, patch: Patch, id: string, now: string, merged: Product) {
    && merged.id == id
    && merged.updatedAt == Some(now)
    && (patch.title.None? ==> merged.title == current.title)
    && (patch.title.Some? ==> merged.title == patch.title)
    && (patch.price.None? ==> merged.price == current.price)
    && (patch.price.Some? ==> merged.price == patch.price)
    && (patch.description.None? ==> merged.description == current.description)
    && (patch.description.Some? ==> merged.description == patch.description)
    && (patch.category.None? ==> merged.category == current.category)
    && (patch.category.Some? ==> merged.category == patch.category)
    && (patch.imageUrl.None? ==> merged.imageUrl == current.imageUrl)
    && (patch.imageUrl.Some? ==> merged.imageUrl == patch.imageUrl)
    && (patch.createdAt.None? ==> merged.createdAt == current.createdAt)
    && (patch.createdAt.Some? ==> merged.createdAt == patch.createdAt)
    && (patch.reviews.None? ==> merged.reviews == current.reviews)
    && (patch.reviews.Some? ==> merged.reviews == patch.reviews)
    && (patch.ratings.None? ==> merged.ratings == current.ratings)
    && (patch.ratings.Some? ==> merged.ratings == patch.ratings)
    && (patch.numOfReviews.None? ==> merged.numOfReviews == current.numOfReviews)
    && (patch.numOfReviews.Some? ==> merged.numOfReviews == patch.numOfReviews)
  }

  /** `updateProduct`: 404 for an unknown id; otherwise the first product with
      that id is replaced by its shallow merge with the patch, and nothing else changes. */
  function UpdateProduct(ps: Catalog, id: string, patch: Patch, now: string): (r: Result<Write<Product>>)
    ensures r.Err? <==> !HasId(ps, id)
    ensures r.Err? ==> r.error == NotFound
    ensures r.Ok? ==> |r.value.catalog| == |ps|
    ensures r.Ok? ==>
      exists i ::
        && 0 <= i < |ps| && ps[i].id == id && (forall j :: 0 <= j < i ==> ps[j].id != id)
        && r.value.catalog[i] == r.value.body
        && ShallowMerged(ps[i], patch, id, now, r.value.body)
        && (forall j :: 0 <= j < |ps| && j != i ==> r.value.catalog[j] == ps[j])
  {
    match FindProductIndex(ps, id)
    case None => Err(NotFound)
    case Some(i) =>
      var p := Merge(ps[i], patch, id, now);
      Ok(Write(ps[i := p], p))
  }

  /** Whatever the patch sends as `id`, the catalog's ids are unchanged by an
      update, so uniqueness is kept and the product is found again under its id. */
  lemma UpdateKeepsIds(ps: Catalog, id: string, patch: Patch, now: string)
    requires UpdateProduct(ps, id, patch, now).Ok?
    ensures var w := UpdateProduct(ps, id, patch, now).value;
      forall j :: 0 <= j < |ps| ==> w.catalog[j].id == ps[j].id
    ensures UniqueIds(ps) ==> UniqueIds(UpdateProduct(ps, id, patch, now).value.catalog)
    ensures UniqueIds(ps) ==>
      var w := UpdateProduct(ps, id, patch, now).value;
      GetProductDetails(w.catalog, id) == Ok(w.body)
  {
    var w := UpdateProduct(ps, id, patch, now).value;
    var i := FindProductIndex(ps, id).value;
    assert forall j :: 0 <= j < |ps| ==> w.catalog[j].id == ps[j].id;
    if UniqueIds(ps) {
      assert UniqueIds(w.catalog);
      LookupFindsUniqueProduct(w.catalog, i);
    }
  }

  /** Sending the same update twice (with the same clock) saves the same catalog as sending it once. */
  lemma UpdateIdempotent(ps: Catalog, id: string, patch: Patch, now: string)
    requires UpdateProduct(ps, id, patch, now).Ok?
    ensures var once := UpdateProduct(ps, id, patch, now).value.catalog;
      UpdateProduct(once, id, patch, now) == UpdateProduct(ps, id, patch, now)
  {
    var once := UpdateProduct(ps, id, patch, now).value.catalog;
    var i := FindProductIndex(ps, id).value;
    var k := FindProductIndex(once, id);
    assert once[i].id == id;
    assert k.Some? && k.value == i by {
      assert forall j :: 0 <= j < i ==> once[j] == ps[j];
    }
    var p := once[i];
    assert Merge(p, patch, id, now) == p;
    assert once[i := p] == once;
  }

  /** `deleteProduct`: 404 for an unknown id; otherwise exactly the first
      product with that id is spliced out, the rest keeping their order. */
  function DeleteProduct(ps: Catalog, id: string): (r: Result<Write<string>>)
    ensures r.Err? <==> !HasId(ps, id)
    ensures r.Err? ==> r.error == NotFound
    ensures r.Ok? ==> |r.value.catalog| == |ps| - 1
    ensures r.Ok? ==>
      exists i ::
        && 0 <= i < |ps| && ps[i].id == id && (forall j :: 0 <= j < i ==> ps[j].id != id)
        && r.value.catalog == ps[..i] + ps[i + 1..]
        && multiset(r.value.catalog) + multiset{ps[i]} == multiset(ps)
  {
    match FindProductIndex(ps, id)
    case None => Err(NotFound)
    case Some(i) =>
      var rest := RemoveAt(ps, i);
      assert rest == ps[..i] + ps[i + 1..];
      Ok(Write(rest, "Product deleted successfully"))
  }

  /** With unique ids, a deleted product is gone: its id no longer resolves,
      and ids stay unique. */
  lemma DeleteRemovesProduct(ps: Catalog, id: string)
    requires UniqueIds(ps)
    requires DeleteProduct(ps, id).Ok?
    ensures var rest := DeleteProduct(ps, id).value.catalog;
      GetProductDetails(rest, id) == Err(NotFound) && UniqueIds(rest)
  {
    var rest := DeleteProduct(ps, id).value.catalog;
    var i := FindProductIndex(ps, id).value;
    assert rest == RemoveAt(ps, i);
    forall j | 0 <= j < |rest| ensures rest[j].id != id {
      if j >= i {
        assert rest[j] == ps[j + 1];
      }
    }
    forall a, b | 0 <= a < b < |rest| ensures rest[a].id != rest[b].id {
      var a' := if a < i then a else a + 1;
      var b' := if b < i then b else b + 1;
      assert rest[a] == ps[a'] && rest[b] == ps[b'];
    }
  }

  /** Deletion is by position, not by filter: when two products share an id,
      the later one survives the delete. */
  lemma DeleteKeepsLaterDuplicate(ps: Catalog, id: string, a: nat, b: nat)
    requires a < b < |ps|
    requires ps[a].id == id && ps[b].id == id
    ensures DeleteProduct(ps, id).Ok?
    ensures HasId(DeleteProduct(ps, id).value.catalog, id)
  {
    var rest := DeleteProduct(ps, id).value.catalog;
    var i := FindProductIndex(ps, id).value;
    assert i <= a;
    assert rest[b - 1] == ps[b];
  }
}
