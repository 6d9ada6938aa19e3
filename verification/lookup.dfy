/** Lookup of a product by id: `getProductDetails`, `getProductReviews`, and
    the `findIndex` every mutating handler starts with. */
module Lookup {
  import opened Types
  import opened Seqs

  function IdIs(id: string): Product -> bool {
    (p: Product) => p.id == id
  }

  /** Position of the first product with id `id`, `None` when there is none. */
  function FindProductIndex(ps: Catalog, id: string): (r: Option<nat>)
    ensures r.Some? ==> r.value < |ps| && ps[r.value].id == id
    ensures r.Some? ==> forall j :: 0 <= j < r.value ==> ps[j].id != id
    ensures r.None? <==> !HasId(ps, id)
  {
    FirstIndex(ps, IdIs(id))
  }

  /** `getProductDetails`: the first product whose id matches; 404 when none does. */
  function GetProductDetails(ps: Catalog, id: string): (r: Result<Product>)
    ensures r.Err? <==> !HasId(ps, id)
    ensures r.Err? ==> r.error == NotFound
    ensures r.Ok? ==> r.value.id == id
    ensures r.Ok? ==> exists i :: 0 <= i < |ps| && ps[i] == r.value && forall j :: 0 <= j < i ==> ps[j].id != id
  {
    match FindProductIndex(ps, id)
    case None => Err(NotFound)
    case Some(i) => Ok(ps[i])
  }

  /** When ids are unique, looking up the id of any catalog entry returns that entry. */
  lemma LookupFindsUniqueProduct(ps: Catalog, i: nat)
    requires UniqueIds(ps)
    requires i < |ps|
    ensures GetProductDetails(ps, ps[i].id) == Ok(ps[i])
  {
    assert HasId(ps, ps[i].id);
  }

  /** `getProductReviews`: the reviews of the product that `getProductDetails`
      finds, the empty sequence when it has no `reviews` field; 404 when no
      product matches. */
  function GetProductReviews(ps: Catalog, id: string): (r: Result<seq<Review>>)
    ensures r.Err? <==> !HasId(ps, id)
    ensures r.Err? ==> r.error == NotFound
    ensures r.Ok? ==> GetProductDetails(ps, id).Ok?
    ensures r.Ok? && GetProductDetails(ps, id).value.reviews.None? ==> r.value == []
    ensures r.Ok? && GetProductDetails(ps, id).value.reviews.Some? ==>
      r.value == GetProductDetails(ps, id).value.reviews.value
  {
    match GetProductDetails(ps, id)
    case Err(e) => Err(e)
    case Ok(p) => Ok(p.reviews.GetOr([]))
  }
}
