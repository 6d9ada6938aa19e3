/** The records of the product catalog and the typed outcomes of its handlers.

    A catalog is the whole ordered array of products kept in the backing JSON
    file. A JSON field that a record may lack is an `Option`: `None` is an
    absent (or null) field, `Some(v)` a present one.
 */
module Types {

  datatype Option<+T> = None | Some(value: T) {

    /** The present value, or `default` when the field is absent. */
    function GetOr(default: T): T {
      match this
      case Some(v) => v
      case None => default
    }
  }

  /** One customer review of a product. `user` is the reviewing user's id, or
      the sentinel "anonymous" for a request without a user. */
  datatype Review = Review(
    id: string,
    user: string,
    name: string,
    rating: real,
    comment: Option<string>,
    createdAt: string
  )

  /** One catalog entry. `ratings` and `numOfReviews` are the aggregates the
      review handlers store next to `reviews`. */
  datatype Product = Product(
    id: string,
    title: Option<string>,
    price: Option<real>,
    description: Option<string>,
    category: Option<string>,
    imageUrl: Option<string>,
    createdAt: Option<string>,
    updatedAt: Option<string>,
    reviews: Option<seq<Review>>,
    ratings: Option<real>,
    numOfReviews: Option<nat>
  )

  type Catalog = seq<Product>

  /** The errors a handler passes to the error middleware. */
  datatype Error =
    | NotFound      // "Product Not Found"
    | MissingFields // "Missing required fields"
    | ServerError   // an exception thrown inside the handler

  /** The HTTP status the error middleware answers with. */
  function Status(e: Error): (code: nat)
    ensures 400 <= code < 600
    ensures code < 500 <==> !e.ServerError?
    ensures e.NotFound? ==> code == 404
    ensures e.MissingFields? ==> code == 400
  {
    match e
    case NotFound => 404
    case MissingFields => 400
    case ServerError => 500
  }

  datatype Result<+T> = Ok(value: T) | Err(error: Error)

  /** A handler that writes: the whole catalog it saves, and the body it answers with. */
  datatype Write<+T> = Write(catalog: Catalog, body: T)

  /** JavaScript truthiness of an optional string: present and not "". */
  predicate Truthy(s: Option<string>) {
    s.Some? && s.value != ""
  }

  /** No two products share an id. */
  predicate UniqueIds(ps: Catalog) {
    forall i, j :: 0 <= i < j < |ps| ==> ps[i].id != ps[j].id
  }

  /** Some product has id `id`. */
  predicate HasId(ps: Catalog, id: string) {
    exists i :: 0 <= i < |ps| && ps[i].id == id
  }
}
