/** Reviews and their aggregation: `createProductReview` (an upsert keyed by
    user) and `deleteReview` (a filter by review id), each followed by a
    recomputation of `ratings` and `numOfReviews` from the whole review list. */
module Reviews {
  import opened Types
  import opened Seqs
  import opened Lookup

  /** The authenticated user of a request. */
  datatype User = User(id: string, name: string)

  const AnonymousUser: string := "anonymous"
  const AnonymousName: string := "Anonymous"

  /** The review a request submits: the fresh id and the timestamp are inputs;
      a request without a user reviews as the anonymous sentinel. */
  function NewReview(actor: Option<User>, rating: real, comment: Option<string>, freshId: string, now: string): (rv: Review)
    ensures actor.Some? ==> rv.user == actor.value.id && rv.name == actor.value.name
    ensures actor.None? ==> rv.user == "anonymous" && rv.name == "Anonymous"
    ensures rv.id == freshId && rv.rating == rating && rv.comment == comment && rv.createdAt == now
  {
    match actor
    case Some(u) => Review(freshId, u.id, u.name, rating, comment, now)
    case None => Review(freshId, AnonymousUser, AnonymousName, rating, comment, now)
  }

  /** The total of the ratings (`reduce((sum, rev) => sum + rev.rating, 0)`). */
  function Sum(revs: seq<Review>): (total: real)
    ensures |revs| == 0 ==> total == 0.0
    ensures |revs| == 1 ==> total == revs[0].rating
  {
    if |revs| == 0 then 0.0 else revs[0].rating + Sum(revs[1..])
  }

  /** The mean rating (`totalRating / reviews.length`); the mean of one
      review is its rating. */
  function Average(revs: seq<Review>): (mean: real)
    requires |revs| > 0
    ensures |revs| == 1 ==> mean == revs[0].rating
  {
    Sum(revs) / (|revs| as real)
  }

  /** The stored aggregates agree with the review list: `numOfReviews` is its
      length and `ratings` its mean, or 0 when it is empty. */
  predicate Aggregated(p: Product) {
    && p.reviews.Some?
    && p.numOfReviews == Some(|p.reviews.value|)
    && p.ratings == Some(if |p.reviews.value| == 0 then 0.0 else Average(p.reviews.value))
  }

  predicate OneReviewPerUser(revs: seq<Review>) {
    forall i, j :: 0 <= i < j < |revs| ==> revs[i].user != revs[j].user
  }

  predicate HasUser(revs: seq<Review>, user: string) {
    exists k :: 0 <= k < |revs| && revs[k].user == user
  }

  /** Two versions of a product that differ at most in their review fields. */
  predicate SameDetails(p: Product, q: Product) {
    && p.id == q.id && p.title == q.title && p.price == q.price
    && p.description == q.description && p.category == q.category && p.imageUrl == q.imageUrl
    && p.createdAt == q.createdAt && p.updatedAt == q.updatedAt
  }

  function UserIs(user: string): Review -> bool {
    (rev: Review) => rev.user == user
  }

  /** Insert `rv`, replacing the first review by the same user in place when
      there is one and appending it otherwise. */
  function Upsert(revs: seq<Review>, rv: Review): (r: seq<Review>)
    ensures |r| == if HasUser(revs, rv.user) then |revs| else |revs| + 1
    ensures exists j ::
      && 0 <= j < |r| && r[j] == rv
      && (forall k :: 0 <= k < j ==> revs[k].user != rv.user)
      && (j < |revs| ==> revs[j].user == rv.user)
      && (forall k :: 0 <= k < |revs| && k != j ==> r[k] == revs[k])
  {
    match FirstIndex(revs, UserIs(rv.user))
    case Some(j) => revs[j := rv]
    case None =>
      var r := revs + [rv];
      assert r[|revs|] == rv;
      r
  }

  /** The upsert keeps "at most one review per user". */
  lemma UpsertKeepsOneReviewPerUser(revs: seq<Review>, rv: Review)
    requires OneReviewPerUser(revs)
    ensures OneReviewPerUser(Upsert(revs, rv))
  {
    var r := Upsert(revs, rv);
    var j :| 0 <= j < |r| && r[j] == rv
      && (forall k :: 0 <= k < j ==> revs[k].user != rv.user)
      && (j < |revs| ==> revs[j].user == rv.user)
      && (forall k :: 0 <= k < |revs| && k != j ==> r[k] == revs[k]);
    forall a, b | 0 <= a < b < |r| ensures r[a].user != r[b].user {
      if a == j {
        if j < |revs| {
          assert revs[j].user == rv.user && r[b] == revs[b];
        } else {
          assert false;
        }
      } else if b == j {
        assert r[a] == revs[a];
      } else {
        assert r[a] == revs[a] && r[b] == revs[b];
      }
    }
  }

  /** A second submission by the same user leaves exactly what the second
      submission alone would have left. */
  lemma UpsertSameUserTwice(revs: seq<Review>, first: Review, second: Review)
    requires first.user == second.user
    ensures Upsert(Upsert(revs, first), second) == Upsert(revs, second)
  {
    var P := UserIs(first.user);
    assert UserIs(second.user) == P;
    match FirstIndex(revs, P)
    case Some(j) =>
      var once := revs[j := first];
      assert forall k :: 0 <= k < j ==> once[k] == revs[k];
      FirstIndexAt(once, P, j);
      assert once[j := second] == revs[j := second];
    case None =>
      var once := revs + [first];
      assert forall k :: 0 <= k < |revs| ==> once[k] == revs[k];
      FirstIndexAt(once, P, |revs|);
      assert once[|revs| := second] == revs + [second];
  }

  /** The total of two lists laid end to end. */
  lemma {:induction false} SumAppend(a: seq<Review>, b: seq<Review>)
    ensures Sum(a + b) == Sum(a) + Sum(b)
  {
    if |a| == 0 {
      assert a + b == b;
    } else {
      assert (a + b)[1..] == a[1..] + b;
      SumAppend(a[1..], b);
    }
  }

  /** Replacing one review changes the total by the difference of the ratings. */
  lemma {:induction false} SumReplace(revs: seq<Review>, j: nat, rv: Review)
    requires j < |revs|
    ensures Sum(revs[j := rv]) == Sum(revs) - revs[j].rating + rv.rating
  {
    if j > 0 {
      assert revs[j := rv][1..] == revs[1..][j - 1 := rv];
      SumReplace(revs[1..], j - 1, rv);
    }
  }

  /** With every rating in `[lo, hi]`, the total lies between `n * lo` and `n * hi`. */
  lemma {:induction false} SumBounds(revs: seq<Review>, lo: real, hi: real)
    requires forall k :: 0 <= k < |revs| ==> lo <= revs[k].rating <= hi
    ensures lo * (|revs| as real) <= Sum(revs) <= hi * (|revs| as real)
  {
    if |revs| == 1 {
      assert Sum(revs) == revs[0].rating;
    } else if |revs| > 1 {
      SumBounds(revs[1..], lo, hi);
      BoundStep(lo, hi, revs[0].rating, Sum(revs[1..]), |revs[1..]| as real, Sum(revs), |revs| as real);
    }
  }

  /** Adding one value in `[lo, hi]` to a total of `m` such values gives a
      total `sum` of `n = m + 1` values. */
  lemma BoundStep(lo: real, hi: real, x: real, total: real, m: real, sum: real, n: real)
    requires lo <= x <= hi
    requires lo * m <= total <= hi * m
    requires sum == x + total && n == m + 1.0
    ensures lo * n <= sum <= hi * n
  {
  }

  /** With every rating in `[lo, hi]`, so does the stored mean. */
  lemma AverageBounds(revs: seq<Review>, lo: real, hi: real)
    requires |revs| > 0
    requires forall k :: 0 <= k < |revs| ==> lo <= revs[k].rating <= hi
    ensures lo <= Average(revs) <= hi
  {
    SumBounds(revs, lo, hi);
    AverageTimesCount(revs);
  }

  /** The stored mean times the number of reviews gives back the total
      (`ratings = totalRating / reviews.length`). */
  lemma {:induction false} AverageTimesCount(revs: seq<Review>)
    requires |revs| > 0
    ensures Average(revs) * (|revs| as real) == Sum(revs)
  {
    DivTimes(Sum(revs), |revs| as real, Average(revs));
  }

  /** A quotient times its divisor gives back the dividend. */
  lemma DivTimes(x: real, n: real, q: real)
    requires n > 0.0 && q == x / n
    ensures q * n == x
  {
  }

  /** Recomputing from scratch agrees with the incremental update: a review by
      a new user adds its rating to the total and one to the count; a
      replacement swaps the old rating for the new one at the same count. */
  lemma UpsertTotal(revs: seq<Review>, rv: Review)
    ensures !HasUser(revs, rv.user) ==> Sum(Upsert(revs, rv)) == Sum(revs) + rv.rating
    ensures forall j ::
      (0 <= j < |revs| && revs[j].user == rv.user && (forall k :: 0 <= k < j ==> revs[k].user != rv.user))
      ==> Sum(Upsert(revs, rv)) == Sum(revs) - revs[j].rating + rv.rating
  {
    var P := UserIs(rv.user);
    match FirstIndex(revs, P)
    case Some(i) =>
      assert Upsert(revs, rv) == revs[i := rv];
      SumReplace(revs, i, rv);
      forall j | 0 <= j < |revs| && revs[j].user == rv.user && (forall k :: 0 <= k < j ==> revs[k].user != rv.user)
        ensures j == i
      {
        assert P(revs[j]) && P(revs[i]);
      }
    case None =>
      assert Upsert(revs, rv) == revs + [rv];
      SumAppend(revs, [rv]);
      assert Sum([rv]) == rv.rating;
  }

  /** `p` with the given review list and its aggregates recomputed from it. */
  function Reaggregate(p: Product, revs: seq<Review>): (q: Product)
    ensures SameDetails(p, q)
    ensures q.reviews == Some(revs)
    ensures Aggregated(q)
  {
    p.(reviews := Some(revs),
       numOfReviews := Some(|revs|),
       ratings := Some(if |revs| == 0 then 0.0 else Average(revs)))
  }

  /** One product after a review is submitted: the review is upserted into
      its list (an absent list counting as empty) and the aggregates are
      recomputed. */
  function AddReview(p: Product, actor: Option<User>, rating: real, comment: Option<string>,
                     freshId: string, now: string): (q: Product)
    ensures SameDetails(p, q)
    ensures q.reviews == Some(Upsert(p.reviews.GetOr([]), NewReview(actor, rating, comment, freshId, now)))
    ensures Aggregated(q)
  {
    Reaggregate(p, Upsert(p.reviews.GetOr([]), NewReview(actor, rating, comment, freshId, now)))
  }

  /** One product after a review id is deleted from its list. */
  function RemoveReview(p: Product, reviewId: string): (q: Product)
    requires p.reviews.Some?
    ensures SameDetails(p, q)
    ensures q.reviews == Some(Filter(p.reviews.value, IdIsNot(reviewId)))
    ensures Aggregated(q)
  {
    Reaggregate(p, Filter(p.reviews.value, IdIsNot(reviewId)))
  }

  /** `createProductReview`: 404 for an unknown product; otherwise the first
      product with that id gets the new review upserted into its reviews (an
      absent list counting as empty) and its aggregates recomputed; nothing
      else changes. */
  function CreateProductReview(ps: Catalog, productId: string, actor: Option<User>, rating: real,
                               comment: Option<string>, freshId: string, now: string): (r: Result<Write<string>>)
    ensures r.Err? <==> !HasId(ps, productId)
    ensures r.Err? ==> r.error == NotFound
    ensures r.Ok? ==> |r.value.catalog| == |ps|
    ensures r.Ok? ==>
      exists i ::
        && 0 <= i < |ps| && ps[i].id == productId && (forall j :: 0 <= j < i ==> ps[j].id != productId)
        && (forall j :: 0 <= j < |ps| && j != i ==> r.value.catalog[j] == ps[j])
        && r.value.catalog[i] == AddReview(ps[i], actor, rating, comment, freshId, now)
        && |r.value.catalog[i].reviews.value| >= 1
  {
    match FindProductIndex(ps, productId)
    case None => Err(NotFound)
    case Some(i) =>
      Ok(Write(ps[i := AddReview(ps[i], actor, rating, comment, freshId, now)], "Review added successfully"))
  }

  function IdIsNot(reviewId: string): Review -> bool {
    (rev: Review) => rev.id != reviewId
  }

  /** `deleteReview`: 404 for an unknown product; a product without a
      `reviews` field makes the handler throw (500); otherwise every review
      with the given id is filtered out and the aggregates are recomputed.
      An unknown review id is not an error. */
  function DeleteReview(ps: Catalog, productId: string, reviewId: string): (r: Result<Write<string>>)
    ensures !HasId(ps, productId) ==> r == Err(NotFound)
    ensures HasId(ps, productId) && GetProductDetails(ps, productId).value.reviews.None? ==> r == Err(ServerError)
    ensures HasId(ps, productId) && GetProductDetails(ps, productId).value.reviews.Some? ==> r.Ok?
    ensures r.Ok? ==> |r.value.catalog| == |ps|
    ensures r.Ok? ==>
      exists i ::
        && 0 <= i < |ps| && ps[i].id == productId && (forall j :: 0 <= j < i ==> ps[j].id != productId)
        && ps[i].reviews.Some?
        && (forall j :: 0 <= j < |ps| && j != i ==> r.value.catalog[j] == ps[j])
        && r.value.catalog[i] == RemoveReview(ps[i], reviewId)
  {
    match FindProductIndex(ps, productId)
    case None => Err(NotFound)
    case Some(i) =>
      if ps[i].reviews.None? then Err(ServerError)
      else Ok(Write(ps[i := RemoveReview(ps[i], reviewId)], "Review deleted successfully"))
  }

  /** The filter removes every review with the id and keeps every other
      review; when no review has the id, it keeps the list as it is. */
  lemma DeleteReviewFilters(revs: seq<Review>, reviewId: string)
    ensures forall k :: 0 <= k < |Filter(revs, IdIsNot(reviewId))| ==> Filter(revs, IdIsNot(reviewId))[k].id != reviewId
    ensures forall rev :: rev in revs && rev.id != reviewId ==> rev in Filter(revs, IdIsNot(reviewId))
    ensures (forall k :: 0 <= k < |revs| ==> revs[k].id != reviewId) ==> Filter(revs, IdIsNot(reviewId)) == revs
  {
    var P := IdIsNot(reviewId);
    FilterMultiset(revs, P);
    forall rev | rev in revs && rev.id != reviewId ensures rev in Filter(revs, P) {
      assert multiset(revs)[rev] > 0;
      assert multiset(Filter(revs, P))[rev] > 0;
    }
    if forall k :: 0 <= k < |revs| ==> revs[k].id != reviewId {
      FilterAll(revs, P);
    }
  }

  /** Filtering keeps "at most one review per user". */
  lemma {:induction false} FilterKeepsOneReviewPerUser(revs: seq<Review>, P: Review -> bool)
    requires OneReviewPerUser(revs)
    ensures OneReviewPerUser(Filter(revs, P))
  {
    if |revs| > 0 {
      var rest := revs[1..];
      assert OneReviewPerUser(rest);
      FilterKeepsOneReviewPerUser(rest, P);
      var fr := Filter(rest, P);
      forall k | 0 <= k < |fr| ensures fr[k].user != revs[0].user {
        FilterSubset(rest, P, fr[k]);
      }
      assert Filter(revs, P) == (if P(revs[0]) then [revs[0]] else []) + fr;
    }
  }
}
