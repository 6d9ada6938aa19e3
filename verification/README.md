# Product catalog handlers, modelled in Dafny

This project models the product controller of a small e-commerce API
(`api/controllers/productController.js`). The controller keeps the catalog
as a JSON array of products in one file. Every handler reads the whole
array, computes an answer, and the mutating handlers write the whole array
back. The handlers are:

- `getAllProducts`: category filter and pagination;
- `getProducts` and `getAdminProducts`: the full list;
- `getProductDetails`: lookup by id;
- `createProduct`, `updateProduct` and `deleteProduct`;
- `createProductReview`: one review per user, replaced in place on resubmission;
- `getProductReviews`;
- `deleteReview`.

Each handler is a pure function from the loaded catalog (`seq<Product>`) to
a `Result`. A successful mutation returns a `Write`: the catalog to save
and the response body. The `Store` module adds the file around the
handlers:

- a missing, unreadable, empty or unparsable file reads as the empty catalog;
- an error answer writes nothing;
- a failed write becomes a 500 and leaves the file as it was.

Fields that a JSON product may lack are `Option`s. JavaScript truthiness is
written out: a string is falsy when absent or `""`, and a number when absent
or `0`. Things the handlers take from outside are parameters:

- generated ids and the clock;
- the authenticated user;
- whether the file write succeeds.

Modules:

- `Types`: products, reviews, errors and their HTTP status, results.
- `Seqs`: `findIndex`, `filter` and `splice` on sequences, with their contracts.
- `Text`: ASCII `toLowerCase` and case-insensitive equality.
- `Listing`: `getAllProducts`, `getProducts`, `getAdminProducts`.
- `Lookup`: `getProductDetails`, `getProductReviews`.
- `Products`: create, update, delete.
- `Reviews`: review upsert, review deletion, aggregate recomputation.
- `Invariants`: the catalog invariant, which has two parts. Ids are unique. Every stored review list agrees with its `ratings` and `numOfReviews` and holds at most one review per user.
- `Store`: load/commit around a request, and the lost update of two concurrent requests.
- `Scenarios`: concrete request sequences.

Four behaviours of the handlers that a reader may not expect:

- Deleting a review id that the product does not hold is not an error. The handler filters nothing, answers success and rewrites the file (`Reviews.DeleteReview`, `Store.DeleteUnknownReviewKeepsCatalog`).
- `updateProduct` spreads the whole request body. So a patch can overwrite `reviews`, `ratings`, `numOfReviews` and `createdAt`, and break the agreement between the aggregates and the review list (`Invariants.UpdateCanBreakAggregates`). The invariant is proved for patches that leave the review fields alone.
- The review handlers do not refresh `updatedAt`.
- `deleteReview` on a product that has no `reviews` field throws, which gives a 500 and not an empty result.

## Model

| member | source | states |
|---|---|---|
| Types.Status | api/controllers/productController.js:81-84 | Every handler error maps to a 4xx or 5xx status. It is a client (4xx) status exactly when the error is not a thrown exception: "Product Not Found" is 404 and "Missing required fields" is 400 |
| Seqs.FirstIndex | api/controllers/productController.js:138 | `findIndex` returns the first position whose element satisfies the predicate. It is none exactly when no element does |
| Seqs.FirstIndexAt | api/controllers/productController.js:138 | A position is what `findIndex` returns whenever its element satisfies the predicate and no earlier one does |
| Seqs.Filter | api/controllers/productController.js:256-258 | `filter` keeps only satisfying elements, never lengthens its input, and takes no element more often than the input holds it |
| Seqs.FilterMultiset | api/controllers/productController.js:256-258 | Each satisfying element is kept exactly as often as it occurs, and each other element is dropped |
| Seqs.FilterAppend | api/controllers/productController.js:256-258 | Filtering distributes over concatenation, so order is kept |
| Seqs.FilterAll | api/controllers/productController.js:256-258 | Filtering with a predicate that holds everywhere returns the input unchanged |
| Seqs.FilterCongruent | api/controllers/productController.js:41-43 | Two predicates that agree on every element filter alike |
| Seqs.FilterSubset | api/controllers/productController.js:256-258 | Every filtered element comes from the input and satisfies the predicate |
| Seqs.FilterCount | api/controllers/productController.js:54 | The filtered length is the number of input positions that satisfy the predicate |
| Seqs.FilterPrefixCount | api/controllers/productController.js:54 | For every prefix, the filtered length equals the number of satisfying positions in that prefix |
| Seqs.RemoveAt | api/controllers/productController.js:171 | `splice(i, 1)` removes exactly the element at `i`. Earlier elements keep their positions, later ones move down one, and the multiset loses exactly that one element |
| Text.Lower | api/controllers/productController.js:42 | `toLowerCase` keeps the length, leaves no upper-case letter, and changes only upper-case letters, each to its lower-case form |
| Text.LowerFixesLowered | api/controllers/productController.js:42 | A string with no upper-case letter is its own lower-case form |
| Text.LowerIdempotent | api/controllers/productController.js:42 | Lower-casing twice is lower-casing once |
| Listing.MatchesCategory | api/controllers/productController.js:41-43 | A match has a non-empty category equal to the query up to case. A product without a category is in no category. A match has a category as long as the query. A product whose category is exactly a non-empty query is in that category |
| Listing.FilterByCategory | api/controllers/productController.js:39-44 | With a non-empty category query, only products whose category equals the query up to case are kept, each as often as it occurs. With no query or an empty one, the catalog is kept whole. The result never holds anything not in the catalog, and it keeps catalog order (see Listing.FilterByCategoryAppend) |
| Listing.FilterByCategoryAppend | api/controllers/productController.js:41-43 | The category filter keeps catalog order: filtering two catalogs laid end to end gives the two filtered catalogs laid end to end |
| Listing.CategoryCount | api/controllers/productController.js:41-44 | With a category, the filtered length is the number of catalog positions whose product is in that category |
| Listing.FilterIgnoresCase | api/controllers/productController.js:42 | Two queries that differ only in letter case select the same products in the same order |
| Listing.OrDefault | api/controllers/productController.js:47-48 | `parseInt(x)`, falling back to `d` when falsy, is the parsed value when one is sent and non-zero, and the default otherwise. So it is positive exactly when the default or the parsed value is |
| Listing.Slice | api/controllers/productController.js:52 | `slice(start, end)` clamps both bounds to the length. It returns the consecutive elements from `start`, at most `end - start` of them, and nothing when `start` is past the end |
| Listing.Page | api/controllers/productController.js:49-52 | Page `page` of size `perPage` holds at most `perPage` elements. They are the consecutive elements starting at `(page - 1) * perPage`, with exactly as many as remain there. A page past the end is empty |
| Listing.CeilDiv | api/controllers/productController.js:63 | `Math.ceil(n / d)` is the least page count whose pages hold all `n` elements |
| Listing.PageInCategory | api/controllers/productController.js:41-52 | A page of a list whose products are all in the category holds only products of that category |
| Listing.PageNonEmptyIff | api/controllers/productController.js:49-52 | A page is non-empty exactly when its number is at most the page count |
| Listing.PagesArePrefix | api/controllers/productController.js:49-52 | Pages 1 to n, laid end to end, are the first `n * perPage` elements (all of them when fewer) |
| Listing.PagesCoverAll | api/controllers/productController.js:49-63 | Pages 1 to `totalPages`, laid end to end, give back the whole sequence: nothing is lost or repeated |
| Listing.GetAllProducts | api/controllers/productController.js:35-65 | `productsCount` is the catalog size. A missing or zero `limit` becomes 12, and a missing or zero `page` becomes 1. The filtered count never exceeds the catalog size, and equals it without a category. The page is page `currentPage` of the filtered catalog at `resultPerPage` per page (`Listing.Page`): the consecutive filtered products from `(currentPage - 1) * resultPerPage`, at most `resultPerPage` of them, all from the catalog and all in the category. `totalPages` is the ceiling of filtered count over page size. The page is empty exactly when its number is past `totalPages` |
| Listing.ListedPage | api/controllers/productController.js:49-52 | The listed products are the filtered catalog sliced from `(page - 1) * limit` to `page * limit`, both bounds clamped to the filtered length |
| Listing.AllProducts | api/controllers/productController.js:68-75 | `getProducts` returns what the category filter returns with no category or an empty one: the whole catalog |
| Listing.FilteredCountIsMatches | api/controllers/productController.js:41-54 | With a category, `filteredProductsCount` is the number of catalog products in that category. A product without a category is never counted |
| Listing.ListingPagesCover | api/controllers/productController.js:35-75 | Pages 1 to `totalPages` of the filtered catalog, at the page size the listing reports, laid end to end give the filtered catalog back: every product of the category exactly once and in catalog order. Without a category this is the full list that `getProducts` returns |
| Lookup.FindProductIndex | api/controllers/productController.js:138-142 | The position of the first product with the id. There is none exactly when no product has it |
| Lookup.GetProductDetails | api/controllers/productController.js:78-90 | 404 exactly when no product has the id. Otherwise it is the first product with that id |
| Lookup.LookupFindsUniqueProduct | api/controllers/productController.js:78-90 | With unique ids, looking up any product's id returns that product |
| Lookup.GetProductReviews | api/controllers/productController.js:232-244 | 404 exactly when no product has the id. Otherwise it is the found product's reviews, or the empty list when it has none |
| Products.CreateProduct | api/controllers/productController.js:104-133 | 400 exactly when title, description, category or imageUrl is absent or empty, or price is absent or zero. Otherwise the catalog grows by one at the end and keeps its old products. The new product carries the request's fields, the fresh id, the two clock readings as `createdAt` and `updatedAt`, and no review fields |
| Products.CreateThenGet | api/controllers/productController.js:104-133 | A product created under an unused id is found by that id, and ids stay unique |
| Products.Merge | api/controllers/productController.js:145-150 | The merged product keeps every field the patch does not send and takes every field it sends, except that `id` is the path id and `updatedAt` is now |
| Products.UpdateProduct | api/controllers/productController.js:136-159 | 404 exactly when no product has the id. Otherwise only the first product with the id changes. It becomes the shallow merge with the patch: sent fields win and the rest are kept. The id stays the path id and `updatedAt` becomes now |
| Products.UpdateKeepsIds | api/controllers/productController.js:145-152 | An update leaves every id as it was, whatever the patch sends as `id`. Unique ids stay unique, and the updated product is found under its id |
| Products.UpdateIdempotent | api/controllers/productController.js:136-159 | Sending the same update twice at the same time saves the same catalog and answers the same body as sending it once |
| Products.DeleteProduct | api/controllers/productController.js:162-178 | 404 exactly when no product has the id. Otherwise exactly the first product with the id is removed, and the others keep their order |
| Products.DeleteRemovesProduct | api/controllers/productController.js:162-178 | With unique ids, the deleted id no longer resolves, and ids stay unique |
| Products.DeleteKeepsLaterDuplicate | api/controllers/productController.js:171 | Deletion is by position, not by filter: of two products sharing an id, the later one survives |
| Reviews.NewReview | api/controllers/productController.js:196-203 | The new review has the user's id and name, or the anonymous user's when there is none. It also has the fresh id, the rating, the comment and the time |
| Reviews.Upsert | api/controllers/productController.js:205-216 | The review list grows by one exactly when the user had no review. The new review sits at the user's first earlier review, or at the end, and every other entry is unchanged |
| Reviews.UpsertKeepsOneReviewPerUser | api/controllers/productController.js:205-216 | The upsert keeps "at most one review per user" |
| Reviews.UpsertSameUserTwice | api/controllers/productController.js:205-216 | A resubmission by the same user leaves what the second submission alone would leave |
| Reviews.Sum | api/controllers/productController.js:219 | The rating total of no reviews is 0, and of one review is its rating |
| Reviews.Average | api/controllers/productController.js:220 | The mean of a single review is its rating |
| Reviews.AverageTimesCount | api/controllers/productController.js:219-220 | `ratings` is the rating total divided by the number of reviews: the mean times the count gives back the total |
| Reviews.SumAppend | api/controllers/productController.js:219 | The rating total of two lists laid end to end is the sum of their totals |
| Reviews.SumReplace | api/controllers/productController.js:212 | Replacing one review changes the total by the difference of the two ratings |
| Reviews.SumBounds | api/controllers/productController.js:219 | With all ratings in `[lo, hi]`, the total lies between `n * lo` and `n * hi` |
| Reviews.AverageBounds | api/controllers/productController.js:220 | With all ratings in `[lo, hi]`, so is the stored mean |
| Reviews.UpsertTotal | api/controllers/productController.js:205-221 | Recomputing from scratch agrees with an incremental update. A new user's rating is added to the total. A replacement swaps the old rating for the new one |
| Reviews.Reaggregate | api/controllers/productController.js:218-221 | The product takes the given review list, with `numOfReviews` its length and `ratings` its mean (0 when empty). Its other fields are unchanged |
| Reviews.AddReview | api/controllers/productController.js:191-221 | After a submission, the product's review list is the upsert into its old list, where an absent list counts as empty. Its aggregates agree with the new list, and its other fields are unchanged |
| Reviews.RemoveReview | api/controllers/productController.js:255-270 | After a review deletion, the product's review list is the old one without the review id. Its aggregates agree with it, and its other fields are unchanged |
| Reviews.CreateProductReview | api/controllers/productController.js:181-229 | 404 exactly when no product has the id. Otherwise only the first product with the id changes: the review is added, and its list then holds at least one review |
| Reviews.DeleteReview | api/controllers/productController.js:247-277 | 404 when no product has the id. A 500 when the product has no review list. Otherwise only the first product with the id changes: its reviews with the given id are removed and its aggregates recomputed |
| Reviews.DeleteReviewFilters | api/controllers/productController.js:255-258 | After the deletion no review has the id, and every review with another id is still there. An id that no review has changes nothing |
| Reviews.FilterKeepsOneReviewPerUser | api/controllers/productController.js:255-258 | Deleting reviews keeps "at most one review per user" |
| Invariants.CreateKeepsWellFormed | api/controllers/productController.js:104-133 | Creating under an unused id keeps the catalog invariant |
| Invariants.UpdateKeepsWellFormed | api/controllers/productController.js:136-159 | An update whose patch leaves the review fields alone keeps the catalog invariant |
| Invariants.UpdateCanBreakAggregates | api/controllers/productController.js:145-150 | A patch that sends `numOfReviews` turns a consistent catalog into an inconsistent one |
| Invariants.DeleteKeepsWellFormed | api/controllers/productController.js:162-178 | Deleting a product keeps the catalog invariant |
| Invariants.ReviewUpsertKeepsWellFormed | api/controllers/productController.js:181-229 | Submitting a review keeps the catalog invariant |
| Invariants.ReviewDeleteKeepsWellFormed | api/controllers/productController.js:247-277 | Deleting a review keeps the catalog invariant |
| Invariants.DeleteUnknownReviewSavesSameCatalog | api/controllers/productController.js:247-277 | In a consistent catalog, deleting a review id that the product does not hold saves the catalog unchanged |
| Store.Load | api/controllers/productController.js:9-17 | A missing, unreadable, empty or unparsable file loads as the empty catalog. Otherwise the stored catalog is loaded |
| Store.Commit | api/controllers/productController.js:20-27 | The answer succeeds exactly when the handler succeeded and the write succeeded. On an error the file is left as it was, and a failed write answers 500. On success the next load sees exactly the handler's catalog |
| Store.CommitKeepsWellFormed | api/controllers/productController.js:20-27 | A consistent file stays consistent through a request whose successful outcome is consistent. Handler errors and failed writes leave the file as it was |
| Store.DeleteUnknownProductKeepsFile | api/controllers/productController.js:162-168 | Deleting an unknown product id answers 404 and leaves the file as it was, whether or not a write would succeed |
| Store.DeleteUnknownReviewKeepsCatalog | api/controllers/productController.js:247-277 | From a consistent catalog, an unknown review id is answered with success, and the next load sees the same catalog as before |
| Store.FirstCreateReplacesMissingFile | api/controllers/productController.js:9-17 | A missing, unreadable, empty or unparsable file reads as empty. So the first successful create leaves a file holding just the new product |
| Store.ConcurrentCreatesLoseFirst | api/controllers/productController.js:104-127 | Two creates that load the same snapshot and write one after the other lose the first product |
| Scenarios.PairListing | api/controllers/productController.js:35-65 | Listing a category from two products of which only the second is in it returns the second alone. Filtered count 1, catalog count 2, one page |
| Scenarios.BooksListing | api/controllers/productController.js:35-65 | Query "books" on an Electronics product and a Books product returns the Books product alone. Filtered count 1, catalog count 2, one page |
| Scenarios.EmptyFieldsRejected | api/test-api.js:18-24 | A create request with empty title, description and category is refused with 400, although its negative price alone is truthy |
| Scenarios.ReviewedTwice | api/controllers/productController.js:181-229 | Two review requests on the same product leave it with both submissions applied in order, each one an upsert by user |
| Scenarios.TwoUsersAverage | api/controllers/productController.js:205-221 | Two users rating an unreviewed product 4 and 5 give two reviews and `ratings` 4.5 |
| Scenarios.SameUserTwice | api/controllers/productController.js:205-221 | One user rating an unreviewed product twice leaves one review with the second rating. `ratings` is that rating |
| Scenarios.DeleteLastReview | api/controllers/productController.js:255-270 | Deleting the only review leaves no reviews, with `ratings` 0 and `numOfReviews` 0 |

## Left out

- File I/O and JSON (de)serialisation are not modelled. The file is an `Option<Catalog>`, where `None` stands for a missing or unreadable file, or empty or unparsable content. The write is modelled as all or nothing: a write that fails half-way and truncates the file is not modelled.
- `generateId` and `new Date()` are not modelled. They are inputs. Whether generated ids are fresh is a precondition where it matters (`Products.CreateThenGet`, `Invariants.CreateKeepsWellFormed`).
- Concurrency is not modelled beyond one lemma. Requests are applied one at a time. Last-writer-wins appears only in `Store.ConcurrentCreatesLoseFirst`.
- Routing, authentication, authorisation and the validation middleware are not modelled. They sit outside the controller. The authenticated user is an `Option<User>` argument.
- `parseInt`, `parseFloat` and `Number` coercion are not modelled. Request numbers arrive already parsed, and NaN and infinities do not occur. A `page` or `limit` that does not parse is `None`. So a string price such as `"0"`, which passes the truthiness check but is stored as 0, is outside the model.
- Store.Load: a file holding valid JSON that is not an array of products (such as `{}` or `null`) is not modelled. `readProductsFromFile` returns it as parsed, and the handlers then throw: a create on it would answer 500 and write nothing, where the model reads it as the empty catalog.
- Products.UpdateProduct: a patch carries only the eleven typed product fields. A field sent as `null`, which the spread copies and so clears, and keys outside those fields, which the spread also copies, are not modelled. Likewise `CreateRequest` cannot express create fields of another type (such as `title: 0`); the truthiness guard would treat them as JavaScript does.
- Listing.GetAllProducts: a negative `page` or `limit` is not modelled. Both are `nat`, so negative slice bounds are outside the model.
- Text.Lower: only ASCII letters are lower-cased. Other Unicode case mappings of `toLowerCase` are not modelled.
- Reviews.Average: ratings and means are exact reals, not IEEE doubles. So rounding in the sum and the division is not modelled. The same holds for `Math.ceil`, which is computed on whole numbers.
- A product without an `id` field, and categories, queries or review lists that are not strings or arrays, are not modelled. The handler would throw on some of them or compare `undefined` on others.
- The HTTP status of successful answers (200, 201) and the `success` flag of the JSON bodies are not modelled.
