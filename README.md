# Campus marketplace backend: product routes and schemas

This project models the core of a campus second-hand marketplace server (an
Express application over MongoDB/Mongoose) in Dafny:

- the `Product` and `User` schemas: their fields, the `status` and
  `condition` enums, the defaults Mongoose fills in, the `required`
  validators and the unique index on `studentId`;
- the product route handlers, as operations on a store holding the
  `products` and `users` collections. The authenticated caller is an
  explicit parameter. The handlers are: the listing query, the image
  fetch, the owner-only status change, listing creation, adding a
  comment, the favorite toggle and seller evaluation;
- the `GET /api/setadmin` handler: it validates its parameters and sets
  `isAdmin` on the user with the given student id.

Modules follow the source files:

| module | file | models |
|---|---|---|
| `Types`, `Http` | common.dfy | optional values, ids, replies and error classes |
| `ProductModel` | product_model.dfy | models/product.model.js |
| `UserModel` | user_model.dfy | models/user.model.js |
| `FavoriteList` | favorite_list.dfy | the `indexOf`/`splice`/`push` toggle of routes/product.routes.js |
| `ProductQuery` | product_query.dfy | the listing query of routes/product.routes.js |
| `Database` | database.dfy | the two collections (class `Store`) and the invariants of stored documents |
| `ProductRoutes` | product_routes.dfy | the other handlers of routes/product.routes.js |
| `AdminRoutes` | admin_routes.dfy | the setadmin handler of routes/admin.routes.js |

A handler that mutates a loaded document and saves it is a method with
`modifies db`. Its postcondition states the reply and the whole new content
of both collections in terms of the old content, and it keeps
`Store.Valid()`. `Store.Valid()` says that every product passed validation
and lists each favoriting user once. It also says that every user passed
validation, has non-negative counters, and has a student id no other user
shares. The listing query and the image check are functions. The listing
is stated over `docs`, the documents a query over the whole collection
yields. `Database.Enumerates(docs, products)` ties them to the store: docs
holds only stored products, holds every stored product, and holds each
once.

Where a handler dereferences a document that does not exist, or a save
fails validation, the source throws inside its `try` block and answers 500.
The model returns `Refused(ServerError)` there. Status codes follow the
code: a failed validation answers 500.

The code decides these points:

- There is no selling-to-sold state machine. The status route stores any
  value of the enum, so `sold` can go back to `selling`.
- No Order is created on sale.
- There is no `evaluatedBy` list. Evaluation makes no self-evaluation,
  repeat-evaluation or sold-state checks, and the caller plays no part
  in it.
- `viewHistory` is a plain list of product ids, and no route writes it.
- `favoritedBy` is a list, not a set. The schema allows duplicates; the
  routes never create one.
- The setadmin route has no authentication. It reads `secretKey` and
  never checks it. The model has no check either.
- Neither entry point shown (index.js:24-25, server/index.js:23-24)
  registers routes/admin.routes.js; they mount only the auth and product
  routes. As shown, nothing serves GET /api/setadmin. The model describes
  the handler as written.

The schema declares `status` (models/product.model.js:18 and 28-32) and
`owner` (lines 19 and 34-37) twice with the same content. The model has
one field each.

## Model

| member | source | states |
|---|---|---|
| `ProductModel.ParseStatus` | models/product.model.js:28-32 | a status string is accepted exactly when it is `selling` or `sold`, and an accepted one names the value it yields |
| `ProductModel.ParseCondition` | models/product.model.js:12-16 | `condition` accepts exactly the four grade strings, each naming the grade it yields |
| `ProductModel.ConditionNamesRoundTrip` | models/product.model.js:14 | every grade reads back as itself, and distinct grades have distinct names |
| `ProductModel.Validate` | models/product.model.js:3-54 | the first save succeeds exactly when title, category and campus are non-empty, price is present and condition is in the enum; the saved product copies the supplied fields, has description "" when none was given, viewCount 0, status `selling`, no comments, no favorites and createdAt = now |
| `UserModel.ParseKind` | models/user.model.js:23-27 | a type names a reputation counter exactly when it is `good`, `neutral` or `bad`, and each names its own counter |
| `UserModel.NewUser` | models/user.model.js:5-33 | a user validates exactly when studentId, nickname and password are non-empty; a new user is not an admin, has all three counters at 0 and an empty view history |
| `UserModel.InsertUser` | models/user.model.js:5-9 | an insert succeeds exactly when neither the id nor the student id is taken (otherwise a 500 duplicate-key error), adds exactly that user and keeps student ids unique |
| `FavoriteList.IndexOf` | routes/product.routes.js:113 | -1 exactly when the caller is absent; otherwise a position holding the caller with no earlier occurrence |
| `FavoriteList.RemoveFirst` | routes/product.routes.js:114 | removing the first occurrence takes exactly one copy out of the bag of elements, and the length drops by one exactly when the element was present |
| `FavoriteList.SpliceIsRemoveFirst` | routes/product.routes.js:113-114 | `splice(indexOf(x), 1)` removes exactly the first occurrence of x |
| `FavoriteList.ToggleCounts` | routes/product.routes.js:113-117 | a toggle removes one copy of the caller when present and appends one otherwise; the reported count is the old length minus or plus one accordingly |
| `FavoriteList.ToggleKeepsNoDup` | routes/product.routes.js:113-115 | on a duplicate-free list a toggle keeps the list duplicate-free, and the caller ends up a member exactly when it was not one before |
| `FavoriteList.ToggleTwice` | routes/product.routes.js:113-115 | on a duplicate-free list two toggles by one user restore the bag, the membership and the length; if the user was absent the list itself comes back |
| `FavoriteList.ToggleTwiceNeedsNoDup` | models/product.model.js:46-51 | the schema allows duplicate favorites, and with two copies of the caller two toggles leave none |
| `ProductQuery.Contains` | routes/product.routes.js:18 | the substring test holds exactly when the needle occurs at some position of the title |
| `ProductQuery.Selected` | routes/product.routes.js:14-18 | the query keeps every document that is `selling`, has the category when one was given, and has a title containing the search (ignoring case) when one was given; it keeps nothing else |
| `ProductQuery.SortNewestFirst` | routes/product.routes.js:22 | the sort orders by createdAt descending and is a permutation of its input |
| `ProductQuery.Listing` | routes/product.routes.js:13-23 | the listing is newest first, holds exactly the matching documents without image data, and includes every matching document |
| `Database.Documents` | routes/product.routes.js:22 | every collection of documents keyed by their own ids can be read out as a sequence that holds each stored document exactly once and nothing else |
| `ProductRoutes.ListingOfStore` | routes/product.routes.js:13-23 | for any order in which the collection yields its documents, a stored product is listed exactly when it matches the query; every listed entry is a stored product with its image removed |
| `ProductRoutes.FetchImage` | routes/product.routes.js:40-51 | 404 exactly when the product is missing or has no image data; otherwise 200 with the stored bytes and content type |
| `ProductRoutes.ChangeStatus` | routes/product.routes.js:54-70 | a missing product gives 404, a product without owner 500 and a non-owner 403, and none of these changes anything; for the owner, a status outside the enum fails the save with 500 and no change, and a valid one replaces only `status`; after a successful change to `sold` no listing of the store shows the product, under any filter |
| `ProductRoutes.SoldIsNotListed` | routes/product.routes.js:16 | a stored product whose status is `sold` appears in no listing of the store, whatever the category and search |
| `ProductRoutes.AsWrittenCreateNeverSaves` | routes/product.routes.js:81-92 | the document as the handler constructs it never passes validation, whatever the request holds |
| `ProductRoutes.NewListing` | routes/product.routes.js:81-91 | the intended new listing validates exactly when the form's required fields are present and valid; it is then owned by the caller, stores the upload and its MIME type as its image, and is `selling` with viewCount 0 and no comments or favorites, under the form's title and category |
| `ProductRoutes.CreateListing` | routes/product.routes.js:74-97 | no upload gives 400, and a failed validation or a taken id gives 500; neither creates anything; otherwise 201, exactly the new listing is added under its id, and the unfiltered listing of the new store shows it |
| `ProductRoutes.UploadedImageIsServed` | routes/product.routes.js:87-90 | after creation the image route returns the uploaded bytes with the uploaded MIME type |
| `ProductRoutes.NewListingIsListed` | routes/product.routes.js:13-23 | once a new listing is stored, every enumeration of the store lists it, both unfiltered and when filtered by its own category and title |
| `ProductRoutes.AddComment` | routes/product.routes.js:100-108 | a missing caller or product gives 500 and no change; otherwise exactly one comment (caller, caller's current nickname, content, now) is appended, earlier comments are untouched, and the new list is returned with 201 |
| `ProductRoutes.ToggleFavorite` | routes/product.routes.js:110-119 | a missing product gives 500 and no change; otherwise only `favoritedBy` of that product changes, to the toggle of the caller, and the reply is its new length |
| `ProductRoutes.Evaluate` | routes/product.routes.js:121-129 | a missing target gives 500 and no change; otherwise 200, only the target's reputation changes, and exactly the named counter goes up by 1 (none for an unknown type) |
| `AdminRoutes.CheckSetAdmin` | routes/admin.routes.js:169-180 | 400 exactly when userId or setadmin is missing or empty, or setadmin is neither '0' nor '1'; otherwise the change targets userId, and '1' means admin |
| `AdminRoutes.SetAdmin` | routes/admin.routes.js:166-212 | a rejected query gives its 400 and an unknown student id 404, with no change to any user; otherwise only the matching user's `isAdmin` is set, and its id, studentId, nickname and new flag are echoed with 200 |

## Findings

| source | as written | input that shows it | evidently intended | confidence | as-written member | corrected member |
|---|---|---|---|---|---|---|
| routes/product.routes.js:81-91 | The new Product is built from title, description, price, category, owner and image only. `campus` and `condition` are required by the schema (models/product.model.js:11-16) and are never set, so `save()` throws a ValidationError and the route answers 500. | Any POST /api/products with an image file, even with title "Lamp", price 10, category "home", campus "main" and condition "全新" in the form | Pass `req.body.campus` and `req.body.condition` to the constructor | not executed; high | `ProductRoutes.AsWrittenCreateNeverSaves` | `ProductRoutes.NewListing` |

`ProductRoutes.CreateListing` uses the corrected document.

## Left out

- Registration and login (routes/auth.routes.js) are not part of this model: they call bcrypt and JWT signing. `UserModel.NewUser` and `UserModel.InsertUser` model only the schema side of creating a user.
- CSV export and the statistics pipelines of routes/admin.routes.js: both are delegated to json2csv and the database's aggregation engine.
- GET /api/products/:id, GET /api/user/favorites and GET /api/user/publications: each is a single database query with no logic of its own.
- The Order model: no shown route creates or changes an Order.
- Server wiring, CORS, the database connection, `verifyToken` (not shown) and the Multer upload middleware are not modelled. The upload is a parameter carrying its bytes and MIME type.
- Database failures, and the 500 a malformed ObjectId causes (a CastError) are not modelled. Ids are opaque strings, and a lookup either finds a document or not.
- Concurrency: simultaneous read-modify-save requests can lose updates to `favoritedBy`, `comments` or `reputation`. The source has no concurrency control, and each handler is modelled as one atomic step.
- `updatedAt`, and the timestamps of users, are not modelled. The clock is a parameter (`now`) wherever a value is stored.
- The `populate('owner', 'nickname')` join of the listing query is not modelled. Listed products carry their owner id.
- `ProductQuery.Listing`: the search value is a regular expression in the source. The model treats it as a literal substring and folds case for ASCII letters only.
- `ProductQuery.Listing`: products with equal `createdAt` are returned in an order the database chooses. The model proves order and contents, not an order among ties.
- `ProductRoutes.FetchImage`: `res.set('Content-Type', …)` sends the value as a string and adds a charset to text types. A stored image without a content type therefore goes out as the literal `undefined`. The model returns the stored optional content type as it is.
- Comment subdocument ids: Mongoose gives each pushed comment its own `_id`, and the reply to POST /api/products/:id/comments includes it. `ProductModel.Comment` has no id field.
- `ProductRoutes.ChangeStatus`: a body with no `status` makes the source unset the field. The model always takes a status string.
- `ProductRoutes.Evaluate`: JavaScript's `in` also accepts inherited property names such as `toString`. The model treats them as unknown types, which change no counter.
- `ProductRoutes.Evaluate`: counters are unbounded integers; JavaScript numbers lose precision above 2^53.
- `ProductRoutes.CreateListing`: the form's string-to-Number cast of `price` is not modelled. A price that fails the cast is given as absent, which fails validation in the same way. Prices are reals, not IEEE doubles.
- Query and body values that Express parses into arrays or objects are not modelled. Every parameter is a string or absent.
