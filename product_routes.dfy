/** The product routes: image fetch, status change, listing creation,
    comments, the favorite toggle and seller evaluation. Each handler reads
    the documents it needs from the store, checks, and writes back one
    changed document; the authenticated caller is an explicit parameter. */
module ProductRoutes {
  import opened Types
  import opened Http
  import opened ProductModel
  import opened UserModel
  import opened FavoriteList
  import opened ProductQuery
  import opened Database

  /** The body and content type the image route sends. */
  datatype ImagePayload = ImagePayload(contentType: Option<string>, data: Bytes)

  /** GET /api/products/:id/image: 404 unless the product exists and has
      image data; otherwise the stored bytes under the stored type. */
  function FetchImage(products: map<ProductId, Product>, id: ProductId): (r: Reply<ImagePayload>)
    ensures r.Refused? <==> id !in products || products[id].image.data.None?
    ensures r.Refused? ==> r.error == NotFound
    ensures r.Done? ==>
      && r.code == 200
      && Some(r.body.data) == products[id].image.data
      && r.body.contentType == products[id].image.contentType
  {
    if id !in products || products[id].image.data.None? then Refused(NotFound)
    else Done(200, ImagePayload(products[id].image.contentType, products[id].image.data.value))
  }

  /** PUT /api/products/:id/status: only the owner may set the status, to
      whatever the body names; a name outside the enum fails the save. */
  method ChangeStatus(db: Store, caller: UserId, id: ProductId, requested: string) returns (r: Reply<()>)
    requires db.Valid()
    modifies db
    ensures db.Valid() && db.users == old(db.users)
    ensures id !in old(db.products) ==>
      r == Refused(NotFound) && db.products == old(db.products)
    ensures id in old(db.products) && old(db.products)[id].owner.None? ==>
      r == Refused(ServerError) && db.products == old(db.products)
    ensures id in old(db.products) && old(db.products)[id].owner.Some? && old(db.products)[id].owner.value != caller ==>
      r == Refused(Forbidden) && db.products == old(db.products)
    ensures id in old(db.products) && old(db.products)[id].owner == Some(caller) && ParseStatus(requested).None? ==>
      r == Refused(ServerError) && db.products == old(db.products)
    ensures id in old(db.products) && old(db.products)[id].owner == Some(caller) && ParseStatus(requested).Some? ==>
      && r == Done(200, ())
      && db.products == old(db.products)[id := old(db.products)[id].(status := ParseStatus(requested).value)]
    ensures r.Done? && requested == "sold" ==>
      && id in db.products
      && forall docs, category, search, q :: Enumerates(docs, db.products) && q in Listing(docs, category, search) ==> q.id != id
  {
    if id !in db.products {
      return Refused(NotFound);
    }
    var product := db.products[id];
    if product.owner.None? {
      // `product.owner.toString()` throws on a missing owner.
      return Refused(ServerError);
    }
    if product.owner.value != caller {
      return Refused(Forbidden);
    }
    var status := ParseStatus(requested);
    if status.None? {
      // The save's enum validator rejects the value.
      return Refused(ServerError);
    }
    db.products := db.products[id := product.(status := status.value)];
    r := Done(200, ());
    forall docs, category, search | Enumerates(docs, db.products) && requested == "sold"
      ensures forall q :: q in Listing(docs, category, search) ==> q.id != id
    {
      SoldIsNotListed(db.products, docs, id, category, search);
    }
  }

  /** The text fields of the multipart body of POST /api/products. */
  datatype ListingForm = ListingForm(
    title: Option<string>,
    description: Option<string>,
    price: Option<real>,
    category: Option<string>,
    campus: Option<string>,
    condition: Option<string>)

  /** The uploaded `imageFile`. */
  datatype Upload = Upload(buffer: Bytes, mimetype: string)

  /** The document exactly as the handler constructs it: `campus` and
      `condition` are never passed. */
  function AsWrittenDraft(form: ListingForm, caller: UserId, file: Upload): Draft {
    Draft(form.title, form.description, form.price, form.category, None, None,
          Some(caller), Image(Some(file.buffer), Some(file.mimetype)))
  }

  /** Both omitted paths are required by the schema, so the save fails
      validation whatever the request holds. */
  lemma AsWrittenCreateNeverSaves(id: ProductId, form: ListingForm, caller: UserId, file: Upload, now: Time)
    ensures Validate(id, AsWrittenDraft(form, caller, file), now).None?
  {
  }

  /** The document the handler evidently means to construct: the form's
      `campus` and `condition` are passed along with the other fields. */
  function ListingDraft(form: ListingForm, caller: UserId, file: Upload): Draft {
    Draft(form.title, form.description, form.price, form.category, form.campus, form.condition,
          Some(caller), Image(Some(file.buffer), Some(file.mimetype)))
  }

  /** The validated new listing: owned by the caller, for sale, unviewed,
      with the upload stored as its image. */
  function NewListing(id: ProductId, form: ListingForm, caller: UserId, file: Upload, now: Time): (r: Option<Product>)
    ensures r.Some? <==>
      && Given(form.title) && form.price.Some? && Given(form.category) && Given(form.campus)
      && form.condition.Some? && ParseCondition(form.condition.value).Some?
    ensures r.Some? ==>
      && ValidProduct(r.value)
      && r.value.id == id
      && r.value.title == form.title.value && r.value.category == form.category.value
      && r.value.owner == Some(caller)
      && r.value.image == Image(Some(file.buffer), Some(file.mimetype))
      && r.value.status == Selling
      && r.value.viewCount == 0
      && r.value.description == form.description.GetOr("")
      && r.value.comments == [] && r.value.favoritedBy == []
      && r.value.createdAt == now
  {
    Validate(id, ListingDraft(form, caller, file), now)
  }

  /** POST /api/products: 400 without an uploaded file; a failed validation
      or a taken id fails the save; otherwise exactly one product is added. */
  method CreateListing(db: Store, caller: UserId, form: ListingForm, file: Option<Upload>, id: ProductId, now: Time)
    returns (r: Reply<()>)
    requires db.Valid()
    modifies db
    ensures db.Valid() && db.users == old(db.users)
    ensures file.None? ==> r == Refused(BadRequest) && db.products == old(db.products)
    ensures file.Some? && (NewListing(id, form, caller, file.value, now).None? || id in old(db.products)) ==>
      r == Refused(ServerError) && db.products == old(db.products)
    ensures file.Some? && NewListing(id, form, caller, file.value, now).Some? && id !in old(db.products) ==>
      && r == Done(201, ())
      && db.products == old(db.products)[id := NewListing(id, form, caller, file.value, now).value]
    ensures r.Done? ==>
      && id in db.products
      && forall docs :: Enumerates(docs, db.products) ==> Strip(db.products[id]) in Listing(docs, None, None)
  {
    if file.None? {
      return Refused(BadRequest);
    }
    var product := NewListing(id, form, caller, file.value, now);
    if product.None? || id in db.products {
      return Refused(ServerError);
    }
    var before := db.products;
    db.products := db.products[id := product.value];
    r := Done(201, ());
    forall docs | Enumerates(docs, db.products)
      ensures Strip(db.products[id]) in Listing(docs, None, None)
    {
      NewListingIsListed(before, docs, id, form, caller, file.value, now);
    }
  }

  /** A created listing serves back the uploaded bytes under the uploaded
      MIME type. */
  lemma UploadedImageIsServed(products: map<ProductId, Product>, id: ProductId, form: ListingForm,
                              caller: UserId, file: Upload, now: Time)
    requires NewListing(id, form, caller, file, now).Some?
    ensures FetchImage(products[id := NewListing(id, form, caller, file, now).value], id)
         == Done(200, ImagePayload(Some(file.mimetype), file.buffer))
  {
    var p := NewListing(id, form, caller, file, now).value;
    assert products[id := p][id].image == Image(Some(file.buffer), Some(file.mimetype));
  }

  /** GET /api/products over the store: whatever order the collection yields
      its documents in, a stored product is listed exactly when it matches
      the query, and every listed entry is a stored product without its
      image. */
  lemma ListingOfStore(products: map<ProductId, Product>, docs: seq<Product>,
                       category: Option<string>, search: Option<string>)
    requires Enumerates(docs, products)
    ensures forall id :: id in products ==>
      (Strip(products[id]) in Listing(docs, category, search) <==> Matches(products[id], category, search))
    ensures forall q :: q in Listing(docs, category, search) ==> q.id in products && q == Strip(products[q.id])
  {
    var r := Listing(docs, category, search);
    forall id | id in products
      ensures Strip(products[id]) in r <==> Matches(products[id], category, search)
    {
      var p := products[id];
      assert Matches(Strip(p), category, search) <==> Matches(p, category, search);
      assert p in docs;
    }
    forall q | q in r ensures q.id in products && q == Strip(products[q.id]) {
      var d :| d in docs && q == Strip(d);
      assert d.id in products && products[d.id] == d;
    }
  }

  /** A created listing is for sale under the form's title and category, so
      the unfiltered listing of the store after the insert shows it, and so
      does a search for its own category and title. */
  lemma NewListingIsListed(products: map<ProductId, Product>, docs: seq<Product>, id: ProductId,
                           form: ListingForm, caller: UserId, file: Upload, now: Time)
    requires NewListing(id, form, caller, file, now).Some?
    requires Enumerates(docs, products[id := NewListing(id, form, caller, file, now).value])
    ensures Strip(NewListing(id, form, caller, file, now).value) in Listing(docs, None, None)
    ensures Strip(NewListing(id, form, caller, file, now).value) in Listing(docs, form.category, form.title)
  {
    var p := NewListing(id, form, caller, file, now).value;
    var stored := products[id := p];
    assert stored[id] == p;
    ListingOfStore(stored, docs, None, None);
    ListingOfStore(stored, docs, form.category, form.title);
    assert LowerAll(p.title)[..|LowerAll(p.title)|] == LowerAll(p.title);
    assert Matches(p, form.category, form.title);
  }

  /** A sold product is in no listing of the store, whatever the filters. */
  lemma SoldIsNotListed(products: map<ProductId, Product>, docs: seq<Product>, id: ProductId,
                        category: Option<string>, search: Option<string>)
    requires Enumerates(docs, products)
    requires id in products && products[id].status == Sold
    ensures forall q :: q in Listing(docs, category, search) ==> q.id != id
  {
    ListingOfStore(products, docs, category, search);
  }

  /** POST /api/products/:id/comments: appends one comment carrying the
      caller's current nickname; a missing caller or product throws. */
  method AddComment(db: Store, caller: UserId, id: ProductId, content: Option<string>, now: Time)
    returns (r: Reply<seq<Comment>>)
    requires db.Valid()
    modifies db
    ensures db.Valid() && db.users == old(db.users)
    ensures caller !in old(db.users) || id !in old(db.products) ==>
      r == Refused(ServerError) && db.products == old(db.products)
    ensures caller in old(db.users) && id in old(db.products) ==>
      && db.products == old(db.products)[id := old(db.products)[id].(comments :=
           old(db.products)[id].comments + [Comment(caller, old(db.users)[caller].nickname, content, now)])]
      && r == Done(201, db.products[id].comments)
  {
    if caller !in db.users || id !in db.products {
      // `user.nickname` or `product.comments` on null throws.
      return Refused(ServerError);
    }
    var user := db.users[caller];
    var product := db.products[id];
    var comments := product.comments + [Comment(caller, user.nickname, content, now)];
    db.products := db.products[id := product.(comments := comments)];
    r := Done(201, comments);
  }

  /** POST /api/products/:id/favorite: `indexOf` the caller, `splice` it out
      if found, `push` it otherwise; reply with the new count. */
  method ToggleFavorite(db: Store, caller: UserId, id: ProductId) returns (r: Reply<nat>)
    requires db.Valid()
    modifies db
    ensures db.Valid() && db.users == old(db.users)
    ensures id !in old(db.products) ==> r == Refused(ServerError) && db.products == old(db.products)
    ensures id in old(db.products) ==>
      && db.products == old(db.products)[id := old(db.products)[id].(favoritedBy :=
           Toggle(old(db.products)[id].favoritedBy, caller))]
      && r == Done(200, |db.products[id].favoritedBy|)
  {
    if id !in db.products {
      // `product.favoritedBy` on null throws.
      return Refused(ServerError);
    }
    var product := db.products[id];
    var favorites := product.favoritedBy;
    var index := IndexOf(favorites, caller);
    if index > -1 {
      SpliceIsRemoveFirst(favorites, caller);
      favorites := favorites[..index] + favorites[index + 1..];
    } else {
      favorites := favorites + [caller];
    }
    assert favorites == Toggle(product.favoritedBy, caller);
    StoreToggled(db.products, id, caller);
    db.products := db.products[id := product.(favoritedBy := favorites)];
    r := Done(200, |favorites|);
  }

  /** Writing back a product whose favorites were toggled keeps the
      product invariants. */
  lemma StoreToggled(products: map<ProductId, Product>, id: ProductId, caller: UserId)
    requires StoredProducts(products) && id in products
    ensures StoredProducts(products[id := products[id].(favoritedBy := Toggle(products[id].favoritedBy, caller))])
  {
    ToggleKeepsNoDup(products[id].favoritedBy, caller);
    StoreProduct(products, id, products[id].(favoritedBy := Toggle(products[id].favoritedBy, caller)));
  }

  /** POST /api/users/:id/evaluate: when `type` names a counter, that counter
      of the target goes up by one; any other type changes nothing. The
      caller plays no part: there is no self- or repeat-evaluation check. */
  method Evaluate(db: Store, caller: UserId, target: UserId, kind: string) returns (r: Reply<()>)
    requires db.Valid()
    modifies db
    ensures db.Valid() && db.products == old(db.products)
    ensures target !in old(db.users) ==> r == Refused(ServerError) && db.users == old(db.users)
    ensures target in old(db.users) ==>
      && r == Done(200, ())
      && target in db.users
      && db.users == old(db.users)[target := old(db.users)[target].(reputation := db.users[target].reputation)]
      && forall k: Kind :: Count(db.users[target].reputation, k)
           == Count(old(db.users)[target].reputation, k) + (if ParseKind(kind) == Some(k) then 1 else 0)
  {
    if target !in db.users {
      // `type in userToEvaluate.reputation` on null throws.
      return Refused(ServerError);
    }
    var user := db.users[target];
    var rep := user.reputation;
    match ParseKind(kind) {
      case Some(Good) => rep := rep.(good := rep.good + 1);
      case Some(Neutral) => rep := rep.(neutral := rep.neutral + 1);
      case Some(Bad) => rep := rep.(bad := rep.bad + 1);
      case None =>
    }
    assert forall k: Kind :: Count(rep, k) >= Count(user.reputation, k);
    var updated := user.(reputation := rep);
    StoreUser(db.users, target, updated);
    db.users := db.users[target := updated];
    r := Done(200, ());
  }
}
