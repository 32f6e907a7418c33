/** The two collections the handlers read and write, with the invariants
    every stored document satisfies. */
module Database {
  import opened Types
  import opened ProductModel
  import opened UserModel
  import opened FavoriteList

  /** Every stored product is keyed by its own id, passed validation, and
      lists each favoriting user once. */
  predicate StoredProducts(products: map<ProductId, Product>) {
    forall id :: id in products ==>
      && products[id].id == id
      && ValidProduct(products[id])
      && NoDup(products[id].favoritedBy)
  }

  /** Writing back one document that keeps the product invariants keeps
      the whole collection's. */
  lemma StoreProduct(products: map<ProductId, Product>, id: ProductId, p: Product)
    requires StoredProducts(products)
    requires p.id == id && ValidProduct(p) && NoDup(p.favoritedBy)
    ensures StoredProducts(products[id := p])
  {
  }

  /** `docs` is what a query over the whole `products` collection yields, in
      whatever order the database chooses: only stored documents, every
      stored document, and each of them once. */
  predicate Enumerates(docs: seq<Product>, products: map<ProductId, Product>) {
    && (forall d :: d in docs ==> d.id in products && products[d.id] == d)
    && (forall id :: id in products ==> products[id] in docs)
    && (forall i, j :: 0 <= i < j < |docs| ==> docs[i].id != docs[j].id)
  }

  /** One order in which a collection of documents keyed by their own ids
      can be read out; it shows that the collection always has one. */
  ghost function Documents(products: map<ProductId, Product>): (docs: seq<Product>)
    requires forall id :: id in products ==> products[id].id == id
    ensures Enumerates(docs, products)
    ensures |docs| == |products|
    decreases |products|
  {
    if products == map[] then []
    else
      var id :| id in products;
      var others := products - {id};
      var rest := Documents(others);
      AppendDocument(rest, products, id);
      rest + [products[id]]
  }

  /** Reading one more stored document after an enumeration of all the
      others enumerates the whole collection. */
  lemma AppendDocument(rest: seq<Product>, products: map<ProductId, Product>, id: ProductId)
    requires id in products && products[id].id == id
    requires Enumerates(rest, products - {id})
    ensures Enumerates(rest + [products[id]], products)
  {
    var docs := rest + [products[id]];
    forall d | d in docs ensures d.id in products && products[d.id] == d {
      if d in rest {
        assert d.id in products - {id};
      }
    }
    forall k | k in products ensures products[k] in docs {
      if k != id {
        assert k in products - {id};
        assert (products - {id})[k] in rest;
      }
    }
    forall i, j | 0 <= i < j < |docs| ensures docs[i].id != docs[j].id {
      assert docs[i] == rest[i];
      if j == |rest| {
        assert rest[i] in rest;
        assert rest[i].id in products - {id};
      } else {
        assert docs[j] == rest[j];
      }
    }
  }

  /** Every stored user is keyed by its own id, passed validation and has
      counters that only ever moved up from 0; student ids are unique. */
  predicate StoredUsers(users: map<UserId, User>) {
    && (forall id :: id in users ==>
          && users[id].id == id
          && ValidUser(users[id])
          && NonNegative(users[id].reputation))
    && UniqueStudentIds(users)
  }

  /** Writing back a user whose student id is unchanged keeps the user
      invariants. */
  lemma StoreUser(users: map<UserId, User>, id: UserId, u: User)
    requires StoredUsers(users) && id in users
    requires u.id == id && u.studentId == users[id].studentId && ValidUser(u) && NonNegative(u.reputation)
    ensures StoredUsers(users[id := u])
  {
  }

  /** The database: the `products` and `users` collections keyed by `_id`. */
  class Store {
    var products: map<ProductId, Product>
    var users: map<UserId, User>

    ghost predicate Valid()
      reads this
    {
      StoredProducts(products) && StoredUsers(users)
    }

    constructor (products: map<ProductId, Product>, users: map<UserId, User>)
      requires StoredProducts(products) && StoredUsers(users)
      ensures Valid()
      ensures this.products == products && this.users == users
    {
      this.products := products;
      this.users := users;
    }
  }
}
