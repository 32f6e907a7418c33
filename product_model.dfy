/** The Product schema: the fields a stored listing has, the two enums,
    the defaults Mongoose fills in, and the validation a save runs. */
module ProductModel {
  import opened Types

  /** The `status` enum. The schema declares the key twice with the same
      type, enum and default; the second declaration is the one that holds. */
  datatype Status = Selling | Sold

  function StatusName(s: Status): string {
    match s
    case Selling => "selling"
    case Sold => "sold"
  }

  /** Casts a stored or submitted string to the enum; anything outside it
      fails enum validation. */
  function ParseStatus(s: string): (r: Option<Status>)
    ensures r.Some? <==> s == "selling" || s == "sold"
    ensures r.Some? ==> StatusName(r.value) == s
  {
    if s == "selling" then Some(Selling)
    else if s == "sold" then Some(Sold)
    else None
  }

  /** The `condition` enum: brand new, ninety percent new, eighty percent
      new, minor flaws. */
  datatype Condition = BrandNew | NinetyPercentNew | EightyPercentNew | MinorFlaws

  function ConditionName(c: Condition): string {
    match c
    case BrandNew => "全新"
    case NinetyPercentNew => "九成新"
    case EightyPercentNew => "八成新"
    case MinorFlaws => "轻微瑕疵"
  }

  function ParseCondition(s: string): (r: Option<Condition>)
    ensures r.Some? <==> s == "全新" || s == "九成新" || s == "八成新" || s == "轻微瑕疵"
    ensures r.Some? ==> ConditionName(r.value) == s
  {
    if s == "全新" then Some(BrandNew)
    else if s == "九成新" then Some(NinetyPercentNew)
    else if s == "八成新" then Some(EightyPercentNew)
    else if s == "轻微瑕疵" then Some(MinorFlaws)
    else None
  }

  /** Every grade has exactly one name and reads back as itself. */
  lemma ConditionNamesRoundTrip(c: Condition, d: Condition)
    ensures ParseCondition(ConditionName(c)) == Some(c)
    ensures ConditionName(c) == ConditionName(d) ==> c == d
  {
  }

  /** The nested `image` object: both parts are optional in the schema. */
  datatype Image = Image(data: Option<Bytes>, contentType: Option<string>)

  const NoImage: Image := Image(None, None)

  /** One entry of `comments`; `createdAt` defaults to the time of the push. */
  datatype Comment = Comment(user: UserId, nickname: string, content: Option<string>, createdAt: Time)

  /** A stored Product document. `price` is a JavaScript number, taken here
      as a real; `createdAt` comes from the schema's timestamps option. */
  datatype Product = Product(
    id: ProductId,
    title: string,
    description: string,
    price: real,
    category: string,
    viewCount: int,
    campus: string,
    condition: Condition,
    status: Status,
    owner: Option<UserId>,
    image: Image,
    comments: seq<Comment>,
    favoritedBy: seq<UserId>,
    createdAt: Time)

  /** What validation guarantees of a stored product beyond its types: the
      required strings are non-empty (Mongoose's `required` rejects ""). */
  predicate ValidProduct(p: Product) {
    p.title != "" && p.category != "" && p.campus != ""
  }

  /** A document before its first save: every path as the constructor was
      given it, absent when the request did not supply it. */
  datatype Draft = Draft(
    title: Option<string>,
    description: Option<string>,
    price: Option<real>,
    category: Option<string>,
    campus: Option<string>,
    condition: Option<string>,
    owner: Option<UserId>,
    image: Image)

  /** The first save of a new document: the defaults are applied and the
      schema's validators run. `None` is a ValidationError. */
  function Validate(id: ProductId, d: Draft, now: Time): (r: Option<Product>)
    ensures r.Some? <==>
      && Given(d.title) && d.price.Some? && Given(d.category) && Given(d.campus)
      && d.condition.Some? && ParseCondition(d.condition.value).Some?
    ensures r.Some? ==>
      && ValidProduct(r.value)
      && r.value.id == id
      && r.value.title == d.title.value
      && r.value.description == d.description.GetOr("")
      && r.value.price == d.price.value
      && r.value.category == d.category.value
      && r.value.campus == d.campus.value
      && ConditionName(r.value.condition) == d.condition.value
      && r.value.owner == d.owner
      && r.value.image == d.image
      && r.value.viewCount == 0
      && r.value.status == Selling
      && r.value.comments == []
      && r.value.favoritedBy == []
      && r.value.createdAt == now
  {
    if Given(d.title) && d.price.Some? && Given(d.category) && Given(d.campus)
       && d.condition.Some? && ParseCondition(d.condition.value).Some?
    then
      Some(Product(
        id := id,
        title := d.title.value,
        description := d.description.GetOr(""),
        price := d.price.value,
        category := d.category.value,
        viewCount := 0,
        campus := d.campus.value,
        condition := ParseCondition(d.condition.value).value,
        status := Selling,
        owner := d.owner,
        image := d.image,
        comments := [],
        favoritedBy := [],
        createdAt := now))
    else
      None
  }
}
