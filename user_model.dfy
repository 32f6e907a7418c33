/** The User schema: identity, credentials, the admin flag, the three
    reputation counters and the view history, with the unique index on
    `studentId`. */
module UserModel {
  import opened Types
  import opened Http

  datatype Reputation = Reputation(good: int, neutral: int, bad: int)

  /** The keys of the nested `reputation` object. */
  datatype Kind = Good | Neutral | Bad

  /** `type in reputation`: whether a submitted string names a counter. */
  function ParseKind(t: string): (r: Option<Kind>)
    ensures r.Some? <==> t == "good" || t == "neutral" || t == "bad"
    ensures r == Some(Good) <==> t == "good"
    ensures r == Some(Neutral) <==> t == "neutral"
    ensures r == Some(Bad) <==> t == "bad"
  {
    if t == "good" then Some(Good)
    else if t == "neutral" then Some(Neutral)
    else if t == "bad" then Some(Bad)
    else None
  }

  /** `reputation[k]`. */
  function Count(rep: Reputation, k: Kind): int {
    match k
    case Good => rep.good
    case Neutral => rep.neutral
    case Bad => rep.bad
  }

  const FreshReputation: Reputation := Reputation(0, 0, 0)

  predicate NonNegative(rep: Reputation) {
    forall k: Kind :: Count(rep, k) >= 0
  }

  /** A stored User document. `password` holds the credential as stored;
      `viewHistory` is an ordered list of product references. */
  datatype User = User(
    id: UserId,
    studentId: string,
    nickname: string,
    password: string,
    isAdmin: bool,
    reputation: Reputation,
    viewHistory: seq<ProductId>)

  /** The required strings are non-empty. */
  predicate ValidUser(u: User) {
    u.studentId != "" && u.nickname != "" && u.password != ""
  }

  /** A new document with the schema's defaults, validated: `None` is a
      ValidationError. */
  function NewUser(id: UserId, studentId: string, nickname: string, password: string): (r: Option<User>)
    ensures r.Some? <==> studentId != "" && nickname != "" && password != ""
    ensures r.Some? ==>
      && ValidUser(r.value)
      && r.value.id == id && r.value.studentId == studentId
      && r.value.nickname == nickname && r.value.password == password
      && !r.value.isAdmin
      && (forall k: Kind :: Count(r.value.reputation, k) == 0)
      && r.value.viewHistory == []
  {
    if studentId != "" && nickname != "" && password != "" then
      Some(User(id, studentId, nickname, password, false, FreshReputation, []))
    else
      None
  }

  /** The unique index on `studentId`: no two stored users share one. */
  predicate UniqueStudentIds(users: map<UserId, User>) {
    forall a, b :: a in users && b in users && users[a].studentId == users[b].studentId ==> a == b
  }

  /** Inserting a document into the collection: the unique indexes on `_id`
      and `studentId` reject a duplicate (a duplicate-key error). */
  function InsertUser(users: map<UserId, User>, u: User): (r: Result<map<UserId, User>>)
    ensures r.Ok? <==> u.id !in users && forall w :: w in users ==> users[w].studentId != u.studentId
    ensures r.Ok? ==> r.value == users[u.id := u]
    ensures r.Ok? && UniqueStudentIds(users) ==> UniqueStudentIds(r.value)
    ensures r.Err? ==> r.error == ServerError
  {
    if u.id !in users && forall w :: w in users ==> users[w].studentId != u.studentId then
      Ok(users[u.id := u])
    else
      Err(ServerError)
  }
}
