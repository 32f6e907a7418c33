/** GET /api/setadmin: grants or revokes the admin flag of the user with a
    given student id. */
module AdminRoutes {
  import opened Types
  import opened Http
  import opened UserModel
  import opened Database

  /** The query string. `secretKey` is read by the handler and never used. */
  datatype SetAdminQuery = SetAdminQuery(userId: Option<string>, setadmin: Option<string>, secretKey: Option<string>)

  /** A validated request: whose flag to set, and to what. */
  datatype AdminChange = AdminChange(studentId: string, makeAdmin: bool)

  /** The parameter checks: both parameters present and non-empty (400),
      and `setadmin` exactly '0' or '1' (400); '1' means admin. */
  function CheckSetAdmin(q: SetAdminQuery): (r: Result<AdminChange>)
    ensures r.Err? <==> !Given(q.userId) || !Given(q.setadmin) || (q.setadmin.value != "0" && q.setadmin.value != "1")
    ensures r.Err? ==> r.error == BadRequest
    ensures r.Ok? ==> r.value.studentId == q.userId.value && (r.value.makeAdmin <==> q.setadmin.value == "1")
  {
    if !Given(q.userId) || !Given(q.setadmin) then Err(BadRequest)
    else if q.setadmin.value != "0" && q.setadmin.value != "1" then Err(BadRequest)
    else Ok(AdminChange(q.userId.value, q.setadmin.value == "1"))
  }

  /** The `user` object of the success reply. */
  datatype AdminEcho = AdminEcho(id: UserId, studentId: string, nickname: string, isAdmin: bool)

  function Echo(u: User): (e: AdminEcho)
    ensures e.id == u.id && e.studentId == u.studentId && e.nickname == u.nickname && e.isAdmin == u.isAdmin
  {
    AdminEcho(u.id, u.studentId, u.nickname, u.isAdmin)
  }

  /** Whether some stored user has the student id. */
  predicate HasStudent(users: map<UserId, User>, studentId: string) {
    exists w :: w in users && users[w].studentId == studentId
  }

  /** The handler: a rejected query or an unknown student id changes no
      user; otherwise exactly that user's `isAdmin` is set and echoed. */
  method SetAdmin(db: Store, q: SetAdminQuery) returns (r: Reply<AdminEcho>)
    requires db.Valid()
    modifies db
    ensures db.Valid() && db.products == old(db.products)
    ensures CheckSetAdmin(q).Err? ==> r == Refused(CheckSetAdmin(q).error) && db.users == old(db.users)
    ensures CheckSetAdmin(q).Ok? && !HasStudent(old(db.users), CheckSetAdmin(q).value.studentId) ==>
      r == Refused(NotFound) && db.users == old(db.users)
    ensures CheckSetAdmin(q).Ok? && HasStudent(old(db.users), CheckSetAdmin(q).value.studentId) ==>
      exists w :: w in old(db.users) && old(db.users)[w].studentId == CheckSetAdmin(q).value.studentId
        && db.users == old(db.users)[w := old(db.users)[w].(isAdmin := CheckSetAdmin(q).value.makeAdmin)]
        && r == Done(200, Echo(db.users[w]))
  {
    var change := CheckSetAdmin(q);
    if change.Err? {
      return Refused(change.error);
    }
    var studentId, makeAdmin := change.value.studentId, change.value.makeAdmin;
    if !HasStudent(db.users, studentId) {
      return Refused(NotFound);
    }
    var w :| w in db.users && db.users[w].studentId == studentId;
    var updated := db.users[w].(isAdmin := makeAdmin);
    db.users := db.users[w := updated];
    r := Done(200, Echo(updated));
  }
}
