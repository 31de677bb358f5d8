/** The user-management controller: list accounts, change an account's role,
    delete an account. None of the three looks at who is asking; the route's
    admin gate is the only protection. */
module UserController {
  import opened Common
  import opened Roles
  import opened Store
  import opened Http

  /** `listUsers`: every account, in store order, without its password. */
  function ListUsers(db: Db): (h: Handled)
    ensures h.db == db && h.response.status == 200 && h.response.body.UserList?
    ensures |h.response.body.users| == |db.users|
    ensures forall i :: 0 <= i < |db.users| ==>
      var v := h.response.body.users[i];
      var u := db.users[i];
      v.id == u.id && v.username == u.username && v.email == u.email && v.role == u.role
  {
    var views := seq(|db.users|, i requires 0 <= i < |db.users| =>
      UserView(db.users[i].id, db.users[i].username, db.users[i].email, db.users[i].role));
    Handled(Response(200, UserList(views)), db)
  }

  /** `updateRole`: the role whitelist is checked before the account is looked
      up; only the role of that one account changes. */
  function UpdateRole(db: Db, id: Id, role: string): (h: Handled)
    ensures Parse(role).None? ==> h == Handled(Fail(400, "Invalid role"), db)
    ensures Parse(role).Some? && UserIndex(db.users, id).None? ==> h == Handled(Fail(404, "User not found"), db)
    ensures Parse(role).Some? && UserIndex(db.users, id).Some? ==>
      var i := UserIndex(db.users, id).value;
      && h.response == Response(200, Message("Role updated"))
      && |h.db.users| == |db.users|
      && h.db.users[i] == db.users[i].(role := role)
      && (forall j :: 0 <= j < |db.users| && j != i ==> h.db.users[j] == db.users[j])
      && h.db.posts == db.posts && h.db.logs == db.logs && h.db.nextId == db.nextId
    ensures Valid(db) ==> Valid(h.db)
  {
    if Parse(role).None? then Handled(Fail(400, "Invalid role"), db)
    else match UserIndex(db.users, id)
      case None => Handled(Fail(404, "User not found"), db)
      case Some(i) =>
        Handled(Response(200, Message("Role updated")), db.(users := db.users[i := db.users[i].(role := role)]))
  }

  /** `deleteUser`: removes exactly that account and nothing else; the account's
      posts stay in the store. */
  function DeleteUser(db: Db, id: Id): (h: Handled)
    ensures UserIndex(db.users, id).None? ==> h == Handled(Fail(404, "User not found"), db)
    ensures UserIndex(db.users, id).Some? ==>
      var i := UserIndex(db.users, id).value;
      && h.response == Response(200, Message("User deleted"))
      && |h.db.users| == |db.users| - 1
      && (forall j :: 0 <= j < i ==> h.db.users[j] == db.users[j])
      && (forall j :: i <= j < |h.db.users| ==> h.db.users[j] == db.users[j + 1])
      && h.db.posts == db.posts && h.db.logs == db.logs && h.db.nextId == db.nextId
      && (Valid(db) ==> UserIndex(h.db.users, id).None?)
    ensures Valid(db) ==> Valid(h.db)
  {
    match UserIndex(db.users, id)
    case None => Handled(Fail(404, "User not found"), db)
    case Some(i) => Handled(Response(200, Message("User deleted")), db.(users := RemoveAt(db.users, i)))
  }
}
