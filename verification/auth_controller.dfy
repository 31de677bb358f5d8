/** The authentication controller: registration and login over the account
    store, each answering with the account's fields and a session token. */
module AuthController {
  import opened Common
  import opened Store
  import opened Http

  /** `register`: the username is checked before the email, and either clash
      leaves the store as it was; otherwise exactly one account is added. The
      password is stored as `hash(password)`; the role is stored as sent. */
  function Register(db: Db, username: string, email: string, password: string, role: string, now: nat,
                    hash: string -> string): (h: Handled)
    ensures UsernameIndex(db.users, username).Some? ==> h == Handled(Fail(400, "Username already exists"), db)
    ensures UsernameIndex(db.users, username).None? && EmailIndex(db.users, email).Some? ==>
      h == Handled(Fail(400, "Email already registered"), db)
    ensures UsernameIndex(db.users, username).None? && EmailIndex(db.users, email).None? ==>
      && |h.db.users| == |db.users| + 1
      && h.db.users[..|db.users|] == db.users
      && var u := h.db.users[|db.users|];
      && u.username == username && u.email == email && u.role == role && u.secret == hash(password)
      && h.response.status == 201
      && h.response.body == SessionBody(u.id, username, email, role, Token(u.id, role, now + OneDaySeconds))
      && h.db.posts == db.posts && h.db.logs == db.logs
      && (Valid(db) ==> UserIndex(db.users, u.id).None?)
    ensures Valid(db) ==> Valid(h.db)
  {
    if UsernameIndex(db.users, username).Some? then Handled(Fail(400, "Username already exists"), db)
    else if EmailIndex(db.users, email).Some? then Handled(Fail(400, "Email already registered"), db)
    else
      var user := User(db.nextId, username, email, hash(password), role);
      var db' := db.(users := db.users + [user], nextId := db.nextId + 1);
      assert db'.users[..|db.users|] == db.users;
      Handled(Response(201, SessionBody(user.id, user.username, user.email, user.role,
                                        GenerateToken(user.id, user.role, now))), db')
  }

  /** `login`: missing fields are refused before any lookup, an unknown email
      and a wrong password get the same reply, and success returns a token for
      the stored id and role. Login only reads the store. */
  function Login(db: Db, email: string, password: string, now: nat, matches: (string, string) -> bool): (r: Response)
    ensures !Truthy(email) || !Truthy(password) ==> r == Fail(400, "Email and password are required")
    ensures Truthy(email) && Truthy(password) && EmailIndex(db.users, email).None? ==>
      r == Fail(400, "Invalid Credentials")
    ensures Truthy(email) && Truthy(password) && EmailIndex(db.users, email).Some? ==>
      var u := db.users[EmailIndex(db.users, email).value];
      && u.email == email
      && (!matches(u.secret, password) ==> r == Fail(400, "Invalid Credentials"))
      && (matches(u.secret, password) ==>
            r == Response(200, SessionBody(u.id, u.username, u.email, u.role, Token(u.id, u.role, now + OneDaySeconds))))
  {
    if !Truthy(email) || !Truthy(password) then Fail(400, "Email and password are required")
    else match EmailIndex(db.users, email)
      case None => Fail(400, "Invalid Credentials")
      case Some(i) =>
        var user := db.users[i];
        if !matches(user.secret, password) then Fail(400, "Invalid Credentials")
        else Response(200, SessionBody(user.id, user.username, user.email, user.role,
                                       GenerateToken(user.id, user.role, now)))
  }

  /** Registering and then logging in with the same email and password (with a
      password check that accepts a password against its own hash) yields a
      token for the new account carrying the registered role. */
  lemma {:induction false} RegisterThenLogin(db: Db, username: string, email: string, password: string, role: string,
                                             now: nat, later: nat, hash: string -> string, matches: (string, string) -> bool)
    requires Truthy(email) && Truthy(password) && matches(hash(password), password)
    requires Register(db, username, email, password, role, now, hash).response.status == 201
    ensures var h := Register(db, username, email, password, role, now, hash);
      var r := Login(h.db, email, password, later, matches);
      && r.status == 200 && r.body.SessionBody?
      && r.body.id == h.response.body.id
      && r.body.token == Token(h.response.body.id, role, later + OneDaySeconds)
  {
    var h := Register(db, username, email, password, role, now, hash);
    assert UsernameIndex(db.users, username).None? && EmailIndex(db.users, email).None?;
    var u := h.db.users[|db.users|];
    assert h.db.users == db.users + [u];
    FirstIndexAppend(db.users, u, (x: User) => x.email == email);
    assert EmailIndex(h.db.users, email) == Some(|db.users|);
  }
}
