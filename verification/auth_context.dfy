/** The session context: the current account (loading, signed out, or signed
    in) mirrored in the browser's storage under the "user" and "token" keys. */
module AuthContext {
  import opened ClientSession

  datatype AuthState = AuthState(user: Session, storage: Storage)

  /** `useState(undefined)`: the session is loading until the provider mounts. */
  function Initial(storage: Storage): (st: AuthState)
    ensures st.user.Loading? && st.storage == storage
  {
    AuthState(Loading, storage)
  }

  /** The mount effect: the stored account if there is one, otherwise signed out.
      Storage is only read. */
  function Mount(st: AuthState): (r: AuthState)
    ensures r.storage == st.storage
    ensures StoredUser(st.storage).Some? ==> r.user == SignedIn(StoredUser(st.storage).value)
    ensures StoredUser(st.storage).None? ==> r.user == SignedOut
    ensures !r.user.Loading?
  {
    match StoredUser(st.storage)
    case Some(u) => AuthState(SignedIn(u), st.storage)
    case None => AuthState(SignedOut, st.storage)
  }

  /** `login(userObj, token)`: both keys written, the account signed in, every
      other key untouched. */
  function Login(st: AuthState, u: ClientUser, token: string): (r: AuthState)
    ensures r.user == SignedIn(u)
    ensures UserKey in r.storage && r.storage[UserKey] == Json(u)
    ensures TokenKey in r.storage && r.storage[TokenKey] == Text(token)
    ensures forall k :: k != UserKey && k != TokenKey ==>
      (k in r.storage <==> k in st.storage) && (k in r.storage ==> r.storage[k] == st.storage[k])
  {
    AuthState(SignedIn(u), st.storage[UserKey := Json(u)][TokenKey := Text(token)])
  }

  /** `logout()`: both keys removed, signed out, every other key untouched. */
  function Logout(st: AuthState): (r: AuthState)
    ensures r.user == SignedOut
    ensures UserKey !in r.storage && TokenKey !in r.storage
    ensures forall k :: k != UserKey && k != TokenKey ==>
      (k in r.storage <==> k in st.storage) && (k in r.storage ==> r.storage[k] == st.storage[k])
  {
    AuthState(SignedOut, st.storage - {UserKey, TokenKey})
  }

  /** Logging out twice is logging out once; logging in and then out leaves
      exactly the storage that was there minus the two session keys. */
  lemma LogoutLaws(st: AuthState, u: ClientUser, token: string)
    ensures Logout(Logout(st)) == Logout(st)
    ensures Logout(Login(st, u, token)) == Logout(st)
    ensures UserKey !in Logout(Login(st, u, token)).storage && TokenKey !in Logout(Login(st, u, token)).storage
  {
    assert Logout(Logout(st)).storage == Logout(st).storage;
    assert Logout(Login(st, u, token)).storage == Logout(st).storage;
  }

  /** A reload after login restores the same session; a reload after logout
      comes back signed out. */
  lemma ReloadRestoresSession(st: AuthState, u: ClientUser, token: string)
    ensures Mount(Initial(Login(st, u, token).storage)) == Login(st, u, token)
    ensures Mount(Initial(Logout(st).storage)) == Logout(st)
  {
  }
}
