/** The browser side's view of a signed-in account, the three states of the
    session value (`undefined` while loading, `null` when signed out, an
    object when signed in), and the browser's key-value storage. */
module ClientSession {
  import opened Common
  import opened Store

  /** The object the login page hands to the session context. */
  datatype ClientUser = ClientUser(id: Id, username: string, email: string, role: string)

  datatype Session = Loading | SignedOut | SignedIn(user: ClientUser)

  /** `user?.role`. */
  function RoleOf(s: Session): Option<string> {
    if s.SignedIn? then Some(s.user.role) else None
  }

  /** `user?.id`. */
  function IdOf(s: Session): Option<Id> {
    if s.SignedIn? then Some(s.user.id) else None
  }

  /** A stored value: the JSON text of an account object, or plain text. */
  datatype Value = Json(user: ClientUser) | Text(text: string)

  /** `localStorage`. */
  type Storage = map<string, Value>

  const UserKey: string := "user"
  const TokenKey: string := "token"

  /** `JSON.parse(localStorage.getItem("user"))` when the entry holds an account
      object; a missing entry and an empty one read as no account. */
  function StoredUser(storage: Storage): (r: Option<ClientUser>)
    ensures r.Some? <==> UserKey in storage && storage[UserKey].Json?
    ensures r.Some? ==> storage[UserKey] == Json(r.value)
  {
    if UserKey in storage && storage[UserKey].Json? then Some(storage[UserKey].user) else None
  }
}
