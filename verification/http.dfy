/** What the server sends back: JSON bodies, status codes, session tokens, and
    the outcome of a request after the route's middleware chain. */
module Http {
  import opened Common
  import opened Store

  /** The lifetime `expiresIn: "1d"` gives a token, in seconds (section 4.1.4 of
      RFC 7519 measures `exp` in seconds since the epoch). */
  const OneDaySeconds: nat := 86400

  /** The claims of a signed session token; the signature itself is not modelled. */
  datatype Token = Token(id: Id, role: string, exp: nat)

  /** `generateToken(id, role)` issued at time `now` (seconds): the token names
      the account and its role and expires one day after issue. */
  function GenerateToken(id: Id, role: string, now: nat): (r: Token)
    ensures r.id == id && r.role == role
    ensures r.exp - now == OneDaySeconds
  {
    Token(id, role, now + OneDaySeconds)
  }

  /** A post's author after `populate("author", "username role")`. */
  datatype AuthorView = AuthorView(id: Id, username: string, role: string)

  /** A post as the listing returns it; `author` is `null` once the account is gone. */
  datatype PostView = PostView(id: Id, title: string, content: string, author: Option<AuthorView>, createdAt: nat)

  /** An account as `select("-password")` returns it. */
  datatype UserView = UserView(id: Id, username: string, email: string, role: string)

  datatype Body =
    | Message(text: string)
    | PostBody(post: Post)
    | PostList(posts: seq<PostView>)
    | UserList(users: seq<UserView>)
    | LogList(logs: seq<LogEntry>)
    | SessionBody(id: Id, username: string, email: string, role: string, token: Token)

  /** `res.status(status).json(body)`. */
  datatype Response = Response(status: nat, body: Body)

  /** A controller's answer together with the store it leaves behind. */
  datatype Handled = Handled(response: Response, db: Db)

  /** How a request ends: stopped by `protect`, stopped by `authorizeRoles`, or
      answered by the controller. The middleware's own replies are not modelled. */
  datatype Outcome = Unauthenticated | RoleRefused | Answered(response: Response)

  datatype Step = Step(outcome: Outcome, db: Db)

  /** An error reply in the controllers' `{ message }` shape. */
  function Fail(status: nat, text: string): Response {
    Response(status, Message(text))
  }
}
