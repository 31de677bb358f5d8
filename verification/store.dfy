/** The server's persistent state as an in-memory store: the `users`, `posts`
    and `logs` collections, each a sequence of documents in natural (insertion)
    order, plus the source of fresh document ids. */
module Store {
  import opened Common

  /** A document id (an ObjectId in the store). */
  type Id = nat

  /** A registered account. `secret` is whatever the account model stores for
      the password; hashing is a parameter of registration. */
  datatype User = User(id: Id, username: string, email: string, secret: string, role: string)

  /** A content item; `author` is the id of the account that created it. */
  datatype Post = Post(id: Id, title: string, content: string, author: Id, createdAt: nat)

  /** An audit record; `user` is absent for system events. */
  datatype LogEntry = LogEntry(id: Id, message: string, user: Option<Id>, timestamp: nat)

  datatype Db = Db(users: seq<User>, posts: seq<Post>, logs: seq<LogEntry>, nextId: Id)

  /** The identity the authentication middleware attaches to a request. */
  datatype Actor = Actor(id: Id, role: string)

  /** What the store itself guarantees: ids are unique within a collection and
      below the next fresh id, and registration keeps usernames and emails
      unique. */
  ghost predicate Valid(db: Db) {
    && (forall i, j :: 0 <= i < j < |db.users| ==> db.users[i].id != db.users[j].id)
    && (forall i, j :: 0 <= i < j < |db.users| ==> db.users[i].username != db.users[j].username)
    && (forall i, j :: 0 <= i < j < |db.users| ==> db.users[i].email != db.users[j].email)
    && (forall i, j :: 0 <= i < j < |db.posts| ==> db.posts[i].id != db.posts[j].id)
    && (forall i :: 0 <= i < |db.users| ==> db.users[i].id < db.nextId)
    && (forall i :: 0 <= i < |db.posts| ==> db.posts[i].id < db.nextId)
  }

  /** `User.findById(id)`. */
  function UserIndex(users: seq<User>, id: Id): Option<nat> {
    FirstIndex(users, (u: User) => u.id == id)
  }

  /** `Post.findById(id)`. */
  function PostIndex(posts: seq<Post>, id: Id): Option<nat> {
    FirstIndex(posts, (p: Post) => p.id == id)
  }

  /** `User.findOne({ username })`. */
  function UsernameIndex(users: seq<User>, username: string): Option<nat> {
    FirstIndex(users, (u: User) => u.username == username)
  }

  /** `User.findOne({ email })`. */
  function EmailIndex(users: seq<User>, email: string): Option<nat> {
    FirstIndex(users, (u: User) => u.email == email)
  }

  /** In a valid store `findById` finds the one post with that id. */
  lemma PostIndexOf(db: Db, i: nat)
    requires Valid(db) && i < |db.posts|
    ensures PostIndex(db.posts, db.posts[i].id) == Some(i)
  {
  }

  /** In a valid store `findById` finds the one account with that id. */
  lemma UserIndexOf(db: Db, i: nat)
    requires Valid(db) && i < |db.users|
    ensures UserIndex(db.users, db.users[i].id) == Some(i)
  {
  }
}
