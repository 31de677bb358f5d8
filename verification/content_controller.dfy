/** The content controller: list, create, update and delete posts. Update and
    delete look the post up first (404), then apply the ownership rule (403),
    and only then touch the store. */
module ContentController {
  import opened Common
  import opened Roles
  import opened Store
  import opened Http

  /** The ownership rule of update and delete: the actor wrote the post, or the
      actor is an admin. An author may always change their own post, an admin
      any post, and nobody else a post written by someone else. */
  predicate MayModify(actor: Actor, post: Post): (r: bool)
    ensures post.author == actor.id ==> r
    ensures Parse(actor.role) == Some(Admin) ==> r
    ensures r && post.author != actor.id ==> Parse(actor.role) == Some(Admin)
  {
    post.author == actor.id || actor.role == Name(Admin)
  }

  /** The `value || existing` merge of a partial update on a string field: a
      non-empty value replaces the stored one, an empty one keeps it. */
  function Merge(value: string, existing: string): (r: string)
    ensures r == value || r == existing
    ensures Truthy(value) ==> r == value
    ensures !Truthy(value) ==> r == existing
  {
    if Truthy(value) then value else existing
  }

  /** The merge keeps the old value exactly when nothing usable was sent, is
      idempotent, and never invents a value. */
  lemma MergeLaws(value: string, existing: string)
    ensures Merge("", existing) == existing
    ensures value != "" ==> Merge(value, existing) == value
    ensures Merge(value, Merge(value, existing)) == Merge(value, existing)
    ensures Merge(value, existing) == value || Merge(value, existing) == existing
    ensures Merge(value, existing) == "" <==> value == "" && existing == ""
  {
  }

  /** `v` is how the listing shows post `p` against the accounts `users`: the
      post's own fields, and the author's account, or `null` when no account
      with the author's id exists any more. */
  ghost predicate Shows(v: PostView, p: Post, users: seq<User>) {
    && v.id == p.id && v.title == p.title && v.content == p.content && v.createdAt == p.createdAt
    && (v.author.Some? <==> exists j :: 0 <= j < |users| && users[j].id == p.author)
    && (v.author.Some? ==>
          exists j :: (0 <= j < |users| && users[j].id == p.author
                       && v.author.value == AuthorView(users[j].id, users[j].username, users[j].role)))
  }

  /** `populate("author", "username role")` on one post. */
  function Populate(p: Post, users: seq<User>): (v: PostView)
    ensures Shows(v, p, users)
  {
    match UserIndex(users, p.author)
    case None => PostView(p.id, p.title, p.content, None, p.createdAt)
    case Some(j) =>
      PostView(p.id, p.title, p.content, Some(AuthorView(users[j].id, users[j].username, users[j].role)), p.createdAt)
  }

  /** `listPosts`: every post, in store order, whoever asks. */
  function ListPosts(db: Db): (h: Handled)
    ensures h.db == db && h.response.status == 200 && h.response.body.PostList?
    ensures |h.response.body.posts| == |db.posts|
    ensures forall i :: 0 <= i < |db.posts| ==> Shows(h.response.body.posts[i], db.posts[i], db.users)
  {
    var views := seq(|db.posts|, i requires 0 <= i < |db.posts| => Populate(db.posts[i], db.users));
    Handled(Response(200, PostList(views)), db)
  }

  /** `createPost`: a new post whose author is the acting account, never a field
      of the request body. */
  function CreatePost(db: Db, actor: Actor, title: string, content: string, now: nat): (h: Handled)
    ensures h.response.status == 201 && h.response.body.PostBody?
    ensures var p := h.response.body.post;
      && p.author == actor.id && p.title == title && p.content == content && p.createdAt == now
      && h.db.posts == db.posts + [p]
      && (Valid(db) ==> PostIndex(db.posts, p.id).None?)
    ensures h.db.users == db.users && h.db.logs == db.logs
    ensures Valid(db) ==> Valid(h.db)
  {
    var p := Post(db.nextId, title, content, actor.id, now);
    Handled(Response(201, PostBody(p)), db.(posts := db.posts + [p], nextId := db.nextId + 1))
  }

  /** `updatePost`: 404 for an unknown id, then 403 unless the actor may modify
      the post, then a partial update of title and content. */
  function UpdatePost(db: Db, actor: Actor, id: Id, title: string, content: string): (h: Handled)
    ensures PostIndex(db.posts, id).None? ==> h == Handled(Fail(404, "Post not found"), db)
    ensures PostIndex(db.posts, id).Some? && !MayModify(actor, db.posts[PostIndex(db.posts, id).value]) ==>
      h == Handled(Fail(403, "Forbidden"), db)
    ensures PostIndex(db.posts, id).Some? && MayModify(actor, db.posts[PostIndex(db.posts, id).value]) ==>
      var i := PostIndex(db.posts, id).value;
      var before := db.posts[i];
      && |h.db.posts| == |db.posts|
      && var after := h.db.posts[i];
      && h.response == Response(200, PostBody(after))
      && (forall j :: 0 <= j < |db.posts| && j != i ==> h.db.posts[j] == db.posts[j])
      && after.id == id && after.author == before.author && after.createdAt == before.createdAt
      && (title != "" ==> after.title == title) && (title == "" ==> after.title == before.title)
      && (content != "" ==> after.content == content) && (content == "" ==> after.content == before.content)
      && h.db.users == db.users && h.db.logs == db.logs && h.db.nextId == db.nextId
    ensures Valid(db) ==> Valid(h.db)
  {
    match PostIndex(db.posts, id)
    case None => Handled(Fail(404, "Post not found"), db)
    case Some(i) =>
      var post := db.posts[i];
      if !MayModify(actor, post) then Handled(Fail(403, "Forbidden"), db)
      else
        var updated := post.(title := Merge(title, post.title), content := Merge(content, post.content));
        Handled(Response(200, PostBody(updated)), db.(posts := db.posts[i := updated]))
  }

  /** `deletePost`: 404 for an unknown id, then 403 unless the actor may modify
      the post, then removal of exactly that post. */
  function DeletePost(db: Db, actor: Actor, id: Id): (h: Handled)
    ensures PostIndex(db.posts, id).None? ==> h == Handled(Fail(404, "Post not found"), db)
    ensures PostIndex(db.posts, id).Some? && !MayModify(actor, db.posts[PostIndex(db.posts, id).value]) ==>
      h == Handled(Fail(403, "Forbidden"), db)
    ensures PostIndex(db.posts, id).Some? && MayModify(actor, db.posts[PostIndex(db.posts, id).value]) ==>
      var i := PostIndex(db.posts, id).value;
      && h.response == Response(200, Message("Post deleted"))
      && |h.db.posts| == |db.posts| - 1
      && (forall j :: 0 <= j < i ==> h.db.posts[j] == db.posts[j])
      && (forall j :: i <= j < |h.db.posts| ==> h.db.posts[j] == db.posts[j + 1])
      && h.db.users == db.users && h.db.logs == db.logs && h.db.nextId == db.nextId
      && (Valid(db) ==> PostIndex(h.db.posts, id).None?)
    ensures Valid(db) ==> Valid(h.db)
  {
    match PostIndex(db.posts, id)
    case None => Handled(Fail(404, "Post not found"), db)
    case Some(i) =>
      if !MayModify(actor, db.posts[i]) then Handled(Fail(403, "Forbidden"), db)
      else Handled(Response(200, Message("Post deleted")), db.(posts := RemoveAt(db.posts, i)))
  }

  /** Sending the same update twice leaves the store as sending it once. */
  lemma {:induction false} UpdateIdempotent(db: Db, actor: Actor, id: Id, title: string, content: string)
    ensures var once := UpdatePost(db, actor, id, title, content);
      UpdatePost(once.db, actor, id, title, content).db == once.db
  {
    var once := UpdatePost(db, actor, id, title, content);
    match PostIndex(db.posts, id)
    case None =>
    case Some(i) =>
      if MayModify(actor, db.posts[i]) {
        assert forall j :: 0 <= j < i ==> once.db.posts[j] == db.posts[j];
        assert PostIndex(once.db.posts, id) == Some(i);
        MergeLaws(title, db.posts[i].title);
        MergeLaws(content, db.posts[i].content);
        assert once.db.posts[i := once.db.posts[i]] == once.db.posts;
      }
  }
}
