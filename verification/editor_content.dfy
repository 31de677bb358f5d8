/** The editor's content page: the list of posts it holds, the post form, the
    delete dialog, and which posts show Edit/Delete controls. Each handler takes
    the server's answer as a parameter (`None` when the request failed) and
    returns the request it sends together with the page's next state. */
module EditorContent {
  import opened Common
  import opened Roles
  import opened Store
  import opened Http
  import opened ClientSession
  import opened ClientApi

  /** A post's `author` as the page receives it: populated by the listing,
      `null` when the account is gone, or a bare id in the replies to create
      and update, which do not populate. */
  datatype AuthorField = Populated(view: AuthorView) | NoAuthor | BareId(id: Id)

  datatype Entry = Entry(id: Id, title: string, content: string, author: AuthorField)

  /** An entry of the listing's reply. */
  function FromView(v: PostView): Entry {
    Entry(v.id, v.title, v.content, if v.author.Some? then Populated(v.author.value) else NoAuthor)
  }

  /** The entry made from a create or update reply. */
  function FromPost(p: Post): Entry {
    Entry(p.id, p.title, p.content, BareId(p.author))
  }

  datatype EditorState = EditorState(
    posts: seq<Entry>,
    title: string,
    content: string,
    editingPostId: Option<Id>,
    deleteDialogOpen: bool,
    postToDelete: Option<Id>)

  datatype Effect = Effect(call: Option<Call>, state: EditorState)

  /** `posts.map((p) => (p._id === id ? e : p))`. */
  function ReplaceById(posts: seq<Entry>, id: Id, e: Entry): (r: seq<Entry>)
    ensures |r| == |posts|
    ensures forall i :: 0 <= i < |posts| && posts[i].id == id ==> r[i] == e
    ensures forall i :: 0 <= i < |posts| && posts[i].id != id ==> r[i] == posts[i]
  {
    seq(|posts|, i requires 0 <= i < |posts| => if posts[i].id == id then e else posts[i])
  }

  /** `posts.filter((p) => p._id !== id)`: every copy of an entry with another id
      stays, in its original order, and no entry with `id` does. */
  function RemoveById(posts: seq<Entry>, id: Id): (r: seq<Entry>)
    ensures forall x :: x in r <==> x in posts && x.id != id
    ensures forall x :: multiset(r)[x] == if x.id != id then multiset(posts)[x] else 0
    ensures IsSubsequence(r, posts)
  {
    Filter(posts, (p: Entry) => p.id != id)
  }

  /** `submitPost`: nothing happens unless both fields are filled; otherwise an
      update of the post being edited or a new post is sent, and on success the
      list takes the reply and the form is cleared. A failed request changes
      nothing. */
  function SubmitPost(st: EditorState, reply: Option<Post>): (eff: Effect)
    ensures !Truthy(st.title) || !Truthy(st.content) ==> eff == Effect(None, st)
    ensures Truthy(st.title) && Truthy(st.content) ==>
      && eff.call.Some?
      && (reply.None? ==> eff.state == st)
      && (reply.Some? ==>
            && eff.state.title == "" && eff.state.content == "" && eff.state.editingPostId.None?
            && eff.state.deleteDialogOpen == st.deleteDialogOpen && eff.state.postToDelete == st.postToDelete)
    ensures Truthy(st.title) && Truthy(st.content) && st.editingPostId.Some? ==>
      var id := st.editingPostId.value;
      && eff.call == Some(PutContent(id, st.title, st.content))
      && (reply.Some? ==>
            && |eff.state.posts| == |st.posts|
            && (forall i :: 0 <= i < |st.posts| && st.posts[i].id == id ==> eff.state.posts[i] == FromPost(reply.value))
            && (forall i :: 0 <= i < |st.posts| && st.posts[i].id != id ==> eff.state.posts[i] == st.posts[i]))
    ensures Truthy(st.title) && Truthy(st.content) && st.editingPostId.None? ==>
      && eff.call == Some(PostContent(st.title, st.content))
      && (reply.Some? ==>
            && |eff.state.posts| == |st.posts| + 1
            && eff.state.posts[0] == FromPost(reply.value) && eff.state.posts[1..] == st.posts)
  {
    if !Truthy(st.title) || !Truthy(st.content) then Effect(None, st)
    else
      var call := match st.editingPostId
        case Some(id) => PutContent(id, st.title, st.content)
        case None => PostContent(st.title, st.content);
      match reply
      case None => Effect(Some(call), st)
      case Some(p) =>
        var posts := match st.editingPostId
          case Some(id) => ReplaceById(st.posts, id, FromPost(p))
          case None => [FromPost(p)] + st.posts;
        Effect(Some(call), st.(posts := posts, title := "", content := "", editingPostId := None))
  }

  /** `editPost(post)`: the form is filled from the post and bound to its id. */
  function EditPost(st: EditorState, e: Entry): (r: EditorState)
    ensures r.title == e.title && r.content == e.content && r.editingPostId == Some(e.id)
    ensures r.posts == st.posts && r.deleteDialogOpen == st.deleteDialogOpen && r.postToDelete == st.postToDelete
  {
    st.(title := e.title, content := e.content, editingPostId := Some(e.id))
  }

  /** `confirmDelete(id)`: the dialog opens for that post. */
  function ConfirmDelete(st: EditorState, id: Id): (r: EditorState)
    ensures r.postToDelete == Some(id) && r.deleteDialogOpen
    ensures r.posts == st.posts && r.title == st.title && r.content == st.content && r.editingPostId == st.editingPostId
  {
    st.(postToDelete := Some(id), deleteDialogOpen := true)
  }

  /** `deletePost()`: nothing happens without a pending id; otherwise the delete
      is sent, on success every entry with that id leaves the list, and in any
      case the dialog closes and the pending id is cleared. */
  function DeletePost(st: EditorState, succeeded: bool): (eff: Effect)
    ensures st.postToDelete.None? ==> eff == Effect(None, st)
    ensures st.postToDelete.Some? ==>
      var id := st.postToDelete.value;
      && eff.call == Some(DeleteContent(id))
      && !eff.state.deleteDialogOpen && eff.state.postToDelete.None?
      && eff.state.title == st.title && eff.state.content == st.content && eff.state.editingPostId == st.editingPostId
      && (!succeeded ==> eff.state.posts == st.posts)
      && (succeeded ==> (forall x :: x in eff.state.posts <==> x in st.posts && x.id != id)
                        && (forall x :: multiset(eff.state.posts)[x] ==
                                         if x.id != id then multiset(st.posts)[x] else 0)
                        && IsSubsequence(eff.state.posts, st.posts))
  {
    match st.postToDelete
    case None => Effect(None, st)
    case Some(id) =>
      var posts := if succeeded then RemoveById(st.posts, id) else st.posts;
      Effect(Some(DeleteContent(id)), st.(posts := posts, deleteDialogOpen := false, postToDelete := None))
  }

  /** Editing a post and saving it at once sends that post's own title and
      content back under its id; on success every entry with that id becomes
      the reply, the rest stay where they were, and the form is cleared. */
  lemma EditThenSubmit(st: EditorState, e: Entry, reply: Option<Post>)
    requires Truthy(e.title) && Truthy(e.content)
    ensures SubmitPost(EditPost(st, e), reply).call == Some(PutContent(e.id, e.title, e.content))
    ensures reply.Some? ==>
      var after := SubmitPost(EditPost(st, e), reply).state;
      && after.title == "" && after.content == "" && after.editingPostId.None?
      && |after.posts| == |st.posts|
      && (forall i :: 0 <= i < |st.posts| && st.posts[i].id == e.id ==> after.posts[i] == FromPost(reply.value))
      && (forall i :: 0 <= i < |st.posts| && st.posts[i].id != e.id ==> after.posts[i] == st.posts[i])
  {
  }

  /** Asking to delete a post and confirming sends the delete for exactly that
      post, closes the dialog, clears the pending id and leaves the form alone;
      on success the post's entries are gone and every other entry stays. */
  lemma ConfirmThenDelete(st: EditorState, id: Id, succeeded: bool)
    ensures DeletePost(ConfirmDelete(st, id), succeeded).call == Some(DeleteContent(id))
    ensures
      var after := DeletePost(ConfirmDelete(st, id), succeeded).state;
      && !after.deleteDialogOpen && after.postToDelete.None?
      && after.title == st.title && after.content == st.content && after.editingPostId == st.editingPostId
      && after.posts == (if succeeded then RemoveById(st.posts, id) else st.posts)
  {
  }

  /** `author?._id` as the page evaluates it: a bare id has no `_id` field. */
  function AuthorRef(a: AuthorField): Option<Id> {
    match a
    case Populated(v) => Some(v.id)
    case NoAuthor => None
    case BareId(_) => None
  }

  /** The page's condition for Edit/Delete controls, as written:
      `user?.role === "admin" || author?._id === user?.id`. A signed-in account
      sees them on every post when it is an admin and otherwise only where the
      populated author is itself; a post carrying a bare id shows them to an
      admin or to nobody signed in; and with no session both sides are missing,
      so they show on exactly the posts without a populated author. */
  predicate ControlsShown(user: Session, author: AuthorField): (r: bool)
    ensures user.SignedIn? ==>
      (r <==> user.user.role == Name(Admin) || (author.Populated? && author.view.id == user.user.id))
    ensures author.BareId? && user.SignedIn? ==> (r <==> user.user.role == Name(Admin))
    ensures !user.SignedIn? ==> (r <==> !author.Populated?)
  {
    RoleOf(user) == Some(Name(Admin)) || AuthorRef(author) == IdOf(user)
  }

  /** The author id the entry carries, whichever way the server sent it. */
  function AuthorId(a: AuthorField): Option<Id> {
    match a
    case Populated(v) => Some(v.id)
    case NoAuthor => None
    case BareId(id) => Some(id)
  }

  /** The condition with the author's id read from either shape of `author`,
      and only for a signed-in account. It agrees with the page's condition
      for every signed-in account on every post whose author is populated or
      missing, and never shows controls without a session. */
  predicate ControlsShownFixed(user: Session, author: AuthorField): (r: bool)
    ensures r ==> user.SignedIn?
    ensures user.SignedIn? && !author.BareId? ==> (r <==> ControlsShown(user, author))
    ensures author.BareId? && user.SignedIn? ==>
      (r <==> user.user.role == Name(Admin) || author.id == user.user.id)
  {
    user.SignedIn? && (user.user.role == Name(Admin) || AuthorId(author) == Some(user.user.id))
  }
}
