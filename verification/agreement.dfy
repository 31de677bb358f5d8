/** How the browser pages and the server agree: whether the content page offers
    Edit/Delete exactly on the posts the server lets the signed-in account
    change, and whether the lists the pages keep after a change are what a
    fresh listing would return. */
module Agreement {
  import opened Common
  import opened Roles
  import opened Store
  import opened Http
  import opened ClientSession
  import opened ContentController
  import EditorContent
  import AdminUsers
  import UserController
  import UserRoutes
  import LogRoutes
  import ApiDocs

  /** The entries the content page holds after loading the listing. */
  function Listing(db: Db): (r: seq<EditorContent.Entry>)
    ensures |r| == |db.posts|
    ensures forall k :: 0 <= k < |r| ==>
      && r[k].id == db.posts[k].id && r[k].title == db.posts[k].title && r[k].content == db.posts[k].content
      && (r[k].author.Populated? <==> UserIndex(db.users, db.posts[k].author).Some?)
  {
    var views := ListPosts(db).response.body.posts;
    seq(|views|, k requires 0 <= k < |views| => EditorContent.FromView(views[k]))
  }

  /** The account `u` is still in the store. */
  ghost predicate Registered(db: Db, u: ClientUser) {
    exists j :: 0 <= j < |db.users| && db.users[j].id == u.id
  }

  /** A listed post's author field names the post's author exactly when that
      account still exists, and is `null` otherwise. */
  lemma ListedAuthor(db: Db, k: nat)
    requires k < |db.posts|
    ensures EditorContent.AuthorId(Listing(db)[k].author).Some? <==>
      exists j :: 0 <= j < |db.users| && db.users[j].id == db.posts[k].author
    ensures EditorContent.AuthorId(Listing(db)[k].author).Some? ==>
      EditorContent.AuthorId(Listing(db)[k].author) == Some(db.posts[k].author)
    ensures !Listing(db)[k].author.BareId?
  {
    var v := ListPosts(db).response.body.posts[k];
    assert Shows(v, db.posts[k], db.users);
  }

  /** On the entries of a fresh listing, the page's condition as written offers
      Edit/Delete exactly when the server would allow the change, provided the
      signed-in account still exists. */
  lemma ListedControlsMatchServer(db: Db, u: ClientUser, k: nat)
    requires k < |db.posts|
    requires Registered(db, u)
    ensures EditorContent.ControlsShown(SignedIn(u), Listing(db)[k].author)
        <==> MayModify(Actor(u.id, u.role), db.posts[k])
  {
    ListedAuthor(db, k);
  }

  /** As written, an editor who has just created a post is not offered Edit or
      Delete on it, although the server lets them change it; the corrected
      condition offers both. */
  lemma CreatedPostHidesControls(db: Db, st: EditorContent.EditorState, u: ClientUser, now: nat)
    requires u.role == Name(Editor)
    requires Truthy(st.title) && Truthy(st.content) && st.editingPostId.None?
    ensures var post := CreatePost(db, Actor(u.id, u.role), st.title, st.content, now).response.body.post;
      var shown := EditorContent.SubmitPost(st, Some(post)).state.posts;
      && MayModify(Actor(u.id, u.role), post)
      && shown[0].id == post.id
      && !EditorContent.ControlsShown(SignedIn(u), shown[0].author)
      && EditorContent.ControlsShownFixed(SignedIn(u), shown[0].author)
  {
  }

  /** As written, the same happens to a post the editor has just edited: the
      entry the reply replaces it with carries a bare author id. */
  lemma EditedPostHidesControls(db: Db, st: EditorContent.EditorState, u: ClientUser, k: nat)
    requires u.role == Name(Editor)
    requires Truthy(st.title) && Truthy(st.content) && st.editingPostId.Some?
    requires k < |st.posts| && st.posts[k].id == st.editingPostId.value
    requires PostIndex(db.posts, st.editingPostId.value).Some?
    requires db.posts[PostIndex(db.posts, st.editingPostId.value).value].author == u.id
    ensures var h := UpdatePost(db, Actor(u.id, u.role), st.editingPostId.value, st.title, st.content);
      var shown := EditorContent.SubmitPost(st, Some(h.response.body.post)).state.posts;
      && h.response.status == 200
      && MayModify(Actor(u.id, u.role), h.response.body.post)
      && !EditorContent.ControlsShown(SignedIn(u), shown[k].author)
      && EditorContent.ControlsShownFixed(SignedIn(u), shown[k].author)
  {
  }

  /** As written, a page without a signed-in account offers Edit/Delete on every
      post whose author account is gone (`undefined === undefined`); the
      corrected condition offers nothing without an account. */
  lemma SignedOutSeesOrphanControls(s: Session)
    requires !s.SignedIn?
    ensures EditorContent.ControlsShown(s, EditorContent.NoAuthor)
    ensures !EditorContent.ControlsShownFixed(s, EditorContent.NoAuthor)
  {
  }

  /** The corrected condition offers Edit/Delete exactly when the server allows
      the change, on a listed entry (while the account exists) and on an entry
      made from a create or update reply (always), and never without an account. */
  lemma FixedControlsMatchServer(db: Db, u: ClientUser, k: nat, p: Post)
    requires k < |db.posts|
    ensures Registered(db, u) ==>
      (EditorContent.ControlsShownFixed(SignedIn(u), Listing(db)[k].author) <==>
       MayModify(Actor(u.id, u.role), db.posts[k]))
    ensures EditorContent.ControlsShownFixed(SignedIn(u), EditorContent.FromPost(p).author)
         <==> MayModify(Actor(u.id, u.role), p)
    ensures !EditorContent.ControlsShownFixed(SignedOut, Listing(db)[k].author)
    ensures !EditorContent.ControlsShownFixed(Loading, Listing(db)[k].author)
  {
    ListedAuthor(db, k);
  }

  /** Deleting a post: after the server's answer, the page's list is what a
      fresh listing of the resulting store shows, whether the delete succeeded
      (404 and 403 leave both unchanged). */
  lemma {:induction false} DeleteKeepsListing(db: Db, st: EditorContent.EditorState, actor: Actor)
    requires Valid(db)
    requires st.posts == Listing(db) && st.postToDelete.Some?
    ensures var h := ContentController.DeletePost(db, actor, st.postToDelete.value);
      EditorContent.DeletePost(st, h.response.status == 200).state.posts == Listing(h.db)
  {
    var id := st.postToDelete.value;
    var h := ContentController.DeletePost(db, actor, id);
    match PostIndex(db.posts, id)
    case None =>
    case Some(i) =>
      if MayModify(actor, db.posts[i]) {
        var after := Listing(h.db);
        var before := Listing(db);
        assert after == RemoveAt(before, i) by {
          forall j | 0 <= j < |after| ensures after[j] == RemoveAt(before, i)[j] {
            if j < i {
              assert h.db.posts[j] == db.posts[j];
            } else {
              assert h.db.posts[j] == db.posts[j + 1];
            }
          }
        }
        forall j | 0 <= j < |before| && j != i ensures before[j].id != id {
          assert db.posts[j].id != db.posts[i].id;
        }
        FilterRemovesOne(before, (e: EditorContent.Entry) => e.id != id, i);
      }
  }

  /** The entries agree on everything but the shape of the author field. */
  predicate SameText(a: EditorContent.Entry, b: EditorContent.Entry) {
    a.id == b.id && a.title == b.title && a.content == b.content
  }

  /** Creating a post: after a successful create the page's list is the fresh
      listing with the new post moved from the end (where the store keeps it) to
      the front, its author field aside. */
  lemma CreateKeepsListing(db: Db, st: EditorContent.EditorState, actor: Actor, now: nat)
    requires st.posts == Listing(db)
    requires Truthy(st.title) && Truthy(st.content) && st.editingPostId.None?
    ensures var h := CreatePost(db, actor, st.title, st.content, now);
      var shown := EditorContent.SubmitPost(st, Some(h.response.body.post)).state.posts;
      var reloaded := Listing(h.db);
      && |shown| == |reloaded|
      && shown[1..] == reloaded[..|db.posts|]
      && SameText(shown[0], reloaded[|db.posts|])
  {
    var h := CreatePost(db, actor, st.title, st.content, now);
    var reloaded := Listing(h.db);
    forall k | 0 <= k < |db.posts| ensures reloaded[k] == Listing(db)[k] {
      assert h.db.posts[k] == db.posts[k];
    }
    assert reloaded[..|db.posts|] == Listing(db);
  }

  /** Editing a post: after the server's answer the page's list matches a fresh
      listing of the resulting store entry by entry in id, title and content;
      only the edited entry's author field can differ. */
  lemma EditKeepsListingText(db: Db, st: EditorContent.EditorState, actor: Actor)
    requires Valid(db)
    requires st.posts == Listing(db)
    requires Truthy(st.title) && Truthy(st.content) && st.editingPostId.Some?
    ensures var h := UpdatePost(db, actor, st.editingPostId.value, st.title, st.content);
      var reply := if h.response.status == 200 then Some(h.response.body.post) else None;
      var shown := EditorContent.SubmitPost(st, reply).state.posts;
      var reloaded := Listing(h.db);
      && |shown| == |reloaded|
      && (forall k :: 0 <= k < |shown| ==> SameText(shown[k], reloaded[k]))
      && (forall k :: 0 <= k < |shown| && shown[k].id != st.editingPostId.value ==> shown[k] == reloaded[k])
  {
    var id := st.editingPostId.value;
    var h := UpdatePost(db, actor, id, st.title, st.content);
    match PostIndex(db.posts, id)
    case None =>
    case Some(i) =>
      if MayModify(actor, db.posts[i]) {
        var reloaded := Listing(h.db);
        forall k | 0 <= k < |db.posts| && k != i ensures reloaded[k] == Listing(db)[k] && db.posts[k].id != id {
          assert h.db.posts[k] == db.posts[k];
          assert db.posts[k].id != db.posts[i].id;
        }
      }
  }

  /** The rows of the admin's user table after loading the account list. */
  function UserRows(db: Db): (r: seq<UserView>)
    ensures |r| == |db.users|
    ensures forall k :: 0 <= k < |r| ==>
      && r[k].id == db.users[k].id && r[k].username == db.users[k].username
      && r[k].email == db.users[k].email && r[k].role == db.users[k].role
  {
    UserController.ListUsers(db).response.body.users
  }

  /** Changing a role: after the server's answer, the admin's table is what a
      fresh account listing of the resulting store shows. */
  lemma RoleChangeKeepsTable(db: Db, st: AdminUsers.AdminState, id: Id)
    requires Valid(db)
    requires st.users == UserRows(db)
    ensures var h := UserController.UpdateRole(db, id, st.roleValue);
      AdminUsers.UpdateRole(st, id, h.response.status == 200).state.users == UserRows(h.db)
  {
    var h := UserController.UpdateRole(db, id, st.roleValue);
    if Parse(st.roleValue).Some? && UserIndex(db.users, id).Some? {
      var i := UserIndex(db.users, id).value;
      var after := UserRows(h.db);
      var shown := AdminUsers.UpdateRole(st, id, true).state.users;
      forall j | 0 <= j < |after| ensures shown[j] == after[j] {
        if j != i {
          assert db.users[j].id != db.users[i].id;
        }
      }
    }
  }

  /** Deleting an account: after the server's answer, the admin's table is what
      a fresh account listing of the resulting store shows. */
  lemma {:induction false} AccountDeleteKeepsTable(db: Db, st: AdminUsers.AdminState, id: Id)
    requires Valid(db)
    requires st.users == UserRows(db)
    ensures var h := UserController.DeleteUser(db, id);
      AdminUsers.DeleteUser(st, id, true, h.response.status == 200).state.users == UserRows(h.db)
  {
    var h := UserController.DeleteUser(db, id);
    match UserIndex(db.users, id)
    case None =>
    case Some(i) =>
      var after := UserRows(h.db);
      var before := UserRows(db);
      assert after == RemoveAt(before, i) by {
        forall j | 0 <= j < |after| ensures after[j] == RemoveAt(before, i)[j] {
          if j < i {
            assert h.db.users[j] == db.users[j];
          } else {
            assert h.db.users[j] == db.users[j + 1];
          }
        }
      }
      forall j | 0 <= j < |before| && j != i ensures before[j].id != id {
        assert db.users[j].id != db.users[i].id;
      }
      FilterRemovesOne(before, (u: UserView) => u.id != id, i);
  }

  /** Deleting an account leaves its posts in the listing, shown without an
      author; as written, only an admin is then offered Edit/Delete on them. */
  lemma DeletedAuthorsPostsRemain(db: Db, id: Id, u: ClientUser)
    requires Valid(db)
    requires UserIndex(db.users, id).Some?
    ensures var h := UserController.DeleteUser(db, id);
      && |Listing(h.db)| == |Listing(db)|
      && forall k :: 0 <= k < |db.posts| && db.posts[k].author == id ==>
           && Listing(h.db)[k].author == EditorContent.NoAuthor
           && (EditorContent.ControlsShown(SignedIn(u), Listing(h.db)[k].author) <==> u.role == Name(Admin))
  {
    var h := UserController.DeleteUser(db, id);
    forall k | 0 <= k < |db.posts| && db.posts[k].author == id
      ensures Listing(h.db)[k].author == EditorContent.NoAuthor
    {
      ListedAuthor(h.db, k);
    }
  }

  /** The documentation page offers the "users" and "logs" tabs to a signed-in
      account exactly when the server's user and log routes would answer that
      account rather than refuse it; a session without an account is offered
      neither, and the server refuses it for want of a token. */
  lemma TabsMatchGates(u: ClientUser, req: UserRoutes.Request, db: Db)
    ensures "users" in ApiDocs.Tabs(SignedIn(u)) <==>
      UserRoutes.Route(Some(Actor(u.id, u.role)), req, db).outcome.Answered?
    ensures "logs" in ApiDocs.Tabs(SignedIn(u)) <==>
      LogRoutes.Route(Some(Actor(u.id, u.role)), db).outcome.Answered?
    ensures "users" !in ApiDocs.Tabs(SignedOut) && "logs" !in ApiDocs.Tabs(SignedOut)
    ensures UserRoutes.Route(None, req, db).outcome == Unauthenticated
    ensures LogRoutes.Route(None, db).outcome == Unauthenticated
  {
  }
}
