/** The `/content` router: `protect` on every route, then
    `authorizeRoles("admin", "editor")` on create, update and delete, then the
    controller. */
module ContentRoutes {
  import opened Common
  import opened Roles
  import opened Store
  import opened Http
  import opened ContentController

  datatype Request =
    | ListAll
    | CreateOne(title: string, content: string)
    | UpdateOne(id: Id, title: string, content: string)
    | DeleteOne(id: Id)

  /** The roles `authorizeRoles("admin", "editor")` lets through. */
  const Writers: seq<Role> := [Admin, Editor]

  /** Whether the route carries the writer gate: all but the listing. */
  predicate Gated(req: Request) {
    !req.ListAll?
  }

  /** The controller a request reaches once the middleware has let it through. */
  function Dispatch(actor: Actor, req: Request, db: Db, now: nat): Handled {
    match req
    case ListAll => ListPosts(db)
    case CreateOne(title, content) => CreatePost(db, actor, title, content, now)
    case UpdateOne(id, title, content) => UpdatePost(db, actor, id, title, content)
    case DeleteOne(id) => DeletePost(db, actor, id)
  }

  /** A request through the router. `auth` is what `protect` makes of the
      request's credentials: the acting account, or nothing. */
  function Route(auth: Option<Actor>, req: Request, db: Db, now: nat): (s: Step)
    ensures auth.None? ==> s == Step(Unauthenticated, db)
    ensures auth.Some? && Gated(req) && !Admits(Writers, auth.value.role) ==> s == Step(RoleRefused, db)
    ensures s.outcome.Answered? <==> auth.Some? && (!Gated(req) || Admits(Writers, auth.value.role))
    ensures s.outcome.Answered? ==>
      var h := Dispatch(auth.value, req, db, now);
      s == Step(Answered(h.response), h.db)
    ensures !s.outcome.Answered? ==> s.db == db
  {
    match auth
    case None => Step(Unauthenticated, db)
    case Some(actor) =>
      if Gated(req) && !Admits(Writers, actor.role) then Step(RoleRefused, db)
      else
        var h := Dispatch(actor, req, db, now);
        Step(Answered(h.response), h.db)
  }

  /** Any authenticated account may list, viewers included. */
  lemma ListingOpenToAll(actor: Actor, db: Db, now: nat)
    ensures Route(Some(actor), ListAll, db, now) == Step(Answered(ListPosts(db).response), db)
  {
  }

  /** Through the router, an update or delete succeeds exactly for an admin on an
      existing post and for an editor on an existing post of their own; a
      viewer is stopped by the gate even on a post they wrote, and even when the
      post does not exist. */
  lemma MutationSucceedsIff(actor: Actor, req: Request, db: Db, now: nat)
    requires req.UpdateOne? || req.DeleteOne?
    ensures var s := Route(Some(actor), req, db, now);
      var found := PostIndex(db.posts, req.id);
      && (s.outcome.Answered? && s.outcome.response.status == 200 <==>
            || (actor.role == Name(Admin) && found.Some?)
            || (actor.role == Name(Editor) && found.Some? && db.posts[found.value].author == actor.id))
      && (actor.role == Name(Viewer) ==> s == Step(RoleRefused, db))
  {
    var found := PostIndex(db.posts, req.id);
    if actor.role == Name(Admin) || actor.role == Name(Editor) {
      assert Name(Writers[if actor.role == Name(Admin) then 0 else 1]) == actor.role;
      assert Admits(Writers, actor.role);
    } else {
      assert !Admits(Writers, actor.role);
    }
  }

  /** Editor A creates a post; editor B's update of it is refused with 403,
      and an admin's identical update succeeds. */
  lemma {:induction false} ForeignEditScenario(db: Db, a: Actor, b: Actor, admin: Actor, title: string, content: string,
                                               title2: string, content2: string, now: nat)
    requires Valid(db)
    requires a.role == Name(Editor) && b.role == Name(Editor) && a.id != b.id && admin.role == Name(Admin)
    ensures var created := Route(Some(a), CreateOne(title, content), db, now);
      && created.outcome.Answered? && created.outcome.response.status == 201
      && var id := created.outcome.response.body.post.id;
      && Route(Some(b), UpdateOne(id, title2, content2), created.db, now).outcome == Answered(Fail(403, "Forbidden"))
      && var byAdmin := Route(Some(admin), UpdateOne(id, title2, content2), created.db, now).outcome;
      && byAdmin.Answered? && byAdmin.response.status == 200
  {
    assert Name(Writers[1]) == a.role;
    assert Name(Writers[0]) == admin.role;
    var h := CreatePost(db, a, title, content, now);
    var p := h.response.body.post;
    FirstIndexAppend(db.posts, p, (x: Post) => x.id == p.id);
    assert PostIndex(h.db.posts, p.id) == Some(|db.posts|);
  }
}
