/** The `/users` router: `protect`, then `authorizeRoles("admin")`, in front of
    every route. */
module UserRoutes {
  import opened Common
  import opened Roles
  import opened Store
  import opened Http
  import opened UserController

  datatype Request =
    | ListAll
    | SetRole(id: Id, role: string)
    | Remove(id: Id)

  function Dispatch(req: Request, db: Db): Handled {
    match req
    case ListAll => ListUsers(db)
    case SetRole(id, role) => UpdateRole(db, id, role)
    case Remove(id) => DeleteUser(db, id)
  }

  /** A request through the router; `auth` is what `protect` yields. */
  function Route(auth: Option<Actor>, req: Request, db: Db): (s: Step)
    ensures auth.None? ==> s == Step(Unauthenticated, db)
    ensures auth.Some? && auth.value.role != Name(Admin) ==> s == Step(RoleRefused, db)
    ensures s.outcome.Answered? <==> auth.Some? && auth.value.role == Name(Admin)
    ensures s.outcome.Answered? ==> var h := Dispatch(req, db); s == Step(Answered(h.response), h.db)
  {
    match auth
    case None => Step(Unauthenticated, db)
    case Some(actor) =>
      AdminsAdmit(actor.role);
      if !Admits(Admins, actor.role) then Step(RoleRefused, db)
      else
        var h := Dispatch(req, db);
        Step(Answered(h.response), h.db)
  }

  /** The admin gate runs before the role whitelist: a non-admin sending an
      unknown role is refused by the gate and never gets the 400. */
  lemma GateBeforeValidation(actor: Actor, id: Id, role: string, db: Db)
    requires actor.role != Name(Admin) && Parse(role).None?
    ensures Route(Some(actor), SetRole(id, role), db) == Step(RoleRefused, db)
  {
  }

  /** An admin may demote or delete their own account: nothing compares the
      target with the actor. */
  lemma AdminMayChangeSelf(actor: Actor, db: Db)
    requires actor.role == Name(Admin) && UserIndex(db.users, actor.id).Some?
    ensures Route(Some(actor), SetRole(actor.id, Name(Viewer)), db).outcome == Answered(Response(200, Message("Role updated")))
    ensures Route(Some(actor), Remove(actor.id), db).outcome == Answered(Response(200, Message("User deleted")))
  {
  }
}
