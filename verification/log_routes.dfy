/** The `/logs` router: `protect`, then `authorizeRoles("admin")`, then the
    listing. */
module LogRoutes {
  import opened Common
  import opened Roles
  import opened Store
  import opened Http
  import opened LogController

  /** `GET /logs`; `auth` is what `protect` yields. */
  function Route(auth: Option<Actor>, db: Db): (s: Step)
    ensures s.db == db
    ensures auth.None? ==> s.outcome == Unauthenticated
    ensures auth.Some? && auth.value.role != Name(Admin) ==> s.outcome == RoleRefused
    ensures auth.Some? && auth.value.role == Name(Admin) ==>
      && s.outcome.Answered? && s.outcome.response.status == 200
      && s.outcome.response.body == LogList(ListLogs(db.logs))
  {
    match auth
    case None => Step(Unauthenticated, db)
    case Some(actor) =>
      AdminsAdmit(actor.role);
      if !Admits(Admins, actor.role) then Step(RoleRefused, db)
      else
        var h := ListLogsHandler(db);
        Step(Answered(h.response), h.db)
  }
}
