/** The landing page: it sends the stored account to the page of its role. */
module Home {
  import opened Common
  import opened Roles
  import opened ClientSession
  import opened RoleGuard
  import opened AuthContext

  const AdminUsersPath: string := "/admin/users"
  const AdminLogsPath: string := "/admin/logs"
  const EditorContentPath: string := "/editor/content"
  const ViewerContentPath: string := "/viewer/content"

  /** The landing page's choice for a known role. */
  function RolePage(r: Role): string {
    match r
    case Admin => AdminUsersPath
    case Editor => EditorContentPath
    case Viewer => ViewerContentPath
  }

  /** Where the landing page navigates, from the stored account. */
  function Destination(storage: Storage): (path: string)
    ensures StoredUser(storage).None? ==> path == LoginPath
    ensures StoredUser(storage).Some? ==>
      var role := StoredUser(storage).value.role;
      && (role == "admin" ==> path == "/admin/users")
      && (role == "editor" ==> path == "/editor/content")
      && (role == "viewer" ==> path == "/viewer/content")
      && (Parse(role).None? ==> path == LoginPath)
  {
    match StoredUser(storage)
    case None => LoginPath
    case Some(u) =>
      match Parse(u.role)
      case Some(r) => RolePage(r)
      case None => LoginPath
  }

  /** The roles each guarded page passes to its guard: the two admin pages
      admit only admins, the editor's page admins and editors, and the
      viewer's page only viewers. Other paths are not guarded. */
  function PageRoles(path: string): (r: Option<seq<Role>>)
    ensures r.Some? <==>
      path == AdminUsersPath || path == AdminLogsPath || path == EditorContentPath || path == ViewerContentPath
    ensures path == AdminUsersPath || path == AdminLogsPath ==>
      r.Some? && forall x :: Admits(r.value, Name(x)) <==> x == Admin
    ensures path == EditorContentPath ==> r.Some? && forall x :: Admits(r.value, Name(x)) <==> x != Viewer
    ensures path == ViewerContentPath ==> r.Some? && forall x :: Admits(r.value, Name(x)) <==> x == Viewer
  {
    AdmitsNames(Admins);
    AdmitsNames([Admin, Editor]);
    AdmitsNames([Viewer]);
    if path == AdminUsersPath || path == AdminLogsPath then Some(Admins)
    else if path == EditorContentPath then Some([Admin, Editor])
    else if path == ViewerContentPath then Some([Viewer])
    else None
  }

  /** No redirect loop: for a stored account with a known role, the page the
      landing page picks is guarded, and its guard, evaluated on the session the
      provider loads from the same storage, lets the account stay. */
  lemma NoRedirectLoop(storage: Storage)
    requires StoredUser(storage).Some? && Parse(StoredUser(storage).value.role).Some?
    ensures PageRoles(Destination(storage)).Some?
    ensures Guard(Mount(Initial(storage)).user, PageRoles(Destination(storage)).value) == Stay
  {
    var u := StoredUser(storage).value;
    var r := Parse(u.role).value;
    var allowed := PageRoles(Destination(storage)).value;
    match r
    case Admin => assert Name(allowed[0]) == u.role;
    case Editor => assert Name(allowed[1]) == u.role;
    case Viewer => assert Name(allowed[0]) == u.role;
  }
}
