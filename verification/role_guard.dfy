/** The client-side page guard `useRoleGuard(user, allowedRoles)`. */
module RoleGuard {
  import opened Roles
  import opened ClientSession

  /** The effect of one evaluation: no navigation, or exactly one `router.push`. */
  datatype Nav = Stay | Go(path: string)

  const LoginPath: string := "/login"
  const HomePath: string := "/"

  /** Wait while loading, send a signed-out visitor to the login page, send an
      account whose role the page does not allow home, and let the rest stay. */
  function Guard(user: Session, allowed: seq<Role>): (n: Nav)
    ensures user.Loading? ==> n == Stay
    ensures user.SignedOut? ==> n == Go(LoginPath)
    ensures user.SignedIn? ==> (n == Stay <==> Admits(allowed, user.user.role))
    ensures user.SignedIn? && !Admits(allowed, user.user.role) ==> n == Go(HomePath)
  {
    match user
    case Loading => Stay
    case SignedOut => Go(LoginPath)
    case SignedIn(u) => if Admits(allowed, u.role) then Stay else Go(HomePath)
  }
}
