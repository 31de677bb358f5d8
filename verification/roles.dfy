/** The three roles of the dashboard and the whitelist that recognises their
    names. Role values travel as strings (in tokens, request bodies and the
    browser's storage), so the closed variant meets the strings through `Name`
    and `Parse`. */
module Roles {
  import opened Common

  datatype Role = Admin | Editor | Viewer

  /** The wire spelling of a role. */
  function Name(r: Role): string {
    match r
    case Admin => "admin"
    case Editor => "editor"
    case Viewer => "viewer"
  }

  /** The whitelist `["admin", "editor", "viewer"].includes(s)`, answering which
      role `s` names. */
  function Parse(s: string): (r: Option<Role>)
    ensures r.Some? ==> Name(r.value) == s
    ensures r.None? <==> forall x :: Name(x) != s
  {
    if s == "admin" then Some(Admin)
    else if s == "editor" then Some(Editor)
    else if s == "viewer" then Some(Viewer)
    else None
  }

  /** Distinct roles have distinct names, so `Parse` inverts `Name`. */
  lemma ParseName(r: Role)
    ensures Parse(Name(r)) == Some(r)
    ensures forall x :: Name(x) == Name(r) ==> x == r
  {
  }

  /** `allowed.includes(role)` for a list of role names: the role string is the
      name of one of the allowed roles. */
  predicate Admits(allowed: seq<Role>, role: string): (r: bool)
    ensures r ==> Parse(role).Some? && Parse(role).value in allowed
    ensures |allowed| == 0 ==> !r
  {
    exists i :: 0 <= i < |allowed| && Name(allowed[i]) == role
  }

  /** A list of roles admits a role's own name exactly when the role is listed. */
  lemma AdmitsNames(allowed: seq<Role>)
    ensures forall x :: Admits(allowed, Name(x)) <==> x in allowed
  {
    forall x ensures Admits(allowed, Name(x)) <==> x in allowed {
      ParseName(x);
      AdmitsIffParsed(allowed, Name(x));
    }
  }

  /** The role list of the admin-only gates, `authorizeRoles("admin")`. */
  const Admins: seq<Role> := [Admin]

  /** The admin-only gate admits exactly the role string "admin". */
  lemma AdminsAdmit(role: string)
    ensures Admits(Admins, role) <==> role == Name(Admin)
  {
    if role == Name(Admin) {
      assert Name(Admins[0]) == role;
    }
  }

  /** Admission through a list of role names is admission of a whitelisted role
      that occurs in the list. */
  lemma AdmitsIffParsed(allowed: seq<Role>, role: string)
    ensures Admits(allowed, role) <==> Parse(role).Some? && Parse(role).value in allowed
  {
    if Parse(role).Some? && Parse(role).value in allowed {
      var i :| 0 <= i < |allowed| && allowed[i] == Parse(role).value;
      assert Name(allowed[i]) == role;
    }
  }
}
