/** The API documentation panel: which content endpoints a role is shown, and
    which tabs appear. */
module ApiDocs {
  import opened Common
  import opened Roles
  import opened ClientSession

  datatype ApiEntry = ApiEntry(verb: string, endpoint: string, description: string)

  /** The content endpoints table, in display order, with the four
      descriptions as parameters. */
  function ContentTable(list: string, create: string, update: string, delete: string): (r: seq<ApiEntry>)
    ensures |r| == 4
    ensures r[0].description == list && r[1].description == create
    ensures r[2].description == update && r[3].description == delete
  {
    [ApiEntry("GET", "/api/content", list),
     ApiEntry("POST", "/api/content", create),
     ApiEntry("PUT", "/api/content/:id", update),
     ApiEntry("DELETE", "/api/content/:id", delete)]
  }

  /** The documented content endpoints. */
  const ContentApis: seq<ApiEntry> := ContentTable(ListDoc, CreateDoc, UpdateDoc, DeleteDoc)

  const ListDoc: string := "List all posts (All roles)"
  const CreateDoc: string := "Create new post (Admin/Editor only)"
  const UpdateDoc: string := "Update post (Admin or owner only)"
  const DeleteDoc: string := "Delete post (Admin or owner only)"

  const AllRoles: string := "All roles"
  const AdminOnly: string := "Admin only"

  /** The filter's condition on one entry for the current session: "All roles"
      entries are open to every session, an admin sees every entry, an entry
      marked only "Admin only" is for admins alone, and a session that is not
      an admin or an editor sees the "All roles" entries and nothing else. */
  predicate Listed(user: Session, api: ApiEntry): (r: bool)
    ensures Includes(api.description, AllRoles) ==> r
    ensures RoleOf(user) == Some(Name(Admin)) ==> r
    ensures !Includes(api.description, AllRoles) && Includes(api.description, AdminOnly) ==>
      (r <==> RoleOf(user) == Some(Name(Admin)))
    ensures RoleOf(user) != Some(Name(Admin)) && RoleOf(user) != Some(Name(Editor)) ==>
      (r <==> Includes(api.description, AllRoles))
  {
    || Includes(api.description, AllRoles)
    || RoleOf(user) == Some(Name(Admin))
    || (RoleOf(user) == Some(Name(Editor)) && !Includes(api.description, AdminOnly))
  }

  /** `contentApis.filter(...)` for the current session. */
  function ShownApis(user: Session, apis: seq<ApiEntry>): (r: seq<ApiEntry>)
    ensures IsSubsequence(r, apis)
    ensures forall a :: a in r <==> a in apis && Listed(user, a)
    ensures forall a :: multiset(r)[a] == if Listed(user, a) then multiset(apis)[a] else 0
  {
    Filter(apis, (a: ApiEntry) => Listed(user, a))
  }

  /** What each kind of session is shown: an admin everything; an editor the
      "All roles" entries and those not marked "Admin only"; a viewer, a
      signed-out visitor or a session still loading only the "All roles"
      entries. */
  lemma ShownByRole(user: Session, apis: seq<ApiEntry>)
    ensures RoleOf(user) == Some(Name(Admin)) ==> ShownApis(user, apis) == apis
    ensures RoleOf(user) == Some(Name(Editor)) ==>
      forall a :: multiset(ShownApis(user, apis))[a] ==
        if Includes(a.description, AllRoles) || !Includes(a.description, AdminOnly)
        then multiset(apis)[a] else 0
    ensures RoleOf(user) != Some(Name(Admin)) && RoleOf(user) != Some(Name(Editor)) ==>
      forall a :: multiset(ShownApis(user, apis))[a] ==
        if Includes(a.description, AllRoles) then multiset(apis)[a] else 0
  {
    if RoleOf(user) == Some(Name(Admin)) {
      FilterAll(apis, (a: ApiEntry) => Listed(user, a));
    }
  }

  /** `sub` cannot occur in `s` when, at every position, one of two chosen
      characters of `sub` is missing from its place. */
  lemma NotIncluded(s: string, sub: string, a: nat, b: nat)
    requires a < |sub| && b < |sub|
    requires forall i: nat :: MissesAt(s, sub, i, a, b)
    ensures !Includes(s, sub)
  {
    forall i: nat ensures !OccursAt(s, sub, i) {
      assert MissesAt(s, sub, i, a, b);
      if i + |sub| <= |s| {
        assert s[i..i + |sub|][a] == s[i + a] && s[i..i + |sub|][b] == s[i + b];
      }
    }
  }

  /** Placed at position `i` of `s`, `sub` disagrees with `s` on its `a`-th or
      its `b`-th character (or does not fit). */
  predicate MissesAt(s: string, sub: string, i: nat, a: nat, b: nat)
    requires a < |sub| && b < |sub|
  {
    i + |sub| <= |s| ==> s[i + a] != sub[a] || s[i + b] != sub[b]
  }

  /** "All roles" has a double "l", which only the listing's description has;
      wherever a description has an "A", the eighth character on is not the "n"
      of "Admin only". */
  lemma ListDocMarks()
    ensures Includes(ListDoc, AllRoles) && !Includes(ListDoc, AdminOnly)
  {
    assert OccursAt(ListDoc, AllRoles, 16);
    NotIncluded(ListDoc, AdminOnly, 0, 7);
  }

  lemma CreateDocMarks()
    ensures !Includes(CreateDoc, AllRoles) && !Includes(CreateDoc, AdminOnly)
  {
    CreateDocMisses();
    NotIncluded(CreateDoc, AllRoles, 1, 2);
    NotIncluded(CreateDoc, AdminOnly, 0, 7);
  }

  lemma CreateDocMisses()
    ensures forall i: nat :: MissesAt(CreateDoc, AllRoles, i, 1, 2)
    ensures forall i: nat :: MissesAt(CreateDoc, AdminOnly, i, 0, 7)
  {
    forall i: nat ensures MissesAt(CreateDoc, AllRoles, i, 1, 2) {
    }
    forall i: nat ensures MissesAt(CreateDoc, AdminOnly, i, 0, 7) {
    }
  }

  lemma UpdateDocMarks()
    ensures !Includes(UpdateDoc, AllRoles) && !Includes(UpdateDoc, AdminOnly)
  {
    UpdateDocMisses();
    NotIncluded(UpdateDoc, AllRoles, 1, 2);
    NotIncluded(UpdateDoc, AdminOnly, 0, 7);
  }

  lemma UpdateDocMisses()
    ensures forall i: nat :: MissesAt(UpdateDoc, AllRoles, i, 1, 2)
    ensures forall i: nat :: MissesAt(UpdateDoc, AdminOnly, i, 0, 7)
  {
    forall i: nat ensures MissesAt(UpdateDoc, AllRoles, i, 1, 2) {
    }
    forall i: nat ensures MissesAt(UpdateDoc, AdminOnly, i, 0, 7) {
    }
  }

  lemma DeleteDocMarks()
    ensures !Includes(DeleteDoc, AllRoles) && !Includes(DeleteDoc, AdminOnly)
  {
    DeleteDocMisses();
    NotIncluded(DeleteDoc, AllRoles, 1, 2);
    NotIncluded(DeleteDoc, AdminOnly, 0, 7);
  }

  lemma DeleteDocMisses()
    ensures forall i: nat :: MissesAt(DeleteDoc, AllRoles, i, 1, 2)
    ensures forall i: nat :: MissesAt(DeleteDoc, AdminOnly, i, 0, 7)
  {
    forall i: nat ensures MissesAt(DeleteDoc, AllRoles, i, 1, 2) {
    }
    forall i: nat ensures MissesAt(DeleteDoc, AdminOnly, i, 0, 7) {
    }
  }

  /** The role markers of the four documented descriptions: only the
      listing's says "All roles", and none says "Admin only". */
  lemma DocMarks()
    ensures Includes(ListDoc, AllRoles) && !Includes(ListDoc, AdminOnly)
    ensures !Includes(CreateDoc, AllRoles) && !Includes(CreateDoc, AdminOnly)
    ensures !Includes(UpdateDoc, AllRoles) && !Includes(UpdateDoc, AdminOnly)
    ensures !Includes(DeleteDoc, AllRoles) && !Includes(DeleteDoc, AdminOnly)
  {
    ListDocMarks();
    CreateDocMarks();
    UpdateDocMarks();
    DeleteDocMarks();
  }

  /** An editor is shown every row of a table none of whose descriptions says
      "Admin only". */
  lemma EditorShownTable(user: Session, list: string, create: string, update: string, delete: string)
    requires RoleOf(user) == Some(Name(Editor))
    requires !Includes(list, AdminOnly) && !Includes(create, AdminOnly)
    requires !Includes(update, AdminOnly) && !Includes(delete, AdminOnly)
    ensures ShownApis(user, ContentTable(list, create, update, delete)) == ContentTable(list, create, update, delete)
  {
    var t := ContentTable(list, create, update, delete);
    var p := (a: ApiEntry) => Listed(user, a);
    assert p(t[0]) && p(t[1]) && p(t[2]) && p(t[3]);
    FilterAll(t, p);
  }

  /** A viewer is shown only the first row of a table in which only the first
      description says "All roles". */
  lemma ViewerShownTable(user: Session, list: string, create: string, update: string, delete: string)
    requires RoleOf(user) == Some(Name(Viewer))
    requires Includes(list, AllRoles) && !Includes(create, AllRoles)
    requires !Includes(update, AllRoles) && !Includes(delete, AllRoles)
    ensures ShownApis(user, ContentTable(list, create, update, delete)) == [ContentTable(list, create, update, delete)[0]]
  {
    var t := ContentTable(list, create, update, delete);
    var p := (a: ApiEntry) => Listed(user, a);
    assert p(t[0]);
    assert !p(t[1]) && !p(t[2]) && !p(t[3]);
    FilterKeepsOnlyHead(t, p);
  }

  /** With the documented table, an editor is shown all four content endpoints. */
  lemma EditorSeesAllContentApis(editor: ClientUser)
    requires editor.role == Name(Editor)
    ensures ShownApis(SignedIn(editor), ContentApis) == ContentApis
  {
    DocMarks();
    EditorShownTable(SignedIn(editor), ListDoc, CreateDoc, UpdateDoc, DeleteDoc);
  }

  /** With the documented table, a viewer is shown only the listing endpoint. */
  lemma ViewerSeesOneContentApi(viewer: ClientUser)
    requires viewer.role == Name(Viewer)
    ensures ShownApis(SignedIn(viewer), ContentApis) == [ContentApis[0]]
  {
    DocMarks();
    ViewerShownTable(SignedIn(viewer), ListDoc, CreateDoc, UpdateDoc, DeleteDoc);
  }

  /** The tabs of the panel, in order. */
  function Tabs(user: Session): (r: seq<string>)
    ensures "auth" in r && "content" in r
    ensures "users" in r <==> RoleOf(user) == Some(Name(Admin))
    ensures "logs" in r <==> RoleOf(user) == Some(Name(Admin))
  {
    if RoleOf(user) == Some(Name(Admin)) then ["auth", "users", "content", "logs"]
    else ["auth", "content"]
  }
}
