/** The admin's user-management page: the account list it holds and the
    role-edit mode. Handlers take the server's answer as a parameter and return
    the request they send with the page's next state. */
module AdminUsers {
  import opened Common
  import opened Store
  import opened Http
  import opened ClientApi

  datatype AdminState = AdminState(users: seq<UserView>, roleUpdateId: Option<Id>, roleValue: string)

  datatype Effect = Effect(call: Option<Call>, state: AdminState)

  /** The "Edit Role" button: edit mode for that row, preset to its current role. */
  function StartEdit(st: AdminState, row: UserView): (r: AdminState)
    ensures r.roleUpdateId == Some(row.id) && r.roleValue == row.role && r.users == st.users
  {
    st.(roleUpdateId := Some(row.id), roleValue := row.role)
  }

  /** The "Cancel" button: edit mode left, selection cleared. */
  function CancelEdit(st: AdminState): (r: AdminState)
    ensures r.roleUpdateId.None? && r.roleValue == "" && r.users == st.users
  {
    st.(roleUpdateId := None, roleValue := "")
  }

  /** Cancelling right after starting an edit returns the page to where a
      plain cancel would have left it. */
  lemma StartThenCancel(st: AdminState, row: UserView)
    ensures CancelEdit(StartEdit(st, row)) == CancelEdit(st)
  {
  }

  /** `users.map((u) => (u._id === id ? { ...u, role } : u))`. */
  function SetRoleById(users: seq<UserView>, id: Id, role: string): (r: seq<UserView>)
    ensures |r| == |users|
    ensures forall i :: 0 <= i < |users| && users[i].id == id ==> r[i] == users[i].(role := role)
    ensures forall i :: 0 <= i < |users| && users[i].id != id ==> r[i] == users[i]
  {
    seq(|users|, i requires 0 <= i < |users| => if users[i].id == id then users[i].(role := role) else users[i])
  }

  /** `updateRole(id)`: nothing happens without a selected role; on success only
      the role of the rows with that id changes and edit mode ends; on failure
      nothing changes. */
  function UpdateRole(st: AdminState, id: Id, succeeded: bool): (eff: Effect)
    ensures !Truthy(st.roleValue) ==> eff == Effect(None, st)
    ensures Truthy(st.roleValue) ==>
      && eff.call == Some(PutRole(id, st.roleValue))
      && (!succeeded ==> eff.state == st)
      && (succeeded ==>
            && eff.state.roleUpdateId.None? && eff.state.roleValue == ""
            && |eff.state.users| == |st.users|
            && (forall i :: 0 <= i < |st.users| && st.users[i].id == id ==>
                  eff.state.users[i] == st.users[i].(role := st.roleValue))
            && (forall i :: 0 <= i < |st.users| && st.users[i].id != id ==> eff.state.users[i] == st.users[i]))
  {
    if !Truthy(st.roleValue) then Effect(None, st)
    else if !succeeded then Effect(Some(PutRole(id, st.roleValue)), st)
    else Effect(Some(PutRole(id, st.roleValue)),
                AdminState(SetRoleById(st.users, id, st.roleValue), None, ""))
  }

  /** `deleteUser(id)`: nothing happens unless the confirmation is accepted; on
      success every row with that id leaves the list, the rest keep their order. */
  function DeleteUser(st: AdminState, id: Id, confirmed: bool, succeeded: bool): (eff: Effect)
    ensures !confirmed ==> eff == Effect(None, st)
    ensures confirmed ==>
      && eff.call == Some(DeleteAccount(id))
      && eff.state.roleUpdateId == st.roleUpdateId && eff.state.roleValue == st.roleValue
      && (!succeeded ==> eff.state.users == st.users)
      && (succeeded ==> (forall x :: x in eff.state.users <==> x in st.users && x.id != id)
                        && (forall x :: multiset(eff.state.users)[x] ==
                                         if x.id != id then multiset(st.users)[x] else 0)
                        && IsSubsequence(eff.state.users, st.users))
  {
    if !confirmed then Effect(None, st)
    else
      var users := if succeeded then Filter(st.users, (u: UserView) => u.id != id) else st.users;
      Effect(Some(DeleteAccount(id)), st.(users := users))
  }

  /** Saving right after starting an edit of a listed row, when no other row
      shares its id, sends that row's current role; on success the table is
      unchanged and edit mode ends. A row without a role sends nothing. */
  lemma SaveRightAfterStart(st: AdminState, k: nat, succeeded: bool)
    requires k < |st.users|
    requires forall i :: 0 <= i < |st.users| && st.users[i].id == st.users[k].id ==> i == k
    ensures
      var row := st.users[k];
      var eff := UpdateRole(StartEdit(st, row), row.id, succeeded);
      && (!Truthy(row.role) ==> eff.call.None?)
      && (Truthy(row.role) ==> eff.call == Some(PutRole(row.id, row.role)))
      && (Truthy(row.role) && succeeded ==>
            eff.state.users == st.users && eff.state.roleUpdateId.None? && eff.state.roleValue == "")
  {
    var row := st.users[k];
    if Truthy(row.role) && succeeded {
      var after := UpdateRole(StartEdit(st, row), row.id, succeeded).state.users;
      assert after[k] == row.(role := row.role) == row;
      assert after == st.users;
    }
  }
}
