/**
 * The user page. It keeps its own `users` list (the tenant list lives on the tenant
 * page): create appends a user with no tenants, edit changes name and email of the
 * selected user, delete filters the user out and leaves tenants that list it alone.
 */
module UserManagement {
  import opened Wrappers
  import opened Seqs
  import opened Models
  import opened Membership

  /** The user form's schema: a name of at least 2 characters and an email `isEmail` accepts. */
  predicate FormAccepted(name: string, email: string, isEmail: string -> bool) {
    |name| >= 2 && isEmail(email)
  }

  /** Every user's name passes the form's name rule. */
  predicate NamesValid(us: seq<User>) {
    forall u :: u in us ==> |u.name| >= 2
  }

  /** The list after `onCreateSubmit`: one user appended, with no tenants. */
  function CreateUser(us: seq<User>, name: string, email: string, id: string): (r: seq<User>)
    ensures |r| == |us| + 1 && r[..|us|] == us && r[|us|] == User(id, name, email, [])
  {
    us + [User(id, name, email, [])]
  }

  /** The list after `onEditSubmit`: every user with the id gets the name and email. */
  function EditUser(us: seq<User>, id: string, name: string, email: string): (r: seq<User>)
    ensures |r| == |us|
    ensures forall j :: 0 <= j < |us| ==> r[j].id == us[j].id && r[j].tenantIds == us[j].tenantIds
    ensures forall j :: 0 <= j < |us| && us[j].id == id ==> r[j].name == name && r[j].email == email
    ensures forall j :: 0 <= j < |us| && us[j].id != id ==> r[j] == us[j]
  {
    seq(|us|, j requires 0 <= j < |us| =>
      if us[j].id == id then us[j].(name := name, email := email) else us[j])
  }

  /** Deleting a user created under a fresh id gives back the list before the create. */
  lemma DeleteUndoesCreate(us: seq<User>, name: string, email: string, id: string)
    requires id !in UserIds(us)
    ensures UsersWithout(CreateUser(us, name, email, id), id) == us
  {
    UsersWithoutAppend(us, [User(id, name, email, [])], id);
    assert forall u :: u in us ==> u.id != id;
    FilterKeepsAll(us, UserIdIsNot(id));
    assert UsersWithout([User(id, name, email, [])], id) == [];
  }

  /** Submitting the edit dialog with the values it was opened with changes nothing. */
  lemma EditWithOwnValuesIsIdentity(us: seq<User>, u: User)
    requires u in us && UniqueUserIds(us)
    ensures EditUser(us, u.id, u.name, u.email) == us
  {
    var r := EditUser(us, u.id, u.name, u.email);
    var k :| 0 <= k < |us| && us[k] == u;
    forall j | 0 <= j < |us| ensures r[j] == us[j] {
      if us[j].id == u.id {
        assert us[j].id == us[k].id;
      }
    }
  }

  /** Editing twice with the same values is editing once. */
  lemma EditIdempotent(us: seq<User>, id: string, name: string, email: string)
    ensures EditUser(EditUser(us, id, name, email), id, name, email) == EditUser(us, id, name, email)
  {
  }

  /** Creating a user under a fresh id keeps the membership invariant with any tenant list. */
  lemma CreateKeepsConsistency(ts: seq<Tenant>, us: seq<User>, name: string, email: string, id: string)
    requires Consistent(ts, us) && id !in UserIds(us)
    ensures Consistent(ts, CreateUser(us, name, email, id))
  {
    var r := CreateUser(us, name, email, id);
    assert UserIds(us) <= UserIds(r) by {
      forall x | x in UserIds(us) ensures x in UserIds(r) {
        var u :| u in us && u.id == x;
        assert u in r;
      }
    }
    forall t, u | t in ts && u in r ensures u.id in t.userIds <==> t.id in u.tenantIds {
      if u == User(id, name, email, []) {
        assert id !in t.userIds;
      } else {
        assert u in us;
      }
    }
    forall u, x | u in r && x in u.tenantIds ensures x in TenantIds(ts) {
      assert u in us;
    }
  }

  /** Editing keeps the invariant: ids and tenant lists are untouched. */
  lemma EditKeepsConsistency(ts: seq<Tenant>, us: seq<User>, id: string, name: string, email: string)
    requires Consistent(ts, us)
    ensures Consistent(ts, EditUser(us, id, name, email))
  {
    var r := EditUser(us, id, name, email);
    SameIds(ts, ts, us, r);
    forall a, b | 0 <= a < |ts| && 0 <= b < |r|
      ensures r[b].id in ts[a].userIds <==> ts[a].id in r[b].tenantIds
    {
      assert ts[a] in ts && us[b] in us;
    }
    forall b, x | 0 <= b < |r| && x in r[b].tenantIds ensures x in TenantIds(ts) {
      assert us[b] in us;
    }
    forall a, x | 0 <= a < |ts| && x in ts[a].userIds ensures x in UserIds(r) {
      assert ts[a] in ts;
    }
    ConsistentFromIndices(ts, r);
  }

  class UserManagementPage {
    var users: seq<User>
    var selectedUser: Option<User>
    var editDialogOpen: bool
    var deleteDialogOpen: bool

    constructor ()
      ensures users == SeedUsers && NamesValid(users)
      ensures selectedUser == None && !editDialogOpen && !deleteDialogOpen
    {
      users := SeedUsers;
      selectedUser := None;
      editDialogOpen, deleteDialogOpen := false, false;
    }

    /** `onCreateSubmit`, behind the form's validation; `newId` is the caller's `Date.now()`. */
    method OnCreateSubmit(name: string, email: string, newId: string, isEmail: string -> bool)
      returns (accepted: bool)
      modifies this
      ensures accepted == FormAccepted(name, email, isEmail)
      ensures users == if accepted then CreateUser(old(users), name, email, newId) else old(users)
      ensures selectedUser == old(selectedUser)
      ensures editDialogOpen == old(editDialogOpen) && deleteDialogOpen == old(deleteDialogOpen)
      ensures NamesValid(old(users)) ==> NamesValid(users)
    {
      accepted := FormAccepted(name, email, isEmail);
      if accepted {
        users := users + [User(newId, name, email, [])];
      }
    }

    method OpenEditDialog(user: User)
      modifies this
      ensures users == old(users) && selectedUser == Some(user) && editDialogOpen
      ensures deleteDialogOpen == old(deleteDialogOpen)
    {
      selectedUser := Some(user);
      editDialogOpen := true;
    }

    /** `onEditSubmit`, behind the form's validation; a no-op without a selected user. */
    method OnEditSubmit(name: string, email: string, isEmail: string -> bool) returns (accepted: bool)
      modifies this
      ensures accepted == FormAccepted(name, email, isEmail)
      ensures users == if accepted && old(selectedUser).Some?
        then EditUser(old(users), old(selectedUser).value.id, name, email) else old(users)
      ensures if accepted && old(selectedUser).Some?
        then selectedUser == None && !editDialogOpen
        else selectedUser == old(selectedUser) && editDialogOpen == old(editDialogOpen)
      ensures deleteDialogOpen == old(deleteDialogOpen)
      ensures NamesValid(old(users)) ==> NamesValid(users)
    {
      accepted := FormAccepted(name, email, isEmail);
      if !accepted || selectedUser.None? {
        return;
      }
      var r := EditUser(users, selectedUser.value.id, name, email);
      forall u | u in r ensures NamesValid(users) ==> |u.name| >= 2 {
        var j :| 0 <= j < |r| && r[j] == u;
        assert users[j] in users;
      }
      users := r;
      editDialogOpen := false;
      selectedUser := None;
    }

    method OpenDeleteDialog(user: User)
      modifies this
      ensures users == old(users) && selectedUser == Some(user) && deleteDialogOpen
      ensures editDialogOpen == old(editDialogOpen)
    {
      selectedUser := Some(user);
      deleteDialogOpen := true;
    }

    /** `deleteUser`: the selected user filtered out, tenants untouched; a no-op without one. */
    method DeleteUser()
      modifies this
      ensures users == if old(selectedUser).Some? then UsersWithout(old(users), old(selectedUser).value.id) else old(users)
      ensures if old(selectedUser).Some?
        then selectedUser == None && !deleteDialogOpen
        else selectedUser == old(selectedUser) && deleteDialogOpen == old(deleteDialogOpen)
      ensures editDialogOpen == old(editDialogOpen)
      ensures NamesValid(old(users)) ==> NamesValid(users)
    {
      if selectedUser.None? {
        return;
      }
      users := UsersWithout(users, selectedUser.value.id);
      deleteDialogOpen := false;
      selectedUser := None;
    }
  }
}
