/**
 * The tenant page. It keeps its own `tenants` and `users` lists and updates both sides
 * of a membership in one handler: assign, remove, and a tenant delete that cascades
 * into every user. The pure functions give the lists each handler leaves; the lemmas
 * prove that they keep the membership invariant; the class is the page's state.
 */
module TenantManagement {
  import opened Wrappers
  import opened Seqs
  import opened Models
  import opened Membership

  datatype Directory = Directory(tenants: seq<Tenant>, users: seq<User>)

  /** The tenant form's schema: a name of at least 2 characters. */
  predicate NameAccepted(name: string) {
    |name| >= 2
  }

  /**
   * The assign form's schema as written, `z.string()`: every string passes, the empty
   * string the form is reset to included.
   */
  predicate AssignFormAcceptedAsWritten(userId: string) {
    true
  }

  /** The assign form's schema as evidently intended: a user must have been selected. */
  predicate AssignFormAccepted(userId: string) {
    userId != ""
  }

  /** The directory after `onCreateSubmit`: one tenant appended, with no users. */
  function CreateTenant(d: Directory, name: string, id: string): (r: Directory)
    ensures r.users == d.users && |r.tenants| == |d.tenants| + 1
    ensures r.tenants[..|d.tenants|] == d.tenants && r.tenants[|d.tenants|] == Tenant(id, name, [])
  {
    d.(tenants := d.tenants + [Tenant(id, name, [])])
  }

  /** The directory after `onEditSubmit`: every tenant with the selected id gets the new name. */
  function RenameTenant(d: Directory, id: string, name: string): (r: Directory)
    ensures r.users == d.users && |r.tenants| == |d.tenants|
    ensures forall j :: 0 <= j < |d.tenants| ==>
      r.tenants[j].id == d.tenants[j].id && r.tenants[j].userIds == d.tenants[j].userIds
    ensures forall j :: 0 <= j < |d.tenants| && d.tenants[j].id == id ==> r.tenants[j].name == name
    ensures forall j :: 0 <= j < |d.tenants| && d.tenants[j].id != id ==> r.tenants[j] == d.tenants[j]
  {
    d.(tenants := seq(|d.tenants|, j requires 0 <= j < |d.tenants| =>
      if d.tenants[j].id == id then d.tenants[j].(name := name) else d.tenants[j]))
  }

  /** The directory after `deleteTenant`: the tenant gone, and its id gone from every user. */
  function DeleteTenantCascade(d: Directory, id: string): (r: Directory)
    ensures r.tenants == TenantsWithout(d.tenants, id)
    ensures |r.users| == |d.users|
    ensures forall j :: 0 <= j < |d.users| ==>
      && r.users[j].id == d.users[j].id
      && r.users[j].name == d.users[j].name
      && r.users[j].email == d.users[j].email
      && id !in r.users[j].tenantIds
      && (forall x :: x != id ==> (x in r.users[j].tenantIds <==> x in d.users[j].tenantIds))
  {
    Directory(
      TenantsWithout(d.tenants, id),
      seq(|d.users|, j requires 0 <= j < |d.users| =>
        d.users[j].(tenantIds := Without(d.users[j].tenantIds, id))))
  }

  datatype AssignResult = AlreadyAssigned | Assigned(directory: Directory)

  /**
   * `onAssignUserSubmit` against the `selected` snapshot taken when the dialog opened:
   * rejected when the snapshot already lists the user; otherwise every tenant with the
   * selected id gets the user appended and every user with that id gets the tenant appended.
   */
  function AssignUser(d: Directory, selected: Tenant, userId: string): (r: AssignResult)
    ensures r.AlreadyAssigned? <==> userId in selected.userIds
    ensures r.Assigned? ==> |r.directory.tenants| == |d.tenants| && |r.directory.users| == |d.users|
    ensures r.Assigned? ==> forall j :: 0 <= j < |d.tenants| ==>
      var t, t' := d.tenants[j], r.directory.tenants[j];
      t'.id == t.id && t'.name == t.name &&
      t'.userIds == if t.id == selected.id then t.userIds + [userId] else t.userIds
    ensures r.Assigned? ==> forall j :: 0 <= j < |d.users| ==>
      var u, u' := d.users[j], r.directory.users[j];
      u'.id == u.id && u'.name == u.name && u'.email == u.email &&
      u'.tenantIds == if u.id == userId then u.tenantIds + [selected.id] else u.tenantIds
  {
    if userId in selected.userIds then AlreadyAssigned
    else Assigned(Directory(
      seq(|d.tenants|, j requires 0 <= j < |d.tenants| =>
        var t := d.tenants[j];
        if t.id == selected.id then t.(userIds := t.userIds + [userId]) else t),
      seq(|d.users|, j requires 0 <= j < |d.users| =>
        var u := d.users[j];
        if u.id == userId then u.(tenantIds := u.tenantIds + [selected.id]) else u)))
  }

  /** `removeUserFromTenant`: the directory with the membership dropped on both sides. */
  function RemoveUser(d: Directory, tenantId: string, userId: string): (r: Directory)
    ensures |r.tenants| == |d.tenants| && |r.users| == |d.users|
  {
    Directory(
      seq(|d.tenants|, j requires 0 <= j < |d.tenants| =>
        var t := d.tenants[j];
        if t.id == tenantId then t.(userIds := Without(t.userIds, userId)) else t),
      seq(|d.users|, j requires 0 <= j < |d.users| =>
        var u := d.users[j];
        if u.id == userId then u.(tenantIds := Without(u.tenantIds, tenantId)) else u))
  }

  /**
   * What `RemoveUser` changes: every occurrence of the membership is removed on both
   * sides, and every id, name, email and other membership is kept.
   */
  lemma RemoveUserEffect(d: Directory, tenantId: string, userId: string)
    ensures var r := RemoveUser(d, tenantId, userId);
      forall j :: 0 <= j < |d.tenants| ==>
        var t, t' := d.tenants[j], r.tenants[j];
        t'.id == t.id && t'.name == t.name &&
        (t.id == tenantId ==> userId !in t'.userIds) &&
        forall x :: x != userId || t.id != tenantId ==> (x in t'.userIds <==> x in t.userIds)
    ensures var r := RemoveUser(d, tenantId, userId);
      forall j :: 0 <= j < |d.users| ==>
        var u, u' := d.users[j], r.users[j];
        u'.id == u.id && u'.name == u.name && u'.email == u.email &&
        (u.id == userId ==> tenantId !in u'.tenantIds) &&
        forall x :: x != tenantId || u.id != userId ==> (x in u'.tenantIds <==> x in u.tenantIds)
  {
  }

  function NotMemberOf(t: Tenant): User -> bool {
    (u: User) => u.id !in t.userIds
  }

  /** `getAvailableUsers(tenant)`: the users the tenant does not list, each as often as in `users`. */
  function AvailableUsers(users: seq<User>, t: Tenant): (r: seq<User>)
    ensures forall u :: u in r <==> u in users && u.id !in t.userIds
    ensures forall u :: multiset(r)[u] == if u.id in t.userIds then 0 else multiset(users)[u]
  {
    FilterContents(users, NotMemberOf(t));
    Filter(users, NotMemberOf(t))
  }

  /** getAvailableUsers keeps the original order: it distributes over concatenation. */
  lemma AvailableUsersKeepsOrder(a: seq<User>, b: seq<User>, t: Tenant)
    ensures AvailableUsers(a + b, t) == AvailableUsers(a, t) + AvailableUsers(b, t)
  {
    FilterAppend(a, b, NotMemberOf(t));
  }

  /** Every user the assign dialog offers is a user of the page. */
  lemma OfferedUserExists(users: seq<User>, t: Tenant, userId: string)
    requires userId in UserIds(AvailableUsers(users, t))
    ensures userId in UserIds(users) && userId !in t.userIds
  {
    var u :| u in AvailableUsers(users, t) && u.id == userId;
  }

  /** Creating a tenant under an id no tenant has keeps the invariant. */
  lemma CreateKeepsConsistency(d: Directory, name: string, id: string)
    requires Consistent(d.tenants, d.users) && id !in TenantIds(d.tenants)
    ensures Consistent(CreateTenant(d, name, id).tenants, CreateTenant(d, name, id).users)
  {
    var r := CreateTenant(d, name, id);
    assert TenantIds(r.tenants) == TenantIds(d.tenants) + {id} by {
      forall x | x in TenantIds(r.tenants) ensures x in TenantIds(d.tenants) + {id} {
        var t :| t in r.tenants && t.id == x;
        if t != Tenant(id, name, []) { assert t in d.tenants; }
      }
      forall x | x in TenantIds(d.tenants) ensures x in TenantIds(r.tenants) {
        var t :| t in d.tenants && t.id == x;
        assert t in r.tenants;
      }
      assert r.tenants[|d.tenants|] in r.tenants;
    }
    forall t, u | t in r.tenants && u in r.users
      ensures u.id in t.userIds <==> t.id in u.tenantIds
    {
      if t == Tenant(id, name, []) {
        assert id !in u.tenantIds;
      } else {
        assert t in d.tenants;
      }
    }
  }

  /** Renaming keeps the invariant. */
  lemma RenameKeepsConsistency(d: Directory, id: string, name: string)
    requires Consistent(d.tenants, d.users)
    ensures Consistent(RenameTenant(d, id, name).tenants, RenameTenant(d, id, name).users)
  {
    var r := RenameTenant(d, id, name);
    SameIds(d.tenants, r.tenants, d.users, r.users);
    forall a, b | 0 <= a < |r.tenants| && 0 <= b < |r.users|
      ensures r.users[b].id in r.tenants[a].userIds <==> r.tenants[a].id in r.users[b].tenantIds
    {
      assert d.tenants[a] in d.tenants && d.users[b] in d.users;
    }
    forall a, x | 0 <= a < |r.tenants| && x in r.tenants[a].userIds ensures x in UserIds(r.users) {
      assert d.tenants[a] in d.tenants;
    }
    forall b, x | 0 <= b < |r.users| && x in r.users[b].tenantIds ensures x in TenantIds(r.tenants) {
      assert d.users[b] in d.users;
    }
    ConsistentFromIndices(r.tenants, r.users);
  }

  /** The cascading delete keeps the invariant, and afterwards no user lists the deleted id. */
  lemma DeleteKeepsConsistency(d: Directory, id: string)
    requires Consistent(d.tenants, d.users)
    ensures var r := DeleteTenantCascade(d, id);
      Consistent(r.tenants, r.users) && forall u :: u in r.users ==> id !in u.tenantIds
  {
    var r := DeleteTenantCascade(d, id);
    DeleteKeepsLinks(d, id);
    DeleteKeepsUserRefs(d, id);
    DeleteKeepsTenantRefs(d, id);
    ConsistentFromIndices(r.tenants, r.users);
    forall u | u in r.users ensures id !in u.tenantIds {
      var b :| 0 <= b < |r.users| && r.users[b] == u;
    }
  }

  lemma DeleteKeepsLinks(d: Directory, id: string)
    requires Consistent(d.tenants, d.users)
    ensures var r := DeleteTenantCascade(d, id);
      forall a, b :: 0 <= a < |r.tenants| && 0 <= b < |r.users| ==>
        (r.users[b].id in r.tenants[a].userIds <==> r.tenants[a].id in r.users[b].tenantIds)
  {
    var r := DeleteTenantCascade(d, id);
    forall a, b | 0 <= a < |r.tenants| && 0 <= b < |r.users|
      ensures r.users[b].id in r.tenants[a].userIds <==> r.tenants[a].id in r.users[b].tenantIds
    {
      var t := r.tenants[a];
      assert t in r.tenants;
      assert t in d.tenants && t.id != id;
      assert d.users[b] in d.users;
    }
  }

  lemma DeleteKeepsUserRefs(d: Directory, id: string)
    requires Consistent(d.tenants, d.users)
    ensures var r := DeleteTenantCascade(d, id);
      forall a, x :: 0 <= a < |r.tenants| && x in r.tenants[a].userIds ==> x in UserIds(r.users)
  {
    var r := DeleteTenantCascade(d, id);
    SameIds(d.tenants, d.tenants, d.users, r.users);
    forall a, x | 0 <= a < |r.tenants| && x in r.tenants[a].userIds ensures x in UserIds(r.users) {
      assert r.tenants[a] in r.tenants;
    }
  }

  lemma DeleteKeepsTenantRefs(d: Directory, id: string)
    requires Consistent(d.tenants, d.users)
    ensures var r := DeleteTenantCascade(d, id);
      forall b, x :: 0 <= b < |r.users| && x in r.users[b].tenantIds ==> x in TenantIds(r.tenants)
  {
    var r := DeleteTenantCascade(d, id);
    forall b, x | 0 <= b < |r.users| && x in r.users[b].tenantIds ensures x in TenantIds(r.tenants) {
      assert x != id;
      assert x in d.users[b].tenantIds;
      assert d.users[b] in d.users;
      assert x in TenantIds(d.tenants);
      var t :| t in d.tenants && t.id == x;
      assert t in TenantsWithout(d.tenants, id);
    }
  }

  /**
   * An accepted assignment of an existing user to an existing tenant keeps the invariant,
   * whether or not the snapshot is stale: the check on the snapshot is not what keeps it.
   */
  lemma AssignKeepsConsistency(d: Directory, selected: Tenant, userId: string)
    requires Consistent(d.tenants, d.users)
    requires selected.id in TenantIds(d.tenants) && userId in UserIds(d.users)
    ensures var r := AssignUser(d, selected, userId);
      r.Assigned? ==>
        Consistent(r.directory.tenants, r.directory.users) && TenantIds(r.directory.tenants) == TenantIds(d.tenants)
  {
    if AssignUser(d, selected, userId).Assigned? {
      var r := AssignUser(d, selected, userId).directory;
      SameIds(d.tenants, r.tenants, d.users, r.users);
      AssignKeepsLinks(d, selected, userId);
      AssignKeepsRefs(d, selected, userId);
      ConsistentFromIndices(r.tenants, r.users);
    }
  }

  /** After an accepted assignment, every tenant and user still agree on membership. */
  lemma AssignKeepsLinks(d: Directory, selected: Tenant, userId: string)
    requires Consistent(d.tenants, d.users)
    requires AssignUser(d, selected, userId).Assigned?
    ensures var r := AssignUser(d, selected, userId).directory;
      forall a, b :: 0 <= a < |r.tenants| && 0 <= b < |r.users| ==>
        (r.users[b].id in r.tenants[a].userIds <==> r.tenants[a].id in r.users[b].tenantIds)
  {
    var r := AssignUser(d, selected, userId).directory;
    forall a, b | 0 <= a < |r.tenants| && 0 <= b < |r.users|
      ensures r.users[b].id in r.tenants[a].userIds <==> r.tenants[a].id in r.users[b].tenantIds
    {
      assert d.tenants[a] in d.tenants && d.users[b] in d.users;
    }
  }

  /** After an accepted assignment of existing ids, every listed id still exists. */
  lemma AssignKeepsRefs(d: Directory, selected: Tenant, userId: string)
    requires Consistent(d.tenants, d.users)
    requires selected.id in TenantIds(d.tenants) && userId in UserIds(d.users)
    requires AssignUser(d, selected, userId).Assigned?
    ensures var r := AssignUser(d, selected, userId).directory;
      && (forall a, x :: 0 <= a < |r.tenants| && x in r.tenants[a].userIds ==> x in UserIds(r.users))
      && (forall b, x :: 0 <= b < |r.users| && x in r.users[b].tenantIds ==> x in TenantIds(r.tenants))
  {
    var r := AssignUser(d, selected, userId).directory;
    SameIds(d.tenants, r.tenants, d.users, r.users);
    forall a, x | 0 <= a < |r.tenants| && x in r.tenants[a].userIds ensures x in UserIds(r.users) {
      assert d.tenants[a] in d.tenants;
    }
    forall b, x | 0 <= b < |r.users| && x in r.users[b].tenantIds ensures x in TenantIds(r.tenants) {
      assert d.users[b] in d.users;
    }
  }

  /** After an accepted assignment, a fresh snapshot of that tenant rejects the same user. */
  lemma AssignTwiceRejected(d: Directory, selected: Tenant, userId: string, later: Tenant)
    requires AssignUser(d, selected, userId).Assigned?
    requires later in AssignUser(d, selected, userId).directory.tenants && later.id == selected.id
    ensures AssignUser(AssignUser(d, selected, userId).directory, later, userId) == AlreadyAssigned
  {
  }

  /** Removing a membership keeps the invariant. */
  lemma RemoveKeepsConsistency(d: Directory, tenantId: string, userId: string)
    requires Consistent(d.tenants, d.users)
    ensures var r := RemoveUser(d, tenantId, userId);
      Consistent(r.tenants, r.users) && TenantIds(r.tenants) == TenantIds(d.tenants)
  {
    var r := RemoveUser(d, tenantId, userId);
    RemoveUserEffect(d, tenantId, userId);
    SameIds(d.tenants, r.tenants, d.users, r.users);
    forall a, b | 0 <= a < |r.tenants| && 0 <= b < |r.users|
      ensures r.users[b].id in r.tenants[a].userIds <==> r.tenants[a].id in r.users[b].tenantIds
    {
      assert d.tenants[a] in d.tenants && d.users[b] in d.users;
    }
    forall a, x | 0 <= a < |r.tenants| && x in r.tenants[a].userIds ensures x in UserIds(r.users) {
      assert d.tenants[a] in d.tenants;
    }
    forall b, x | 0 <= b < |r.users| && x in r.users[b].tenantIds ensures x in TenantIds(r.tenants) {
      assert d.users[b] in d.users;
    }
    ConsistentFromIndices(r.tenants, r.users);
  }

  /** After removing a user from a tenant, that user is offered for the tenant again. */
  lemma RemovedUserAvailableAgain(d: Directory, tenantId: string, userId: string, t: Tenant, u: User)
    requires t in RemoveUser(d, tenantId, userId).tenants && t.id == tenantId
    requires u in RemoveUser(d, tenantId, userId).users && u.id == userId
    ensures u in AvailableUsers(RemoveUser(d, tenantId, userId).users, t)
  {
    var r := RemoveUser(d, tenantId, userId);
    var a :| 0 <= a < |r.tenants| && r.tenants[a] == t;
  }

  /**
   * With the schema as written, submitting the dialog without choosing a user assigns
   * the empty id: seed tenant "1" then lists a user that does not exist.
   */
  lemma EmptySelectionBreaksConsistency()
    ensures AssignFormAcceptedAsWritten("")
    ensures var d := Directory(SeedTenants, SeedUsers);
      AssignUser(d, SeedTenants[0], "").Assigned? &&
      !Consistent(AssignUser(d, SeedTenants[0], "").directory.tenants, AssignUser(d, SeedTenants[0], "").directory.users)
  {
    var r := AssignUser(Directory(SeedTenants, SeedUsers), SeedTenants[0], "").directory;
    assert r.tenants[0] in r.tenants && "" in r.tenants[0].userIds;
    assert "" !in UserIds(r.users) by {
      assert r.users == SeedUsers;
    }
  }

  /**
   * With the intended schema, which turns away an empty selection, every submission of
   * one of the users on offer keeps the invariant.
   */
  lemma AcceptedSelectionKeepsConsistency(d: Directory, selected: Tenant, userId: string)
    requires Consistent(d.tenants, d.users) && selected.id in TenantIds(d.tenants)
    requires AssignFormAccepted(userId) && userId in UserIds(AvailableUsers(d.users, selected))
    ensures var r := AssignUser(d, selected, userId);
      r.Assigned? ==>
        Consistent(r.directory.tenants, r.directory.users) && TenantIds(r.directory.tenants) == TenantIds(d.tenants)
  {
    OfferedUserExists(d.users, selected, userId);
    AssignKeepsConsistency(d, selected, userId);
  }

  datatype AssignOutcome = NoTenantSelected | Rejected | Accepted

  /** Which of the page's four dialogs are open. */
  datatype Dialogs = Dialogs(edit: bool, delete: bool, assignUser: bool, removeUser: bool)

  class TenantManagementPage {
    var tenants: seq<Tenant>
    var users: seq<User>
    var selectedTenant: Option<Tenant>
    var selectedUser: Option<User>
    var editDialogOpen: bool
    var deleteDialogOpen: bool
    var assignUserDialogOpen: bool
    var removeUserDialogOpen: bool

    /** The membership invariant, and a selected tenant still present in the list. */
    ghost predicate Valid()
      reads this
    {
      && Consistent(tenants, users)
      && (selectedTenant.Some? ==> selectedTenant.value.id in TenantIds(tenants))
    }

    function Snapshot(): Directory
      reads this
    {
      Directory(tenants, users)
    }

    function OpenDialogs(): Dialogs
      reads this
    {
      Dialogs(editDialogOpen, deleteDialogOpen, assignUserDialogOpen, removeUserDialogOpen)
    }

    constructor ()
      ensures Valid()
      ensures tenants == SeedTenants && users == SeedUsers
      ensures selectedTenant == None && selectedUser == None
      ensures !editDialogOpen && !deleteDialogOpen && !assignUserDialogOpen && !removeUserDialogOpen
    {
      tenants, users := SeedTenants, SeedUsers;
      selectedTenant, selectedUser := None, None;
      editDialogOpen, deleteDialogOpen := false, false;
      assignUserDialogOpen, removeUserDialogOpen := false, false;
      SeedConsistent();
    }

    /** `onCreateSubmit`, behind the form's validation; `newId` is the caller's `Date.now()`. */
    method OnCreateSubmit(name: string, newId: string) returns (accepted: bool)
      modifies this
      ensures accepted == NameAccepted(name)
      ensures Snapshot() == if accepted then CreateTenant(old(Snapshot()), name, newId) else old(Snapshot())
      ensures selectedTenant == old(selectedTenant) && selectedUser == old(selectedUser)
      ensures OpenDialogs() == old(OpenDialogs())
      ensures old(Valid()) && newId !in old(TenantIds(tenants)) ==> Valid()
    {
      accepted := NameAccepted(name);
      if accepted {
        var d := Snapshot();
        if Valid() && newId !in TenantIds(tenants) {
          CreateKeepsConsistency(d, name, newId);
        }
        tenants := tenants + [Tenant(newId, name, [])];
        assert TenantIds(old(tenants)) <= TenantIds(tenants) by {
          forall x | x in TenantIds(old(tenants)) ensures x in TenantIds(tenants) {
            var t :| t in old(tenants) && t.id == x;
            assert t in tenants;
          }
        }
      }
    }

    method OpenEditDialog(tenant: Tenant)
      requires tenant in tenants
      modifies this
      ensures (old(Valid()) ==> Valid()) && Snapshot() == old(Snapshot())
      ensures selectedTenant == Some(tenant) && selectedUser == old(selectedUser)
      ensures OpenDialogs() == old(OpenDialogs()).(edit := true)
    {
      selectedTenant := Some(tenant);
      editDialogOpen := true;
    }

    /** `onEditSubmit`, behind the form's validation; a no-op without a selected tenant. */
    method OnEditSubmit(name: string) returns (accepted: bool)
      modifies this
      ensures old(Valid()) ==> Valid()
      ensures accepted == NameAccepted(name)
      ensures Snapshot() == if accepted && old(selectedTenant).Some?
        then RenameTenant(old(Snapshot()), old(selectedTenant).value.id, name) else old(Snapshot())
      ensures if accepted && old(selectedTenant).Some?
        then selectedTenant == None && OpenDialogs() == old(OpenDialogs()).(edit := false)
        else selectedTenant == old(selectedTenant) && OpenDialogs() == old(OpenDialogs())
      ensures selectedUser == old(selectedUser)
    {
      accepted := NameAccepted(name);
      if !accepted || selectedTenant.None? {
        return;
      }
      var d := Snapshot();
      if Valid() {
        RenameKeepsConsistency(d, selectedTenant.value.id, name);
      }
      tenants := RenameTenant(d, selectedTenant.value.id, name).tenants;
      editDialogOpen := false;
      selectedTenant := None;
    }

    method OpenDeleteDialog(tenant: Tenant)
      requires tenant in tenants
      modifies this
      ensures (old(Valid()) ==> Valid()) && Snapshot() == old(Snapshot())
      ensures selectedTenant == Some(tenant) && selectedUser == old(selectedUser)
      ensures OpenDialogs() == old(OpenDialogs()).(delete := true)
    {
      selectedTenant := Some(tenant);
      deleteDialogOpen := true;
    }

    /** `deleteTenant`: the cascading delete of the selected tenant; a no-op without one. */
    method DeleteTenant()
      modifies this
      ensures old(Valid()) ==> Valid()
      ensures Snapshot() == if old(selectedTenant).Some?
        then DeleteTenantCascade(old(Snapshot()), old(selectedTenant).value.id) else old(Snapshot())
      ensures if old(selectedTenant).Some?
        then selectedTenant == None && OpenDialogs() == old(OpenDialogs()).(delete := false)
        else selectedTenant == old(selectedTenant) && OpenDialogs() == old(OpenDialogs())
      ensures selectedUser == old(selectedUser)
    {
      if selectedTenant.None? {
        return;
      }
      var d := Snapshot();
      if Valid() {
        DeleteKeepsConsistency(d, selectedTenant.value.id);
      }
      var r := DeleteTenantCascade(d, selectedTenant.value.id);
      users := r.users;
      tenants := r.tenants;
      deleteDialogOpen := false;
      selectedTenant := None;
    }

    method OpenAssignUserDialog(tenant: Tenant)
      requires tenant in tenants
      modifies this
      ensures (old(Valid()) ==> Valid()) && Snapshot() == old(Snapshot())
      ensures selectedTenant == Some(tenant) && selectedUser == old(selectedUser)
      ensures OpenDialogs() == old(OpenDialogs()).(assignUser := true)
    {
      selectedTenant := Some(tenant);
      assignUserDialogOpen := true;
    }

    /**
     * `onAssignUserSubmit` as written. Its schema, `z.string()`, accepts every string, so
     * the handler runs for whatever the dialog's select holds: nothing chosen (the form's
     * reset value "") or one of the page's users (the options it offers are drawn from
     * `users`, see `OfferedUserExists`). The page stays consistent when a user was chosen;
     * `EmptySelectionBreaksConsistency` shows what an empty selection does.
     */
    method OnAssignUserSubmit(userId: string) returns (outcome: AssignOutcome)
      requires userId == "" || userId in UserIds(users)
      modifies this
      ensures old(Valid()) && AssignFormAccepted(userId) ==> Valid()
      ensures outcome == NoTenantSelected <==> old(selectedTenant).None?
      ensures outcome == Rejected <==>
        old(selectedTenant).Some? && AssignUser(old(Snapshot()), old(selectedTenant).value, userId).AlreadyAssigned?
      ensures outcome == Accepted ==> Snapshot() == AssignUser(old(Snapshot()), old(selectedTenant).value, userId).directory
      ensures outcome != Accepted ==> Snapshot() == old(Snapshot())
      ensures OpenDialogs() == if outcome == Accepted then old(OpenDialogs()).(assignUser := false) else old(OpenDialogs())
      ensures selectedTenant == old(selectedTenant) && selectedUser == old(selectedUser)
    {
      if selectedTenant.None? {
        return NoTenantSelected;
      }
      var d := Snapshot();
      var selected := selectedTenant.value;
      var res := AssignUser(d, selected, userId);
      if res.AlreadyAssigned? {
        return Rejected;
      }
      if Valid() && AssignFormAccepted(userId) {
        AssignKeepsConsistency(d, selected, userId);
      }
      tenants := res.directory.tenants;
      users := res.directory.users;
      assignUserDialogOpen := false;
      outcome := Accepted;
    }

    method OpenRemoveUserDialog(tenant: Tenant, user: User)
      requires tenant in tenants && user in users
      modifies this
      ensures (old(Valid()) ==> Valid()) && Snapshot() == old(Snapshot())
      ensures selectedTenant == Some(tenant) && selectedUser == Some(user)
      ensures OpenDialogs() == old(OpenDialogs()).(removeUser := true)
    {
      selectedTenant := Some(tenant);
      selectedUser := Some(user);
      removeUserDialogOpen := true;
    }

    /** `removeUserFromTenant`: both sides at once; a no-op unless a tenant and a user are selected. */
    method RemoveUserFromTenant()
      modifies this
      ensures old(Valid()) ==> Valid()
      ensures Snapshot() == if old(selectedTenant).Some? && old(selectedUser).Some?
        then RemoveUser(old(Snapshot()), old(selectedTenant).value.id, old(selectedUser).value.id)
        else old(Snapshot())
      ensures selectedTenant == old(selectedTenant)
      ensures if old(selectedTenant).Some? && old(selectedUser).Some?
        then selectedUser == None && OpenDialogs() == old(OpenDialogs()).(removeUser := false)
        else selectedUser == old(selectedUser) && OpenDialogs() == old(OpenDialogs())
    {
      if selectedTenant.None? || selectedUser.None? {
        return;
      }
      var d := Snapshot();
      var tenantId, userId := selectedTenant.value.id, selectedUser.value.id;
      var r := RemoveUser(d, tenantId, userId);
      if Valid() {
        RemoveKeepsConsistency(d, tenantId, userId);
      }
      tenants, users := r.tenants, r.users;
      removeUserDialogOpen := false;
      selectedUser := None;
    }
  }
}
