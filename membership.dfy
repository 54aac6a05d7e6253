/**
 * The user–tenant membership invariant: a tenant lists a user exactly when that user
 * lists the tenant, and every listed id belongs to an existing record. It holds for the
 * seed lists; the two slices preserve it only when their paired reducers run together
 * on unique ids, and their deletes do not cascade.
 */
module Membership {
  import opened Models
  import TenantSlice
  import UserSlice

  predicate Consistent(ts: seq<Tenant>, us: seq<User>) {
    && (forall t, u :: t in ts && u in us ==> (u.id in t.userIds <==> t.id in u.tenantIds))
    && (forall t, x :: t in ts && x in t.userIds ==> x in UserIds(us))
    && (forall u, x :: u in us && x in u.tenantIds ==> x in TenantIds(ts))
  }

  predicate UniqueTenantIds(ts: seq<Tenant>) {
    forall i, j :: 0 <= i < j < |ts| ==> ts[i].id != ts[j].id
  }

  predicate UniqueUserIds(us: seq<User>) {
    forall i, j :: 0 <= i < j < |us| ==> us[i].id != us[j].id
  }

  /** The invariant, read position by position. */
  lemma ConsistentFromIndices(ts: seq<Tenant>, us: seq<User>)
    requires forall a, b :: 0 <= a < |ts| && 0 <= b < |us| ==>
      (us[b].id in ts[a].userIds <==> ts[a].id in us[b].tenantIds)
    requires forall a, x :: 0 <= a < |ts| && x in ts[a].userIds ==> x in UserIds(us)
    requires forall b, x :: 0 <= b < |us| && x in us[b].tenantIds ==> x in TenantIds(ts)
    ensures Consistent(ts, us)
  {
    forall t, u | t in ts && u in us ensures u.id in t.userIds <==> t.id in u.tenantIds {
      var a :| 0 <= a < |ts| && ts[a] == t;
      var b :| 0 <= b < |us| && us[b] == u;
    }
    forall t, x | t in ts && x in t.userIds ensures x in UserIds(us) {
      var a :| 0 <= a < |ts| && ts[a] == t;
    }
    forall u, x | u in us && x in u.tenantIds ensures x in TenantIds(ts) {
      var b :| 0 <= b < |us| && us[b] == u;
    }
  }

  /** Position-wise id preservation keeps the id sets. */
  lemma SameIds(ts: seq<Tenant>, ts': seq<Tenant>, us: seq<User>, us': seq<User>)
    requires |ts'| == |ts| && forall j :: 0 <= j < |ts| ==> ts'[j].id == ts[j].id
    requires |us'| == |us| && forall j :: 0 <= j < |us| ==> us'[j].id == us[j].id
    ensures TenantIds(ts') == TenantIds(ts) && UserIds(us') == UserIds(us)
  {
    forall x | x in TenantIds(ts) ensures x in TenantIds(ts') {
      var j :| 0 <= j < |ts| && ts[j].id == x;
      assert ts'[j] in ts';
    }
    forall x | x in TenantIds(ts') ensures x in TenantIds(ts) {
      var j :| 0 <= j < |ts'| && ts'[j].id == x;
      assert ts[j] in ts;
    }
    forall x | x in UserIds(us) ensures x in UserIds(us') {
      var j :| 0 <= j < |us| && us[j].id == x;
      assert us'[j] in us';
    }
    forall x | x in UserIds(us') ensures x in UserIds(us) {
      var j :| 0 <= j < |us'| && us'[j].id == x;
      assert us[j] in us;
    }
  }

  /** The seed tenants and users list each other consistently. */
  lemma SeedConsistent()
    ensures Consistent(SeedTenants, SeedUsers)
  {
    assert UserIds(SeedUsers) == {"1", "2", "3"} by {
      assert SeedUsers[0] in SeedUsers && SeedUsers[1] in SeedUsers && SeedUsers[2] in SeedUsers;
    }
    assert TenantIds(SeedTenants) == {"1", "2", "3"} by {
      assert SeedTenants[0] in SeedTenants && SeedTenants[1] in SeedTenants && SeedTenants[2] in SeedTenants;
    }
    ConsistentFromIndices(SeedTenants, SeedUsers);
  }

  /**
   * The slices' paired reducers `addUserToTenant(t, u)` and `addTenantToUser(u, t)`,
   * applied together to an existing tenant and user, keep the invariant when ids are unique.
   */
  lemma SliceAssignPreservesConsistency(ts: seq<Tenant>, us: seq<User>, tenantId: string, userId: string)
    requires Consistent(ts, us) && UniqueTenantIds(ts) && UniqueUserIds(us)
    requires tenantId in TenantIds(ts) && userId in UserIds(us)
    ensures Consistent(TenantSlice.WithUserAdded(ts, tenantId, userId), UserSlice.WithTenantAdded(us, userId, tenantId))
  {
    var ts', us' := TenantSlice.WithUserAdded(ts, tenantId, userId), UserSlice.WithTenantAdded(us, userId, tenantId);
    var i, k := TenantSlice.IndexOf(ts, tenantId).value, UserSlice.IndexOf(us, userId).value;
    TenantSlice.AddUserEffect(ts, tenantId, userId);
    UserSlice.AddTenantEffect(us, userId, tenantId);
    SameIds(ts, ts', us, us');
    forall a, b | 0 <= a < |ts'| && 0 <= b < |us'|
      ensures us'[b].id in ts'[a].userIds <==> ts'[a].id in us'[b].tenantIds
    {
      assert ts[a] in ts && us[b] in us;
      if a != i { assert ts[a].id != tenantId; }
      if b != k { assert us[b].id != userId; }
    }
    forall a, x | 0 <= a < |ts'| && x in ts'[a].userIds ensures x in UserIds(us') {
      assert ts[a] in ts;
    }
    forall b, x | 0 <= b < |us'| && x in us'[b].tenantIds ensures x in TenantIds(ts') {
      assert us[b] in us;
    }
    ConsistentFromIndices(ts', us');
  }

  /**
   * The slices' paired reducers `removeUserFromTenant(t, u)` and `removeTenantFromUser(u, t)`,
   * applied together, keep the invariant when ids are unique.
   */
  lemma SliceRemovePreservesConsistency(ts: seq<Tenant>, us: seq<User>, tenantId: string, userId: string)
    requires Consistent(ts, us) && UniqueTenantIds(ts) && UniqueUserIds(us)
    ensures Consistent(TenantSlice.WithUserRemoved(ts, tenantId, userId), UserSlice.WithTenantRemoved(us, userId, tenantId))
  {
    var ts', us' := TenantSlice.WithUserRemoved(ts, tenantId, userId), UserSlice.WithTenantRemoved(us, userId, tenantId);
    SameIds(ts, ts', us, us');
    var ti, uk := TenantSlice.IndexOf(ts, tenantId), UserSlice.IndexOf(us, userId);
    if ti.Some? { TenantSlice.RemoveUserEffect(ts, tenantId, userId); }
    if uk.Some? { UserSlice.RemoveTenantEffect(us, userId, tenantId); }
    forall a, b | 0 <= a < |ts'| && 0 <= b < |us'|
      ensures us'[b].id in ts'[a].userIds <==> ts'[a].id in us'[b].tenantIds
    {
      assert ts[a] in ts && us[b] in us;
      if ti.None? || a != ti.value { assert ts'[a] == ts[a]; }
      if ti.Some? && a != ti.value { assert ts[a].id != tenantId; }
      if uk.None? || b != uk.value { assert us'[b] == us[b]; }
      if uk.Some? && b != uk.value { assert us[b].id != userId; }
    }
    forall a, x | 0 <= a < |ts'| && x in ts'[a].userIds ensures x in UserIds(us') {
      assert ts[a] in ts;
    }
    forall b, x | 0 <= b < |us'| && x in us'[b].tenantIds ensures x in TenantIds(ts') {
      assert us[b] in us;
    }
    ConsistentFromIndices(ts', us');
  }

  /** The slice's `deleteTenant` does not cascade: deleting seed tenant "1" leaves users listing it. */
  lemma SliceDeleteTenantDoesNotCascade()
    ensures !Consistent(TenantsWithout(SeedTenants, "1"), SeedUsers)
  {
    assert "1" in SeedUsers[0].tenantIds && SeedUsers[0] in SeedUsers;
  }

  /** `deleteUser` (slice or user page) does not cascade: deleting seed user "1" leaves tenants listing it. */
  lemma DeleteUserDoesNotCascade()
    ensures !Consistent(SeedTenants, UsersWithout(SeedUsers, "1"))
  {
    assert "1" in SeedTenants[0].userIds && SeedTenants[0] in SeedTenants;
  }
}
