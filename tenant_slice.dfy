/**
 * The `tenants` store slice: a tenant list and a loading flag, changed in place by
 * six reducers. Each reducer is a method of `TenantState`; the value each one leaves
 * in `tenants` is given by a function of the old list, and the lemmas below state what
 * those functions promise: the first match only, no-op on a missing tenant, no
 * duplicate members, idempotent add, remove undoing add.
 */
module TenantSlice {
  import opened Wrappers
  import opened Seqs
  import opened Models

  /** `tenants.findIndex((tenant) => tenant.id === id)`, with None for `-1`. */
  function IndexOf(ts: seq<Tenant>, id: string): (r: Option<nat>)
    ensures r.Some? ==> r.value < |ts| && ts[r.value].id == id
    ensures r.Some? ==> forall j :: 0 <= j < r.value ==> ts[j].id != id
    ensures r.None? <==> id !in TenantIds(ts)
  {
    var r := FirstIndex(ts, (t: Tenant) => t.id == id);
    if r.Some? then assert ts[r.value] in ts; r else r
  }

  /** The list `updateTenant(payload)` leaves: the first tenant with the payload's id replaced. */
  function Updated(ts: seq<Tenant>, payload: Tenant): (r: seq<Tenant>)
    ensures |r| == |ts|
    ensures payload.id !in TenantIds(ts) ==> r == ts
    ensures payload.id in TenantIds(ts) ==> payload in r
    ensures forall t :: t in r ==> t in ts || t == payload
  {
    match IndexOf(ts, payload.id)
    case None => ts
    case Some(i) => var r := ts[i := payload]; assert r[i] == payload; r
  }

  /** The list `addUserToTenant(tenantId, userId)` leaves. */
  function WithUserAdded(ts: seq<Tenant>, tenantId: string, userId: string): (r: seq<Tenant>)
    ensures |r| == |ts|
    ensures forall j :: 0 <= j < |ts| ==> r[j].id == ts[j].id && r[j].name == ts[j].name
    ensures tenantId !in TenantIds(ts) ==> r == ts
  {
    match IndexOf(ts, tenantId)
    case None => ts
    case Some(i) =>
      if userId in ts[i].userIds then ts
      else ts[i := ts[i].(userIds := ts[i].userIds + [userId])]
  }

  /** The list `removeUserFromTenant(tenantId, userId)` leaves. */
  function WithUserRemoved(ts: seq<Tenant>, tenantId: string, userId: string): (r: seq<Tenant>)
    ensures |r| == |ts|
    ensures forall j :: 0 <= j < |ts| ==> r[j].id == ts[j].id && r[j].name == ts[j].name
    ensures tenantId !in TenantIds(ts) ==> r == ts
  {
    match IndexOf(ts, tenantId)
    case None => ts
    case Some(i) => ts[i := ts[i].(userIds := Without(ts[i].userIds, userId))]
  }

  /** Every tenant's member list is duplicate-free. */
  predicate MembersDistinct(ts: seq<Tenant>) {
    forall j :: 0 <= j < |ts| ==> NoDuplicates(ts[j].userIds)
  }

  /** updateTenant replaces exactly the first tenant with the payload's id. */
  lemma UpdateReplacesFirstMatch(ts: seq<Tenant>, payload: Tenant, i: nat)
    requires i < |ts| && ts[i].id == payload.id
    requires forall j :: 0 <= j < i ==> ts[j].id != payload.id
    ensures Updated(ts, payload) == ts[i := payload]
  {
    var k := IndexOf(ts, payload.id);
    assert ts[i] in ts;
    assert ts[k.value].id == payload.id;
    assert k.value == i;
  }

  /**
   * addUserToTenant on an existing tenant: afterwards that tenant lists the user, the
   * user appears once more than before exactly when it was not listed, and every other
   * tenant is untouched.
   */
  lemma AddUserEffect(ts: seq<Tenant>, tenantId: string, userId: string)
    requires tenantId in TenantIds(ts)
    ensures var i := IndexOf(ts, tenantId).value;
      var r := WithUserAdded(ts, tenantId, userId);
      && userId in r[i].userIds
      && (userId in ts[i].userIds ==> r == ts)
      && (userId !in ts[i].userIds ==> r[i].userIds == ts[i].userIds + [userId])
      && forall j :: 0 <= j < |ts| && j != i ==> r[j] == ts[j]
  {
  }

  /** addUserToTenant never creates a duplicate member. */
  lemma AddUserKeepsMembersDistinct(ts: seq<Tenant>, tenantId: string, userId: string)
    requires MembersDistinct(ts)
    ensures MembersDistinct(WithUserAdded(ts, tenantId, userId))
  {
    var r := WithUserAdded(ts, tenantId, userId);
    var k := IndexOf(ts, tenantId);
    if k.Some? && userId !in ts[k.value].userIds {
      var s := ts[k.value].userIds;
      assert r[k.value].userIds == s + [userId];
      forall a, b | 0 <= a < b < |s + [userId]| ensures (s + [userId])[a] != (s + [userId])[b] {
        if b == |s| { assert (s + [userId])[a] == s[a] && s[a] in s; }
      }
    }
  }

  /** Adding the same member twice is the same as adding it once. */
  lemma AddUserIdempotent(ts: seq<Tenant>, tenantId: string, userId: string)
    ensures WithUserAdded(WithUserAdded(ts, tenantId, userId), tenantId, userId)
         == WithUserAdded(ts, tenantId, userId)
  {
    var r := WithUserAdded(ts, tenantId, userId);
    var k := IndexOf(ts, tenantId);
    if k.Some? {
      IndexOfAgrees(ts, r, tenantId);
      assert userId in r[k.value].userIds;
    }
  }

  /** removeUserFromTenant leaves the first matching tenant without any occurrence of the user, and every other tenant untouched. */
  lemma RemoveUserEffect(ts: seq<Tenant>, tenantId: string, userId: string)
    requires tenantId in TenantIds(ts)
    ensures var i := IndexOf(ts, tenantId).value;
      var r := WithUserRemoved(ts, tenantId, userId);
      && userId !in r[i].userIds
      && (forall x :: x != userId ==> (x in r[i].userIds <==> x in ts[i].userIds))
      && forall j :: 0 <= j < |ts| && j != i ==> r[j] == ts[j]
  {
  }

  /** Removing a member that was just added (and was not there before) restores the list. */
  lemma RemoveUndoesAdd(ts: seq<Tenant>, tenantId: string, userId: string)
    requires tenantId in TenantIds(ts)
    requires userId !in ts[IndexOf(ts, tenantId).value].userIds
    ensures WithUserRemoved(WithUserAdded(ts, tenantId, userId), tenantId, userId) == ts
  {
    var i := IndexOf(ts, tenantId).value;
    var r := WithUserAdded(ts, tenantId, userId);
    IndexOfAgrees(ts, r, tenantId);
    var s := ts[i].userIds;
    WithoutAppend(s, [userId], userId);
    assert Without([userId], userId) == [];
    assert Without(s + [userId], userId) == s;
    assert r[i := r[i].(userIds := s)] == ts;
  }

  /** Two lists with the same ids position by position find the same index. */
  lemma IndexOfAgrees(ts: seq<Tenant>, r: seq<Tenant>, id: string)
    requires |r| == |ts| && forall j :: 0 <= j < |ts| ==> r[j].id == ts[j].id
    ensures IndexOf(r, id) == IndexOf(ts, id)
  {
    assert forall j :: 0 <= j < |ts| ==> (ts[j].id == id <==> r[j].id == id);
    assert id in TenantIds(ts) <==> id in TenantIds(r) by {
      if id in TenantIds(ts) {
        var j :| 0 <= j < |ts| && ts[j].id == id;
        assert r[j] in r;
      }
      if id in TenantIds(r) {
        var j :| 0 <= j < |r| && r[j].id == id;
        assert ts[j] in ts;
      }
    }
  }

  class TenantState {
    var tenants: seq<Tenant>
    var loading: bool

    constructor ()
      ensures tenants == SeedTenants && !loading
    {
      tenants := SeedTenants;
      loading := false;
    }

    method SetLoading(value: bool)
      modifies this
      ensures loading == value && tenants == old(tenants)
    {
      loading := value;
    }

    method AddTenant(payload: Tenant)
      modifies this
      ensures tenants == old(tenants) + [payload] && loading == old(loading)
    {
      tenants := tenants + [payload];
    }

    method UpdateTenant(payload: Tenant)
      modifies this
      ensures tenants == Updated(old(tenants), payload) && loading == old(loading)
    {
      var index := IndexOf(tenants, payload.id);
      if index.Some? {
        tenants := tenants[index.value := payload];
      }
    }

    method DeleteTenant(id: string)
      modifies this
      ensures tenants == TenantsWithout(old(tenants), id) && loading == old(loading)
    {
      tenants := TenantsWithout(tenants, id);
    }

    method AddUserToTenant(tenantId: string, userId: string)
      modifies this
      ensures tenants == WithUserAdded(old(tenants), tenantId, userId) && loading == old(loading)
      ensures MembersDistinct(old(tenants)) ==> MembersDistinct(tenants)
    {
      if MembersDistinct(tenants) {
        AddUserKeepsMembersDistinct(tenants, tenantId, userId);
      }
      var tenantIndex := IndexOf(tenants, tenantId);
      if tenantIndex.Some? && userId !in tenants[tenantIndex.value].userIds {
        var t := tenants[tenantIndex.value];
        tenants := tenants[tenantIndex.value := t.(userIds := t.userIds + [userId])];
      }
    }

    method RemoveUserFromTenant(tenantId: string, userId: string)
      modifies this
      ensures tenants == WithUserRemoved(old(tenants), tenantId, userId) && loading == old(loading)
    {
      var tenantIndex := IndexOf(tenants, tenantId);
      if tenantIndex.Some? {
        var t := tenants[tenantIndex.value];
        tenants := tenants[tenantIndex.value := t.(userIds := Without(t.userIds, userId))];
      }
    }
  }
}
