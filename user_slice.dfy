/**
 * The `users` store slice: a user list and a loading flag, changed in place by six
 * reducers, the mirror image of the tenant slice with `tenantIds` as the membership
 * list. `deleteUser` touches only this slice: no tenant loses the deleted user's id.
 */
module UserSlice {
  import opened Wrappers
  import opened Seqs
  import opened Models

  /** `users.findIndex((user) => user.id === id)`, with None for `-1`. */
  function IndexOf(us: seq<User>, id: string): (r: Option<nat>)
    ensures r.Some? ==> r.value < |us| && us[r.value].id == id
    ensures r.Some? ==> forall j :: 0 <= j < r.value ==> us[j].id != id
    ensures r.None? <==> id !in UserIds(us)
  {
    var r := FirstIndex(us, (u: User) => u.id == id);
    if r.Some? then assert us[r.value] in us; r else r
  }

  /** The list `updateUser(payload)` leaves: the first user with the payload's id replaced. */
  function Updated(us: seq<User>, payload: User): (r: seq<User>)
    ensures |r| == |us|
    ensures payload.id !in UserIds(us) ==> r == us
    ensures payload.id in UserIds(us) ==> payload in r
    ensures forall u :: u in r ==> u in us || u == payload
  {
    match IndexOf(us, payload.id)
    case None => us
    case Some(i) => var r := us[i := payload]; assert r[i] == payload; r
  }

  /** The list `addTenantToUser(userId, tenantId)` leaves. */
  function WithTenantAdded(us: seq<User>, userId: string, tenantId: string): (r: seq<User>)
    ensures |r| == |us|
    ensures forall j :: 0 <= j < |us| ==> r[j].id == us[j].id && r[j].name == us[j].name && r[j].email == us[j].email
    ensures userId !in UserIds(us) ==> r == us
  {
    match IndexOf(us, userId)
    case None => us
    case Some(i) =>
      if tenantId in us[i].tenantIds then us
      else us[i := us[i].(tenantIds := us[i].tenantIds + [tenantId])]
  }

  /** The list `removeTenantFromUser(userId, tenantId)` leaves. */
  function WithTenantRemoved(us: seq<User>, userId: string, tenantId: string): (r: seq<User>)
    ensures |r| == |us|
    ensures forall j :: 0 <= j < |us| ==> r[j].id == us[j].id && r[j].name == us[j].name && r[j].email == us[j].email
    ensures userId !in UserIds(us) ==> r == us
  {
    match IndexOf(us, userId)
    case None => us
    case Some(i) => us[i := us[i].(tenantIds := Without(us[i].tenantIds, tenantId))]
  }

  /** Every user's tenant list is duplicate-free. */
  predicate TenantsDistinct(us: seq<User>) {
    forall j :: 0 <= j < |us| ==> NoDuplicates(us[j].tenantIds)
  }

  /** updateUser replaces exactly the first user with the payload's id. */
  lemma UpdateReplacesFirstMatch(us: seq<User>, payload: User, i: nat)
    requires i < |us| && us[i].id == payload.id
    requires forall j :: 0 <= j < i ==> us[j].id != payload.id
    ensures Updated(us, payload) == us[i := payload]
  {
    var k := IndexOf(us, payload.id);
    assert us[i] in us;
    assert us[k.value].id == payload.id;
    assert k.value == i;
  }

  /**
   * addTenantToUser on an existing user: afterwards that user lists the tenant, the
   * tenant is appended exactly when it was not listed, and every other user is untouched.
   */
  lemma AddTenantEffect(us: seq<User>, userId: string, tenantId: string)
    requires userId in UserIds(us)
    ensures var i := IndexOf(us, userId).value;
      var r := WithTenantAdded(us, userId, tenantId);
      && tenantId in r[i].tenantIds
      && (tenantId in us[i].tenantIds ==> r == us)
      && (tenantId !in us[i].tenantIds ==> r[i].tenantIds == us[i].tenantIds + [tenantId])
      && forall j :: 0 <= j < |us| && j != i ==> r[j] == us[j]
  {
  }

  /** addTenantToUser never creates a duplicate entry. */
  lemma AddTenantKeepsTenantsDistinct(us: seq<User>, userId: string, tenantId: string)
    requires TenantsDistinct(us)
    ensures TenantsDistinct(WithTenantAdded(us, userId, tenantId))
  {
    var r := WithTenantAdded(us, userId, tenantId);
    var k := IndexOf(us, userId);
    if k.Some? && tenantId !in us[k.value].tenantIds {
      var s := us[k.value].tenantIds;
      assert r[k.value].tenantIds == s + [tenantId];
      forall a, b | 0 <= a < b < |s + [tenantId]| ensures (s + [tenantId])[a] != (s + [tenantId])[b] {
        if b == |s| { assert (s + [tenantId])[a] == s[a] && s[a] in s; }
      }
    }
  }

  /** Adding the same tenant twice is the same as adding it once. */
  lemma AddTenantIdempotent(us: seq<User>, userId: string, tenantId: string)
    ensures WithTenantAdded(WithTenantAdded(us, userId, tenantId), userId, tenantId)
         == WithTenantAdded(us, userId, tenantId)
  {
    var r := WithTenantAdded(us, userId, tenantId);
    var k := IndexOf(us, userId);
    if k.Some? {
      IndexOfAgrees(us, r, userId);
      assert tenantId in r[k.value].tenantIds;
    }
  }

  /** removeTenantFromUser leaves the first matching user without any occurrence of the tenant, and every other user untouched. */
  lemma RemoveTenantEffect(us: seq<User>, userId: string, tenantId: string)
    requires userId in UserIds(us)
    ensures var i := IndexOf(us, userId).value;
      var r := WithTenantRemoved(us, userId, tenantId);
      && tenantId !in r[i].tenantIds
      && (forall x :: x != tenantId ==> (x in r[i].tenantIds <==> x in us[i].tenantIds))
      && forall j :: 0 <= j < |us| && j != i ==> r[j] == us[j]
  {
  }

  /** Removing a tenant that was just added (and was not there before) restores the list. */
  lemma RemoveUndoesAdd(us: seq<User>, userId: string, tenantId: string)
    requires userId in UserIds(us)
    requires tenantId !in us[IndexOf(us, userId).value].tenantIds
    ensures WithTenantRemoved(WithTenantAdded(us, userId, tenantId), userId, tenantId) == us
  {
    var i := IndexOf(us, userId).value;
    var r := WithTenantAdded(us, userId, tenantId);
    IndexOfAgrees(us, r, userId);
    var s := us[i].tenantIds;
    WithoutAppend(s, [tenantId], tenantId);
    assert Without([tenantId], tenantId) == [];
    assert Without(s + [tenantId], tenantId) == s;
    assert r[i := r[i].(tenantIds := s)] == us;
  }

  /** Two lists with the same ids position by position find the same index. */
  lemma IndexOfAgrees(us: seq<User>, r: seq<User>, id: string)
    requires |r| == |us| && forall j :: 0 <= j < |us| ==> r[j].id == us[j].id
    ensures IndexOf(r, id) == IndexOf(us, id)
  {
    assert forall j :: 0 <= j < |us| ==> (us[j].id == id <==> r[j].id == id);
    assert id in UserIds(us) <==> id in UserIds(r) by {
      if id in UserIds(us) {
        var j :| 0 <= j < |us| && us[j].id == id;
        assert r[j] in r;
      }
      if id in UserIds(r) {
        var j :| 0 <= j < |r| && r[j].id == id;
        assert us[j] in us;
      }
    }
  }

  class UserState {
    var users: seq<User>
    var loading: bool

    constructor ()
      ensures users == SeedUsers && !loading
    {
      users := SeedUsers;
      loading := false;
    }

    method SetLoading(value: bool)
      modifies this
      ensures loading == value && users == old(users)
    {
      loading := value;
    }

    method AddUser(payload: User)
      modifies this
      ensures users == old(users) + [payload] && loading == old(loading)
    {
      users := users + [payload];
    }

    method UpdateUser(payload: User)
      modifies this
      ensures users == Updated(old(users), payload) && loading == old(loading)
    {
      var index := IndexOf(users, payload.id);
      if index.Some? {
        users := users[index.value := payload];
      }
    }

    method DeleteUser(id: string)
      modifies this
      ensures users == UsersWithout(old(users), id) && loading == old(loading)
    {
      users := UsersWithout(users, id);
    }

    method AddTenantToUser(userId: string, tenantId: string)
      modifies this
      ensures users == WithTenantAdded(old(users), userId, tenantId) && loading == old(loading)
      ensures TenantsDistinct(old(users)) ==> TenantsDistinct(users)
    {
      if TenantsDistinct(users) {
        AddTenantKeepsTenantsDistinct(users, userId, tenantId);
      }
      var userIndex := IndexOf(users, userId);
      if userIndex.Some? && tenantId !in users[userIndex.value].tenantIds {
        var u := users[userIndex.value];
        users := users[userIndex.value := u.(tenantIds := u.tenantIds + [tenantId])];
      }
    }

    method RemoveTenantFromUser(userId: string, tenantId: string)
      modifies this
      ensures users == WithTenantRemoved(old(users), userId, tenantId) && loading == old(loading)
    {
      var userIndex := IndexOf(users, userId);
      if userIndex.Some? {
        var u := users[userIndex.value];
        users := users[userIndex.value := u.(tenantIds := Without(u.tenantIds, tenantId))];
      }
    }
  }
}
