/**
 * The user and tenant records (`User`, `Tenant`) and the seed lists that both the
 * tenant page and the two store slices start from. Ids are opaque strings; nothing
 * in the source keeps them unique, so nothing here assumes it.
 */
module Models {
  import Seqs

  datatype User = User(id: string, name: string, email: string, tenantIds: seq<string>)

  datatype Tenant = Tenant(id: string, name: string, userIds: seq<string>)

  function TenantIds(ts: seq<Tenant>): set<string> {
    set t | t in ts :: t.id
  }

  function UserIds(us: seq<User>): set<string> {
    set u | u in us :: u.id
  }

  /** `ids.filter((id) => id !== x)`: every occurrence of `x` removed, nothing else. */
  function Without(ids: seq<string>, x: string): (r: seq<string>)
    ensures x !in r
    ensures forall y :: y != x ==> (y in r <==> y in ids)
    ensures x !in ids ==> r == ids
  {
    Seqs.FilterContents(ids, IsNot(x));
    if x in ids then Seqs.Filter(ids, IsNot(x))
    else Seqs.FilterKeepsAll(ids, IsNot(x)); Seqs.Filter(ids, IsNot(x))
  }

  /** Removing an id from a concatenation removes it from each part. */
  lemma WithoutAppend(a: seq<string>, b: seq<string>, x: string)
    ensures Without(a + b, x) == Without(a, x) + Without(b, x)
  {
    Seqs.FilterAppend(a, b, IsNot(x));
  }

  /** The filter predicates, named so that every use of one is the same term. */
  function IsNot(x: string): string -> bool {
    y => y != x
  }

  function TenantIdIsNot(id: string): Tenant -> bool {
    (t: Tenant) => t.id != id
  }

  function UserIdIsNot(id: string): User -> bool {
    (u: User) => u.id != id
  }

  /** `tenants.filter((tenant) => tenant.id !== id)`. */
  function TenantsWithout(ts: seq<Tenant>, id: string): (r: seq<Tenant>)
    ensures id !in TenantIds(r)
    ensures forall t: Tenant :: t.id != id ==> (t in r <==> t in ts)
    ensures forall t: Tenant :: multiset(r)[t] == if t.id == id then 0 else multiset(ts)[t]
  {
    Seqs.FilterContents(ts, TenantIdIsNot(id));
    Seqs.Filter(ts, TenantIdIsNot(id))
  }

  /** `users.filter((user) => user.id !== id)`. */
  function UsersWithout(us: seq<User>, id: string): (r: seq<User>)
    ensures id !in UserIds(r)
    ensures forall u: User :: u.id != id ==> (u in r <==> u in us)
    ensures forall u: User :: multiset(r)[u] == if u.id == id then 0 else multiset(us)[u]
  {
    Seqs.FilterContents(us, UserIdIsNot(id));
    Seqs.Filter(us, UserIdIsNot(id))
  }

  /** Deleting by id keeps the order of the rest: it distributes over concatenation. */
  lemma TenantsWithoutAppend(a: seq<Tenant>, b: seq<Tenant>, id: string)
    ensures TenantsWithout(a + b, id) == TenantsWithout(a, id) + TenantsWithout(b, id)
  {
    Seqs.FilterAppend(a, b, TenantIdIsNot(id));
  }

  lemma UsersWithoutAppend(a: seq<User>, b: seq<User>, id: string)
    ensures UsersWithout(a + b, id) == UsersWithout(a, id) + UsersWithout(b, id)
  {
    Seqs.FilterAppend(a, b, UserIdIsNot(id));
  }

  const SeedTenants: seq<Tenant> := [
    Tenant("1", "Acme Corporation", ["1", "2"]),
    Tenant("2", "Globex Industries", ["1"]),
    Tenant("3", "Initech", ["3"])
  ]

  const SeedUsers: seq<User> := [
    User("1", "John Doe", "john.doe@example.com", ["1", "2"]),
    User("2", "Jane Smith", "jane.smith@example.com", ["1"]),
    User("3", "Bob Johnson", "bob.johnson@example.com", ["3"])
  ]
}
