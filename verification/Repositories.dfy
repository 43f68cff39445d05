/**
 * The in-memory user and access stores (crates/gateway/src/repository/user_repo/in_memory_repo.rs,
 * crates/gateway/src/repository/access_repo/in_memory_repo.rs).
 */
module Repositories {
  import opened Types

  /** Every user record sits under its own id. */
  ghost predicate KeyedById(users: map<U64, User>) {
    forall id :: id in users ==> users[id].id == id
  }

  /** Every access record sits under its own (user, service) pair. */
  ghost predicate KeyedByPair(accesses: map<(U64, U64), ServiceAccess>) {
    forall k :: k in accesses ==> accesses[k] == ServiceAccess(k.0, k.1)
  }

  /** The record a load leaves under `id`: the last one in the file, else what was there. */
  ghost function LastWith(records: seq<User>, id: U64, before: Option<User>): Option<User> {
    if records == [] then before
    else if records[|records| - 1].id == id then Some(records[|records| - 1])
    else LastWith(records[..|records| - 1], id, before)
  }

  ghost function Lookup<K, V>(m: map<K, V>, k: K): Option<V> {
    if k in m then Some(m[k]) else None
  }

  class UserRepo {
    var users: map<U64, User>

    ghost predicate Valid()
      reads this
    {
      KeyedById(users)
    }

    constructor ()
      ensures Valid() && users == map[]
    {
      users := map[];
    }

    method Put(user: User) returns (previous: Option<User>)
      requires Valid()
      modifies this
      ensures Valid()
      ensures users == old(users)[user.id := user]
      ensures previous == Lookup(old(users), user.id)
    {
      previous := if user.id in users then Some(users[user.id]) else None;
      users := users[user.id := user];
    }

    method Get(id: U64) returns (user: Option<User>)
      requires Valid()
      ensures user == Lookup(users, id)
      ensures user.Some? ==> user.value.id == id
    {
      user := if id in users then Some(users[id]) else None;
    }

    method Delete(id: U64) returns (previous: Option<User>)
      requires Valid()
      modifies this
      ensures Valid()
      ensures users == old(users) - {id}
      ensures previous == Lookup(old(users), id)
    {
      previous := if id in users then Some(users[id]) else None;
      users := users - {id};
    }

    /** The load loop of `connect_to_datasource`, over the records parsed from the file. */
    method Load(records: seq<User>)
      requires Valid()
      modifies this
      ensures Valid()
      ensures forall id: U64 :: Lookup(users, id) == LastWith(records, id, Lookup(old(users), id))
    {
      for i := 0 to |records|
        invariant Valid()
        invariant forall id: U64 :: Lookup(users, id) == LastWith(records[..i], id, Lookup(old(users), id))
      {
        var _ := Put(records[i]);
        assert records[..i + 1][..i] == records[..i];
      }
      assert records[..|records|] == records;
    }
  }

  class AccessRepo {
    var accesses: map<(U64, U64), ServiceAccess>

    ghost predicate Valid()
      reads this
    {
      KeyedByPair(accesses)
    }

    constructor ()
      ensures Valid() && accesses == map[]
    {
      accesses := map[];
    }

    method Put(access: ServiceAccess) returns (previous: Option<ServiceAccess>)
      requires Valid()
      modifies this
      ensures Valid()
      ensures accesses == old(accesses)[(access.user, access.service) := access]
      ensures previous == Lookup(old(accesses), (access.user, access.service))
    {
      var k := (access.user, access.service);
      previous := if k in accesses then Some(accesses[k]) else None;
      accesses := accesses[k := access];
    }

    method Get(user: U64, service: U64) returns (access: Option<ServiceAccess>)
      requires Valid()
      ensures access == Lookup(accesses, (user, service))
      ensures access.Some? ==> access.value == ServiceAccess(user, service)
    {
      access := if (user, service) in accesses then Some(accesses[(user, service)]) else None;
    }

    /** A filter over the whole map, in whatever order its entries come. */
    method GetAllForUser(user: U64) returns (all: seq<ServiceAccess>)
      requires Valid()
      ensures forall i, j :: 0 <= i < j < |all| ==> all[i] != all[j]
      ensures forall a :: a in all <==> a.user == user && (user, a.service) in accesses
    {
      all := [];
      var todo := accesses.Keys;
      while todo != {}
        invariant todo <= accesses.Keys
        invariant forall i, j :: 0 <= i < j < |all| ==> all[i] != all[j]
        invariant forall a :: a in all <==>
                    a.user == user && (user, a.service) in accesses && (user, a.service) !in todo
        decreases todo
      {
        var k :| k in todo;
        todo := todo - {k};
        if k.0 == user {
          assert accesses[k] == ServiceAccess(k.0, k.1);
          all := all + [accesses[k]];
        }
      }
    }

    method Delete(user: U64, service: U64) returns (previous: Option<ServiceAccess>)
      requires Valid()
      modifies this
      ensures Valid()
      ensures accesses == old(accesses) - {(user, service)}
      ensures previous == Lookup(old(accesses), (user, service))
    {
      previous := if (user, service) in accesses then Some(accesses[(user, service)]) else None;
      accesses := accesses - {(user, service)};
    }
  }
}
