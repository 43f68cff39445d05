/**
 * The three coupled maps of a gateway service visitor, as values, and the plain collection of
 * sessions they stand for (crates/gateway/src/service/proxy/tcp_proxy.rs and udp_proxy.rs).
 */
module Registry {
  import opened Types

  datatype Session = Session(key: string, addrs: ProxyAddrs, user: U64, service: U64)

  ghost predicate NoDup<T>(s: seq<T>) {
    forall i, j :: 0 <= i < j < |s| ==> s[i] != s[j]
  }

  function KeySet(keys: seq<string>): set<string> {
    set k | k in keys
  }

  lemma DropAppend<V>(m: map<string, V>, a: seq<string>, b: seq<string>)
    ensures m - KeySet(a) - KeySet(b) == m - KeySet(a + b)
  {
    assert KeySet(a + b) == KeySet(a) + KeySet(b);
  }

  lemma NoDupKeysAppend(a: seq<string>, b: seq<string>)
    requires NoDup(a) && NoDup(b) && KeySet(a) !! KeySet(b)
    ensures NoDup(a + b) && KeySet(a + b) == KeySet(a) + KeySet(b)
  {
    forall k | k in a
      ensures k !in b
    {
      assert k in KeySet(a);
    }
    NoDupAppend(a, b);
  }

  lemma DropSnoc<V>(m: map<string, V>, a: seq<string>, key: string)
    ensures m - KeySet(a) - {key} == m - KeySet(a + [key])
  {
    DropAppend(m, a, [key]);
    assert KeySet([key]) == {key};
  }

  lemma NoDupAppend<T>(a: seq<T>, b: seq<T>)
    requires NoDup(a) && NoDup(b) && forall x :: x in a ==> x !in b
    ensures NoDup(a + b)
  {
    forall i, j | 0 <= i < j < |a + b|
      ensures (a + b)[i] != (a + b)[j]
    {
      if i < |a| <= j {
        assert a[i] in a && b[j - |a|] in b;
      }
    }
  }

  lemma {:induction false} CountInNoDup(keys: seq<string>, k: string)
    requires NoDup(keys)
    ensures multiset(keys)[k] == if k in keys then 1 else 0
  {
    if keys != [] {
      var (init, last) := (keys[..|keys| - 1], keys[|keys| - 1]);
      CountInNoDup(init, k);
      assert keys == init + [last] && last !in init;
    }
  }

  /** A list without repetitions taken apart into two. */
  ghost predicate Splits(keys: seq<string>, a: seq<string>, b: seq<string>) {
    && NoDup(a) && NoDup(b)
    && KeySet(keys) == KeySet(a) + KeySet(b) && KeySet(a) !! KeySet(b)
  }

  lemma SplitsSnoc(keys: seq<string>, i: nat, a: seq<string>, b: seq<string>)
    requires NoDup(keys) && i < |keys| && Splits(keys[..i], a, b)
    ensures keys[i] in KeySet(keys) && keys[i] !in KeySet(a) && keys[i] !in KeySet(b)
    ensures Splits(keys[..i + 1], a + [keys[i]], b)
    ensures Splits(keys[..i + 1], a, b + [keys[i]])
  {
    var k := keys[i];
    assert k in keys && k !in keys[..i] && keys[..i + 1] == keys[..i] + [k];
    assert k !in KeySet(keys[..i]);
    assert KeySet(keys[..i + 1]) == KeySet(keys[..i]) + {k};
    assert KeySet(a + [k]) == KeySet(a) + {k} && KeySet(b + [k]) == KeySet(b) + {k};
    NoDupAppend(a, [k]);
    NoDupAppend(b, [k]);
  }

  /** `Vec::retain` with the given key dropped. */
  function Retain(keys: seq<string>, key: string): (r: seq<string>)
    ensures forall k :: k in r <==> k in keys && k != key
  {
    if keys == [] then []
    else
      assert keys == [keys[0]] + keys[1..];
      if keys[0] == key then Retain(keys[1..], key) else [keys[0]] + Retain(keys[1..], key)
  }

  lemma {:induction false} RetainKeepsNoDup(keys: seq<string>, key: string)
    requires NoDup(keys)
    ensures NoDup(Retain(keys, key))
  {
    if keys != [] {
      RetainKeepsNoDup(keys[1..], key);
      var rest := Retain(keys[1..], key);
      assert keys[0] !in keys[1..];
      assert keys[0] !in rest;
    }
  }

  /** users_by_proxy_addrs, proxy_addrs_by_proxy_key and proxy_keys_by_user. */
  datatype Index = Index(users: map<ProxyAddrs, U64>, addrs: map<string, ProxyAddrs>, keys: map<U64, seq<string>>)

  /** Every key has a pair of its own, and every such pair has a user. */
  ghost predicate Addressed(ix: Index) {
    && (forall k :: k in ix.addrs ==> ix.addrs[k] in ix.users)
    && (forall k, l :: k in ix.addrs && l in ix.addrs && ix.addrs[k] == ix.addrs[l] ==> k == l)
  }

  /** Every key is in the list of its user, in no other list, and nowhere twice. */
  ghost predicate Listed(ix: Index)
    requires Addressed(ix)
  {
    && (forall k :: k in ix.addrs ==>
          ix.users[ix.addrs[k]] in ix.keys && k in ix.keys[ix.users[ix.addrs[k]]])
    && (forall u, k :: u in ix.keys && k in ix.keys[u] ==> k in ix.addrs && ix.users[ix.addrs[k]] == u)
    && (forall u :: u in ix.keys ==> NoDup(ix.keys[u]))
  }

  /** The maps agree: they describe one collection of sessions plus some addresses without a session. */
  ghost predicate Coupled(ix: Index) {
    Addressed(ix) && Listed(ix)
  }

  ghost predicate IsRegistered(ix: Index, addrs: ProxyAddrs) {
    exists k :: k in ix.addrs && ix.addrs[k] == addrs
  }

  /** The registered sessions, by key. */
  ghost function Sessions(ix: Index, service: U64): map<string, Session>
    requires Addressed(ix)
  {
    map k | k in ix.addrs :: Session(k, ix.addrs[k], ix.users[ix.addrs[k]], service)
  }

  /** Addresses accepted for a user but not registered under a key. */
  ghost function Pending(ix: Index): map<ProxyAddrs, U64> {
    map a | a in ix.users && !IsRegistered(ix, a) :: ix.users[a]
  }

  ghost function KeysOfUsers(sessions: map<string, Session>, users: set<U64>): set<string> {
    set k | k in sessions && sessions[k].user in users
  }

  /** Each user's list holds exactly the keys of that user's sessions, each once. */
  ghost predicate ListsOf(lists: map<U64, seq<string>>, sessions: map<string, Session>) {
    && (forall u :: u in lists ==> NoDup(lists[u]) && KeySet(lists[u]) == KeysOfUsers(sessions, {u}))
    && (forall k :: k in sessions ==> sessions[k].user in lists)
  }

  lemma CoupledLists(ix: Index, service: U64)
    requires Coupled(ix)
    ensures ListsOf(ix.keys, Sessions(ix, service))
  {
    forall u | u in ix.keys
      ensures KeySet(ix.keys[u]) == KeysOfUsers(Sessions(ix, service), {u})
    {
      forall k
        ensures k in ix.keys[u] <==> k in KeysOfUsers(Sessions(ix, service), {u})
      {
      }
    }
  }

  /** The list of the next user is disjoint from the lists already handled. */
  lemma NextList(lists: map<U64, seq<string>>, sessions: map<string, Session>,
                 matching: set<U64>, todo: set<U64>, u: U64)
    requires ListsOf(lists, sessions) && u in todo && todo <= matching <= lists.Keys
    ensures NoDup(lists[u]) && KeySet(lists[u]) == KeysOfUsers(sessions, {u}) <= KeysOfUsers(sessions, matching)
    ensures KeySet(lists[u]) !! KeysOfUsers(sessions, matching - todo)
    ensures KeysOfUsers(sessions, matching - (todo - {u})) ==
            KeysOfUsers(sessions, matching - todo) + KeySet(lists[u])
  {
  }

  /** Refused keys are of one user, and the keys of any other user were all closed or all left alone. */
  ghost predicate StoppedAfterOne(sessions: map<string, Session>, users: set<U64>,
                                  closed: seq<string>, refused: seq<string>) {
    refused != [] ==>
      exists u :: u in users && KeySet(refused) <= KeysOfUsers(sessions, {u}) && OthersWhole(sessions, users, u, closed)
  }

  ghost predicate OthersWhole(sessions: map<string, Session>, users: set<U64>, u: U64, closed: seq<string>) {
    forall v :: v in users && v != u ==>
      KeysOfUsers(sessions, {v}) <= KeySet(closed) || KeysOfUsers(sessions, {v}) !! KeySet(closed)
  }

  lemma StopsAfterOne(sessions: map<string, Session>, users: set<U64>, done: set<U64>, u: U64,
                      closed: seq<string>, here: seq<string>, refused: seq<string>)
    requires u in users && u !in done && done <= users
    requires KeySet(closed) == KeysOfUsers(sessions, done)
    requires KeySet(here) + KeySet(refused) == KeysOfUsers(sessions, {u})
    ensures StoppedAfterOne(sessions, users, closed + here, refused)
  {
    assert KeySet(closed + here) == KeySet(closed) + KeySet(here);
    assert OthersWhole(sessions, users, u, closed + here);
  }

  // ---- create_client_conn ----

  function Accepted(ix: Index, addrs: ProxyAddrs, user: U64): Index {
    ix.(users := ix.users[addrs := user])
  }

  /** Accepting keeps the maps coupled exactly when it does not rename the user of a registered pair. */
  lemma AcceptedCoupledIff(ix: Index, addrs: ProxyAddrs, user: U64)
    requires Coupled(ix)
    ensures Coupled(Accepted(ix, addrs, user)) <==> (IsRegistered(ix, addrs) ==> ix.users[addrs] == user)
  {
    var ix' := Accepted(ix, addrs, user);
    if k :| k in ix.addrs && ix.addrs[k] == addrs && ix.users[addrs] != user {
      var u := ix.users[addrs];
      assert u in ix.keys && k in ix.keys[u];
      assert u in ix'.keys && k in ix'.keys[u] && ix'.users[ix'.addrs[k]] != u;
    } else {
      assert forall k :: k in ix.addrs ==> ix'.users[ix.addrs[k]] == ix.users[ix.addrs[k]];
    }
  }

  lemma AcceptedEffect(ix: Index, addrs: ProxyAddrs, user: U64, service: U64)
    requires Coupled(ix) && !IsRegistered(ix, addrs)
    ensures var ix' := Accepted(ix, addrs, user);
            && Coupled(ix')
            && Sessions(ix', service) == Sessions(ix, service)
            && Pending(ix') == Pending(ix)[addrs := user]
  {
    AcceptedCoupledIff(ix, addrs, user);
    var ix' := Accepted(ix, addrs, user);
    assert forall a :: IsRegistered(ix', a) <==> IsRegistered(ix, a);
  }

  // ---- on_conn_accepted ----

  function Appended(keys: map<U64, seq<string>>, user: U64, key: string): map<U64, seq<string>> {
    keys[user := if user in keys then keys[user] + [key] else [key]]
  }

  function Added(ix: Index, key: string, addrs: ProxyAddrs): Index
    requires addrs in ix.users
  {
    ix.(addrs := ix.addrs[key := addrs], keys := Appended(ix.keys, ix.users[addrs], key))
  }

  lemma AddedAddressed(ix: Index, key: string, addrs: ProxyAddrs)
    requires Addressed(ix) && addrs in ix.users && key !in ix.addrs && !IsRegistered(ix, addrs)
    ensures Addressed(Added(ix, key, addrs))
  {
  }

  lemma AddedCoupled(ix: Index, key: string, addrs: ProxyAddrs)
    requires Coupled(ix) && addrs in ix.users && key !in ix.addrs && !IsRegistered(ix, addrs)
    ensures Coupled(Added(ix, key, addrs))
  {
    AddedAddressed(ix, key, addrs);
    var ix' := Added(ix, key, addrs);
    var u := ix.users[addrs];
    assert u in ix.keys ==> key !in ix.keys[u];
    assert forall v :: v in ix'.keys ==> NoDup(ix'.keys[v]);
    assert forall k :: k in ix.addrs ==> ix'.addrs[k] == ix.addrs[k];
  }

  lemma AddedUncoupled(ix: Index, key: string, addrs: ProxyAddrs)
    requires Coupled(ix) && addrs in ix.users
    requires key in ix.addrs || IsRegistered(ix, addrs)
    ensures !Coupled(Added(ix, key, addrs))
  {
    var ix' := Added(ix, key, addrs);
    var u := ix.users[addrs];
    if key in ix.addrs {
      var v := ix.users[ix.addrs[key]];
      assert key in ix.keys[v];
      if u == v {
        var i :| 0 <= i < |ix.keys[v]| && ix.keys[v][i] == key;
        assert ix'.keys[v][i] == ix'.keys[v][|ix.keys[v]|];
        assert !NoDup(ix'.keys[v]);
      } else {
        assert key in ix'.keys[v] && ix'.users[ix'.addrs[key]] == u;
      }
    } else {
      var k :| k in ix.addrs && ix.addrs[k] == addrs;
      assert k in ix'.addrs && key in ix'.addrs && ix'.addrs[k] == ix'.addrs[key];
    }
  }

  /**
   * Registering keeps the maps coupled exactly when neither the key nor the address pair already
   * belongs to a registered session. Re-registering either one corrupts the maps.
   */
  lemma AddedCoupledIff(ix: Index, key: string, addrs: ProxyAddrs)
    requires Coupled(ix) && addrs in ix.users
    ensures Coupled(Added(ix, key, addrs)) <==> key !in ix.addrs && !IsRegistered(ix, addrs)
  {
    if key !in ix.addrs && !IsRegistered(ix, addrs) {
      AddedCoupled(ix, key, addrs);
    } else {
      AddedUncoupled(ix, key, addrs);
    }
  }

  /**
   * What becomes of it: with two keys for one pair, the removal of the one leaves the other without a
   * user, and the lookup in its own removal fails.
   */
  lemma SecondKeyLosesUser(ix: Index, first: string, second: string)
    requires Coupled(ix) && first in ix.addrs && second !in ix.addrs
    ensures var ix' := Added(ix, second, ix.addrs[first]);
            && ix'.addrs[first] in ix'.users
            && var ix'' := Removed(ix', first);
            && second in ix''.addrs && ix''.addrs[second] !in ix''.users
  {
  }

  lemma AddedView(ix: Index, key: string, addrs: ProxyAddrs, service: U64)
    requires Addressed(ix) && addrs in ix.users && key !in ix.addrs && !IsRegistered(ix, addrs)
    ensures var ix' := Added(ix, key, addrs);
            && Addressed(ix')
            && Sessions(ix', service) == Sessions(ix, service)[key := Session(key, addrs, ix.users[addrs], service)]
            && Pending(ix') == Pending(ix) - {addrs}
  {
    AddedAddressed(ix, key, addrs);
    var ix' := Added(ix, key, addrs);
    forall a
      ensures IsRegistered(ix', a) <==> IsRegistered(ix, a) || a == addrs
    {
      if IsRegistered(ix, a) {
        var k :| k in ix.addrs && ix.addrs[k] == a;
        assert k in ix'.addrs && ix'.addrs[k] == a;
      }
      assert key in ix'.addrs && ix'.addrs[key] == addrs;
    }
  }

  lemma AddedEffect(ix: Index, key: string, addrs: ProxyAddrs, service: U64)
    requires Coupled(ix) && addrs in ix.users && key !in ix.addrs && !IsRegistered(ix, addrs)
    ensures var ix' := Added(ix, key, addrs);
            && Coupled(ix')
            && Sessions(ix', service) == Sessions(ix, service)[key := Session(key, addrs, ix.users[addrs], service)]
            && Pending(ix') == Pending(ix) - {addrs}
  {
    AddedCoupled(ix, key, addrs);
    AddedView(ix, key, addrs, service);
  }

  // ---- remove_proxy_for_key ----

  function Removed(ix: Index, key: string): Index
    requires key in ix.addrs && ix.addrs[key] in ix.users
  {
    var user := ix.users[ix.addrs[key]];
    Index(ix.users - {ix.addrs[key]}, ix.addrs - {key},
          if user in ix.keys then ix.keys[user := Retain(ix.keys[user], key)] else ix.keys)
  }

  /** Every other key keeps its addresses and its user. */
  lemma RemovedOthers(ix: Index, key: string, k: string)
    requires Coupled(ix) && key in ix.addrs && k in Removed(ix, key).addrs
    ensures var ix' := Removed(ix, key);
            && k in ix.addrs && k != key && ix'.addrs[k] == ix.addrs[k]
            && ix.addrs[k] in ix'.users && ix'.users[ix.addrs[k]] == ix.users[ix.addrs[k]]
            && ix.users[ix.addrs[k]] in ix'.keys && k in ix'.keys[ix.users[ix.addrs[k]]]
  {
    assert ix.addrs[k] != ix.addrs[key];
  }

  /** What the user lists hold after a removal was there before and is not the removed key. */
  lemma RemovedLists(ix: Index, key: string, u: U64)
    requires Coupled(ix) && key in ix.addrs && u in Removed(ix, key).keys
    ensures var ix' := Removed(ix, key);
            && u in ix.keys && NoDup(ix'.keys[u])
            && forall k :: k in ix'.keys[u] ==> k in ix.keys[u] && k in ix'.addrs && ix.users[ix.addrs[k]] == u
  {
    RetainKeepsNoDup(ix.keys[u], key);
    var owner := ix.users[ix.addrs[key]];
    assert key in ix.keys[owner];
    forall k | k in Removed(ix, key).keys[u]
      ensures k in ix.keys[u] && k != key
    {
      if u != owner {
        assert k in ix.keys[u];
      }
    }
  }

  lemma RemovedCoupled(ix: Index, key: string)
    requires Coupled(ix) && key in ix.addrs
    ensures Coupled(Removed(ix, key))
  {
    var ix' := Removed(ix, key);
    forall k | k in ix'.addrs
      ensures ix'.addrs[k] in ix'.users
      ensures ix'.users[ix'.addrs[k]] in ix'.keys && k in ix'.keys[ix'.users[ix'.addrs[k]]]
    {
      RemovedOthers(ix, key, k);
    }
    forall u, k | u in ix'.keys && k in ix'.keys[u]
      ensures k in ix'.addrs && ix'.users[ix'.addrs[k]] == u
    {
      RemovedLists(ix, key, u);
      RemovedOthers(ix, key, k);
    }
    forall u | u in ix'.keys
      ensures NoDup(ix'.keys[u])
    {
      RemovedLists(ix, key, u);
    }
  }

  lemma RemovedView(ix: Index, key: string, service: U64)
    requires Addressed(ix) && key in ix.addrs
    ensures var ix' := Removed(ix, key);
            && Addressed(ix')
            && Sessions(ix', service) == Sessions(ix, service) - {key}
            && Pending(ix') == Pending(ix)
  {
    var ix' := Removed(ix, key);
    assert forall k :: k in ix'.addrs ==> ix'.addrs[k] == ix.addrs[k] && ix.addrs[k] != ix.addrs[key];
    forall a
      ensures IsRegistered(ix', a) <==> IsRegistered(ix, a) && a != ix.addrs[key]
    {
      if IsRegistered(ix, a) && a != ix.addrs[key] {
        var k :| k in ix.addrs && ix.addrs[k] == a;
        assert k in ix'.addrs && ix'.addrs[k] == a;
      }
    }
    assert IsRegistered(ix, ix.addrs[key]);
  }

  lemma RemovedEffect(ix: Index, key: string, service: U64)
    requires Coupled(ix) && key in ix.addrs
    ensures var ix' := Removed(ix, key);
            && Coupled(ix')
            && Sessions(ix', service) == Sessions(ix, service) - {key}
            && Pending(ix') == Pending(ix)
  {
    RemovedCoupled(ix, key);
    RemovedView(ix, key, service);
  }

  /** A pair is listed for a user exactly when it is that user's session or that user's pending pair. */
  lemma ListedIff(ix: Index, service: U64, addrs: ProxyAddrs, user: U64)
    requires Coupled(ix)
    ensures addrs in ix.users && ix.users[addrs] == user
       <==> || (exists k :: k in Sessions(ix, service) && Sessions(ix, service)[k].addrs == addrs
                        && Sessions(ix, service)[k].user == user)
            || (addrs in Pending(ix) && Pending(ix)[addrs] == user)
  {
    if addrs in ix.users && IsRegistered(ix, addrs) {
      var k :| k in ix.addrs && ix.addrs[k] == addrs;
      assert k in Sessions(ix, service);
    }
  }
}
