/**
 * The client's service visitors and manager: crates/client/src/service/proxy/tcp_proxy.rs (the key
 * bookkeeping of udp_proxy.rs is the same) and crates/client/src/service/manager.rs.
 */
module ClientManager {
  import opened Types
  import opened Registry
  import opened GatewayState
  import opened SharedState
  import CS = ClientState

  class ClientVisitor {
    const service: U64
    const shared: SharedIndex
    var proxyKeys: set<string>
    var shutdownRequested: bool

    constructor (service: U64, shared: SharedIndex)
      ensures this.service == service && this.shared == shared && proxyKeys == {} && !shutdownRequested
    {
      this.service, this.shared := service, shared;
      proxyKeys, shutdownRequested := {}, false;
    }

    /** A local connection was accepted; `key` is absent when the gateway could not be reached. */
    method OnConnAccepted(key: Option<string>, tasks: TaskSender) returns (ok: bool)
      modifies this`proxyKeys, shared, tasks
      ensures ok ==>
                && key.Some? && tasks.sent == old(tasks.sent) + [Open(key.value)]
                && tasks.refused == old(tasks.refused) == []
                && proxyKeys == old(proxyKeys) + {key.value}
                && shared.services == old(shared.services)[key.value := service]
      ensures !ok ==>
                && tasks.sent == old(tasks.sent)
                && tasks.refused == old(tasks.refused) + (if key.None? then [] else [Open(key.value)])
                && proxyKeys == old(proxyKeys) && shared.services == old(shared.services)
    {
      if key.None? {
        return false;
      }
      ok := tasks.Send(Open(key.value));
      if ok {
        shared.services := shared.services[key.value := service];
        proxyKeys := proxyKeys + {key.value};
      }
    }

    /** Every key leaves the index; the visitor forgets its keys only if every Close could be sent. */
    method ShutdownConnections(tasks: TaskSender)
      returns (ok: bool, ghost closed: seq<string>, ghost refused: seq<string>)
      modifies this`proxyKeys, shared, tasks
      ensures NoDup(closed) && NoDup(refused) && KeySet(closed) !! KeySet(refused)
      ensures KeySet(closed) + KeySet(refused) == old(proxyKeys)
      ensures ok <==> refused == []
      ensures tasks.sent == old(tasks.sent) + Closes(closed)
      ensures tasks.refused == old(tasks.refused) + Closes(refused)
      ensures old(tasks.refused) != [] ==> closed == []
      ensures shared.services == old(shared.services) - old(proxyKeys)
      ensures proxyKeys == if ok then {} else old(proxyKeys)
    {
      ok, closed, refused := true, [], [];
      var todo := proxyKeys;
      assert KeySet([]) == {};
      while todo != {}
        invariant NoDup(closed) && NoDup(refused) && KeySet(closed) !! KeySet(refused)
        invariant todo <= proxyKeys && KeySet(closed) + KeySet(refused) == proxyKeys - todo
        invariant ok <==> refused == []
        invariant tasks.sent == old(tasks.sent) + Closes(closed)
        invariant tasks.refused == old(tasks.refused) + Closes(refused)
        invariant old(tasks.refused) != [] ==> closed == []
        invariant shared.services == old(shared.services) - (proxyKeys - todo)
        invariant proxyKeys == old(proxyKeys)
        decreases todo
      {
        var key :| key in todo;
        ghost var before := todo;
        todo := todo - {key};
        assert KeySet([key]) == {key};
        var sent := tasks.Send(Close(key));
        if sent {
          NoDupKeysAppend(closed, [key]);
          ClosesSnoc(old(tasks.sent), closed, key);
          closed := closed + [key];
        } else {
          NoDupKeysAppend(refused, [key]);
          ClosesSnoc(old(tasks.refused), refused, key);
          ok, refused := false, refused + [key];
        }
        assert old(shared.services) - (proxyKeys - before) - {key} == old(shared.services) - (proxyKeys - todo);
        shared.services := shared.services - {key};
      }
      if ok {
        proxyKeys := {};
      }
    }

    method RemoveProxyForKey(key: string) returns (removed: bool)
      modifies this`proxyKeys, shared
      ensures removed <==> key in old(proxyKeys)
      ensures removed ==> proxyKeys == old(proxyKeys) - {key} && shared.services == old(shared.services) - {key}
      ensures !removed ==> proxyKeys == old(proxyKeys) && shared.services == old(shared.services)
    {
      if key in proxyKeys {
        shared.services := shared.services - {key};
        proxyKeys := proxyKeys - {key};
        return true;
      }
      return false;
    }
  }

  /** Client port, gateway host and gateway port of a service proxy. */
  datatype Endpoint = Endpoint(clientPort: U16, gatewayHost: string, gatewayPort: U16)

  class ClientServiceMgr {
    const shared: SharedIndex
    const tasks: TaskSender
    var addrs: map<U64, Endpoint>
    var visitors: map<U64, ClientVisitor>
    ghost var repr: set<ClientVisitor>

    /** What the visitors hold, and whether every Close could be sent. */
    ghost var keys: map<U64, set<string>>
    ghost var intact: bool

    ghost predicate Held()
      reads `visitors, `repr, `keys, repr
    {
      && keys.Keys == visitors.Keys
      && forall s :: s in visitors ==>
           && visitors[s] in repr && visitors[s].service == s && visitors[s].shared == shared
           && visitors[s].proxyKeys == keys[s]
    }

    ghost predicate Valid()
      reads this, shared, tasks, repr
    {
      Held() && addrs.Keys == visitors.Keys && CS.Inside(View())
    }

    ghost function View(): CS.Client
      reads `keys, `intact, shared, tasks
    {
      CS.Client(keys, shared.services, tasks.sent, tasks.refused == [], intact)
    }

    constructor ()
      ensures Valid() && View() == CS.NOTHING && fresh(shared) && fresh(tasks)
    {
      shared := new SharedIndex();
      tasks := new TaskSender();
      addrs, visitors, repr := map[], map[], {};
      keys, intact := map[], true;
    }

    /**
     * A started service keeps its endpoint. A UDP proxy whose server cannot be made is an error, and
     * then nothing has changed.
     */
    method Startup(service: U64, transport: Transport, endpoint: Endpoint, serverMade: bool)
      returns (r: Option<Endpoint>)
      requires Valid()
      modifies this
      ensures Valid() && fresh(repr - old(repr))
      ensures r.None? <==> service !in old(addrs) && transport.UDP? && !serverMade
      ensures r.None? || service in old(addrs) ==>
                addrs == old(addrs) && visitors == old(visitors) && View() == old(View())
      ensures service in old(addrs) ==> r == Some(old(addrs)[service])
      ensures r.Some? && service !in old(addrs) ==>
                && r.value == endpoint && addrs == old(addrs)[service := endpoint]
                && View() == CS.Apply(old(View()), CS.Started(service))
    {
      if service in addrs {
        return Some(addrs[service]);
      }
      if transport.UDP? && !serverMade {
        return None;
      }
      CS.ApplyKeepsInside(View(), CS.Started(service));
      var visitor := new ClientVisitor(service, shared);
      addrs := addrs[service := endpoint];
      visitors := visitors[service := visitor];
      repr, keys := repr + {visitor}, keys[service := {}];
      return Some(endpoint);
    }

    method OnConnAccepted(service: U64, key: Option<string>) returns (ok: bool)
      requires Valid() && service in visitors
      modifies `keys, repr, shared, tasks
      ensures Valid()
      ensures !ok ==> View() == if key.None? then old(View()) else CS.Apply(old(View()), CS.OpenRefused)
      ensures ok ==>
                && key.Some? && CS.Enabled(old(View()), CS.Opened(service, key.value))
                && View() == CS.Apply(old(View()), CS.Opened(service, key.value))
    {
      if key.Some? && tasks.refused == [] {
        CS.ApplyKeepsInside(View(), CS.Opened(service, key.value));
      }
      var visitor := visitors[service];
      ghost var before := keys;
      ok := visitor.OnConnAccepted(key, tasks);
      keys := keys[service := visitor.proxyKeys];
      assert !ok ==> keys == before;
    }

    /** A closed proxy's key is routed to its service, or to `u64::MAX` when it is not in the index. */
    method ProcessClosed(key: string) returns (processed: bool)
      requires Valid()
      modifies `keys, repr, shared
      ensures Valid()
      ensures View() == CS.Apply(old(View()), CS.ProxyClosed(key))
      ensures processed <==> CS.Route(old(View()), key) in old(keys) && key in old(keys)[CS.Route(old(View()), key)]
    {
      hide CS.Inside;
      CS.ApplyKeepsInside(View(), CS.ProxyClosed(key));
      var service := if key in shared.services then shared.services[key] else U64_MAX;
      if service !in visitors {
        return false;
      }
      var visitor := visitors[service];
      ghost var before := keys;
      processed := visitor.RemoveProxyForKey(key);
      keys := keys[service := visitor.proxyKeys];
      assert !processed ==> keys == before;
    }

    /** All visitors are told to stop and shut down, in whatever order, going on past failures. */
    method Shutdown() returns (ok: bool, ghost closed: seq<string>, ghost failed: set<U64>)
      requires Valid()
      modifies `keys, `intact, repr, shared, tasks
      ensures Valid()
      ensures ok <==> failed == {}
      ensures CS.Enabled(old(View()), CS.ShutDown(closed, failed))
      ensures View() == CS.Apply(old(View()), CS.ShutDown(closed, failed))
      ensures shared.services == map[]
      ensures forall s :: s in visitors ==> visitors[s].shutdownRequested
    {
      hide CS.Apply, CS.Inside, CS.Enabled, Held, Through, KeySet, Closes, NoDup;
      SameServices();
      ok, closed, failed := true, [], {};
      ghost var before := View();
      var todo := visitors.Keys;
      NothingThrough(before);
      assert visitors.Keys - todo == {};
      while todo != {}
        invariant visitors == old(visitors) && repr == old(repr) && intact == old(intact) && todo <= visitors.Keys
        invariant Held() && (ok <==> failed == {})
        invariant Through(before, visitors.Keys - todo, closed, failed, keys, shared.services)
        invariant tasks.sent == before.tasks + Closes(closed)
        invariant (tasks.refused == [] <==> before.alive && failed == {}) && (!before.alive ==> closed == [])
        invariant forall s :: s in visitors && s !in todo ==> visitors[s].shutdownRequested
        decreases todo
      {
        var s :| s in todo;
        ghost var done, held, index := visitors.Keys - todo, keys, shared.services;
        SameServices();
        todo := todo - {s};
        assert visitors.Keys - todo == done + {s};
        var fine;
        ghost var here;
        fine, here := ShutdownOne(s);
        ThroughOneMore(before, done, closed, failed, held, index, s, here, fine);
        ClosesAppend(before.tasks, closed, here);
        closed := closed + here;
        if !fine {
          ok, failed := false, failed + {s};
        }
      }
      intact := intact && failed == {};
      assert visitors.Keys - todo == before.keys.Keys;
      ThroughAll(before, closed, failed, keys, shared.services);
    }

    lemma SameServices()
      requires Held()
      ensures keys.Keys == visitors.Keys
    {
    }

    method ShutdownOne(service: U64) returns (ok: bool, ghost closed: seq<string>)
      requires Held() && service in visitors
      modifies `keys, repr, shared, tasks
      ensures Held()
      ensures keys == old(keys)[service := if ok then {} else old(keys)[service]]
      ensures NoDup(closed)
      ensures KeySet(closed) <= old(keys)[service] && (ok <==> KeySet(closed) == old(keys)[service])
      ensures tasks.sent == old(tasks.sent) + Closes(closed)
      ensures tasks.refused == [] <==> old(tasks.refused) == [] && ok
      ensures old(tasks.refused) != [] ==> closed == []
      ensures shared.services == old(shared.services) - old(keys)[service]
      ensures visitors[service].shutdownRequested
      ensures forall s :: s in visitors && s != service ==>
                visitors[s].shutdownRequested == old(visitors[s].shutdownRequested)
    {
      var visitor := visitors[service];
      visitor.shutdownRequested := true;
      ghost var refused;
      ok, closed, refused := visitor.ShutdownConnections(tasks);
      assert refused != [] ==> refused[0] in KeySet(refused);
      keys := keys[service := visitor.proxyKeys];
    }
  }

  ghost function KeysAmong(keys: map<U64, set<string>>, ids: set<U64>): set<string> {
    set s, k | s in keys && k in keys[s] && s in ids :: k
  }

  /** A shutdown that has been through some of the services: what they hold, and the index. */
  ghost predicate Emptied(c: CS.Client, done: set<U64>, failed: set<U64>,
                          keys: map<U64, set<string>>, index: map<string, U64>) {
    && keys.Keys == c.keys.Keys && failed <= done <= keys.Keys
    && (forall s :: s in keys ==> keys[s] == if s in done && s !in failed then {} else c.keys[s])
    && index == c.index - KeysAmong(c.keys, done)
    && (forall s :: s in failed ==> c.keys[s] != {})
  }

  /** And the Closes it sent. */
  ghost predicate ClosesSent(keys: map<U64, set<string>>, done: set<U64>, closed: seq<string>, failed: set<U64>) {
    && done <= keys.Keys
    && KeySet(closed) <= KeysAmong(keys, done)
    && (forall s :: s in done && s !in failed ==> keys[s] <= KeySet(closed))
    && (forall k :: multiset(closed)[k] <= |HoldersAmong(keys, done, k)|)
  }

  ghost predicate Through(c: CS.Client, done: set<U64>, closed: seq<string>, failed: set<U64>,
                          keys: map<U64, set<string>>, index: map<string, U64>) {
    Emptied(c, done, failed, keys, index) && ClosesSent(c.keys, done, closed, failed)
  }

  function HoldersAmong(keys: map<U64, set<string>>, ids: set<U64>, k: string): set<U64> {
    set s | s in ids && s in keys && k in keys[s]
  }

  lemma HoldersOneMore(keys: map<U64, set<string>>, ids: set<U64>, s: U64,
                       closed: seq<string>, here: seq<string>, k: string)
    requires s in keys && s !in ids && NoDup(here) && KeySet(here) <= keys[s]
    requires multiset(closed)[k] <= |HoldersAmong(keys, ids, k)|
    ensures multiset(closed + here)[k] <= |HoldersAmong(keys, ids + {s}, k)|
  {
    CountInNoDup(here, k);
    var (before, after) := (HoldersAmong(keys, ids, k), HoldersAmong(keys, ids + {s}, k));
    if k in keys[s] {
      assert after == before + {s};
    } else {
      assert k !in KeySet(here);
      assert after == before;
    }
  }

  lemma EmptiedOneMore(c: CS.Client, done: set<U64>, failed: set<U64>,
                       keys: map<U64, set<string>>, index: map<string, U64>, s: U64, ok: bool)
    requires Emptied(c, done, failed, keys, index) && s in c.keys && s !in done
    requires s in keys && (keys[s] == {} ==> ok)
    ensures keys[s] == c.keys[s]
    ensures Emptied(c, done + {s}, if ok then failed else failed + {s},
                    keys[s := if ok then {} else keys[s]], index - keys[s])
  {
    KeysAmongOneMore(c.keys, done, s);
    DropUnion(c.index, KeysAmong(c.keys, done), c.keys[s]);
  }

  lemma ClosesSentOneMore(keys: map<U64, set<string>>, done: set<U64>, closed: seq<string>, failed: set<U64>,
                          s: U64, here: seq<string>, ok: bool)
    requires ClosesSent(keys, done, closed, failed) && s in keys && s !in done
    requires NoDup(here) && KeySet(here) <= keys[s] && (ok ==> KeySet(here) == keys[s])
    ensures ClosesSent(keys, done + {s}, closed + here, if ok then failed else failed + {s})
  {
    hide HoldersAmong, NoDup;
    KeysAmongOneMore(keys, done, s);
    assert KeySet(closed + here) == KeySet(closed) + KeySet(here);
    forall k
      ensures multiset(closed + here)[k] <= |HoldersAmong(keys, done + {s}, k)|
    {
      HoldersOneMore(keys, done, s, closed, here, k);
    }
  }

  lemma ThroughOneMore(c: CS.Client, done: set<U64>, closed: seq<string>, failed: set<U64>,
                       keys: map<U64, set<string>>, index: map<string, U64>,
                       s: U64, here: seq<string>, ok: bool)
    requires Through(c, done, closed, failed, keys, index) && s in c.keys && s !in done
    requires s in keys && NoDup(here) && KeySet(here) <= keys[s] && (ok <==> KeySet(here) == keys[s])
    ensures Through(c, done + {s}, closed + here, if ok then failed else failed + {s},
                    keys[s := if ok then {} else keys[s]], index - keys[s])
  {
    hide Emptied, ClosesSent, NoDup;
    EmptiedOneMore(c, done, failed, keys, index, s, ok);
    ClosesSentOneMore(c.keys, done, closed, failed, s, here, ok);
  }

  lemma KeysAmongOneMore(keys: map<U64, set<string>>, ids: set<U64>, s: U64)
    requires s in keys
    ensures KeysAmong(keys, ids + {s}) == KeysAmong(keys, ids) + keys[s]
  {
    forall k
      ensures k in KeysAmong(keys, ids + {s}) <==> k in KeysAmong(keys, ids) || k in keys[s]
    {
      if k in KeysAmong(keys, ids + {s}) {
        var t :| t in keys && k in keys[t] && t in ids + {s};
        assert t in ids ==> k in KeysAmong(keys, ids);
      }
    }
  }

  lemma NothingThrough(c: CS.Client)
    ensures Through(c, {}, [], {}, c.keys, c.index) && c.tasks == c.tasks + Closes([])
  {
    assert KeysAmong(c.keys, {}) == {};
  }

  lemma ShutDownEnabled(c: CS.Client, closed: seq<string>, failed: set<U64>)
    requires ClosesSent(c.keys, c.keys.Keys, closed, failed) && (!c.alive ==> closed == [])
    requires failed <= c.keys.Keys && forall s :: s in failed ==> c.keys[s] != {}
    ensures CS.Enabled(c, CS.ShutDown(closed, failed))
  {
    assert KeysAmong(c.keys, c.keys.Keys) == CS.AllKeys(c);
    assert forall k :: HoldersAmong(c.keys, c.keys.Keys, k) == CS.Holders(c.keys, k);
  }

  /** Having been through all services, it is a shutdown's effect. */
  lemma ThroughAll(c: CS.Client, closed: seq<string>, failed: set<U64>,
                   keys: map<U64, set<string>>, index: map<string, U64>)
    requires CS.Inside(c) && Through(c, c.keys.Keys, closed, failed, keys, index) && (!c.alive ==> closed == [])
    ensures CS.Enabled(c, CS.ShutDown(closed, failed))
    ensures var c' := CS.Client(keys, index, c.tasks + Closes(closed), c.alive && failed == {},
                                c.intact && failed == {});
            && c' == CS.Apply(c, CS.ShutDown(closed, failed))
            && CS.Inside(c') && index == map[]
  {
    hide ClosesSent, CS.Enabled, Closes;
    ShutDownEnabled(c, closed, failed);
    assert KeysAmong(c.keys, c.keys.Keys) == CS.AllKeys(c);
    CS.ApplyKeepsInside(c, CS.ShutDown(closed, failed));
    assert keys == map s | s in c.keys :: if s in failed then c.keys[s] else {};
  }

  lemma DropUnion(m: map<string, U64>, a: set<string>, b: set<string>)
    ensures m - a - b == m - (a + b)
  {
  }
}
