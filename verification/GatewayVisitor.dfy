/**
 * A gateway service visitor: crates/gateway/src/service/proxy/tcp_proxy.rs, and udp_proxy.rs, which
 * differs only in how it reaches the service and builds the session key.
 */
module GatewayVisitor {
  import opened Types
  import opened Registry
  import opened GatewayState
  import opened ProxyKeys
  import opened Authorization
  import opened SharedState
  import Repositories

  /** The two ends of an accepted TLS connection, where the socket can still name them. */
  datatype ClientConn = ClientConn(peer: Option<Addr>, local: Option<Addr>)

  function AddrsOf(conn: ClientConn): ProxyAddrs {
    (OrElse(conn.peer, "(NA)"), OrElse(conn.local, "(NA)"))
  }

  /** One attempt to reach a resolved service address. */
  datatype Connect = Refused | Connected(addr: Option<Addr>, nonblocking: bool)

  /** What the network did: name resolution, the UDP reply socket, the attempts, cloning the streams. */
  datatype Network = Network(resolved: Option<seq<Connect>>, replySocket: Option<Option<Addr>>, cloned: bool)

  ghost predicate IsFirstConnected(attempts: seq<Connect>, i: nat) {
    && i < |attempts| && attempts[i].Connected?
    && forall j :: 0 <= j < i ==> attempts[j].Refused?
  }

  ghost function FirstConnected(attempts: seq<Connect>): Option<Connect> {
    if i: nat :| IsFirstConnected(attempts, i) then Some(attempts[i]) else None
  }

  /** The key under which an Open is requested, unless an earlier step fails. */
  ghost function RequestKey(transport: Transport, conn: ClientConn, net: Network): Option<string> {
    if net.resolved.None? || (transport.UDP? && net.replySocket.None?) then None
    else match FirstConnected(net.resolved.value)
      case None => None
      case Some(c) =>
        if !c.nonblocking || !net.cloned then None
        else if transport.TCP? then Some(KeyValue(TcpAndTcp, conn.peer, c.addr))
        else Some(KeyValue(TcpAndUdp, net.replySocket.value, c.addr))
  }

  /**
   * The key is that of the two ends the proxy joins: the client's address and the service's for TCP, the
   * reply socket's and the service's for UDP, the service being reached at the first address that connects.
   */
  lemma RequestKeyIff(transport: Transport, conn: ClientConn, net: Network, key: string)
    ensures RequestKey(transport, conn, net) == Some(key)
       <==> && net.resolved.Some? && net.cloned
            && exists i: nat ::
                 && IsFirstConnected(net.resolved.value, i) && net.resolved.value[i].nonblocking
                 && match transport
                    case TCP => key == KeyValue(TcpAndTcp, conn.peer, net.resolved.value[i].addr)
                    case UDP =>
                      && net.replySocket.Some?
                      && key == KeyValue(TcpAndUdp, net.replySocket.value, net.resolved.value[i].addr)
  {
    hide KeyValue;
    if net.resolved.Some? {
      forall i: nat, j: nat | IsFirstConnected(net.resolved.value, i) && IsFirstConnected(net.resolved.value, j)
        ensures i == j
      {
      }
    }
  }

  /** The recorded pair is the client's address and the gateway's own, and it names them. */
  lemma AddrsNameEnds(conn: ClientConn, other: ClientConn)
    ensures conn.peer.Some? ==> AddrsOf(conn).0 == conn.peer.value
    ensures conn.local.Some? ==> AddrsOf(conn).1 == conn.local.value
    ensures AddrsOf(conn) == AddrsOf(other) <==> conn == other
  {
    assert "(NA)"[0] == '(';
  }

  /** The Open requested under a key, if there is one. */
  function OpenFor(key: Option<string>): seq<Task> {
    match key
    case None => []
    case Some(k) => [Open(k)]
  }

  /** The attempt loop: the first address that connects is taken. */
  method ConnectToService(attempts: seq<Connect>) returns (stream: Option<Connect>)
    ensures stream == FirstConnected(attempts)
  {
    for i := 0 to |attempts|
      invariant forall j :: 0 <= j < i ==> attempts[j].Refused?
    {
      if attempts[i].Connected? {
        assert IsFirstConnected(attempts, i);
        return Some(attempts[i]);
      }
    }
    return None;
  }

  class ServiceVisitor {
    const service: Service
    const shared: SharedIndex
    var usersByAddrs: map<ProxyAddrs, U64>
    var addrsByKey: map<string, ProxyAddrs>
    var keysByUser: map<U64, seq<string>>

    ghost function Maps(): Index
      reads this
    {
      Index(usersByAddrs, addrsByKey, keysByUser)
    }

    /** The sessions and pending pairs that the three maps stand for. */
    ghost var state: ServiceState

    ghost predicate Valid()
      reads this
    {
      && Coupled(Maps())
      && state == ServiceState(Sessions(Maps(), service.id), Pending(Maps()))
    }

    constructor (service: Service, shared: SharedIndex)
      ensures Valid() && this.service == service && this.shared == shared && state == NEW_SERVICE
    {
      this.service := service;
      this.shared := shared;
      usersByAddrs, addrsByKey, keysByUser := map[], map[], map[];
      state := NEW_SERVICE;
    }

    /**
     * Phase one: authorize the connection and remember its user under its address pair. A pair that is
     * not of a registered session becomes pending.
     */
    method CreateClientConn(conn: ClientConn, attempt: Attempt,
                            userRepo: Repositories.UserRepo, accessRepo: Repositories.AccessRepo)
      returns (r: AuthResult)
      requires Valid() && userRepo.Valid() && accessRepo.Valid()
      modifies this
      ensures r == Authorize(attempt, userRepo.users, accessRepo.accesses, Some(service.id))
      ensures Maps() == if r.Denied? then old(Maps()) else Accepted(old(Maps()), AddrsOf(conn), r.user.id)
      ensures r.Denied? ==> Valid() && state == old(state)
      ensures r.Authorized? && !HasSessionAt(old(state.sessions), AddrsOf(conn)) ==>
                Valid() && state == old(state).(pending := old(state.pending)[AddrsOf(conn) := r.user.id])
    {
      var visitor := new ClientConnVisitor(userRepo, accessRepo);
      r := visitor.ProcessAuthorization(attempt, Some(service.id));
      if r.Denied? {
        return;
      }
      var user := visitor.user.value.id;
      RegisteredIffSessionAt(AddrsOf(conn));
      if !IsRegistered(Maps(), AddrsOf(conn)) {
        AcceptedEffect(Maps(), AddrsOf(conn), user, service.id);
      }
      usersByAddrs := usersByAddrs[AddrsOf(conn) := user];
      state := state.(pending := state.pending[AddrsOf(conn) := user]);
    }

    lemma RegisteredIffSessionAt(addrs: ProxyAddrs)
      requires Valid()
      ensures IsRegistered(Maps(), addrs) <==> HasSessionAt(state.sessions, addrs)
    {
      if IsRegistered(Maps(), addrs) {
        var k :| k in addrsByKey && addrsByKey[k] == addrs;
        assert k in state.sessions;
      }
      if HasSessionAt(state.sessions, addrs) {
        var k :| k in state.sessions && state.sessions[k].addrs == addrs;
        assert k in addrsByKey && addrsByKey[k] == addrs;
      }
    }

    /** Connect to the service and name the session. */
    method ReachService(conn: ClientConn, net: Network) returns (key: Option<string>)
      ensures key == RequestKey(service.transport, conn, net)
    {
      if net.resolved.None? || (service.transport.UDP? && net.replySocket.None?) {
        return None;
      }
      var stream := ConnectToService(net.resolved.value);
      if stream.None? || !stream.value.nonblocking || !net.cloned {
        return None;
      }
      return Some(if service.transport.TCP? then KeyValue(TcpAndTcp, conn.peer, stream.value.addr)
                  else KeyValue(TcpAndUdp, net.replySocket.value, stream.value.addr));
    }

    /** The pair belongs to a session. */
    predicate HasAddrs(addrs: ProxyAddrs)
      reads this
    {
      exists k | k in addrsByKey :: addrsByKey[k] == addrs
    }

    predicate IsNew(key: string, addrs: ProxyAddrs)
      reads this
    {
      key !in addrsByKey && !HasAddrs(addrs)
    }

    lemma NewIffNoSession(key: string, addrs: ProxyAddrs)
      requires Valid()
      ensures key in addrsByKey <==> key in state.sessions
      ensures HasAddrs(addrs) <==> HasSessionAt(state.sessions, addrs)
    {
      RegisteredIffSessionAt(addrs);
    }

    /** Phase two: connect to the service, request the proxy and register the session. */
    method OnConnAccepted(conn: ClientConn, net: Network, tasks: TaskSender) returns (outcome: Outcome)
      requires Valid()
      modifies this, shared, tasks
      ensures outcome.NotSent? ==>
                && Valid() && state == old(state) && Maps() == old(Maps())
                && shared.services == old(shared.services) && tasks.sent == old(tasks.sent)
      ensures outcome.NotSent? ==>
                tasks.refused == old(tasks.refused) + OpenFor(RequestKey(service.transport, conn, net))
      ensures !outcome.NotSent? ==> tasks.refused == old(tasks.refused) == []
      ensures !outcome.NotSent? ==>
                && RequestKey(service.transport, conn, net).Some?
                && var (key, addrs) := (RequestKey(service.transport, conn, net).value, AddrsOf(conn));
                && tasks.sent == old(tasks.sent) + [Open(key)]
                && shared.services == old(shared.services)[key := service.id]
                && (outcome.Registered? <==> addrs in old(usersByAddrs))
                && Maps() == (if outcome.Registered? then Added(old(Maps()), key, addrs) else old(Maps()))
                && (key !in old(state.sessions) && !HasSessionAt(old(state.sessions), addrs) ==>
                      && Valid() && (outcome.Registered? <==> addrs in old(state.pending))
                      && state == if outcome.Orphaned? then old(state)
                                  else WithSession(old(state), key, addrs, service.id))
    {
      var key := ReachService(conn, net);
      if key.None? {
        return NotSent;
      }
      var sent := tasks.Send(Open(key.value));
      if !sent {
        return NotSent;
      }
      var known := SetUpMaps(key.value, AddrsOf(conn));
      return if known then Registered else Orphaned;
    }

    /** The map updates: the shared entry is made before the user is looked up, and stays if there is none. */
    method SetUpMaps(key: string, addrs: ProxyAddrs) returns (known: bool)
      requires Valid()
      modifies this, shared
      ensures shared.services == old(shared.services)[key := service.id]
      ensures known <==> addrs in old(usersByAddrs)
      ensures Maps() == if known then Added(old(Maps()), key, addrs) else old(Maps())
      ensures key !in old(state.sessions) && !HasSessionAt(old(state.sessions), addrs) ==>
                && Valid() && (known <==> addrs in old(state.pending))
                && state == if known then WithSession(old(state), key, addrs, service.id) else old(state)
    {
      NewIffNoSession(key, addrs);
      shared.services := shared.services[key := service.id];
      if addrs !in usersByAddrs {
        return false;
      }
      ghost var before := Maps();
      var user := usersByAddrs[addrs];
      if IsNew(key, addrs) {
        AddedEffect(before, key, addrs, service.id);
        state := WithSession(state, key, addrs, service.id);
      }
      addrsByKey := addrsByKey[key := addrs];
      if user in keysByUser {
        keysByUser := keysByUser[user := keysByUser[user] + [key]];
      } else {
        keysByUser := keysByUser[user := [key]];
      }
      assert Maps() == Added(before, key, addrs);
      return true;
    }

    /** The pairs listed for a user: those of its sessions and those still pending. */
    method GetProxyAddrsForUser(user: U64) returns (listed: seq<ProxyAddrs>)
      requires Valid()
      ensures NoDup(listed)
      ensures forall a :: a in listed <==> ListsPair(state, a, user)
    {
      listed := [];
      var todo := usersByAddrs.Keys;
      while todo != {}
        invariant todo <= usersByAddrs.Keys
        invariant NoDup(listed)
        invariant forall a :: a in listed <==> a in usersByAddrs && usersByAddrs[a] == user && a !in todo
        decreases todo
      {
        var a :| a in todo;
        todo := todo - {a};
        if usersByAddrs[a] == user {
          listed := listed + [a];
        }
      }
      forall a
        ensures a in listed <==> ListsPair(state, a, user)
      {
        ListedIff(Maps(), service.id, a, user);
      }
    }

    /** The lookup of the user of a registered pair cannot fail: the index into the map is proved. */
    method RemoveProxyForKey(key: string) returns (removed: bool)
      requires Valid()
      modifies this, shared
      ensures Valid()
      ensures removed <==> key in old(state.sessions)
      ensures removed ==> state == old(state).(sessions := old(state.sessions) - {key})
      ensures removed ==> shared.services == old(shared.services) - {key}
      ensures !removed ==> state == old(state) && shared.services == old(shared.services)
    {
      if key !in addrsByKey {
        return false;
      }
      ghost var before := Maps();
      RemovedEffect(before, key, service.id);
      var addrs := addrsByKey[key];
      var user := usersByAddrs[addrs];
      if user in keysByUser {
        keysByUser := keysByUser[user := Retain(keysByUser[user], key)];
      }
      addrsByKey := addrsByKey - {key};
      usersByAddrs := usersByAddrs - {addrs};
      shared.services := shared.services - {key};
      state := state.(sessions := state.sessions - {key});
      assert Maps() == Removed(before, key);
      return true;
    }

    /**
     * Closes the sessions of the matching users, list by list in whatever order the map yields them,
     * and stops after the first list in which a send failed.
     */
    method ShutdownConnections(tasks: TaskSender, forUser: Option<U64>)
      returns (ok: bool, ghost closed: seq<string>, ghost refused: seq<string>)
      requires Valid()
      modifies this, shared, tasks
      ensures Valid()
      ensures NoDup(closed) && NoDup(refused) && KeySet(closed) !! KeySet(refused)
      ensures KeySet(closed) + KeySet(refused) <= MatchedKeys(old(state.sessions), forUser)
      ensures ok <==> refused == []
      ensures ok ==> KeySet(closed) == MatchedKeys(old(state.sessions), forUser)
      ensures exists users :: StoppedAfterOne(old(state.sessions), users, closed, refused)
                           && KeysOfUsers(old(state.sessions), users) == MatchedKeys(old(state.sessions), forUser)
      ensures state == old(state).(sessions := old(state.sessions) - KeySet(closed))
      ensures shared.services == old(shared.services) - KeySet(closed)
      ensures tasks.sent == old(tasks.sent) + Closes(closed)
      ensures tasks.refused == old(tasks.refused) + Closes(refused)
    {
      var lists := keysByUser;
      CoupledLists(Maps(), service.id);
      var matching := set u | u in lists && Matches(forUser, u);
      assert KeysOfUsers(state.sessions, matching) == MatchedKeys(state.sessions, forUser);
      ok, closed, refused := CloseLists(tasks, lists, matching);
    }

    /** The outer loop, over the lists as they were when the call began. */
    method CloseLists(tasks: TaskSender, lists: map<U64, seq<string>>, matching: set<U64>)
      returns (ok: bool, ghost closed: seq<string>, ghost refused: seq<string>)
      requires Valid() && ListsOf(lists, state.sessions) && matching <= lists.Keys
      modifies this, shared, tasks
      ensures Valid()
      ensures NoDup(closed) && NoDup(refused) && KeySet(closed) !! KeySet(refused)
      ensures KeySet(closed) + KeySet(refused) <= KeysOfUsers(old(state.sessions), matching)
      ensures ok <==> refused == []
      ensures ok ==> KeySet(closed) == KeysOfUsers(old(state.sessions), matching)
      ensures StoppedAfterOne(old(state.sessions), matching, closed, refused)
      ensures state == old(state).(sessions := old(state.sessions) - KeySet(closed))
      ensures shared.services == old(shared.services) - KeySet(closed)
      ensures tasks.sent == old(tasks.sent) + Closes(closed)
      ensures tasks.refused == old(tasks.refused) + Closes(refused)
    {
      hide Valid, ListsOf;
      closed, refused := [], [];
      var todo := matching;
      ghost var before := state;
      while todo != {}
        invariant Valid() && todo <= matching && refused == []
        invariant NoDup(closed) && KeySet(closed) == KeysOfUsers(before.sessions, matching - todo)
        invariant state == before.(sessions := before.sessions - KeySet(closed))
        invariant shared.services == old(shared.services) - KeySet(closed)
        invariant tasks.sent == old(tasks.sent) + Closes(closed)
        invariant tasks.refused == old(tasks.refused)
        decreases todo
      {
        var u :| u in todo;
        NextList(lists, before.sessions, matching, todo, u);
        ghost var done := matching - todo;
        todo := todo - {u};
        ghost var here;
        var failed;
        failed, here, refused := CloseList(tasks, lists[u]);
        DropAppend(before.sessions, closed, here);
        DropAppend(old(shared.services), closed, here);
        ClosesAppend(old(tasks.sent), closed, here);
        NoDupKeysAppend(closed, here);
        if failed {
          StopsAfterOne(before.sessions, matching, done, u, closed, here, refused);
          return false, closed + here, refused;
        }
        closed := closed + here;
      }
      return true, closed, refused;
    }

    /** One key of a list: its session goes exactly when its Close could be sent. */
    method CloseOne(tasks: TaskSender, key: string) returns (sent: bool)
      requires Valid() && key in state.sessions
      modifies this, shared, tasks
      ensures Valid()
      ensures sent ==>
                && state == old(state).(sessions := old(state.sessions) - {key})
                && shared.services == old(shared.services) - {key}
                && tasks.sent == old(tasks.sent) + [Close(key)] && tasks.refused == old(tasks.refused)
      ensures !sent ==>
                && state == old(state) && shared.services == old(shared.services)
                && tasks.sent == old(tasks.sent) && tasks.refused == old(tasks.refused) + [Close(key)]
    {
      sent := tasks.Send(Close(key));
      if sent {
        var _ := RemoveProxyForKey(key);
      }
    }

    /** The inner loop: one user's list, going on past failed sends. */
    method CloseList(tasks: TaskSender, keys: seq<string>)
      returns (failed: bool, ghost closed: seq<string>, ghost refused: seq<string>)
      requires Valid() && NoDup(keys) && KeySet(keys) <= state.sessions.Keys
      modifies this, shared, tasks
      ensures Valid()
      ensures Splits(keys, closed, refused)
      ensures failed <==> refused != []
      ensures !failed ==> KeySet(closed) == KeySet(keys)
      ensures state == old(state).(sessions := old(state.sessions) - KeySet(closed))
      ensures shared.services == old(shared.services) - KeySet(closed)
      ensures tasks.sent == old(tasks.sent) + Closes(closed)
      ensures tasks.refused == old(tasks.refused) + Closes(refused)
    {
      hide Valid;
      failed, closed, refused := false, [], [];
      for i := 0 to |keys|
        invariant Valid() && (failed <==> refused != [])
        invariant Splits(keys[..i], closed, refused)
        invariant state == old(state).(sessions := old(state.sessions) - KeySet(closed))
        invariant shared.services == old(shared.services) - KeySet(closed)
        invariant tasks.sent == old(tasks.sent) + Closes(closed)
        invariant tasks.refused == old(tasks.refused) + Closes(refused)
      {
        SplitsSnoc(keys, i, closed, refused);
        DropSnoc(old(state.sessions), closed, keys[i]);
        DropSnoc(old(shared.services), closed, keys[i]);
        ClosesSnoc(old(tasks.sent), closed, keys[i]);
        ClosesSnoc(old(tasks.refused), refused, keys[i]);
        var sent := CloseOne(tasks, keys[i]);
        if sent {
          closed := closed + [keys[i]];
        } else {
          failed, refused := true, refused + [keys[i]];
        }
      }
      assert keys[..|keys|] == keys && KeySet([]) == {};
    }
  }
}
