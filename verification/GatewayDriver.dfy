/** Every sequence of calls to the gateway's stores and manager is a run of the gateway machine. */
module GatewayDriver {
  import opened Types
  import opened Registry
  import opened GatewayState
  import opened GatewayVisitor
  import opened GatewayManager
  import opened GatewayRuns
  import opened Authorization
  import opened Repositories
  import Executor

  datatype Call =
    | PutUser(user: User)
    | DeleteUser(userId: U64)
    | PutAccess(access: ServiceAccess)
    | DeleteAccess(userId: U64, serviceId: U64)
    | Startup(service: Service)
    | CreateConn(serviceId: U64, conn: ClientConn, attempt: Attempt)
    | AcceptConn(serviceId: U64, conn: ClientConn, net: Network)
    | CloseProxy(key: string)
    | Shutdown(forUser: Option<U64>, forService: Option<U64>)

  /** The gateway has come from `start` by the events `es`. */
  ghost predicate Arrived(mgr: GatewayServiceMgr, start: Gateway, es: seq<Event>)
    reads mgr, mgr.userRepo, mgr.accessRepo, mgr.shared, mgr.tasks, mgr.repr
  {
    mgr.Valid() && Feasible(start, es) && mgr.View() == Run(start, es)
  }

  /** The events that a call may add: one of its own kind, and none only where the call may fail. */
  ghost predicate Made(g: Gateway, call: Call, es: seq<Event>, es': seq<Event>) {
    match call
    case PutUser(user) => es' == es + [UserPut(user)]
    case DeleteUser(id) => es' == es + [UserDeleted(id)]
    case PutAccess(access) => es' == es + [AccessPut(access)]
    case DeleteAccess(user, service) => es' == es + [AccessDeleted(user, service)]
    case Startup(service) => es' == es || es' == es + [Started(service.id)]
    case CreateConn(s, conn, attempt) =>
      es' == if s in g.services && !HasSessionAt(g.services[s].sessions, AddrsOf(conn))
             then es + [ConnCreated(s, AddrsOf(conn), attempt)] else es
    case AcceptConn(s, conn, _) =>
      || es' == es
      || (&& |es'| == |es| + 1 && es <= es' && es'[|es|].ConnAccepted?
          && es'[|es|].service == s && es'[|es|].addrs == AddrsOf(conn))
    case CloseProxy(key) => es' == es + [ProxyClosed(key)]
    case Shutdown(u, s) =>
      && |es'| == |es| + 1 && es <= es' && es'[|es|].ShutDown?
      && es'[|es|].forUser == u && es'[|es|].forService == s
  }

  /** The events are those of the calls, one call after the other. */
  ghost predicate AllMade(start: Gateway, calls: seq<Call>, es: seq<Event>) {
    if calls == [] then es == []
    else exists n: nat ::
           && n <= |es| && Feasible(start, es[..n])
           && AllMade(start, calls[..|calls| - 1], es[..n])
           && Made(Run(start, es[..n]), calls[|calls| - 1], es[..n], es)
  }

  lemma NoneMade(start: Gateway)
    ensures AllMade(start, [], [])
  {
  }

  lemma AllMadeSnoc(start: Gateway, calls: seq<Call>, call: Call, es: seq<Event>, es': seq<Event>)
    requires AllMade(start, calls, es) && Feasible(start, es) && es <= es' && Made(Run(start, es), call, es, es')
    ensures AllMade(start, calls + [call], es')
  {
    hide Made, Feasible, Run;
    assert (calls + [call])[..|calls|] == calls && es'[..|es|] == es;
  }

  /** The connection is one the network delivers: its pair and its key are not of a registered session. */
  ghost predicate Delivered(g: Gateway, s: U64, addrs: ProxyAddrs, key: Option<string>) {
    && s in g.services
    && (key.Some? ==> !HasSessionAt(g.services[s].sessions, addrs) && !HasSession(g, key.value))
  }

  /** Changes of the stores. */
  method Administer(mgr: GatewayServiceMgr, call: Call, ghost start: Gateway, ghost es: seq<Event>)
    returns (ghost es': seq<Event>)
    requires Arrived(mgr, start, es)
    requires call.PutUser? || call.DeleteUser? || call.PutAccess? || call.DeleteAccess?
    modifies mgr.userRepo, mgr.accessRepo
    ensures Arrived(mgr, start, es') && es <= es' && Made(old(mgr.View()), call, es, es')
  {
    hide GatewayServiceMgr.PortsOk, GatewayServiceMgr.VisitorsOk, Consistent;
    ghost var event :=
      match call
      case PutUser(user) => Event.UserPut(user)
      case DeleteUser(id) => Event.UserDeleted(id)
      case PutAccess(access) => Event.AccessPut(access)
      case DeleteAccess(user, service) => Event.AccessDeleted(user, service);
    RunExtends(start, es, event);
    ApplyKeepsConsistent(mgr.View(), event);
    match call {
      case PutUser(user) => var _ := mgr.userRepo.Put(user);
      case DeleteUser(id) => var _ := mgr.userRepo.Delete(id);
      case PutAccess(access) => var _ := mgr.accessRepo.Put(access);
      case DeleteAccess(user, service) => var _ := mgr.accessRepo.Delete(user, service);
    }
    return es + [event];
  }

  /**
   * One call. A connection whose address pair or key still belongs to a registered session is one the
   * network does not deliver.
   */
  method Make(mgr: GatewayServiceMgr, call: Call, ghost start: Gateway, ghost es: seq<Event>)
    returns (ghost es': seq<Event>)
    requires Arrived(mgr, start, es)
    modifies mgr, mgr.userRepo, mgr.accessRepo, mgr.shared, mgr.tasks, mgr.repr
    ensures Arrived(mgr, start, es') && es <= es' && fresh(mgr.repr - old(mgr.repr))
    ensures Made(old(mgr.View()), call, es, es')
    ensures call.Startup? && es' == es ==>
              call.service.id !in mgr.ports && mgr.sharedPort.None? && mgr.nextPort > mgr.lastPort
    ensures old(mgr.tasks.refused) <= mgr.tasks.refused
  {
    hide GatewayServiceMgr.Valid, Apply, Enabled, Feasible, Run;
    es' := es;
    match call {
      case Startup(service) =>
        StartedIsEnabled(mgr.View(), service.id);
        RunExtends(start, es, Started(service.id));
        var port := mgr.Startup(service);
        if port.Some? {
          es' := es + [Started(service.id)];
        }
      case CreateConn(service, conn, attempt) =>
        es' := Create(mgr, service, conn, attempt, start, es);
      case AcceptConn(service, conn, net) =>
        es' := Accept(mgr, service, conn, net, start, es);
      case CloseProxy(key) =>
        ClosedIsEnabled(mgr.View(), key);
        RunExtends(start, es, ProxyClosed(key));
        mgr.OnClosedProxy(key);
        es' := es + [ProxyClosed(key)];
      case Shutdown(forUser, forService) =>
        ghost var closed, refused;
        var ok;
        ok, closed, refused := mgr.ShutdownConnections(forUser, forService);
        RunExtends(start, es, ShutDown(forUser, forService, closed, refused));
        es' := es + [ShutDown(forUser, forService, closed, refused)];
      case _ =>
        es' := Administer(mgr, call, start, es);
    }
  }

  lemma StartedIsEnabled(g: Gateway, id: U64)
    ensures Enabled(g, Started(id))
  {
  }

  lemma ClosedIsEnabled(g: Gateway, key: string)
    ensures Enabled(g, ProxyClosed(key))
  {
  }

  method Create(mgr: GatewayServiceMgr, service: U64, conn: ClientConn, attempt: Attempt,
                ghost start: Gateway, ghost es: seq<Event>) returns (ghost es': seq<Event>)
    requires Arrived(mgr, start, es)
    modifies mgr`services, mgr.repr
    ensures Arrived(mgr, start, es') && es <= es'
    ensures Made(old(mgr.View()), CreateConn(service, conn, attempt), es, es')
  {
    hide ServiceVisitor.Valid, GatewayServiceMgr.PortsOk, Consistent, Apply, Enabled, Feasible, Run, HasSessionAt;
    if service in mgr.visitors {
      mgr.visitors[service].NewIffNoSession("", AddrsOf(conn));
      if mgr.visitors[service].HasAddrs(AddrsOf(conn)) {
        return es;
      }
    }
    var r := mgr.CreateClientConn(service, conn, attempt);
    if r.None? {
      return es;
    }
    RunExtends(start, es, ConnCreated(service, AddrsOf(conn), attempt));
    return es + [ConnCreated(service, AddrsOf(conn), attempt)];
  }

  lemma NoVisitorHasKey(mgr: GatewayServiceMgr, key: string)
    requires mgr.Valid() && forall s :: s in mgr.visitors ==> key !in mgr.visitors[s].addrsByKey
    ensures !HasSession(mgr.View(), key)
  {
    hide ServiceVisitor.Valid;
    forall s | s in mgr.visitors
      ensures key !in mgr.services[s].sessions
    {
      mgr.visitors[s].NewIffNoSession(key, ("", ""));
    }
  }

  lemma SomeVisitorHasKey(mgr: GatewayServiceMgr, key: string)
    requires mgr.Valid() && exists s :: s in mgr.visitors && key in mgr.visitors[s].addrsByKey
    ensures HasSession(mgr.View(), key)
  {
    hide ServiceVisitor.Valid;
    var s :| s in mgr.visitors && key in mgr.visitors[s].addrsByKey;
    mgr.visitors[s].NewIffNoSession(key, ("", ""));
    assert key in mgr.services[s].sessions;
  }

  method Accept(mgr: GatewayServiceMgr, service: U64, conn: ClientConn, net: Network,
                ghost start: Gateway, ghost es: seq<Event>) returns (ghost es': seq<Event>)
    requires Arrived(mgr, start, es)
    modifies mgr`services, mgr.shared, mgr.tasks, mgr.repr
    ensures Arrived(mgr, start, es') && es <= es' && old(mgr.tasks.refused) <= mgr.tasks.refused
    ensures Made(old(mgr.View()), AcceptConn(service, conn, net), es, es')
    ensures service in old(mgr.visitors) ==>
              var key := RequestKey(old(mgr.visitors)[service].service.transport, conn, net);
              Delivered(old(mgr.View()), service, AddrsOf(conn), key) && es' == es ==>
              mgr.tasks.refused == old(mgr.tasks.refused) + OpenFor(key)
  {
    hide ServiceVisitor.Valid, GatewayServiceMgr.PortsOk, Consistent, Apply, Enabled, Feasible, Run, HasSessionAt,
      HasSession, RequestKey, AddrsOf, Added, ServiceVisitor.Maps, ServiceVisitor.HasAddrs;
    if service !in mgr.visitors {
      return es;
    }
    var visitor := mgr.visitors[service];
    var key := visitor.ReachService(conn, net);
    if key.Some? {
      visitor.NewIffNoSession(key.value, AddrsOf(conn));
      if visitor.HasAddrs(AddrsOf(conn)) {
        return es;
      }
      if exists s | s in mgr.visitors :: key.value in mgr.visitors[s].addrsByKey {
        SomeVisitorHasKey(mgr, key.value);
        return es;
      }
      NoVisitorHasKey(mgr, key.value);
    }
    var outcome := mgr.OnConnAccepted(service, conn, net);
    if outcome.NotSent? {
      return es;
    }
    RunExtends(start, es, ConnAccepted(service, AddrsOf(conn), key.value, outcome));
    return es + [ConnAccepted(service, AddrsOf(conn), key.value, outcome)];
  }

  /**
   * Any calls, in any order and with any outcomes, make up a run: what holds of runs holds of the gateway.
   * Connections that the network does not deliver are passed over.
   */
  method Drive(mgr: GatewayServiceMgr, calls: seq<Call>) returns (ghost es: seq<Event>)
    requires mgr.Valid()
    modifies mgr, mgr.userRepo, mgr.accessRepo, mgr.shared, mgr.tasks, mgr.repr
    ensures Arrived(mgr, old(mgr.View()), es) && fresh(mgr.repr - old(mgr.repr))
    ensures AllMade(old(mgr.View()), calls, es)
    ensures old(mgr.tasks.refused) <= mgr.tasks.refused
  {
    hide GatewayServiceMgr.Valid, Made, AllMade;
    ghost var start := mgr.View();
    es := [];
    NoneMade(start);
    assert calls[..0] == [];
    for i := 0 to |calls|
      invariant Arrived(mgr, start, es) && fresh(mgr.repr - old(mgr.repr))
      invariant AllMade(start, calls[..i], es)
      invariant old(mgr.tasks.refused) <= mgr.tasks.refused
    {
      ghost var before := es;
      es := Make(mgr, calls[i], start, es);
      AllMadeSnoc(start, calls[..i], calls[i], before, es);
      assert calls[..i + 1] == calls[..i] + [calls[i]];
    }
    assert calls[..|calls|] == calls;
  }

  /**
   * A gateway from its start on, through any calls: its queue is balanced, its index holds the keys of the
   * sessions and the leaked keys, and its sessions and pending pairs were granted when they were accepted.
   */
  method Serve(userRepo: UserRepo, accessRepo: AccessRepo, range: Option<(U16, U16)>, serverPort: U16,
               calls: seq<Call>) returns (mgr: GatewayServiceMgr, ghost start: Gateway, ghost es: seq<Event>)
    requires userRepo.Valid() && accessRepo.Valid()
    modifies userRepo, accessRepo
    ensures Initial(start) && start.users == old(userRepo.users) && start.accesses == old(accessRepo.accesses)
    ensures Arrived(mgr, start, es) && AllMade(start, calls, es)
    ensures Executor.Balanced(mgr.tasks.sent)
    ensures AllGranted(start, es, mgr.View().services)
    ensures forall k :: k in mgr.shared.services <==> HasSession(mgr.View(), k) || Leaked(start, es, k)
  {
    hide GatewayServiceMgr.Valid, Apply, Enabled, Run, HasSession, AllGranted, Leaked, Executor.Balanced;
    mgr := new GatewayServiceMgr(userRepo, accessRepo, range, serverPort);
    start := mgr.View();
    es := Drive(mgr, calls);
    RunBalanced(start, es);
    RunGrants(start, es);
    forall k
      ensures k in mgr.shared.services <==> HasSession(mgr.View(), k) || Leaked(start, es, k)
    {
      RunIndex(start, es, k);
    }
  }
}
