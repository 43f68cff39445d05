/** The gateway service manager over all service visitors: crates/gateway/src/service/manager.rs. */
module GatewayManager {
  import opened Types
  import opened Registry
  import opened GatewayState
  import opened GatewayVisitor
  import opened SharedState
  import opened Authorization
  import opened Repositories
  import Ports

  class GatewayServiceMgr {
    const userRepo: UserRepo
    const accessRepo: AccessRepo
    const shared: SharedIndex
    const tasks: TaskSender
    const sharedPort: Option<U16>
    const firstPort: U16
    const lastPort: U16
    var nextPort: U16
    var ports: map<U64, U16>
    var proxies: map<U64, U16>
    var visitors: map<U64, ServiceVisitor>

    /** What each visitor stands for, and the visitors themselves. */
    ghost var services: map<U64, ServiceState>
    ghost var repr: set<ServiceVisitor>

    /** Each visitor serves its own id and writes to the one shared index. */
    ghost predicate VisitorsOk()
      reads `visitors, `services, `repr, repr
    {
      && services.Keys == visitors.Keys
      && forall s :: s in visitors ==>
           && visitors[s] in repr
           && visitors[s].service.id == s && visitors[s].shared == shared
           && visitors[s].Valid() && visitors[s].state == services[s]
    }

    ghost predicate PortsOk()
      reads `ports, `proxies, `visitors, `nextPort
    {
      && ports.Keys == visitors.Keys && proxies == ports
      && (sharedPort.Some? ==> forall s :: s in ports ==> ports[s] == sharedPort.value)
      && (sharedPort.None? && lastPort < U16_MAX ==> Ports.InOrder(firstPort, nextPort, lastPort, ports))
    }

    ghost predicate Valid()
      reads this, userRepo, accessRepo, shared, tasks, repr
    {
      userRepo.Valid() && accessRepo.Valid() && PortsOk() && VisitorsOk() && Consistent(View())
    }

    lemma SameServices()
      requires VisitorsOk()
      ensures services.Keys == visitors.Keys
    {
    }

    /** The whole gateway as a value. */
    ghost function View(): Gateway
      reads this, userRepo, accessRepo, shared, tasks
    {
      Gateway(userRepo.users, accessRepo.accesses, services, shared.services, tasks.sent)
    }

    constructor (userRepo: UserRepo, accessRepo: AccessRepo, range: Option<(U16, U16)>, serverPort: U16)
      requires userRepo.Valid() && accessRepo.Valid()
      ensures Valid() && this.userRepo == userRepo && this.accessRepo == accessRepo
      ensures View() == Gateway(userRepo.users, accessRepo.accesses, map[], map[], [])
      ensures sharedPort == if range.Some? then None else Some(serverPort)
      ensures range.Some? ==> firstPort == range.value.0 && lastPort == range.value.1
      ensures fresh(shared) && fresh(tasks) && repr == {}
    {
      this.userRepo := userRepo;
      this.accessRepo := accessRepo;
      shared := new SharedIndex();
      tasks := new TaskSender();
      var (first, last) := match range
        case Some(r) => r
        case None => (Ports.DEFAULT_SERVICE_PORT_START, Ports.DEFAULT_SERVICE_PORT_END);
      sharedPort := if range.Some? then None else Some(serverPort);
      firstPort, nextPort, lastPort := first, first, last;
      ports, proxies, visitors := map[], map[], map[];
      services, repr := map[], {};
    }

    /** Starts the proxy of a service unless it runs already. No port is given out when none is left. */
    method Startup(service: Service) returns (port: Option<U16>)
      requires Valid()
      modifies this
      ensures Valid() && fresh(repr - old(repr))
      ensures port.None? <==> service.id !in old(ports) && sharedPort.None? && old(nextPort) > lastPort
      ensures port.None? ==> ports == old(ports) && View() == old(View())
      ensures port.Some? ==> View() == Apply(old(View()), Started(service.id))
      ensures port.Some? && service.id in old(ports) ==> ports == old(ports) && port.value == ports[service.id]
      ensures port.Some? && service.id !in old(ports) ==> ports == old(ports)[service.id := port.value]
      ensures sharedPort.Some? && port.Some? ==> port == sharedPort
      ensures sharedPort.None? ==>
                Ports.Allocator(nextPort, lastPort, ports)
                == Ports.Start(Ports.Allocator(old(nextPort), lastPort, old(ports)), service.id)
    {
      hide ServiceVisitor.Valid, Installable, Apply, Consistent, Ports.InOrder;
      StartedEffect(View(), service.id);
      if service.id in ports {
        return Some(ports[service.id]);
      }
      port := AllocatePort(service.id);
      if port.Some? {
        Install(service, port.value);
      }
    }

    /** The maps and the port counter are ready for a service to be entered with a port. */
    ghost predicate Installable(service: U64, port: U16)
      reads this
    {
      && ports.Keys == visitors.Keys && proxies == ports
      && (sharedPort.Some? ==> port == sharedPort.value && forall s :: s in ports ==> ports[s] == sharedPort.value)
      && (sharedPort.None? && lastPort < U16_MAX ==>
            Ports.InOrder(firstPort, nextPort, lastPort, ports[service := port]))
    }

    /** The shared port, or the next one of the range while there is one. */
    method AllocatePort(ghost service: U64) returns (port: Option<U16>)
      requires PortsOk() && service !in ports
      modifies `nextPort
      ensures port.None? <==> sharedPort.None? && old(nextPort) > lastPort
      ensures port.None? ==> PortsOk() && nextPort == old(nextPort)
      ensures sharedPort.Some? ==> port == sharedPort && nextPort == old(nextPort)
      ensures sharedPort.None? && port.Some? ==>
                port.value == old(nextPort) && nextPort == Ports.Bump(old(nextPort))
      ensures port.Some? ==> Installable(service, port.value)
    {
      if sharedPort.Some? {
        return sharedPort;
      }
      if nextPort > lastPort {
        return None;
      }
      if lastPort < U16_MAX {
        Ports.AllocationKeepsOrder(firstPort, nextPort, lastPort, ports, service);
      }
      port := Some(nextPort);
      nextPort := Ports.Bump(nextPort);
    }

    method Install(service: Service, port: U16)
      requires Installable(service.id, port) && VisitorsOk() && service.id !in visitors
      modifies `ports, `proxies, `visitors, `services, `repr
      ensures PortsOk() && VisitorsOk() && fresh(repr - old(repr))
      ensures ports == old(ports)[service.id := port]
      ensures services == old(services)[service.id := NEW_SERVICE]
    {
      hide VisitorsOk, Ports.InOrder;
      RecordPort(service.id, port);
      AddVisitor(service);
    }

    method AddVisitor(service: Service)
      requires VisitorsOk() && service.id !in visitors
      modifies `visitors, `services, `repr
      ensures VisitorsOk() && fresh(repr - old(repr))
      ensures visitors.Keys == old(visitors.Keys) + {service.id}
      ensures services == old(services)[service.id := NEW_SERVICE]
    {
      hide ServiceVisitor.Valid;
      var visitor := new ServiceVisitor(service, shared);
      visitors := visitors[service.id := visitor];
      services, repr := services[service.id := NEW_SERVICE], repr + {visitor};
    }

    method RecordPort(service: U64, port: U16)
      requires proxies == ports
      modifies `ports, `proxies
      ensures proxies == ports && ports == old(ports)[service := port]
      ensures ports.Keys == old(ports.Keys) + {service}
    {
      ports := ports[service := port];
      proxies := proxies[service := port];
    }

    /** A range below 65535 is used up exactly when it has as many services as ports. */
    lemma RangeExhaustedIff()
      requires Valid() && sharedPort.None? && lastPort < U16_MAX
      ensures nextPort > lastPort <==> |ports| >= lastPort - firstPort + 1
      ensures forall s, t :: s in ports && t in ports && s != t ==> ports[s] != ports[t]
      ensures forall s :: s in ports ==> firstPort <= ports[s] <= lastPort
    {
    }

    /** Whether the visitor of a service, if there is one, lists anything for a user. */
    method HasProxyForUserAndService(user: U64, service: U64) returns (has: bool)
      requires Valid()
      ensures has <==> HasPair(View(), user, service)
    {
      hide ServiceVisitor.Valid;
      if service !in visitors {
        return false;
      }
      var listed := visitors[service].GetProxyAddrsForUser(user);
      assert listed != [] ==> listed[0] in listed;
      return listed != [];
    }

    /** A proxy ended: the key is routed to its service, or to the id `u64::MAX` when it is unknown. */
    method OnClosedProxy(key: string)
      requires Valid()
      modifies `services, shared, repr
      ensures Valid()
      ensures View() == Apply(old(View()), ProxyClosed(key))
    {
      hide ServiceVisitor.Valid, Apply, Consistent;
      ProxyClosedEffect(View(), key);
      var service := if key in shared.services then shared.services[key] else U64_MAX;
      if service in visitors {
        Remove(service, key);
      }
    }

    method Remove(service: U64, key: string)
      requires VisitorsOk() && service in visitors
      modifies `services, shared, repr
      ensures VisitorsOk()
      ensures var st := old(services)[service];
              if key in st.sessions
              then && services == old(services)[service := st.(sessions := st.sessions - {key})]
                   && shared.services == old(shared.services) - {key}
              else services == old(services) && shared.services == old(shared.services)
    {
      hide ServiceVisitor.Valid;
      var visitor := visitors[service];
      ghost var before := services;
      var _ := visitor.RemoveProxyForKey(key);
      services := services[service := visitor.state];
      assert key !in before[service].sessions ==> services == before;
    }

    /**
     * Routes a new TLS connection to its service, which authorizes it. If its address pair is not of a
     * registered session, the gateway does what `Apply` says.
     */
    method CreateClientConn(service: U64, conn: ClientConn, attempt: Attempt) returns (r: Option<AuthResult>)
      requires Valid()
      modifies `services, repr
      ensures r.None? <==> service !in old(services)
      ensures r.None? ==> Valid() && View() == old(View())
      ensures r.Some? ==>
                && service in old(visitors) && visitors == old(visitors) && service in old(services)
                && r.value == Authorize(attempt, userRepo.users, accessRepo.accesses, Some(service))
                && visitors[service].Maps()
                   == (if r.value.Denied? then old(visitors[service].Maps())
                       else Accepted(old(visitors[service].Maps()), AddrsOf(conn), r.value.user.id))
                && (!HasSessionAt(old(services)[service].sessions, AddrsOf(conn)) ==>
                      && Valid()
                      && Enabled(old(View()), ConnCreated(service, AddrsOf(conn), attempt))
                      && View() == Apply(old(View()), ConnCreated(service, AddrsOf(conn), attempt)))
    {
      hide ServiceVisitor.Valid, Apply, Consistent, Authorize, HasSessionAt, Ports.InOrder, PortsOk;
      if service !in visitors {
        return None;
      }
      var visitor := visitors[service];
      ghost var before := View();
      var result := visitor.CreateClientConn(conn, attempt, userRepo, accessRepo);
      services := services[service := visitor.state];
      if !HasSessionAt(before.services[service].sessions, AddrsOf(conn)) {
        ConnCreatedEffect(before, service, AddrsOf(conn), attempt);
        assert result.Denied? ==> services == before.services;
        assert VisitorsOk();
      }
      return Some(result);
    }

    /**
     * Routes an authorized connection to its service, which registers it. If neither its address pair nor
     * its key is of a registered session, the gateway does what `Apply` says.
     */
    method OnConnAccepted(service: U64, conn: ClientConn, net: Network) returns (outcome: Outcome)
      requires Valid()
      modifies `services, shared, tasks, repr
      ensures outcome.NotSent? ==> Valid() && View() == old(View())
      ensures service !in old(visitors) ==> outcome.NotSent? && tasks.refused == old(tasks.refused)
      ensures service in old(visitors) && outcome.NotSent? ==>
                tasks.refused
                == old(tasks.refused) + OpenFor(RequestKey(old(visitors)[service].service.transport, conn, net))
      ensures !outcome.NotSent? ==> tasks.refused == old(tasks.refused) == []
      ensures !outcome.NotSent? ==>
                && service in old(visitors) && visitors == old(visitors) && service in old(services)
                && RequestKey(visitors[service].service.transport, conn, net).Some?
                && var (key, addrs) :=
                     (RequestKey(visitors[service].service.transport, conn, net).value, AddrsOf(conn));
                && tasks.sent == old(tasks.sent) + [Open(key)]
                && shared.services == old(shared.services)[key := service]
                && (outcome.Registered? <==> addrs in old(visitors[service].usersByAddrs))
                && visitors[service].Maps()
                   == (if outcome.Registered? then Added(old(visitors[service].Maps()), key, addrs)
                       else old(visitors[service].Maps()))
                && (!HasSessionAt(old(services)[service].sessions, addrs) && !HasSession(old(View()), key) ==>
                      && Valid()
                      && Enabled(old(View()), ConnAccepted(service, addrs, key, outcome))
                      && View() == Apply(old(View()), ConnAccepted(service, addrs, key, outcome)))
    {
      hide ServiceVisitor.Valid, Apply, Consistent, HasSessionAt, RequestKey, PortsOk, AddrsOf, Added,
        ServiceVisitor.Maps, VisitorsOk;
      SameServices();
      if service !in visitors {
        return NotSent;
      }
      ghost var key := RequestKey(visitors[service].service.transport, conn, net);
      ghost var before := View();
      outcome := Register(service, conn, net);
      if !outcome.NotSent?
         && !HasSessionAt(before.services[service].sessions, AddrsOf(conn)) && !HasSession(before, key.value) {
        ConnAcceptedEffect(before, service, AddrsOf(conn), key.value, outcome);
      }
    }

    method Register(service: U64, conn: ClientConn, net: Network) returns (outcome: Outcome)
      requires VisitorsOk() && service in visitors && service in services
      modifies `services, shared, tasks, repr
      ensures visitors == old(visitors) && service in old(visitors) && service in old(services)
      ensures outcome.NotSent? ==>
                tasks.refused
                == old(tasks.refused) + OpenFor(RequestKey(visitors[service].service.transport, conn, net))
      ensures !outcome.NotSent? ==> tasks.refused == old(tasks.refused) == []
      ensures outcome.NotSent? ==>
                && VisitorsOk() && services == old(services)
                && shared.services == old(shared.services) && tasks.sent == old(tasks.sent)
      ensures !outcome.NotSent? ==>
                && RequestKey(visitors[service].service.transport, conn, net).Some?
                && var (key, addrs, st) :=
                     (RequestKey(visitors[service].service.transport, conn, net).value, AddrsOf(conn),
                      old(services)[service]);
                && tasks.sent == old(tasks.sent) + [Open(key)]
                && shared.services == old(shared.services)[key := service]
                && (outcome.Registered? <==> addrs in old(visitors[service].usersByAddrs))
                && visitors[service].Maps()
                   == (if outcome.Registered? then Added(old(visitors[service].Maps()), key, addrs)
                       else old(visitors[service].Maps()))
                && (!HasSessionAt(st.sessions, addrs) && key !in st.sessions ==>
                      && VisitorsOk() && (outcome.Registered? <==> addrs in st.pending)
                      && services == if outcome.Orphaned? then old(services)
                                     else old(services)[service := WithSession(st, key, addrs, service)])
    {
      hide ServiceVisitor.Valid, ServiceVisitor.Maps, HasSessionAt, RequestKey, AddrsOf, Added, WithSession;
      var visitor := visitors[service];
      ghost var before := services;
      outcome := visitor.OnConnAccepted(conn, net, tasks);
      services := services[service := visitor.state];
      assert visitor.state == before[service] ==> services == before;
    }

    /**
     * Shuts down the sessions of a user, of a service, of both or of all, visitor by visitor in whatever
     * order the map yields them, going on past visitors that fail.
     */
    method ShutdownConnections(forUser: Option<U64>, forService: Option<U64>)
      returns (ok: bool, ghost closed: seq<string>, ghost refused: seq<string>)
      requires Valid()
      modifies `services, shared, tasks, repr
      ensures Valid()
      ensures ok <==> refused == []
      ensures Enabled(old(View()), ShutDown(forUser, forService, closed, refused))
      ensures View() == Apply(old(View()), ShutDown(forUser, forService, closed, refused))
      ensures tasks.refused == old(tasks.refused) + Closes(refused)
    {
      hide VisitorsOk, Apply, Consistent, Ports.InOrder, PortsOk, ShutDownThrough, WithoutSessions;
      ghost var before := View();
      SameServices();
      ok, closed, refused := true, [], [];
      var todo := visitors.Keys;
      NothingShutDown(before, forUser, forService);
      assert visitors.Keys - todo == {};
      while todo != {}
        invariant VisitorsOk() && todo <= visitors.Keys && (ok <==> refused == [])
        invariant visitors == old(visitors) && repr == old(repr)
        invariant ShutDownThrough(before, forUser, forService, visitors.Keys - todo, closed, refused)
        invariant services == WithoutSessions(before.services, KeySet(closed))
        invariant shared.services == before.index - KeySet(closed)
        invariant tasks.sent == before.tasks + Closes(closed)
        invariant tasks.refused == old(tasks.refused) + Closes(refused)
        decreases todo
      {
        var s :| s in todo;
        ghost var done := visitors.Keys - todo;
        todo := todo - {s};
        assert visitors.Keys - todo == done + {s};
        if Matches(forService, s) {
          SessionsUntouched(before, forUser, forService, done, s, closed, refused);
          var fine;
          ghost var here, failed;
          fine, here, failed := ShutdownOne(s, forUser);
          ShutDownOneMore(before, forUser, forService, done, s, closed, refused, here, failed);
          DropFromOne(before, closed, here, s);
          DropAppend(before.index, closed, here);
          ClosesAppend(before.tasks, closed, here);
          ClosesAppend(old(tasks.refused), refused, failed);
          ok, closed, refused := ok && fine, closed + here, refused + failed;
        } else {
          ShutDownSkip(before, forUser, forService, done, s, closed, refused);
        }
      }
      assert visitors.Keys - todo == before.services.Keys;
      ShutDownEffect(before, forUser, forService, closed, refused);
    }

    method ShutdownOne(service: U64, forUser: Option<U64>)
      returns (ok: bool, ghost closed: seq<string>, ghost refused: seq<string>)
      requires VisitorsOk() && service in visitors
      modifies `services, shared, tasks, repr
      ensures VisitorsOk()
      ensures NoDup(closed) && NoDup(refused) && KeySet(closed) !! KeySet(refused)
      ensures KeySet(closed) + KeySet(refused) <= MatchedKeys(old(services)[service].sessions, forUser)
      ensures ok <==> refused == []
      ensures ok ==> KeySet(closed) == MatchedKeys(old(services)[service].sessions, forUser)
      ensures services == old(services)[service :=
                old(services)[service].(sessions := old(services)[service].sessions - KeySet(closed))]
      ensures shared.services == old(shared.services) - KeySet(closed)
      ensures tasks.sent == old(tasks.sent) + Closes(closed)
      ensures tasks.refused == old(tasks.refused) + Closes(refused)
    {
      hide ServiceVisitor.Valid, NoDup, KeySet, MatchedKeys, Closes;
      var visitor := visitors[service];
      ok, closed, refused := visitor.ShutdownConnections(tasks, forUser);
      services := services[service := visitor.state];
    }
  }
}
