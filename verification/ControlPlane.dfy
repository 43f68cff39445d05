/**
 * The control plane commands that list, start and stop services, over a snapshot of the service
 * store: crates/gateway/src/client/controller.rs.
 */
module ControlPlane {
  import opened Types
  import opened Repositories
  import opened GatewayState
  import opened GatewayManager
  import opened ServiceAddress
  import opened GatewayDriver
  import GatewayRuns

  ghost predicate UniqueIds(services: seq<Service>) {
    forall i, j :: 0 <= i < j < |services| ==> services[i].id != services[j].id
  }

  ghost predicate UniqueNames(services: seq<Service>) {
    forall i, j :: 0 <= i < j < |services| ==> services[i].name != services[j].name
  }

  /** `collect` into a map: a later service takes the place of an earlier one. */
  function ById(services: seq<Service>): (m: map<U64, Service>)
    ensures forall id :: id in m ==> m[id] in services && m[id].id == id
  {
    if services == [] then map[]
    else
      var last := services[|services| - 1];
      ById(services[..|services| - 1])[last.id := last]
  }

  function ByName(services: seq<Service>): (m: map<string, Service>)
    ensures forall name :: name in m ==> m[name] in services && m[name].name == name
  {
    if services == [] then map[]
    else
      var last := services[|services| - 1];
      ByName(services[..|services| - 1])[last.name := last]
  }

  /** The later services of a snapshot do not take the name of the one at `i`. */
  ghost predicate LastOfItsName(services: seq<Service>, i: nat)
    requires i < |services|
  {
    forall j :: i < j < |services| ==> services[j].name != services[i].name
  }

  lemma {:induction false} ByIdFinds(services: seq<Service>, i: nat)
    requires UniqueIds(services) && i < |services|
    ensures services[i].id in ById(services) && ById(services)[services[i].id] == services[i]
  {
    var n := |services| - 1;
    if i < n {
      ByIdFinds(services[..n], i);
      assert services[i].id != services[n].id;
    }
  }

  lemma LastOfItsNameInit(services: seq<Service>, i: nat)
    requires i < |services| - 1
    ensures var n := |services| - 1;
            LastOfItsName(services, i) <==>
            LastOfItsName(services[..n], i) && services[n].name != services[i].name
  {
    var n := |services| - 1;
    assert forall j :: 0 <= j < n ==> services[..n][j] == services[j];
  }

  /** A name leads to a service exactly when it is the last one of that name. */
  lemma {:induction false} ByNameFindsIff(services: seq<Service>, i: nat)
    requires UniqueIds(services) && i < |services|
    ensures services[i].name in ByName(services)
    ensures ByName(services)[services[i].name] == services[i] <==> LastOfItsName(services, i)
  {
    var n := |services| - 1;
    if i < n {
      ByNameFindsIff(services[..n], i);
      LastOfItsNameInit(services, i);
      assert services[i].id != services[n].id;
    }
  }

  type Accesses = map<(U64, U64), ServiceAccess>

  /** Whether the `services` command shows a service to a user. */
  ghost predicate IsListed(services: seq<Service>, accesses: Accesses, user: U64, s: Service) {
    && (user, s.id) in accesses
    && s.id in ById(services) && ById(services)[s.id] == s
  }

  datatype Verdict = NotFound | Forbidden | Permitted(service: Service)

  /** What the two checks of the `start` command say. */
  function StartVerdict(byName: map<string, Service>, accesses: Accesses, user: U64, name: string): Verdict {
    if name !in byName then NotFound
    else if (user, byName[name].id) !in accesses then Forbidden
    else Permitted(byName[name])
  }

  lemma {:induction false} ByNameKnows(services: seq<Service>, name: string)
    ensures name in ByName(services) <==> exists i :: 0 <= i < |services| && services[i].name == name
  {
    if services != [] {
      var n := |services| - 1;
      ByNameKnows(services[..n], name);
      assert services == services[..n] + [services[n]];
    }
  }

  /**
   * The checks of `start`: it is not found if no service has the name, and otherwise about the last one
   * that has, permitted if the user has access to it and forbidden if not.
   */
  lemma StartVerdictIff(services: seq<Service>, accesses: Accesses, user: U64, name: string)
    requires UniqueIds(services)
    ensures var verdict := StartVerdict(ByName(services), accesses, user, name);
            && (verdict.NotFound? <==> forall i :: 0 <= i < |services| ==> services[i].name != name)
            && forall i :: 0 <= i < |services| && services[i].name == name && LastOfItsName(services, i) ==>
                 verdict == if (user, services[i].id) in accesses then Permitted(services[i]) else Forbidden
  {
    hide ByName, LastOfItsName;
    ByNameKnows(services, name);
    forall i | 0 <= i < |services| && services[i].name == name && LastOfItsName(services, i)
      ensures name in ByName(services) && ByName(services)[name] == services[i]
    {
      ByNameFindsIff(services, i);
    }
  }

  /** The service at `i` is listed exactly when starting it by its name passes both checks. */
  ghost predicate Agree(services: seq<Service>, accesses: Accesses, user: U64, i: nat)
    requires i < |services|
  {
    IsListed(services, accesses, user, services[i])
    <==> StartVerdict(ByName(services), accesses, user, services[i].name).Permitted?
  }

  ghost predicate AlwaysAgree(services: seq<Service>, user: U64, i: nat)
    requires i < |services|
  {
    forall accesses: Accesses :: KeyedByPair(accesses) ==> Agree(services, accesses, user, i)
  }

  /**
   * Listing and starting agree on a service, whatever the user has access to, exactly when its name
   * still leads to it. Otherwise access to it alone lists it, and `start` asks about another service.
   */
  lemma AlwaysAgreeIff(services: seq<Service>, user: U64, i: nat)
    requires UniqueIds(services) && i < |services|
    ensures AlwaysAgree(services, user, i) <==> LastOfItsName(services, i)
  {
    var s := services[i];
    ByIdFinds(services, i);
    ByNameFindsIff(services, i);
    if !LastOfItsName(services, i) {
      var other := ByName(services)[s.name];
      assert other.id != s.id;
      var accesses: Accesses := map[(user, s.id) := ServiceAccess(user, s.id)];
      assert KeyedByPair(accesses) && !Agree(services, accesses, user, i);
    }
  }

  /** They agree on the whole snapshot, for every user, exactly when service names are unique. */
  lemma ListedIffStartable(services: seq<Service>)
    requires UniqueIds(services)
    ensures (forall user: U64, i :: 0 <= i < |services| ==> AlwaysAgree(services, user, i)) <==> UniqueNames(services)
  {
    forall user: U64, i | 0 <= i < |services|
      ensures AlwaysAgree(services, user, i) <==> LastOfItsName(services, i)
    {
      AlwaysAgreeIff(services, user, i);
    }
    if forall user: U64, i :: 0 <= i < |services| ==> AlwaysAgree(services, user, i) {
      forall i, j | 0 <= i < j < |services|
        ensures services[i].name != services[j].name
      {
        assert AlwaysAgree(services, 0, i);
        assert LastOfItsName(services, i);
      }
    }
  }

  /** With unique names, `start` is about the very service that is listed. */
  lemma StartIsAboutListed(services: seq<Service>, accesses: Accesses, user: U64, i: nat)
    requires UniqueIds(services) && UniqueNames(services) && i < |services|
    ensures IsListed(services, accesses, user, services[i])
       <==> StartVerdict(ByName(services), accesses, user, services[i].name) == Permitted(services[i])
  {
    ByIdFinds(services, i);
    ByNameFindsIff(services, i);
  }

  lemma PreparedKeepsId()
    ensures forall s, m :: Prepared(s, m).id == s.id
  {
  }

  datatype StartReply = StartDenied(verdict: Verdict) | NoPortLeft | StartOk(service: ResponseService, port: U16)

  datatype StopReply = UnknownService | NoActiveProxy | StopFailed | StopOk

  class ControlPlane {
    const accessRepo: AccessRepo
    const user: U64
    const mask: bool
    const servicesById: map<U64, Service>
    const servicesByName: map<string, Service>
    ghost const snapshot: seq<Service>

    ghost predicate Valid()
      reads this
    {
      UniqueIds(snapshot) && servicesById == ById(snapshot) && servicesByName == ByName(snapshot)
    }

    /** The snapshot is what the service store, which is keyed by id, held at the time. */
    constructor (accessRepo: AccessRepo, user: U64, mask: bool, services: seq<Service>)
      requires UniqueIds(services)
      ensures Valid() && snapshot == services
      ensures this.accessRepo == accessRepo && this.user == user && this.mask == mask
    {
      this.accessRepo, this.user, this.mask := accessRepo, user, mask;
      servicesById, servicesByName := ById(services), ByName(services);
      snapshot := services;
    }

    /** Exactly the services listed for the user are shown, each once. */
    method Services() returns (shown: seq<ResponseService>)
      requires Valid() && accessRepo.Valid()
      ensures forall i, j :: 0 <= i < j < |shown| ==> shown[i].id != shown[j].id
      ensures forall i :: 0 <= i < |shown| ==> ShownAs(shown[i].id, shown[i])
      ensures forall s :: IsListed(snapshot, accessRepo.accesses, user, s) ==> Prepared(s, mask) in shown
    {
      hide ById, ByName, ToResponse;
      PreparedKeepsId();
      var all := accessRepo.GetAllForUser(user);
      shown := [];
      for i := 0 to |all|
        invariant forall j, k :: 0 <= j < k < |shown| ==> shown[j].id != shown[k].id
        invariant forall j :: 0 <= j < |shown| ==>
                    ShownAs(shown[j].id, shown[j]) && ServiceAccess(user, shown[j].id) in all[..i]
        invariant forall s :: IsListed(snapshot, accessRepo.accesses, user, s) ==>
                    ServiceAccess(user, s.id) in all[i..] || Prepared(s, mask) in shown
      {
        var id := all[i].service;
        assert all[i] in all && all[i] == ServiceAccess(user, id);
        assert all[i..] == [all[i]] + all[i + 1..] && all[..i + 1] == all[..i] + [all[i]];
        assert all[i] !in all[..i];
        if id in servicesById {
          shown := shown + [Prepared(servicesById[id], mask)];
        }
      }
      assert all[..|all|] == all;
    }

    /** The response form of the listed service with that id. */
    ghost predicate ShownAs(id: U64, r: ResponseService)
      reads this, accessRepo
    {
      && id in ById(snapshot) && r == Prepared(ById(snapshot)[id], mask)
      && IsListed(snapshot, accessRepo.accesses, user, ById(snapshot)[id])
    }

    /**
     * Starts the service of that name if there is one and the user may use it. The access is looked up
     * first, and `meanwhile` is what other threads do before the manager is reached.
     */
    method Start(name: string, mgr: GatewayServiceMgr, meanwhile: seq<Call>)
      returns (r: StartReply, ghost es: seq<Event>)
      requires Valid() && mgr.Valid() && mgr.accessRepo == accessRepo
      modifies mgr, mgr.userRepo, mgr.accessRepo, mgr.shared, mgr.tasks, mgr.repr
      ensures mgr.Valid() && fresh(mgr.repr - old(mgr.repr))
      ensures var verdict := StartVerdict(ByName(snapshot), old(accessRepo.accesses), user, name);
              match verdict
              case Permitted(service) =>
                && !r.StartDenied?
                && GatewayRuns.Feasible(old(mgr.View()), es)
                && var mid := GatewayRuns.Run(old(mgr.View()), es);
                && (r.NoPortLeft? <==>
                      service.id !in mgr.ports && mgr.sharedPort.None? && mgr.nextPort > mgr.lastPort)
                && (r.NoPortLeft? ==> mgr.View() == mid)
                && (r.StartOk? ==>
                      && r.service == Prepared(service, mask)
                      && mgr.View() == Apply(mid, Started(service.id))
                      && service.id in mgr.ports && mgr.ports[service.id] == r.port)
              case _ => r == StartDenied(verdict) && mgr.View() == old(mgr.View())
    {
      hide GatewayServiceMgr.PortsOk, GatewayServiceMgr.VisitorsOk, Consistent, Apply, ById, ByName,
        GatewayRuns.Run, GatewayRuns.Feasible;
      es := [];
      if name !in servicesByName {
        return StartDenied(NotFound), [];
      }
      var service := servicesByName[name];
      var access := accessRepo.Get(user, service.id);
      if access.None? {
        return StartDenied(Forbidden), [];
      }
      es := Drive(mgr, meanwhile);
      var port := mgr.Startup(service);
      if port.None? {
        return NoPortLeft, es;
      }
      return StartOk(Prepared(service, mask), port.value), es;
    }

    /**
     * Shuts down the user's sessions with the service of that name. Address pairs still pending count
     * as an active proxy, though there is nothing of theirs to close. The manager's lock is taken twice,
     * and `meanwhile` is what other threads do in between.
     */
    method Stop(name: string, mgr: GatewayServiceMgr, meanwhile: seq<Call>)
      returns (r: StopReply, ghost es: seq<Event>, ghost closed: seq<string>, ghost refused: seq<string>)
      requires Valid() && mgr.Valid()
      modifies mgr, mgr.userRepo, mgr.accessRepo, mgr.shared, mgr.tasks, mgr.repr
      ensures mgr.Valid()
      ensures r.UnknownService? <==> name !in ByName(snapshot)
      ensures r.UnknownService? || r.NoActiveProxy? ==> mgr.View() == old(mgr.View())
      ensures name in ByName(snapshot) ==>
                var (id, before, after) := (ByName(snapshot)[name].id, old(mgr.View()), mgr.View());
                && (r.NoActiveProxy? <==> !HasPair(before, user, id))
                && (HasPair(before, user, id) ==>
                      && GatewayRuns.Feasible(before, es)
                      && var mid := GatewayRuns.Run(before, es);
                      && Enabled(mid, ShutDown(Some(user), Some(id), closed, refused))
                      && after == Apply(mid, ShutDown(Some(user), Some(id), closed, refused))
                      && (r.StopOk? <==> refused == [])
                      && (r.StopOk? && id in after.services ==> !HasSessionOf(after.services[id].sessions, user)))
    {
      hide GatewayServiceMgr.PortsOk, GatewayServiceMgr.VisitorsOk, Consistent, Apply, ById, ByName, HasPair,
        GatewayRuns.Run, GatewayRuns.Feasible;
      es, closed, refused := [], [], [];
      if name !in servicesByName {
        return UnknownService, [], [], [];
      }
      var id := servicesByName[name].id;
      var has := mgr.HasProxyForUserAndService(user, id);
      if !has {
        return NoActiveProxy, [], [], [];
      }
      es := Drive(mgr, meanwhile);
      ghost var mid := mgr.View();
      var ok;
      ok, closed, refused := mgr.ShutdownConnections(Some(user), Some(id));
      if ok {
        StopLeavesNone(mid, user, id, closed);
        return StopOk, es, closed, refused;
      }
      return StopFailed, es, closed, refused;
    }
  }

  lemma StopLeavesNone(g: Gateway, user: U64, id: U64, closed: seq<string>)
    requires Consistent(g) && Enabled(g, ShutDown(Some(user), Some(id), closed, []))
    ensures var after := Apply(g, ShutDown(Some(user), Some(id), closed, []));
            id in after.services ==> !HasSessionOf(after.services[id].sessions, user)
  {
    var after := Apply(g, ShutDown(Some(user), Some(id), closed, []));
    if k :| id in after.services && k in after.services[id].sessions && after.services[id].sessions[k].user == user {
      GatewayRuns.ShutDownComplete(g, Some(user), Some(id), closed, id, k);
    }
  }
}
