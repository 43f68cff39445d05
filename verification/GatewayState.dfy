/**
 * The gateway as one plain value: what users may do, the sessions of every started service, the
 * shared key index and the tasks sent to the proxy executor, with one event for every
 * mutex-protected operation. The classes in GatewayVisitor and GatewayManager refine this machine.
 */
module GatewayState {
  import opened Types
  import opened Registry
  import opened Authorization

  datatype Task = Open(key: string) | Close(key: string)

  function Closes(keys: seq<string>): (tasks: seq<Task>)
    ensures |tasks| == |keys| && forall i :: 0 <= i < |keys| ==> tasks[i] == Close(keys[i])
  {
    seq(|keys|, i requires 0 <= i < |keys| => Close(keys[i]))
  }

  lemma ClosesAppend(base: seq<Task>, a: seq<string>, b: seq<string>)
    ensures base + Closes(a) + Closes(b) == base + Closes(a + b)
  {
  }

  lemma ClosesSnoc(base: seq<Task>, a: seq<string>, key: string)
    ensures base + Closes(a) + [Close(key)] == base + Closes(a + [key])
  {
  }

  /** One started service: its sessions by key and its accepted-but-unregistered address pairs. */
  datatype ServiceState = ServiceState(sessions: map<string, Session>, pending: map<ProxyAddrs, U64>)

  const NEW_SERVICE := ServiceState(map[], map[])

  datatype Gateway = Gateway(
    users: map<U64, User>,
    accesses: map<(U64, U64), ServiceAccess>,
    services: map<U64, ServiceState>,
    index: map<string, U64>,
    tasks: seq<Task>)

  /** A pending pair becomes a session. */
  function WithSession(st: ServiceState, key: string, addrs: ProxyAddrs, service: U64): ServiceState
    requires addrs in st.pending
  {
    ServiceState(st.sessions[key := Session(key, addrs, st.pending[addrs], service)], st.pending - {addrs})
  }

  /** How `on_conn_accepted` ended: before its Open was sent, after it with no user found, or registered. */
  datatype Outcome = NotSent | Orphaned | Registered

  datatype Event =
    | UserPut(user: User)
    | UserDeleted(id: U64)
    | AccessPut(access: ServiceAccess)
    | AccessDeleted(user': U64, service': U64)
    | Started(id: U64)
    | ConnCreated(service: U64, addrs: ProxyAddrs, attempt: Attempt)
    | ConnAccepted(service: U64, addrs: ProxyAddrs, key: string, outcome: Outcome)
    | ProxyClosed(key: string)
    | ShutDown(forUser: Option<U64>, forService: Option<U64>, closed: seq<string>, refused: seq<string>)

  predicate Matches(filter: Option<U64>, id: U64) {
    filter.None? || filter.value == id
  }

  /** The keys of the sessions whose user passes the filter. */
  ghost function MatchedKeys(sessions: map<string, Session>, forUser: Option<U64>): set<string> {
    set k | k in sessions && Matches(forUser, sessions[k].user)
  }

  ghost predicate HasSession(g: Gateway, key: string) {
    exists s :: s in g.services && key in g.services[s].sessions
  }

  ghost predicate HasSessionAt(sessions: map<string, Session>, addrs: ProxyAddrs) {
    exists k :: k in sessions && sessions[k].addrs == addrs
  }

  ghost predicate HasSessionOf(sessions: map<string, Session>, user: U64) {
    exists k :: k in sessions && sessions[k].user == user
  }

  /** An address pair is shown for a user: it is that of one of the user's sessions, or still pending. */
  ghost predicate ListsPair(st: ServiceState, addrs: ProxyAddrs, user: U64) {
    || (exists k :: k in st.sessions && st.sessions[k].addrs == addrs && st.sessions[k].user == user)
    || (addrs in st.pending && st.pending[addrs] == user)
  }

  ghost predicate HasPair(g: Gateway, user: U64, service: U64) {
    service in g.services && exists addrs :: ListsPair(g.services[service], addrs, user)
  }

  function WithoutSessions(services: map<U64, ServiceState>, keys: set<string>): map<U64, ServiceState> {
    map s | s in services :: services[s].(sessions := services[s].sessions - keys)
  }

  /** The keys of the sessions, among the given services, that a shutdown request asks to close. */
  ghost function TargetsAmong(g: Gateway, forUser: Option<U64>, forService: Option<U64>, ids: set<U64>): set<string> {
    set s, k | s in g.services && k in g.services[s].sessions
               && s in ids && Matches(forService, s) && Matches(forUser, g.services[s].sessions[k].user) :: k
  }

  ghost function Targets(g: Gateway, forUser: Option<U64>, forService: Option<U64>): set<string> {
    TargetsAmong(g, forUser, forService, g.services.Keys)
  }

  /** A service that refused nothing was closed as far as asked, whatever other services did. */
  ghost predicate WentOn(g: Gateway, u: Option<U64>, svc: Option<U64>, done: set<U64>,
                         closed: seq<string>, refused: seq<string>) {
    forall t :: t in done && t in g.services && Matches(svc, t) && KeySet(refused) !! g.services[t].sessions.Keys ==>
      MatchedKeys(g.services[t].sessions, u) <= KeySet(closed)
  }

  /**
   * When an event can occur. Besides what the operations themselves decide, this is where the one
   * assumption about the network lives: the address pair and the key of a new connection do not
   * belong to a session that is still registered.
   */
  ghost predicate Enabled(g: Gateway, e: Event) {
    match e
    case ConnCreated(s, addrs, _) => s in g.services && !HasSessionAt(g.services[s].sessions, addrs)
    case ConnAccepted(s, addrs, key, outcome) =>
      && s in g.services && !HasSessionAt(g.services[s].sessions, addrs) && !HasSession(g, key)
      && (outcome.Orphaned? ==> addrs !in g.services[s].pending)
      && (outcome.Registered? ==> addrs in g.services[s].pending)
    case ShutDown(u, s, closed, refused) =>
      && NoDup(closed) && NoDup(refused) && KeySet(closed) !! KeySet(refused)
      && KeySet(closed) + KeySet(refused) <= Targets(g, u, s)
      && (refused == [] ==> KeySet(closed) == Targets(g, u, s))
      && WentOn(g, u, s, g.services.Keys, closed, refused)
    case _ => true
  }

  /** What an event does. */
  ghost function Apply(g: Gateway, e: Event): Gateway
    requires Enabled(g, e)
  {
    match e
    case UserPut(user) => g.(users := g.users[user.id := user])
    case UserDeleted(id) => g.(users := g.users - {id})
    case AccessPut(a) => g.(accesses := g.accesses[(a.user, a.service) := a])
    case AccessDeleted(u, s) => g.(accesses := g.accesses - {(u, s)})
    case Started(s) => if s in g.services then g else g.(services := g.services[s := NEW_SERVICE])
    case ConnCreated(s, addrs, attempt) =>
      var r := Authorize(attempt, g.users, g.accesses, Some(s));
      if r.Denied? then g
      else g.(services := g.services[s := g.services[s].(pending := g.services[s].pending[addrs := r.user.id])])
    case ConnAccepted(s, addrs, key, outcome) =>
      if outcome.NotSent? then g
      else
        var sent := g.(tasks := g.tasks + [Open(key)], index := g.index[key := s]);
        if outcome.Orphaned? then sent
        else sent.(services := g.services[s := WithSession(g.services[s], key, addrs, s)])
    case ProxyClosed(key) =>
      var s := Route(g, key);
      if s in g.services && key in g.services[s].sessions
      then g.(services := WithoutSessions(g.services, {key}), index := g.index - {key})
      else g
    case ShutDown(_, _, closed, _) =>
      g.(services := WithoutSessions(g.services, KeySet(closed)), index := g.index - KeySet(closed),
         tasks := g.tasks + Closes(closed))
  }

  /**
   * Sessions are filed under their own key and service, and the shared index sends each session's key
   * to that service. So no key has sessions in two services.
   */
  ghost predicate Consistent(g: Gateway) {
    forall s, k :: s in g.services && k in g.services[s].sessions ==>
      && g.services[s].sessions[k].key == k && g.services[s].sessions[k].service == s
      && k in g.index && g.index[k] == s
  }

  /** Every event keeps the gateway consistent. */
  lemma ApplyKeepsConsistent(g: Gateway, e: Event)
    requires Consistent(g) && Enabled(g, e)
    ensures Consistent(Apply(g, e))
  {
    match e
    case ConnAccepted(s, addrs, key, outcome) =>
      assert forall t :: t in g.services ==> key !in g.services[t].sessions;
    case _ =>
  }

  // What single events do to a consistent gateway, as the manager's methods use it.

  lemma StartedEffect(g: Gateway, s: U64)
    requires Consistent(g)
    ensures Consistent(Apply(g, Started(s)))
    ensures Apply(g, Started(s)) == if s in g.services then g else g.(services := g.services[s := NEW_SERVICE])
  {
    ApplyKeepsConsistent(g, Started(s));
  }

  /** The id a closed proxy's key is routed to: its service, or `u64::MAX` for an unknown key. */
  function Route(g: Gateway, key: string): U64 {
    if key in g.index then g.index[key] else U64_MAX
  }

  /** Only the service the key is routed to can have a session under it. */
  lemma RouteFindsSession(g: Gateway, key: string)
    requires Consistent(g)
    ensures HasSession(g, key) <==> Route(g, key) in g.services && key in g.services[Route(g, key)].sessions
  {
  }

  lemma ProxyClosedEffect(g: Gateway, key: string)
    requires Consistent(g)
    ensures var (s, g') := (Route(g, key), Apply(g, ProxyClosed(key)));
            && Consistent(g')
            && (s in g.services && key in g.services[s].sessions ==>
                  g' == g.(services := g.services[s := g.services[s].(sessions := g.services[s].sessions - {key})],
                           index := g.index - {key}))
            && (!(s in g.services && key in g.services[s].sessions) ==> g' == g)
  {
    ApplyKeepsConsistent(g, ProxyClosed(key));
    var s := Route(g, key);
    if s in g.services && key in g.services[s].sessions {
      assert forall t :: t in g.services && t != s ==> g.services[t].sessions - {key} == g.services[t].sessions;
      assert WithoutSessions(g.services, {key})
          == g.services[s := g.services[s].(sessions := g.services[s].sessions - {key})];
    }
  }

  /** A shutdown request that has been through some of the services. */
  ghost predicate ShutDownThrough(g: Gateway, u: Option<U64>, svc: Option<U64>, done: set<U64>,
                                  closed: seq<string>, refused: seq<string>) {
    && NoDup(closed) && NoDup(refused) && KeySet(closed) !! KeySet(refused)
    && KeySet(closed) + KeySet(refused) <= TargetsAmong(g, u, svc, done)
    && (refused == [] ==> KeySet(closed) == TargetsAmong(g, u, svc, done))
    && WentOn(g, u, svc, done, closed, refused)
  }

  lemma WentOnOneMore(g: Gateway, u: Option<U64>, svc: Option<U64>, done: set<U64>, s: U64,
                      closed: seq<string>, refused: seq<string>, here: seq<string>, failed: seq<string>)
    requires s in g.services && WentOn(g, u, svc, done, closed, refused)
    requires KeySet(failed) <= g.services[s].sessions.Keys
    requires failed == [] ==> KeySet(here) == MatchedKeys(g.services[s].sessions, u)
    ensures WentOn(g, u, svc, done + {s}, closed + here, refused + failed)
  {
    hide MatchedKeys;
    assert KeySet(closed + here) == KeySet(closed) + KeySet(here);
    assert KeySet(refused + failed) == KeySet(refused) + KeySet(failed);
    assert failed != [] ==> failed[0] in KeySet(failed);
  }

  lemma TargetsOfOneMore(g: Gateway, u: Option<U64>, svc: Option<U64>, ids: set<U64>, s: U64)
    requires Consistent(g) && s in g.services && s !in ids
    ensures var here := if Matches(svc, s) then MatchedKeys(g.services[s].sessions, u) else {};
            && TargetsAmong(g, u, svc, ids + {s}) == TargetsAmong(g, u, svc, ids) + here
            && TargetsAmong(g, u, svc, ids) !! g.services[s].sessions.Keys
  {
    forall k | k in TargetsAmong(g, u, svc, ids)
      ensures k !in g.services[s].sessions
    {
      var t :| t in g.services && k in g.services[t].sessions && t in ids;
      assert g.index[k] == t;
    }
    var here := if Matches(svc, s) then MatchedKeys(g.services[s].sessions, u) else {};
    forall k
      ensures k in TargetsAmong(g, u, svc, ids + {s}) <==> k in TargetsAmong(g, u, svc, ids) || k in here
    {
      if k in TargetsAmong(g, u, svc, ids + {s}) {
        var t :| t in g.services && k in g.services[t].sessions && t in ids + {s}
                 && Matches(svc, t) && Matches(u, g.services[t].sessions[k].user);
        assert t in ids ==> k in TargetsAmong(g, u, svc, ids);
      }
    }
  }

  lemma ShutDownOneMore(g: Gateway, u: Option<U64>, svc: Option<U64>, done: set<U64>, s: U64,
                        closed: seq<string>, refused: seq<string>, here: seq<string>, failed: seq<string>)
    requires Consistent(g) && s in g.services && s !in done && Matches(svc, s)
    requires ShutDownThrough(g, u, svc, done, closed, refused)
    requires NoDup(here) && NoDup(failed) && KeySet(here) !! KeySet(failed)
    requires KeySet(here) + KeySet(failed) <= MatchedKeys(g.services[s].sessions, u)
    requires failed == [] ==> KeySet(here) == MatchedKeys(g.services[s].sessions, u)
    ensures ShutDownThrough(g, u, svc, done + {s}, closed + here, refused + failed)
  {
    hide WentOn;
    TargetsOfOneMore(g, u, svc, done, s);
    WentOnOneMore(g, u, svc, done, s, closed, refused, here, failed);
    NoDupKeysAppend(closed, here);
    NoDupKeysAppend(refused, failed);
  }

  lemma NothingShutDown(g: Gateway, u: Option<U64>, svc: Option<U64>)
    ensures ShutDownThrough(g, u, svc, {}, [], [])
    ensures g.services == WithoutSessions(g.services, KeySet([])) && g.index == g.index - KeySet([])
  {
    assert KeySet([]) == {};
    assert forall s :: s in g.services ==> g.services[s].sessions - {} == g.services[s].sessions;
  }

  lemma ShutDownSkip(g: Gateway, u: Option<U64>, svc: Option<U64>, done: set<U64>, s: U64,
                     closed: seq<string>, refused: seq<string>)
    requires Consistent(g) && s in g.services && s !in done && !Matches(svc, s)
    requires ShutDownThrough(g, u, svc, done, closed, refused)
    ensures ShutDownThrough(g, u, svc, done + {s}, closed, refused)
  {
    TargetsOfOneMore(g, u, svc, done, s);
  }

  /** What has been closed so far leaves the sessions of a service not yet visited alone. */
  lemma SessionsUntouched(g: Gateway, u: Option<U64>, svc: Option<U64>, done: set<U64>, s: U64,
                          closed: seq<string>, refused: seq<string>)
    requires Consistent(g) && s in g.services && s !in done
    requires ShutDownThrough(g, u, svc, done, closed, refused)
    ensures s in WithoutSessions(g.services, KeySet(closed))
    ensures WithoutSessions(g.services, KeySet(closed))[s] == g.services[s]
  {
    TargetsOfOneMore(g, u, svc, done, s);
    assert g.services[s].sessions - KeySet(closed) == g.services[s].sessions;
  }

  /** Dropping keys of one service from that service is dropping them everywhere. */
  lemma DropFromOne(g: Gateway, closed: seq<string>, here: seq<string>, s: U64)
    requires Consistent(g) && s in g.services && KeySet(here) <= g.services[s].sessions.Keys
    ensures var services := WithoutSessions(g.services, KeySet(closed));
            var dropped := services[s := services[s].(sessions := services[s].sessions - KeySet(here))];
            dropped == WithoutSessions(g.services, KeySet(closed + here))
  {
    var all := WithoutSessions(g.services, KeySet(closed + here));
    forall t | t in g.services
      ensures all[t].sessions == if t == s then g.services[t].sessions - KeySet(closed) - KeySet(here)
                                 else g.services[t].sessions - KeySet(closed)
    {
      DropAppend(g.services[t].sessions, closed, here);
      if t != s {
        forall k | k in here
          ensures k !in g.services[t].sessions
        {
          assert k in KeySet(here) && g.index[k] == s;
        }
      }
    }
  }

  lemma ShutDownEffect(g: Gateway, u: Option<U64>, s: Option<U64>, closed: seq<string>, refused: seq<string>)
    requires Consistent(g) && ShutDownThrough(g, u, s, g.services.Keys, closed, refused)
    ensures Enabled(g, ShutDown(u, s, closed, refused))
    ensures var g' := Apply(g, ShutDown(u, s, closed, refused));
            && Consistent(g')
            && g' == g.(services := WithoutSessions(g.services, KeySet(closed)), index := g.index - KeySet(closed),
                        tasks := g.tasks + Closes(closed))
  {
    ApplyKeepsConsistent(g, ShutDown(u, s, closed, refused));
  }

  lemma ConnCreatedEffect(g: Gateway, s: U64, addrs: ProxyAddrs, attempt: Attempt)
    requires Consistent(g) && Enabled(g, ConnCreated(s, addrs, attempt))
    ensures var g' := Apply(g, ConnCreated(s, addrs, attempt));
            var r := Authorize(attempt, g.users, g.accesses, Some(s));
            && Consistent(g')
            && (r.Denied? ==> g' == g)
            && (r.Authorized? ==>
                  g' == g.(services := g.services[s :=
                                         g.services[s].(pending := g.services[s].pending[addrs := r.user.id])]))
  {
    ApplyKeepsConsistent(g, ConnCreated(s, addrs, attempt));
  }

  lemma ConnAcceptedEffect(g: Gateway, s: U64, addrs: ProxyAddrs, key: string, outcome: Outcome)
    requires Consistent(g) && Enabled(g, ConnAccepted(s, addrs, key, outcome))
    ensures var g' := Apply(g, ConnAccepted(s, addrs, key, outcome));
            && Consistent(g')
            && (outcome.NotSent? ==> g' == g)
            && (outcome.Orphaned? ==> g' == g.(tasks := g.tasks + [Open(key)], index := g.index[key := s]))
            && (outcome.Registered? ==>
                  g' == g.(tasks := g.tasks + [Open(key)], index := g.index[key := s],
                           services := g.services[s := WithSession(g.services[s], key, addrs, s)]))
  {
    ApplyKeepsConsistent(g, ConnAccepted(s, addrs, key, outcome));
  }
}
