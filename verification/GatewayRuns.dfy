/** What holds in every run of the gateway, whatever the order of its events and the outcomes of its sends. */
module GatewayRuns {
  import opened Types
  import opened Registry
  import opened GatewayState
  import opened Authorization
  import opened Repositories
  import opened Executor
  import Alpn

  ghost predicate Initial(g: Gateway) {
    g.services == map[] && g.index == map[] && g.tasks == [] && KeyedById(g.users)
  }

  ghost predicate Feasible(g: Gateway, es: seq<Event>)
    decreases |es|, 0
  {
    es == [] || (Feasible(g, es[..|es| - 1]) && Enabled(Run(g, es[..|es| - 1]), es[|es| - 1]))
  }

  /** The state after a run. */
  ghost function Run(g: Gateway, es: seq<Event>): Gateway
    requires Feasible(g, es)
    decreases |es|, 1
  {
    if es == [] then g else Apply(Run(g, es[..|es| - 1]), es[|es| - 1])
  }

  /**
   * Runs grow by enabled events. The manager's methods each show that their event is enabled and that
   * the gateway becomes what `Apply` says, so any sequence of calls is a run.
   */
  lemma RunExtends(g: Gateway, es: seq<Event>, e: Event)
    requires Feasible(g, es) && Enabled(Run(g, es), e)
    ensures Feasible(g, es + [e]) && Run(g, es + [e]) == Apply(Run(g, es), e)
  {
    assert (es + [e])[..|es|] == es;
  }

  // ---- the shared index ----

  lemma {:induction false} RunKeepsConsistent(g: Gateway, es: seq<Event>)
    requires Initial(g) && Feasible(g, es)
    ensures Consistent(Run(g, es)) && KeyedById(Run(g, es).users)
  {
    if es != [] {
      RunKeepsConsistent(g, es[..|es| - 1]);
      ApplyKeepsConsistent(Run(g, es[..|es| - 1]), es[|es| - 1]);
    }
  }

  /** The index holds the keys of the registered sessions and nothing else. */
  ghost predicate IndexIsUnion(g: Gateway) {
    forall k :: k in g.index <==> HasSession(g, k)
  }

  lemma SessionsGrow(g: Gateway, g': Gateway)
    requires forall s :: s in g.services ==> s in g'.services && g.services[s].sessions == g'.services[s].sessions
    ensures forall k :: HasSession(g, k) ==> HasSession(g', k)
  {
    forall k | HasSession(g, k)
      ensures HasSession(g', k)
    {
      var s :| s in g.services && k in g.services[s].sessions;
      assert k in g'.services[s].sessions;
    }
  }

  lemma DroppedSessions(g: Gateway, keys: set<string>)
    ensures forall k :: HasSession(g.(services := WithoutSessions(g.services, keys)), k)
                   <==> HasSession(g, k) && k !in keys
  {
    var g' := g.(services := WithoutSessions(g.services, keys));
    forall k
      ensures HasSession(g', k) <==> HasSession(g, k) && k !in keys
    {
      if HasSession(g, k) && k !in keys {
        var s :| s in g.services && k in g.services[s].sessions;
        assert k in g'.services[s].sessions;
      }
      if HasSession(g', k) {
        var s :| s in g'.services && k in g'.services[s].sessions;
        assert k in g.services[s].sessions;
      }
    }
  }

  ghost predicate Registers(e: Event, key: string) {
    e.ConnAccepted? && e.outcome.Registered? && e.key == key
  }

  ghost predicate Ends(e: Event, key: string) {
    (e.ProxyClosed? && e.key == key) || (e.ShutDown? && key in e.closed)
  }

  lemma SessionsAfterAccepted(g: Gateway, s: U64, addrs: ProxyAddrs, key: string, outcome: Outcome, k: string)
    requires Consistent(g) && Enabled(g, ConnAccepted(s, addrs, key, outcome))
    ensures var e := ConnAccepted(s, addrs, key, outcome);
            HasSession(Apply(g, e), k) <==> HasSession(g, k) || Registers(e, k)
  {
    ConnAcceptedEffect(g, s, addrs, key, outcome);
    var g' := Apply(g, ConnAccepted(s, addrs, key, outcome));
    if HasSession(g, k) {
      var t :| t in g.services && k in g.services[t].sessions;
      assert k in g'.services[t].sessions;
    }
    if outcome.Registered? && k == key {
      assert k in g'.services[s].sessions;
    }
    if HasSession(g', k) {
      var t :| t in g'.services && k in g'.services[t].sessions;
      assert k in g.services[t].sessions || (outcome.Registered? && k == key);
    }
  }

  lemma SessionsAfterClosed(g: Gateway, key: string, k: string)
    requires Consistent(g)
    ensures HasSession(Apply(g, ProxyClosed(key)), k) <==> HasSession(g, k) && k != key
  {
    var g' := Apply(g, ProxyClosed(key));
    RouteFindsSession(g, key);
    DroppedSessions(g, {key});
    SessionsGrow(g', g.(services := g'.services));
    SessionsGrow(g.(services := g'.services), g');
  }

  lemma SessionsAfterShutDown(g: Gateway, u: Option<U64>, s: Option<U64>, closed: seq<string>, refused: seq<string>,
                              k: string)
    requires Enabled(g, ShutDown(u, s, closed, refused))
    ensures HasSession(Apply(g, ShutDown(u, s, closed, refused)), k) <==> HasSession(g, k) && k !in closed
  {
    var g' := Apply(g, ShutDown(u, s, closed, refused));
    DroppedSessions(g, KeySet(closed));
    SessionsGrow(g', g.(services := g'.services));
    SessionsGrow(g.(services := g'.services), g');
  }

  /** Sessions come with registrations and go with Closed events and sent Closes, in no other way. */
  lemma SessionsAfter(g: Gateway, e: Event, k: string)
    requires Consistent(g) && Enabled(g, e)
    ensures HasSession(Apply(g, e), k) <==> Registers(e, k) || (HasSession(g, k) && !Ends(e, k))
  {
    hide Authorize;
    var g' := Apply(g, e);
    match e
    case Started(s) =>
      StartedEffect(g, s);
      SessionsGrow(g, g');
      assert HasSession(g', k) ==> HasSession(g, k);
    case ConnCreated(s, addrs, attempt) =>
      ConnCreatedEffect(g, s, addrs, attempt);
      SessionsGrow(g, g');
      SessionsGrow(g', g);
    case ConnAccepted(s, addrs, key, outcome) => SessionsAfterAccepted(g, s, addrs, key, outcome, k);
    case ProxyClosed(key) => SessionsAfterClosed(g, key, k);
    case ShutDown(u, s, closed, refused) => SessionsAfterShutDown(g, u, s, closed, refused, k);
    case _ =>
      SessionsGrow(g, g');
      SessionsGrow(g', g);
  }

  lemma ClosedHaveSessions(g: Gateway, u: Option<U64>, s: Option<U64>, closed: seq<string>, refused: seq<string>,
                           k: string)
    requires Enabled(g, ShutDown(u, s, closed, refused)) && (k in closed || k in refused)
    ensures HasSession(g, k)
  {
    assert k in KeySet(closed) + KeySet(refused);
    var t :| t in g.services && k in g.services[t].sessions;
  }

  lemma IndexAfter(g: Gateway, e: Event, k: string)
    requires Consistent(g) && Enabled(g, e)
    ensures k in Apply(g, e).index
       <==> || (e.ConnAccepted? && !e.outcome.NotSent? && e.key == k)
            || (k in g.index && !(Ends(e, k) && HasSession(g, k)))
  {
    hide HasSession, Consistent, Authorize;
    match e
    case ProxyClosed(key) =>
      RouteFindsSession(g, key);
    case ShutDown(u, s, closed, refused) =>
      assert k in KeySet(closed) <==> k in closed;
      if k in closed {
        ClosedHaveSessions(g, u, s, closed, refused, k);
      }
    case _ =>
  }

  /** An Open is sent for a connection whose address pair is not recorded. */
  ghost predicate Leaks(g: Gateway, e: Event)
    requires Enabled(g, e)
  {
    e.ConnAccepted? && !e.outcome.NotSent? && e.addrs !in g.services[e.service].pending
  }

  /**
   * One event keeps the index the disjoint union of the services' sessions exactly when it does not
   * send an Open for a connection whose address pair is not recorded: that leaves its key behind.
   */
  lemma IndexIsUnionIff(g: Gateway, e: Event)
    requires Consistent(g) && IndexIsUnion(g) && Enabled(g, e)
    ensures IndexIsUnion(Apply(g, e)) <==> !Leaks(g, e)
  {
    hide HasSession, Consistent, Apply;
    forall k
      ensures HasSession(Apply(g, e), k) <==> Registers(e, k) || (HasSession(g, k) && !Ends(e, k))
      ensures k in Apply(g, e).index
         <==> || (e.ConnAccepted? && !e.outcome.NotSent? && e.key == k)
              || (k in g.index && !(Ends(e, k) && HasSession(g, k)))
    {
      SessionsAfter(g, e, k);
      IndexAfter(g, e, k);
    }
    if e.ConnAccepted? && e.outcome.Orphaned? {
      assert e.key in Apply(g, e).index && !HasSession(Apply(g, e), e.key);
    }
  }

  /** The last Open sent for a key was for a connection whose address pair was not recorded. */
  ghost predicate Leaked(g: Gateway, es: seq<Event>, k: string)
    requires Feasible(g, es)
  {
    es != [] &&
    var (init, e) := (es[..|es| - 1], es[|es| - 1]);
    if e.ConnAccepted? && !e.outcome.NotSent? && e.key == k then Leaks(Run(g, init), e) else Leaked(g, init, k)
  }

  /** In every run the index holds the keys of the sessions and the leaked keys, which are not sessions. */
  lemma {:induction false} RunIndex(g: Gateway, es: seq<Event>, k: string)
    requires Initial(g) && Feasible(g, es)
    ensures k in Run(g, es).index <==> HasSession(Run(g, es), k) || Leaked(g, es, k)
    ensures !(HasSession(Run(g, es), k) && Leaked(g, es, k))
  {
    hide Consistent, Apply;
    if es != [] {
      var (init, e) := (es[..|es| - 1], es[|es| - 1]);
      RunIndex(g, init, k);
      RunKeepsConsistent(g, init);
      SessionsAfter(Run(g, init), e, k);
      IndexAfter(Run(g, init), e, k);
    }
  }

  ghost predicate NothingLeaked(g: Gateway, es: seq<Event>)
    requires Feasible(g, es)
  {
    forall k :: !Leaked(g, es, k)
  }

  /** So it is the disjoint union of the services' sessions exactly in the runs that leak no key. */
  lemma RunKeepsIndex(g: Gateway, es: seq<Event>)
    requires Initial(g) && Feasible(g, es)
    ensures IndexIsUnion(Run(g, es)) <==> NothingLeaked(g, es)
  {
    hide HasSession;
    var end := Run(g, es);
    if IndexIsUnion(end) {
      forall k
        ensures !Leaked(g, es, k)
      {
        RunIndex(g, es, k);
        assert k in end.index <==> HasSession(end, k);
      }
    }
    if NothingLeaked(g, es) {
      forall k
        ensures k in end.index <==> HasSession(end, k)
      {
        RunIndex(g, es, k);
        assert !Leaked(g, es, k);
      }
    }
  }

  /** What a client sends to be let through to service 1 as user 1. */
  const ENTITLED := Attempt(Identity(1), Some(Alpn.Print(Alpn.ServiceProxy(1))), true, true)

  /**
   * A connection is authorized and its pair recorded, but the socket can no longer name its ends when the
   * connection is registered.
   */
  function LeakingRun(pair: ProxyAddrs, key: string): seq<Event> {
    [UserPut(User(1, "u", Active)), AccessPut(ServiceAccess(1, 1)), Started(1), ConnCreated(1, pair, ENTITLED),
     ConnAccepted(1, ("(NA)", "(NA)"), key, Orphaned)]
  }

  lemma EntitledIsAuthorized(g: Gateway)
    requires 1 in g.users && g.users[1] == User(1, "u", Active) && (1, 1) in g.accesses
    ensures Authorize(ENTITLED, g.users, g.accesses, Some(1)) == Authorized(Alpn.ServiceProxy(1), g.users[1])
  {
    hide Alpn.Print, Alpn.Parse;
    Alpn.ParsePrintRoundTrips(Alpn.ServiceProxy(1), Alpn.IsUnicodeDigit);
  }

  lemma LeakingRunStarts(g: Gateway)
    requires Initial(g)
    ensures var es := LeakingRun(("", ""), "")[..3];
            && Feasible(g, es) && Run(g, es).services == map[1 := NEW_SERVICE]
            && 1 in Run(g, es).users && Run(g, es).users[1] == User(1, "u", Active) && (1, 1) in Run(g, es).accesses
  {
    var es := LeakingRun(("", ""), "");
    RunExtends(g, [], es[0]);
    assert [] + [es[0]] == [es[0]];
    RunExtends(g, [es[0]], es[1]);
    assert [es[0]] + [es[1]] == [es[0], es[1]];
    RunExtends(g, [es[0], es[1]], es[2]);
    assert [es[0], es[1]] + [es[2]] == es[..3];
  }

  /** Such a run leaks its key, from any initial gateway and for any recorded pair but the placeholder. */
  lemma LeakIsReachable(g: Gateway, pair: ProxyAddrs, key: string)
    requires Initial(g) && pair != ("(NA)", "(NA)")
    ensures var es := LeakingRun(pair, key);
            && Feasible(g, es[..3]) && Feasible(g, es)
            && Authorize(ENTITLED, Run(g, es[..3]).users, Run(g, es[..3]).accesses, Some(1)).Authorized?
            && Leaked(g, es, key) && !IndexIsUnion(Run(g, es))
  {
    hide Authorize;
    var es := LeakingRun(pair, key);
    LeakingRunStarts(g);
    assert es[..3] == LeakingRun(("", ""), "")[..3];
    var started := Run(g, es[..3]);
    EntitledIsAuthorized(started);
    RunExtends(g, es[..3], es[3]);
    assert es[..3] + [es[3]] == es[..4];
    assert Run(g, es[..4]).services == map[1 := ServiceState(map[], map[pair := 1])];
    RunExtends(g, es[..4], es[4]);
    assert es[..4] + [es[4]] == es;
    RunIndex(g, es, key);
  }

  // ---- pending pairs ----

  /** A pending pair stays pending until it is registered, and nothing else takes it away. */
  lemma PendingUntilRegistered(g: Gateway, e: Event, s: U64, addrs: ProxyAddrs)
    requires Enabled(g, e) && s in g.services && addrs in g.services[s].pending
    ensures s in Apply(g, e).services
    ensures addrs in Apply(g, e).services[s].pending <==> !RegistersPair(e, s, addrs)
  {
    hide Authorize;
  }

  ghost predicate RegistersPair(e: Event, s: U64, addrs: ProxyAddrs) {
    e.ConnAccepted? && e.outcome.Registered? && e.service == s && e.addrs == addrs
  }

  /**
   * So after a registration that failed, whatever else happens, the service still lists the pair for some
   * user, who is taken to have a proxy there.
   */
  lemma {:induction false} PendingStays(g: Gateway, es: seq<Event>, more: seq<Event>, s: U64, addrs: ProxyAddrs)
    requires Feasible(g, es) && Feasible(g, es + more)
    requires s in Run(g, es).services && addrs in Run(g, es).services[s].pending
    requires forall i :: 0 <= i < |more| ==> !RegistersPair(more[i], s, addrs)
    ensures var end := Run(g, es + more);
            && s in end.services && addrs in end.services[s].pending
            && HasPair(end, end.services[s].pending[addrs], s)
  {
    hide Apply, Enabled;
    if more == [] {
      assert es + more == es;
    } else {
      var init := more[..|more| - 1];
      assert (es + more)[..|es + more| - 1] == es + init;
      PendingStays(g, es, init, s, addrs);
      PendingUntilRegistered(Run(g, es + init), more[|more| - 1], s, addrs);
    }
    var end := Run(g, es + more);
    assert ListsPair(end.services[s], addrs, end.services[s].pending[addrs]);
  }

  // ---- what events leave alone ----

  /** The events that can touch a service: those sent to it, a key it owns, a shutdown not meant for another. */
  ghost predicate Concerns(g: Gateway, e: Event, t: U64) {
    match e
    case ConnCreated(s, _, _) => s == t
    case ConnAccepted(s, _, _, _) => s == t
    case ProxyClosed(key) => key in g.index && g.index[key] == t
    case ShutDown(_, s, _, _) => Matches(s, t)
    case _ => false
  }

  lemma OthersUntouched(g: Gateway, e: Event, t: U64)
    requires Consistent(g) && Enabled(g, e) && t in g.services && !Concerns(g, e, t)
    ensures t in Apply(g, e).services && Apply(g, e).services[t] == g.services[t]
  {
    match e
    case ProxyClosed(key) =>
      assert g.services[t].sessions - {key} == g.services[t].sessions;
    case ShutDown(u, s, closed, _) =>
      forall k | k in closed
        ensures k !in g.services[t].sessions
      {
        assert k in KeySet(closed);
        var v :| v in g.services && k in g.services[v].sessions && Matches(s, v);
        assert g.index[k] == v;
      }
      assert g.services[t].sessions - KeySet(closed) == g.services[t].sessions;
    case _ =>
  }

  // ---- shutdown ----

  /** The sessions a shutdown drops are exactly those whose Close was sent, each once. */
  lemma ShutDownDropsClosed(g: Gateway, u: Option<U64>, s: Option<U64>, closed: seq<string>, refused: seq<string>)
    requires Consistent(g) && Enabled(g, ShutDown(u, s, closed, refused))
    ensures var g' := Apply(g, ShutDown(u, s, closed, refused));
            && g'.tasks == g.tasks + Closes(closed) && NoDup(closed)
            && (forall k :: HasSession(g, k) && !HasSession(g', k) <==> k in closed)
            && (forall k :: k in refused ==> HasSession(g', k))
            && (forall t :: t in g.services ==> t in g'.services && g'.services[t].pending == g.services[t].pending)
  {
    forall k
      ensures HasSession(Apply(g, ShutDown(u, s, closed, refused)), k) <==> HasSession(g, k) && k !in closed
      ensures k in closed || k in refused ==> HasSession(g, k)
    {
      SessionsAfterShutDown(g, u, s, closed, refused, k);
      if k in closed || k in refused {
        ClosedHaveSessions(g, u, s, closed, refused, k);
      }
    }
    forall k | k in refused
      ensures k !in closed
    {
      assert k in KeySet(refused);
    }
  }

  /** If no send is refused, no targeted session is left, and every other session is as before. */
  lemma ShutDownComplete(g: Gateway, u: Option<U64>, s: Option<U64>, closed: seq<string>, t: U64, k: string)
    requires Consistent(g) && Enabled(g, ShutDown(u, s, closed, [])) && t in g.services
    ensures var (before, after) := (g.services[t].sessions, Apply(g, ShutDown(u, s, closed, [])).services[t].sessions);
            && (k in after ==> k in before && after[k] == before[k])
            && (k in before ==> (k in after <==> !(Matches(s, t) && Matches(u, before[k].user))))
  {
    if k in g.services[t].sessions {
      if k in closed {
        assert k in KeySet(closed);
        var v :| v in g.services && k in g.services[v].sessions && Matches(s, v)
                 && Matches(u, g.services[v].sessions[k].user);
        assert g.index[k] == v == t;
      }
      if Matches(s, t) && Matches(u, g.services[t].sessions[k].user) {
        assert k in Targets(g, u, s);
      }
    }
  }

  /**
   * What a service lists after a shutdown without refusals: for a user it was meant for, only the pairs
   * still pending; for anyone else, what it listed before.
   */
  lemma ListedAfterShutDown(g: Gateway, u: Option<U64>, s: Option<U64>, closed: seq<string>,
                            t: U64, addrs: ProxyAddrs, user: U64)
    requires Consistent(g) && Enabled(g, ShutDown(u, s, closed, [])) && t in g.services
    ensures var (before, after) := (g.services[t], Apply(g, ShutDown(u, s, closed, [])).services[t]);
            ListsPair(after, addrs, user) <==>
            if Matches(s, t) && Matches(u, user) then addrs in before.pending && before.pending[addrs] == user
            else ListsPair(before, addrs, user)
  {
    hide Apply, Enabled, Consistent;
    ShutDownDropsClosed(g, u, s, closed, []);
    var (before, after) := (g.services[t].sessions, Apply(g, ShutDown(u, s, closed, [])).services[t].sessions);
    forall k | k in before || k in after
      ensures k in before && (k in after ==> after[k] == before[k])
      ensures k in after <==> !(Matches(s, t) && Matches(u, before[k].user))
    {
      ShutDownComplete(g, u, s, closed, t, k);
    }
  }

  // ---- closed proxies ----

  /**
   * The first Closed for a key removes its session and no other; a Closed for a key without a session,
   * a repeated one included, changes nothing, even when a service has the fallback id.
   */
  lemma ClosedRemovesOnce(g: Gateway, key: string)
    requires Consistent(g)
    ensures var g' := Apply(g, ProxyClosed(key));
            && !HasSession(g', key) && Apply(g', ProxyClosed(key)) == g'
            && (forall k :: k != key ==> (HasSession(g', k) <==> HasSession(g, k)))
            && (!HasSession(g, key) ==> g' == g)
  {
    var g' := Apply(g, ProxyClosed(key));
    forall k
      ensures HasSession(g', k) <==> HasSession(g, k) && k != key
    {
      SessionsAfterClosed(g, key, k);
    }
    ProxyClosedEffect(g, key);
    RouteFindsSession(g, key);
    RouteFindsSession(g', key);
    ProxyClosedEffect(g', key);
  }

  // ---- the executor's queue ----

  /** How often a key was registered in a run. */
  ghost function Registrations(es: seq<Event>, key: string): nat {
    if es == [] then 0
    else
      Registrations(es[..|es| - 1], key) + if Registers(es[|es| - 1], key) then 1 else 0
  }

  /** Closes of a key, and its session while there is one, are covered by registrations, and those by Opens. */
  lemma {:induction false} RunAccounts(g: Gateway, es: seq<Event>, k: string)
    requires Initial(g) && Feasible(g, es)
    ensures var tasks := multiset(Run(g, es).tasks);
            tasks[Close(k)] + (if HasSession(Run(g, es), k) then 1 else 0) <= Registrations(es, k) <= tasks[Open(k)]
  {
    if es != [] {
      var (init, e) := (es[..|es| - 1], es[|es| - 1]);
      RunAccounts(g, init, k);
      RunKeepsConsistent(g, init);
      StepAccounts(Run(g, init), e, k);
    }
  }

  lemma StepAccounts(g: Gateway, e: Event, k: string)
    requires Consistent(g) && Enabled(g, e)
    ensures var (g', registered) := (Apply(g, e), Registers(e, k));
            var (before, after) := (multiset(g.tasks), multiset(g'.tasks));
            && after[Open(k)] >= before[Open(k)] + (if registered then 1 else 0)
            && after[Close(k)] + (if HasSession(g', k) then 1 else 0)
               <= before[Close(k)] + (if HasSession(g, k) then 1 else 0) + (if registered then 1 else 0)
  {
    hide HasSession, Consistent, Authorize;
    SessionsAfter(g, e, k);
    if e.ShutDown? {
      ClosesCount(e.closed, k);
      CountInNoDup(e.closed, k);
      if k in e.closed {
        ClosedHaveSessions(g, e.forUser, e.forService, e.closed, e.refused, k);
      }
    }
  }

  /** In every run each Close in the executor's queue is preceded by an Open of its own. */
  lemma {:induction false} RunBalanced(g: Gateway, es: seq<Event>)
    requires Initial(g) && Feasible(g, es)
    ensures Balanced(Run(g, es).tasks)
  {
    if es != [] {
      var (init, e) := (es[..|es| - 1], es[|es| - 1]);
      var before := Run(g, init);
      RunBalanced(g, init);
      match e
      case ConnAccepted(s, addrs, key, outcome) =>
        RunKeepsConsistent(g, init);
        ConnAcceptedEffect(before, s, addrs, key, outcome);
        BalancedAppend(before.tasks, Open(key));
      case ShutDown(u, s, closed, refused) =>
        RunKeepsConsistent(g, init);
        ShutDownDropsClosed(before, u, s, closed, refused);
        forall k | k in closed
          ensures multiset(before.tasks)[Close(k)] + multiset(closed)[k] <= multiset(before.tasks)[Open(k)]
        {
          RunAccounts(g, init, k);
          CountInNoDup(closed, k);
        }
        BalancedAppendCloses(before.tasks, closed);
      case _ =>
        assert Run(g, es).tasks == before.tasks;
    }
  }

  /** So the executor meets an unknown key only where Opens of that key came before and all of them failed. */
  lemma UnknownOnlyAfterFailedOpens(g: Gateway, es: seq<Event>, openings: seq<Opening>, i: nat)
    requires Initial(g) && Feasible(g, es) && |openings| == |Run(g, es).tasks|
    requires i in Unknowns(Run(g, es).tasks, openings, |openings|)
    ensures var tasks := Run(g, es).tasks;
            && i < |tasks| && tasks[i].Close?
            && (exists j :: 0 <= j < i && tasks[j] == Open(tasks[i].key))
            && (forall j :: 0 <= j < i && tasks[j] == Open(tasks[i].key) ==> !openings[j].Connected?)
  {
    RunBalanced(g, es);
    BalancedOpensFirst(Run(g, es).tasks);
    UnknownMeansAllFailed(Run(g, es).tasks, openings, i);
  }

  // ---- authorization ----

  /** At step `j` a connection with this pair was accepted for this user and service, who might use it then. */
  ghost predicate GrantedAt(g: Gateway, es: seq<Event>, j: nat, service: U64, addrs: ProxyAddrs, user: U64) {
    && j < |es| && es[j].ConnCreated? && es[j].service == service && es[j].addrs == addrs
    && Feasible(g, es[..j])
    && MayUse(es[j].attempt, Run(g, es[..j]).users, Run(g, es[..j]).accesses, user, service)
  }

  ghost predicate Granted(g: Gateway, es: seq<Event>, service: U64, addrs: ProxyAddrs, user: U64) {
    exists j: nat :: GrantedAt(g, es, j, service, addrs, user)
  }

  lemma GrantedLater(g: Gateway, es: seq<Event>, service: U64, addrs: ProxyAddrs, user: U64)
    requires es != [] && Granted(g, es[..|es| - 1], service, addrs, user)
    ensures Granted(g, es, service, addrs, user)
  {
    var init := es[..|es| - 1];
    var j: nat :| GrantedAt(g, init, j, service, addrs, user);
    assert init[..j] == es[..j] && init[j] == es[j];
    assert GrantedAt(g, es, j, service, addrs, user);
  }

  lemma GrantedNow(g: Gateway, es: seq<Event>)
    requires es != [] && Initial(g) && Feasible(g, es) && es[|es| - 1].ConnCreated?
    ensures var (before, e) := (Run(g, es[..|es| - 1]), es[|es| - 1]);
            var r := Authorize(e.attempt, before.users, before.accesses, Some(e.service));
            r.Authorized? ==> Granted(g, es, e.service, e.addrs, r.user.id)
  {
    var (init, e) := (es[..|es| - 1], es[|es| - 1]);
    var before := Run(g, init);
    var r := Authorize(e.attempt, before.users, before.accesses, Some(e.service));
    RunKeepsConsistent(g, init);
    if r.Authorized? {
      AuthorizedIff(e.attempt, before.users, before.accesses, r.user.id, e.service);
      assert GrantedAt(g, es, |es| - 1, e.service, e.addrs, r.user.id);
    }
  }

  /** Every pending pair of the services is granted, and every session is. */
  ghost predicate AllGranted(g: Gateway, es: seq<Event>, services: map<U64, ServiceState>) {
    && (forall s, a :: s in services && a in services[s].pending ==> Granted(g, es, s, a, services[s].pending[a]))
    && (forall s, k :: s in services && k in services[s].sessions ==>
          Granted(g, es, s, services[s].sessions[k].addrs, services[s].sessions[k].user))
  }

  lemma AllGrantedLater(g: Gateway, es: seq<Event>, services: map<U64, ServiceState>)
    requires es != [] && AllGranted(g, es[..|es| - 1], services)
    ensures AllGranted(g, es, services)
  {
    forall s, a, u | Granted(g, es[..|es| - 1], s, a, u)
      ensures Granted(g, es, s, a, u)
    {
      GrantedLater(g, es, s, a, u);
    }
  }

  lemma CreatedAllGranted(g: Gateway, es: seq<Event>, services: map<U64, ServiceState>,
                          s: U64, addrs: ProxyAddrs, user: U64)
    requires AllGranted(g, es, services) && s in services && Granted(g, es, s, addrs, user)
    ensures AllGranted(g, es, services[s := services[s].(pending := services[s].pending[addrs := user])])
  {
    hide Granted;
  }

  lemma AcceptedAllGranted(g: Gateway, es: seq<Event>, services: map<U64, ServiceState>,
                           s: U64, addrs: ProxyAddrs, key: string)
    requires AllGranted(g, es, services) && s in services && addrs in services[s].pending
    ensures AllGranted(g, es, services[s := WithSession(services[s], key, addrs, s)])
  {
    hide Granted;
  }

  lemma DroppedAllGranted(g: Gateway, es: seq<Event>, services: map<U64, ServiceState>, keys: set<string>)
    requires AllGranted(g, es, services)
    ensures AllGranted(g, es, WithoutSessions(services, keys))
  {
    hide Granted;
  }

  lemma StartedAllGranted(g: Gateway, es: seq<Event>, services: map<U64, ServiceState>, s: U64)
    requires AllGranted(g, es, services)
    ensures AllGranted(g, es, services[s := NEW_SERVICE])
  {
    hide Granted;
  }

  lemma StepGrants(g: Gateway, es: seq<Event>, before: Gateway, e: Event)
    requires Consistent(before) && Enabled(before, e) && AllGranted(g, es, before.services)
    requires e.ConnCreated? ==>
               var r := Authorize(e.attempt, before.users, before.accesses, Some(e.service));
               r.Authorized? ==> Granted(g, es, e.service, e.addrs, r.user.id)
    ensures AllGranted(g, es, Apply(before, e).services)
  {
    hide Granted, AllGranted, Authorize;
    match e
    case Started(s) =>
      StartedAllGranted(g, es, before.services, s);
    case ConnCreated(s, addrs, attempt) =>
      var r := Authorize(attempt, before.users, before.accesses, Some(s));
      if r.Authorized? {
        CreatedAllGranted(g, es, before.services, s, addrs, r.user.id);
      }
    case ConnAccepted(s, addrs, key, outcome) =>
      if outcome.Registered? {
        AcceptedAllGranted(g, es, before.services, s, addrs, key);
      }
    case ProxyClosed(key) =>
      DroppedAllGranted(g, es, before.services, {key});
    case ShutDown(_, _, closed, _) =>
      DroppedAllGranted(g, es, before.services, KeySet(closed));
    case _ =>
  }

  /**
   * Every session ever registered for a user and a service goes back to a connection that was accepted
   * when that user was known and active, the ALPN name was the service's, and the access was granted.
   */
  lemma {:induction false} RunGrants(g: Gateway, es: seq<Event>)
    requires Initial(g) && Feasible(g, es)
    ensures AllGranted(g, es, Run(g, es).services)
  {
    if es != [] {
      var (init, e) := (es[..|es| - 1], es[|es| - 1]);
      RunGrants(g, init);
      RunKeepsConsistent(g, init);
      AllGrantedLater(g, es, Run(g, init).services);
      if e.ConnCreated? {
        GrantedNow(g, es);
      }
      StepGrants(g, es, Run(g, init), e);
    }
  }
}
