/**
 * The client's proxy bookkeeping as a value: the keys each service visitor holds and the shared index
 * (crates/client/src/service/manager.rs, crates/client/src/service/proxy/tcp_proxy.rs and udp_proxy.rs).
 */
module ClientState {
  import opened Types
  import opened Registry
  import opened Executor
  import GS = GatewayState

  type Task = GS.Task

  /**
   * `tasks` is the executor's queue. `alive` says that every send so far succeeded: once one is refused the
   * executor is gone, and all later ones are refused. `intact` says that every Close so far could be sent.
   */
  datatype Client = Client(
    keys: map<U64, set<string>>,
    index: map<string, U64>,
    tasks: seq<Task>,
    alive: bool,
    intact: bool)

  datatype Event =
    | Started(service: U64)
    | Opened(service: U64, key: string)
    | OpenRefused
    | ProxyClosed(key: string)
    | ShutDown(closed: seq<string>, failed: set<U64>)

  ghost predicate Enabled(c: Client, e: Event) {
    match e
    case Opened(s, _) => s in c.keys && c.alive
    case ShutDown(closed, failed) =>
      && failed <= c.keys.Keys && (forall s :: s in failed ==> c.keys[s] != {})
      && KeySet(closed) <= AllKeys(c)
      && (forall s :: s in c.keys && s !in failed ==> c.keys[s] <= KeySet(closed))
      && (forall k :: multiset(closed)[k] <= |Holders(c.keys, k)|)
      && (!c.alive ==> closed == [])
    case _ => true
  }

  function AllKeys(c: Client): set<string> {
    set s, k | s in c.keys && k in c.keys[s] :: k
  }

  /** The services that hold a key. */
  function Holders(keys: map<U64, set<string>>, k: string): set<U64> {
    set s | s in keys && k in keys[s]
  }

  function Route(c: Client, key: string): U64 {
    if key in c.index then c.index[key] else U64_MAX
  }

  ghost function Apply(c: Client, e: Event): Client
    requires Enabled(c, e)
  {
    match e
    case Started(s) => if s in c.keys then c else c.(keys := c.keys[s := {}])
    case Opened(s, key) =>
      c.(keys := c.keys[s := c.keys[s] + {key}], index := c.index[key := s], tasks := c.tasks + [GS.Open(key)])
    case OpenRefused => c.(alive := false)
    case ProxyClosed(key) =>
      var s := Route(c, key);
      if s in c.keys && key in c.keys[s]
      then c.(keys := c.keys[s := c.keys[s] - {key}], index := c.index - {key})
      else c
    case ShutDown(closed, failed) =>
      Client(map s | s in c.keys :: if s in failed then c.keys[s] else {}, c.index - AllKeys(c),
             c.tasks + GS.Closes(closed), c.alive && failed == {}, c.intact && failed == {})
  }

  /** Every index entry is a key its service's visitor holds. */
  ghost predicate Inside(c: Client) {
    forall k :: k in c.index ==> c.index[k] in c.keys && k in c.keys[c.index[k]]
  }

  /** And every key a visitor holds is in the index, under that visitor. */
  ghost predicate Exact(c: Client) {
    && Inside(c)
    && forall s, k :: s in c.keys && k in c.keys[s] ==> k in c.index && c.index[k] == s
  }

  /** A newly opened key is not held by another service. */
  ghost predicate FreshKey(c: Client, e: Event) {
    e.Opened? ==> forall s :: s in c.keys && s != e.service ==> e.key !in c.keys[s]
  }

  lemma ApplyKeepsInside(c: Client, e: Event)
    requires Inside(c) && Enabled(c, e)
    ensures Inside(Apply(c, e))
    ensures e.ShutDown? ==> Apply(c, e).index == map[]
  {
    if e.ShutDown? {
      assert forall k :: k in c.index ==> k in AllKeys(c);
    }
  }

  /**
   * An event keeps index and visitors in exact agreement exactly when a new key is not held by another
   * service and every Close can be sent: otherwise a visitor keeps its keys and the index does not.
   */
  lemma StaysExactIff(c: Client, e: Event)
    requires Exact(c) && Enabled(c, e)
    ensures Exact(Apply(c, e)) <==> FreshKey(c, e) && (e.ShutDown? ==> e.failed == {})
  {
    ApplyKeepsInside(c, e);
    var c' := Apply(c, e);
    match e
    case Opened(s, key) =>
      if t :| t in c.keys && t != s && key in c.keys[t] {
        assert key in c'.keys[t] && c'.index[key] == s;
      }
    case ProxyClosed(key) =>
      var s := Route(c, key);
      assert forall t :: t in c.keys && t != s ==> key !in c.keys[t];
    case ShutDown(_, failed) =>
      if s :| s in failed {
        var k :| k in c.keys[s];
        assert k in c'.keys[s] && k !in c'.index;
      }
    case _ =>
  }

  /** A closed proxy's key leaves the service it is indexed under, and the index, and nothing else changes. */
  lemma ClosedRemoves(c: Client, key: string)
    requires Inside(c)
    ensures var c' := Apply(c, ProxyClosed(key));
            && key !in c'.index && c'.index == c.index - {key}
            && (key in c.index ==> c'.keys == c.keys[c.index[key] := c.keys[c.index[key]] - {key}])
            && (key !in c.index && U64_MAX !in c.keys ==> c'.keys == c.keys)
  {
    if key !in c.index {
      assert c.index - {key} == c.index;
    }
  }

  /** A service opened a key: it holds it and the index has it. A shutdown leaves only services that failed any. */
  lemma OpenedAndShutDown(c: Client, e: Event)
    requires Enabled(c, e)
    ensures e.Opened? ==>
              && e.service in Apply(c, e).keys && e.key in Apply(c, e).keys[e.service]
              && e.key in Apply(c, e).index && Apply(c, e).index[e.key] == e.service
    ensures e.ShutDown? ==>
              forall s :: s in c.keys ==>
                s in Apply(c, e).keys && Apply(c, e).keys[s] == if s in e.failed then c.keys[s] else {}
  {
  }

  ghost predicate Feasible(c: Client, es: seq<Event>)
    decreases |es|, 0
  {
    es == [] || (Feasible(c, es[..|es| - 1]) && Enabled(Run(c, es[..|es| - 1]), es[|es| - 1]))
  }

  ghost function Run(c: Client, es: seq<Event>): Client
    requires Feasible(c, es)
    decreases |es|, 1
  {
    if es == [] then c else Apply(Run(c, es[..|es| - 1]), es[|es| - 1])
  }

  ghost predicate KeysFresh(c: Client, es: seq<Event>)
    requires Feasible(c, es)
  {
    es == [] || (KeysFresh(c, es[..|es| - 1]) && FreshKey(Run(c, es[..|es| - 1]), es[|es| - 1]))
  }

  const NOTHING := Client(map[], map[], [], true, true)

  /**
   * In every run each index entry is one of its visitor's keys, with equality while every Close could be
   * sent (and new keys are not held elsewhere).
   */
  lemma {:induction false} RunInside(es: seq<Event>)
    requires Feasible(NOTHING, es)
    ensures Inside(Run(NOTHING, es))
    ensures Run(NOTHING, es).intact && KeysFresh(NOTHING, es) ==> Exact(Run(NOTHING, es))
  {
    if es != [] {
      var (init, e) := (es[..|es| - 1], es[|es| - 1]);
      RunInside(init);
      ApplyKeepsInside(Run(NOTHING, init), e);
      if Run(NOTHING, es).intact && KeysFresh(NOTHING, es) {
        StaysExactIff(Run(NOTHING, init), e);
      }
    }
  }

  /** The last Open of a key was by this service, and no shutdown came after it. */
  ghost predicate LastOpened(es: seq<Event>, s: U64, k: string) {
    es != [] &&
    var (init, e) := (es[..|es| - 1], es[|es| - 1]);
    match e
    case Opened(t, key) => if key == k then t == s else LastOpened(init, s, k)
    case ShutDown(_, _) => false
    case _ => LastOpened(init, s, k)
  }

  /** In every run a key that a visitor holds is in the index under it exactly then. */
  lemma {:induction false} RunIndexIff(es: seq<Event>, s: U64, k: string)
    requires Feasible(NOTHING, es)
    requires s in Run(NOTHING, es).keys && k in Run(NOTHING, es).keys[s]
    ensures k in Run(NOTHING, es).index && Run(NOTHING, es).index[k] == s <==> LastOpened(es, s, k)
  {
    var (init, e) := (es[..|es| - 1], es[|es| - 1]);
    var before := Run(NOTHING, init);
    RunInside(init);
    ApplyKeepsInside(before, e);
    if s in before.keys && k in before.keys[s] {
      RunIndexIff(init, s, k);
    }
  }

  // ---- the executor's queue ----

  /**
   * No key is closed more often than it was opened, at any time; while sends succeed, each service that
   * holds a key has an Open of it that was not closed; and every key held was opened.
   */
  ghost predicate Accounted(c: Client) {
    && Balanced(c.tasks)
    && (c.alive ==>
          forall k :: multiset(c.tasks)[GS.Close(k)] + |Holders(c.keys, k)| <= multiset(c.tasks)[GS.Open(k)])
    && (forall s, k :: s in c.keys && k in c.keys[s] ==> GS.Open(k) in c.tasks)
  }

  lemma FewerHolders(keys: map<U64, set<string>>, keys': map<U64, set<string>>, k: string)
    requires forall s :: s in keys' && k in keys'[s] ==> s in keys && k in keys[s]
    ensures |Holders(keys', k)| <= |Holders(keys, k)|
  {
    Subset(Holders(keys', k), Holders(keys, k));
  }

  lemma {:induction false} Subset(a: set<U64>, b: set<U64>)
    requires a <= b
    ensures |a| <= |b|
  {
    if x :| x in a {
      Subset(a - {x}, b - {x});
    }
  }

  lemma OneMoreHolder(keys: map<U64, set<string>>, s: U64, key: string, k: string)
    requires s in keys
    ensures |Holders(keys[s := keys[s] + {key}], k)| <= |Holders(keys, k)| + if k == key then 1 else 0
  {
    var holders := Holders(keys[s := keys[s] + {key}], k);
    if k == key {
      assert holders == Holders(keys, k) + {s};
    } else {
      assert holders == Holders(keys, k);
    }
  }

  lemma OpenedAccounted(c: Client, s: U64, key: string)
    requires Accounted(c) && Enabled(c, Opened(s, key))
    ensures Accounted(Apply(c, Opened(s, key)))
  {
    hide Balanced, Holders;
    BalancedAppend(c.tasks, GS.Open(key));
    forall k
      ensures |Holders(c.keys[s := c.keys[s] + {key}], k)| <= |Holders(c.keys, k)| + if k == key then 1 else 0
    {
      OneMoreHolder(c.keys, s, key, k);
    }
  }

  lemma ShutDownAccounted(c: Client, closed: seq<string>, failed: set<U64>)
    requires Accounted(c) && Enabled(c, ShutDown(closed, failed))
    ensures Accounted(Apply(c, ShutDown(closed, failed)))
  {
    hide Balanced;
    var c' := Apply(c, ShutDown(closed, failed));
    if c.alive {
      BalancedAppendCloses(c.tasks, closed);
    } else {
      assert c.tasks + GS.Closes([]) == c.tasks;
    }
    if c'.alive {
      forall k
        ensures multiset(c'.tasks)[GS.Close(k)] + |Holders(c'.keys, k)| <= multiset(c'.tasks)[GS.Open(k)]
      {
        ClosesCount(closed, k);
        assert Holders(c'.keys, k) == {};
      }
    }
  }

  lemma ClosedAccounted(c: Client, key: string)
    requires Accounted(c)
    ensures Accounted(Apply(c, ProxyClosed(key)))
  {
    hide Balanced, Holders;
    var c' := Apply(c, ProxyClosed(key));
    forall k
      ensures |Holders(c'.keys, k)| <= |Holders(c.keys, k)|
    {
      FewerHolders(c.keys, c'.keys, k);
    }
  }

  lemma StartedAccounted(c: Client, s: U64)
    requires Accounted(c)
    ensures Accounted(Apply(c, Started(s)))
  {
    hide Balanced, Holders;
    var c' := Apply(c, Started(s));
    forall k
      ensures |Holders(c'.keys, k)| <= |Holders(c.keys, k)|
    {
      FewerHolders(c.keys, c'.keys, k);
    }
  }

  /** In every run the client's queue is balanced, as the gateway's is. */
  lemma {:induction false} RunAccounted(es: seq<Event>)
    requires Feasible(NOTHING, es)
    ensures Accounted(Run(NOTHING, es))
  {
    hide Accounted, Apply, Enabled;
    if es == [] {
      NothingAccounted();
    } else {
      var before := Run(NOTHING, es[..|es| - 1]);
      RunAccounted(es[..|es| - 1]);
      match es[|es| - 1]
      case Started(s) => StartedAccounted(before, s);
      case Opened(s, key) => OpenedAccounted(before, s, key);
      case OpenRefused => RefusedAccounted(before);
      case ProxyClosed(key) => ClosedAccounted(before, key);
      case ShutDown(closed, failed) => ShutDownAccounted(before, closed, failed);
    }
  }

  lemma NothingAccounted()
    ensures Accounted(NOTHING)
  {
    assert forall k :: Holders(map[], k) == {};
  }

  lemma RefusedAccounted(c: Client)
    requires Accounted(c)
    ensures Accounted(Apply(c, OpenRefused))
  {
  }

  /** So the executor meets an unknown key only where Opens of that key came before and all of them failed. */
  lemma UnknownOnlyAfterFailedOpens(es: seq<Event>, openings: seq<Opening>, i: nat)
    requires Feasible(NOTHING, es) && |openings| == |Run(NOTHING, es).tasks|
    requires i in Unknowns(Run(NOTHING, es).tasks, openings, |openings|)
    ensures var tasks := Run(NOTHING, es).tasks;
            && i < |tasks| && tasks[i].Close?
            && (exists j :: 0 <= j < i && tasks[j] == GS.Open(tasks[i].key))
            && (forall j :: 0 <= j < i && tasks[j] == GS.Open(tasks[i].key) ==> !openings[j].Connected?)
  {
    RunAccounted(es);
    BalancedOpensFirst(Run(NOTHING, es).tasks);
    UnknownMeansAllFailed(Run(NOTHING, es).tasks, openings, i);
  }

  // ---- a run that strands keys ----

  lemma RunExtends(es: seq<Event>, e: Event)
    requires Feasible(NOTHING, es) && Enabled(Run(NOTHING, es), e)
    ensures Feasible(NOTHING, es + [e]) && Run(NOTHING, es + [e]) == Apply(Run(NOTHING, es), e)
  {
    assert (es + [e])[..|es|] == es;
  }

  lemma TwoOpened(a: string, b: string)
    ensures var es := [Started(1), Opened(1, a), Opened(1, b)];
            && Feasible(NOTHING, es)
            && Run(NOTHING, es)
               == Client(map[1 := {a, b}], map[a := 1, b := 1], [GS.Open(a), GS.Open(b)], true, true)
  {
    var (e0, e1, e2) := (Started(1), Opened(1, a), Opened(1, b));
    RunExtends([], e0);
    assert [] + [e0] == [e0];
    RunExtends([e0], e1);
    assert [e0] + [e1] == [e0, e1];
    RunExtends([e0, e1], e2);
    assert [e0, e1] + [e2] == [e0, e1, e2];
    assert Run(NOTHING, [e0]) == Client(map[1 := {}], map[], [], true, true);
    assert Run(NOTHING, [e0, e1]) == Client(map[1 := {a}], map[a := 1], [GS.Open(a)], true, true) by {
      assert {} + {a} == {a};
    }
    assert {a} + {b} == {a, b};
  }

  lemma OneRefused(c: Client, a: string, b: string)
    requires c.keys == map[1 := {a, b}] && c.alive
    ensures Enabled(c, ShutDown([a], {1}))
    ensures var c' := Apply(c, ShutDown([a], {1}));
            1 in c'.keys && c'.keys[1] == {a, b} && a !in c'.index && b !in c'.index
  {
    assert a in c.keys[1] && b in c.keys[1];
    assert KeySet([a]) == {a};
    forall k
      ensures multiset([a])[k] <= |Holders(c.keys, k)|
    {
      if k == a {
        assert Holders(c.keys, k) == {1};
      }
    }
  }

  /** The executor goes away between two Closes: the visitor keeps both keys, the index has neither. */
  lemma FailedCloseStrandsKeys(a: string, b: string)
    requires a != b
    ensures var es := [Started(1), Opened(1, a), Opened(1, b), ShutDown([a], {1})];
            && Feasible(NOTHING, es) && !Exact(Run(NOTHING, es))
            && 1 in Run(NOTHING, es).keys && Run(NOTHING, es).keys[1] == {a, b}
            && a !in Run(NOTHING, es).index && b !in Run(NOTHING, es).index
  {
    hide Enabled, Apply;
    var (e0, e1, e2, e3) := (Started(1), Opened(1, a), Opened(1, b), ShutDown([a], {1}));
    TwoOpened(a, b);
    OneRefused(Run(NOTHING, [e0, e1, e2]), a, b);
    RunExtends([e0, e1, e2], e3);
    assert [e0, e1, e2] + [e3] == [e0, e1, e2, e3];
    StrandedIsNotExact(Run(NOTHING, [e0, e1, e2, e3]), 1, a);
  }

  lemma StrandedIsNotExact(c: Client, s: U64, k: string)
    requires s in c.keys && k in c.keys[s] && k !in c.index
    ensures !Exact(c)
  {
  }
}
