/** The proxy executor's task loop: crates/common/src/proxy/executor.rs. */
module Executor {
  import opened Types
  import opened GatewayState

  /** How opening a proxy went: the stream object, then its connection. */
  datatype Opening = ConstructFailed | ConnectFailed | Connected

  /** The position of the Open whose stream is filed under `key` after the first `n` tasks. */
  ghost function StreamOf(tasks: seq<Task>, openings: seq<Opening>, n: nat, key: string): Option<nat>
    requires n <= |tasks| == |openings|
  {
    if n == 0 then None
    else if tasks[n - 1] == Open(key) && openings[n - 1].Connected? then Some(n - 1)
    else StreamOf(tasks, openings, n - 1, key)
  }

  /** The keys for which a Closed event is sent because the stream could not be constructed. */
  ghost function NeverConstructed(tasks: seq<Task>, openings: seq<Opening>, n: nat): seq<string>
    requires n <= |tasks| == |openings|
  {
    if n == 0 then []
    else
      var earlier := NeverConstructed(tasks, openings, n - 1);
      if tasks[n - 1].Open? && openings[n - 1].ConstructFailed? then earlier + [tasks[n - 1].key] else earlier
  }

  /** The positions of the Closes whose key has no stream, which the executor only logs. */
  ghost function Unknowns(tasks: seq<Task>, openings: seq<Opening>, n: nat): seq<nat>
    requires n <= |tasks| == |openings|
  {
    if n == 0 then []
    else Unknowns(tasks, openings, n - 1) + if Unknown(tasks, openings, n - 1) then [n - 1] else []
  }

  ghost predicate Unknown(tasks: seq<Task>, openings: seq<Opening>, i: nat)
    requires |tasks| == |openings|
  {
    i < |tasks| && tasks[i].Close? && StreamOf(tasks, openings, i, tasks[i].key).None?
  }

  /** The streams told to disconnect, in order. */
  ghost function Disconnections(tasks: seq<Task>, openings: seq<Opening>, n: nat): seq<nat>
    requires n <= |tasks| == |openings|
  {
    if n == 0 then []
    else
      var earlier := Disconnections(tasks, openings, n - 1);
      if tasks[n - 1].Open? then earlier
      else match StreamOf(tasks, openings, n - 1, tasks[n - 1].key)
        case Some(j) => earlier + [j]
        case None => earlier
  }

  class ProxyExecutor {
    var streams: map<string, nat>
    var closedEvents: seq<string>
    var disconnected: seq<nat>
    var unknown: seq<nat>

    constructor ()
      ensures streams == map[] && closedEvents == [] && disconnected == [] && unknown == []
    {
      streams, closedEvents, disconnected, unknown := map[], [], [], [];
    }

    /**
     * The loop over the tasks received. Streams are filed and replaced but never dropped, so a Close
     * reaches the stream of the last Open before it that connected.
     */
    method PollNewTasks(tasks: seq<Task>, openings: seq<Opening>)
      requires |openings| == |tasks|
      requires streams == map[] && closedEvents == [] && disconnected == [] && unknown == []
      modifies this
      ensures forall k :: StreamOf(tasks, openings, |tasks|, k) == if k in streams then Some(streams[k]) else None
      ensures closedEvents == NeverConstructed(tasks, openings, |tasks|)
      ensures disconnected == Disconnections(tasks, openings, |tasks|)
      ensures unknown == Unknowns(tasks, openings, |tasks|)
    {
      for i := 0 to |tasks|
        invariant forall k :: StreamOf(tasks, openings, i, k) == if k in streams then Some(streams[k]) else None
        invariant closedEvents == NeverConstructed(tasks, openings, i)
        invariant disconnected == Disconnections(tasks, openings, i)
        invariant unknown == Unknowns(tasks, openings, i)
      {
        match tasks[i]
        case Open(key) =>
          if openings[i].ConstructFailed? {
            closedEvents := closedEvents + [key];
          } else if openings[i].Connected? {
            streams := streams[key := i];
          }
        case Close(key) =>
          assert StreamOf(tasks, openings, i, key) == if key in streams then Some(streams[key]) else None;
          if key in streams {
            disconnected := disconnected + [streams[key]];
          } else {
            unknown := unknown + [i];
          }
      }
    }
  }

  lemma {:induction false} UnknownsAre(tasks: seq<Task>, openings: seq<Opening>, n: nat, i: nat)
    requires n <= |tasks| == |openings|
    ensures i in Unknowns(tasks, openings, n) <==> i < n && Unknown(tasks, openings, i)
  {
    if n > 0 {
      UnknownsAre(tasks, openings, n - 1, i);
    }
  }

  lemma {:induction false} StreamOfNone(tasks: seq<Task>, openings: seq<Opening>, n: nat, key: string)
    requires n <= |tasks| == |openings|
    ensures StreamOf(tasks, openings, n, key).None?
       <==> forall j :: 0 <= j < n && tasks[j] == Open(key) ==> !openings[j].Connected?
  {
    if n > 0 {
      StreamOfNone(tasks, openings, n - 1, key);
    }
  }

  /** The last Open of a key among the first `n` tasks that connected. */
  ghost predicate LastConnected(tasks: seq<Task>, openings: seq<Opening>, n: nat, key: string, j: nat)
    requires n <= |tasks| == |openings|
  {
    && j < n && tasks[j] == Open(key) && openings[j].Connected?
    && forall i :: j < i < n && tasks[i] == Open(key) ==> !openings[i].Connected?
  }

  lemma {:induction false} StreamOfIff(tasks: seq<Task>, openings: seq<Opening>, n: nat, key: string, j: nat)
    requires n <= |tasks| == |openings|
    ensures StreamOf(tasks, openings, n, key) == Some(j) <==> LastConnected(tasks, openings, n, key, j)
  {
    if n > 0 {
      StreamOfIff(tasks, openings, n - 1, key, j);
    }
  }

  /** The task at `i` is a Close and `j` is the last Open of its key before it that connected. */
  ghost predicate ClosesStream(tasks: seq<Task>, openings: seq<Opening>, i: nat, j: nat)
    requires |tasks| == |openings|
  {
    i < |tasks| && tasks[i].Close? && LastConnected(tasks, openings, i, tasks[i].key, j)
  }

  /** A stream is told to disconnect exactly when a Close has it as the last Open of its key that connected. */
  lemma {:induction false} DisconnectedIff(tasks: seq<Task>, openings: seq<Opening>, n: nat, j: nat)
    requires n <= |tasks| == |openings|
    ensures j in Disconnections(tasks, openings, n)
       <==> exists i: nat :: i < n && ClosesStream(tasks, openings, i, j)
  {
    hide LastConnected;
    if n > 0 {
      DisconnectedIff(tasks, openings, n - 1, j);
      if tasks[n - 1].Close? {
        StreamOfIff(tasks, openings, n - 1, tasks[n - 1].key, j);
        assert ClosesStream(tasks, openings, n - 1, j)
          <==> StreamOf(tasks, openings, n - 1, tasks[n - 1].key) == Some(j);
      }
      if i: nat :| i < n && ClosesStream(tasks, openings, i, j) {
        assert i < n - 1 ==> j in Disconnections(tasks, openings, n - 1);
      }
    }
  }

  ghost function CloseTasks(tasks: seq<Task>, n: nat): nat
    requires n <= |tasks|
  {
    if n == 0 then 0 else CloseTasks(tasks, n - 1) + if tasks[n - 1].Close? then 1 else 0
  }

  /** Every Close either disconnects a stream or is unknown. */
  lemma {:induction false} ClosesAccounted(tasks: seq<Task>, openings: seq<Opening>, n: nat)
    requires n <= |tasks| == |openings|
    ensures |Disconnections(tasks, openings, n)| + |Unknowns(tasks, openings, n)| == CloseTasks(tasks, n)
  {
    if n > 0 {
      ClosesAccounted(tasks, openings, n - 1);
    }
  }

  ghost function FailedConstructions(tasks: seq<Task>, openings: seq<Opening>, n: nat, key: string): nat
    requires n <= |tasks| == |openings|
  {
    if n == 0 then 0
    else FailedConstructions(tasks, openings, n - 1, key)
         + if tasks[n - 1] == Open(key) && openings[n - 1] == ConstructFailed then 1 else 0
  }

  lemma CountSnoc(keys: seq<string>, last: string, k: string)
    ensures multiset(keys + [last])[k] == multiset(keys)[k] + if last == k then 1 else 0
  {
    assert multiset(keys + [last]) == multiset(keys) + multiset{last};
  }

  /** A Closed is sent for each Open whose stream could not be constructed, and for nothing else. */
  lemma {:induction false} NeverConstructedCount(tasks: seq<Task>, openings: seq<Opening>, n: nat, key: string)
    requires n <= |tasks| == |openings|
    ensures multiset(NeverConstructed(tasks, openings, n))[key] == FailedConstructions(tasks, openings, n, key)
  {
    if n > 0 {
      NeverConstructedCount(tasks, openings, n - 1, key);
      CountSnoc(NeverConstructed(tasks, openings, n - 1), tasks[n - 1].key, key);
    }
  }

  /** In every prefix there are at least as many Opens of a key as Closes of it. */
  ghost predicate Balanced(tasks: seq<Task>) {
    forall n, k :: 0 <= n <= |tasks| ==> multiset(tasks[..n])[Close(k)] <= multiset(tasks[..n])[Open(k)]
  }

  lemma BalancedAppend(tasks: seq<Task>, t: Task)
    requires Balanced(tasks)
    requires t.Close? ==> multiset(tasks)[Close(t.key)] < multiset(tasks)[Open(t.key)]
    ensures Balanced(tasks + [t])
  {
    forall n, k | 0 <= n <= |tasks + [t]|
      ensures multiset((tasks + [t])[..n])[Close(k)] <= multiset((tasks + [t])[..n])[Open(k)]
    {
      if n <= |tasks| {
        assert (tasks + [t])[..n] == tasks[..n];
      } else {
        assert (tasks + [t])[..n] == tasks + [t];
        assert tasks[..|tasks|] == tasks;
      }
    }
  }

  lemma {:induction false} ClosesCount(keys: seq<string>, k: string)
    ensures multiset(Closes(keys))[Close(k)] == multiset(keys)[k] && multiset(Closes(keys))[Open(k)] == 0
  {
    if keys != [] {
      var (init, last) := (keys[..|keys| - 1], keys[|keys| - 1]);
      ClosesCount(init, k);
      assert keys == init + [last];
      assert Closes(keys) == Closes(init) + [Close(last)];
    }
  }

  /** Closes may be appended as far as there are Opens for them. */
  lemma {:induction false} BalancedAppendCloses(tasks: seq<Task>, keys: seq<string>)
    requires Balanced(tasks)
    requires forall k :: k in keys ==> multiset(tasks)[Close(k)] + multiset(keys)[k] <= multiset(tasks)[Open(k)]
    ensures Balanced(tasks + Closes(keys))
  {
    if keys == [] {
      assert tasks + Closes(keys) == tasks;
    } else {
      var (init, last) := (keys[..|keys| - 1], keys[|keys| - 1]);
      assert keys == init + [last];
      BalancedAppendCloses(tasks, init);
      ClosesCount(init, last);
      BalancedAppend(tasks + Closes(init), Close(last));
      assert tasks + Closes(keys) == tasks + Closes(init) + [Close(last)];
    }
  }

  /** Every Close has an Open of its key before it. */
  ghost predicate OpensFirst(tasks: seq<Task>) {
    forall i :: 0 <= i < |tasks| && tasks[i].Close? ==> Open(tasks[i].key) in tasks[..i]
  }

  lemma BalancedOpensFirst(tasks: seq<Task>)
    requires Balanced(tasks)
    ensures OpensFirst(tasks)
  {
    forall i | 0 <= i < |tasks| && tasks[i].Close?
      ensures Open(tasks[i].key) in tasks[..i]
    {
      var k := tasks[i].key;
      assert tasks[..i + 1] == tasks[..i] + [Close(k)];
      assert multiset(tasks[..i + 1])[Close(k)] <= multiset(tasks[..i + 1])[Open(k)];
      assert multiset(tasks[..i])[Open(k)] > 0;
    }
  }

  /** In such a queue the unknown-key branch means: there were Opens, and all of them failed. */
  lemma UnknownMeansAllFailed(tasks: seq<Task>, openings: seq<Opening>, i: nat)
    requires |openings| == |tasks| && OpensFirst(tasks)
    ensures i in Unknowns(tasks, openings, |tasks|)
       <==> && i < |tasks| && tasks[i].Close?
            && (exists j :: 0 <= j < i && tasks[j] == Open(tasks[i].key))
            && (forall j :: 0 <= j < i && tasks[j] == Open(tasks[i].key) ==> !openings[j].Connected?)
  {
    UnknownsAre(tasks, openings, |tasks|, i);
    if i < |tasks| && tasks[i].Close? {
      assert Open(tasks[i].key) in tasks[..i];
      StreamOfNone(tasks, openings, i, tasks[i].key);
    }
  }
}
