/**
 * A control-plane connection: the event loop of crates/common/src/net/tls_server/conn_std.rs with the
 * visitor of crates/gateway/src/client/connection.rs, whose `on_shutdown` ends the user's sessions.
 */
module ControlConnection {
  import opened Types
  import opened ConnectionState
  import opened GatewayManager
  import GS = GatewayState
  import opened GatewayDriver
  import GatewayRuns

  /**
   * What happens at the manager while a connection closes: the events of other threads, the user's shutdown
   * with the keys closed and refused (after the tasks `gone` had been refused), and further events.
   */
  datatype Quitting = Quitting(
    before: seq<GS.Event>, keys: seq<string>, refused: seq<string>, gone: seq<GS.Task>, after: seq<GS.Event>)
  {
    /** The gateway right after the shutdown. */
    ghost function ShutDown(start: GS.Gateway, user: U64): GS.Gateway
      requires GatewayRuns.Feasible(start, before)
      requires GS.Enabled(GatewayRuns.Run(start, before), GS.ShutDown(Some(user), None, keys, refused))
    {
      GS.Apply(GatewayRuns.Run(start, before), GS.ShutDown(Some(user), None, keys, refused))
    }
  }

  class Connection {
    const mgr: GatewayServiceMgr
    const user: U64
    var queue: seq<ConnectionEvent>
    var closed: bool

    /** The machine state that the queue and the flag are part of. */
    ghost var c: Conn

    ghost predicate Matching()
      reads this
    {
      c.queue == queue && c.closed == closed && Sound(c)
    }

    constructor (mgr: GatewayServiceMgr, user: U64)
      ensures Matching() && Initial(c) && this.mgr == mgr && this.user == user
    {
      this.mgr := mgr;
      this.user := user;
      queue, closed := [], false;
      c := Conn(Reading, [], false, 0, [], [], [], 0, false);
    }

    /** Any holder of the sender enqueues an event. */
    method Send(event: ConnectionEvent)
      requires Matching() && !event.Closed?
      modifies this
      ensures Matching() && c == Step(old(c), Sent(event))
    {
      StepKeepsSound(c, Sent(event));
      c := Step(c, Sent(event));
      queue := queue + [event];
    }

    /** The head of a poll cycle: read, hand the data to the visitor, tick. */
    method ReadAndTick(read: ReadOutcome, replies: seq<ConnectionEvent>, visitorOk: bool, polled: seq<ConnectionEvent>)
      requires Matching() && c.phase.Reading? && NoClosed(replies) && NoClosed(polled)
      modifies this
      ensures Matching() && c == Step(old(c), ReadCycle(read, replies, visitorOk, polled))
    {
      StepKeepsSound(c, ReadCycle(read, replies, visitorOk, polled));
      var failed := false;
      var events: seq<ConnectionEvent> := [];
      match read {
        case ReadData(data, eof) =>
          if eof {
            events := [Closing];
          }
          if data != [] {
            events := events + replies;
            failed := !visitorOk;
          }
        case ReadError =>
          failed := true;
      }
      if failed {
        events := events + [Closing];
      }
      queue := queue + (events + polled);
      assert events + polled == CycleEvents(read, replies, visitorOk, polled);
      c := Step(c, ReadCycle(read, replies, visitorOk, polled));
    }

    /** One pass of the event loop on a connection whose next event is not a Closing. */
    method HandleOther(io: Io) returns (done: bool)
      requires Matching() && c.phase.Draining? && (queue == [] || !queue[0].Closing?)
      modifies this
      ensures Matching() && c == Step(old(c), Take(io))
      ensures done <==> !c.phase.Draining?
    {
      StepKeepsSound(c, Take(io));
      c := Step(c, Take(io));
      if queue == [] {
        return true;
      }
      var event := queue[0];
      queue := queue[1..];
      match event {
        case Closed =>
          return true;
        case Write(data) =>
          match io {
            case Done =>
            case WouldBlock => queue := queue + [Write(data)];
            case _ => queue := queue + [Closing];
          }
          return false;
      }
    }

    /** One pass that takes a Closing: the socket is shut down, Closed queued, the visitor told, once. */
    method HandleClosing(io: Io) returns (ghost keys: seq<string>, ghost refused: seq<string>)
      requires Matching() && c.phase.Draining? && queue != [] && queue[0].Closing?
      requires mgr.Valid()
      modifies this, mgr`services, mgr.shared, mgr.tasks, mgr.repr
      ensures Matching() && c == Step(old(c), Take(io)) && mgr.Valid()
      ensures c.shutdowns == old(c.shutdowns) ==> mgr.View() == old(mgr.View())
      ensures c.shutdowns > old(c.shutdowns) ==>
                && GS.Enabled(old(mgr.View()), GS.ShutDown(Some(user), None, keys, refused))
                && mgr.View() == GS.Apply(old(mgr.View()), GS.ShutDown(Some(user), None, keys, refused))
                && mgr.tasks.refused == old(mgr.tasks.refused) + GS.Closes(refused)
    {
      hide GatewayServiceMgr.Valid, GS.Apply, GS.Enabled;
      StepKeepsSound(c, Take(io));
      keys, refused := [], [];
      c := Step(c, Take(io));
      queue := queue[1..];
      if closed || !io.Done? {
        return;
      }
      closed := true;
      queue := queue + [Closed];
      var ok;
      ok, keys, refused := mgr.ShutdownConnections(Some(user), None);
    }

    /** Other threads enqueue whatever they like, except Closed. */
    method OthersSend()
      requires Matching()
      modifies this
      ensures Matching() && old(queue) <= queue
      ensures c.phase == old(c.phase) && closed == old(closed) && c.shutdowns == old(c.shutdowns)
    {
      var n: nat := *;
      while n > 0
        invariant Matching() && old(queue) <= queue
        invariant c.phase == old(c.phase) && closed == old(closed) && c.shutdowns == old(c.shutdowns)
      {
        var event: ConnectionEvent := *;
        if !event.Closed? {
          Send(event);
        }
        n := n - 1;
      }
    }

    /**
     * The manager before, through what other threads do, the user's shutdown, and what they do after it:
     * the shutdown's own step is in between, and finds the tasks `gone` refused already.
     */
    ghost predicate ShutDownAmong(start: GS.Gateway, refusedBefore: seq<GS.Task>, q: Quitting)
      reads mgr, mgr.userRepo, mgr.accessRepo, mgr.shared, mgr.tasks, mgr.repr
    {
      && GatewayRuns.Feasible(start, q.before)
      && GS.Enabled(GatewayRuns.Run(start, q.before), GS.ShutDown(Some(user), None, q.keys, q.refused))
      && Arrived(mgr, q.ShutDown(start, user), q.after)
      && refusedBefore <= q.gone && q.gone + GS.Closes(q.refused) <= mgr.tasks.refused
    }

    /**
     * The rest of the poll cycle once a Closing is queued, with any write outcomes, any events from other
     * threads and any calls they make to the manager, provided the socket shuts down: it ends, by returning.
     * The passes over other events do not touch the manager, so the calls made during them are made at once.
     */
    method DrainClosing(before: seq<Call>, after: seq<Call>) returns (ghost q: Quitting)
      requires Matching() && c.phase.Draining? && !closed && Closing in queue && mgr.Valid()
      modifies this, mgr, mgr.userRepo, mgr.accessRepo, mgr.shared, mgr.tasks, mgr.repr
      ensures Matching() && c.phase.Returned? && closed && c.shutdowns == 1
      ensures ShutDownAmong(old(mgr.View()), old(mgr.tasks.refused), q)
    {
      hide GatewayServiceMgr.Valid, GS.Apply, GS.Enabled, GatewayRuns.Run, GatewayRuns.Feasible;
      ghost var start := mgr.View();
      UntilClosing();
      ghost var es := Drive(mgr, before);
      ghost var gone := mgr.tasks.refused;
      ghost var keys, refused := HandleClosing(Done);
      ghost var end := mgr.View();
      UntilReturned();
      ghost var later := Drive(mgr, after);
      q := Quitting(es, keys, refused, gone, later);
      assert end == q.ShutDown(start, user);
    }

    /** Ends because the Closing moves up by one with each pass. */
    method UntilClosing()
      requires Matching() && c.phase.Draining? && !closed && Closing in queue
      modifies this
      ensures Matching() && c.phase.Draining? && !closed && queue != [] && queue[0].Closing?
    {
      while !queue[0].Closing?
        invariant Matching() && c.phase.Draining? && !closed && Closing in queue
        decreases Position(queue, Closing)
      {
        PassBeforeClosing();
      }
    }

    method PassBeforeClosing()
      requires Matching() && c.phase.Draining? && !closed && Closing in queue && !queue[0].Closing?
      modifies this
      ensures Matching() && c.phase.Draining? && !closed && Closing in queue
      ensures Position(queue, Closing) < old(Position(queue, Closing))
    {
      var io: Io := *;
      CountZero(queue, Closed);
      TakeTowardsClosing(c, io);
      var _ := HandleOther(io);
      ghost var mid := queue;
      OthersSend();
      PositionKept(mid, queue, Closing);
    }

    /** Ends because Closed moves up by one with each pass; later Closings change nothing. */
    method UntilReturned()
      requires Matching() && c.phase.Draining? && closed
      modifies this
      ensures Matching() && c.phase.Returned? && closed
    {
      var done := false;
      while !done
        invariant Matching() && closed && (done <==> c.phase.Returned?) && (!done ==> c.phase.Draining?)
        decreases !done, if done then 0 else Position(queue, Closed)
      {
        done := PassBeforeClosed();
      }
    }

    method PassBeforeClosed() returns (done: bool)
      requires Matching() && c.phase.Draining? && closed
      modifies this
      ensures Matching() && closed && (done <==> c.phase.Returned?) && (!done ==> c.phase.Draining?)
      ensures !done ==> Position(queue, Closed) < old(Position(queue, Closed))
    {
      var io: Io := *;
      CountZero(queue, Closed);
      TakeTowardsClosed(c, io);
      if queue[0].Closing? {
        // `shutdown` on a closed connection does nothing
        StepKeepsSound(c, Take(io));
        c := Step(c, Take(io));
        queue := queue[1..];
        done := false;
      } else {
        done := HandleOther(io);
      }
      if !done {
        ghost var mid := queue;
        CountZero(mid, Closed);
        OthersSend();
        PositionKept(mid, queue, Closed);
      }
    }

    /**
     * A `quit` request: the control plane queues Closing and then its reply. If the socket shuts down the
     * loop returns in this poll cycle and `on_shutdown` runs once; if every Close task can be sent, its
     * step leaves the user without a session in any service.
     */
    method ServeQuit(request: Bytes, reply: Bytes, before: seq<Call>, after: seq<Call>) returns (ghost q: Quitting)
      requires Matching() && c.phase.Reading? && request != [] && mgr.Valid()
      modifies this, mgr, mgr.userRepo, mgr.accessRepo, mgr.shared, mgr.tasks, mgr.repr
      ensures Matching() && c.phase.Returned? && c.shutdowns == 1
      ensures ShutDownAmong(old(mgr.View()), old(mgr.tasks.refused), q)
      ensures mgr.tasks.refused == [] ==> q.refused == []
      ensures q.refused == [] ==> NoSessionOf(q.ShutDown(old(mgr.View()), user), user)
    {
      hide GatewayServiceMgr.Valid, GS.Apply, GS.Enabled, GS.Consistent, GatewayRuns.Run, GatewayRuns.Feasible;
      ManagerIsConsistent(mgr);
      ReadAndTick(ReadData(request, false), [Closing, Write(reply)], true, []);
      assert Closing in queue by {
        var events := CycleEvents(ReadData(request, false), [Closing, Write(reply)], true, []);
        assert events[0] == Closing && Closing in events;
      }
      q := DrainClosing(before, after);
      if q.refused == [] {
        StaysConsistent(old(mgr.View()), q.before);
        NoSessionLeft(GatewayRuns.Run(old(mgr.View()), q.before), user, q.keys);
      } else {
        assert GS.Closes(q.refused) != [];
      }
    }
  }

  lemma {:induction false} StaysConsistent(g: GS.Gateway, es: seq<GS.Event>)
    requires GS.Consistent(g) && GatewayRuns.Feasible(g, es)
    ensures GS.Consistent(GatewayRuns.Run(g, es))
  {
    hide GS.Consistent, GS.Apply, GS.Enabled;
    if es != [] {
      StaysConsistent(g, es[..|es| - 1]);
      GS.ApplyKeepsConsistent(GatewayRuns.Run(g, es[..|es| - 1]), es[|es| - 1]);
    }
  }

  lemma ManagerIsConsistent(mgr: GatewayServiceMgr)
    requires mgr.Valid()
    ensures GS.Consistent(mgr.View())
  {
  }

  ghost predicate NoSessionOf(g: GS.Gateway, user: U64) {
    forall s, k :: s in g.services && k in g.services[s].sessions ==> g.services[s].sessions[k].user != user
  }

  /** A user's shutdown without refusals leaves no session of that user anywhere. */
  lemma NoSessionLeft(g: GS.Gateway, user: U64, keys: seq<string>)
    requires GS.Consistent(g) && GS.Enabled(g, GS.ShutDown(Some(user), None, keys, []))
    ensures NoSessionOf(GS.Apply(g, GS.ShutDown(Some(user), None, keys, [])), user)
  {
    var g' := GS.Apply(g, GS.ShutDown(Some(user), None, keys, []));
    forall s, k | s in g'.services && k in g'.services[s].sessions
      ensures g'.services[s].sessions[k].user != user
    {
      GatewayRuns.ShutDownComplete(g, Some(user), None, keys, s, k);
    }
  }
}
