/** The TCP-to-TCP copy thread: crates/common/src/proxy/proxy_tcp_and_tcp.rs. */
module Relay {
  import opened Types
  import opened Streams
  import opened Flows

  datatype Token = Stream1 | Stream2 | Other

  /** One readiness event, with the outcomes of the read, write and re-registration it leads to. */
  datatype IoEvent = IoEvent(token: Token, calls: seq<ReadCall>, write: WriteCall, reregistered: bool)

  datatype Poll = Interrupted | PollFailed | Ready(events: seq<IoEvent>)

  /** One turn of the loop; `disconnect` says whether another thread set `closing` before its test. */
  datatype Turn = Turn(disconnect: bool, poll: Poll)

  datatype Setup = NoPoller | NotRegistered1 | NotRegistered2 | SetUp

  /** What a transfer asks of the loop. */
  datatype Verdict = GoOn | Skip | Stop | Fail(error: StreamError)

  datatype Loop = Loop(flow12: Flow, flow21: Flow, closing: bool, stopped: bool, error: Option<StreamError>)

  const STARTED := Loop(NOTHING, NOTHING, false, false, None)

  predicate Halted(l: Loop) {
    l.closing || l.stopped
  }

  /** Read one side, write to the other: what this takes and what it puts. */
  function TransferOf(calls: seq<ReadCall>, write: WriteCall): Flow {
    var e := ReadAll(calls);
    Flow(e.consumed, match e.result case ReadFailed(_) => [] case Data(data) => Accepted(data, write))
  }

  /** After a write that would block the loop goes on, without the data that was not taken. */
  function VerdictOn(calls: seq<ReadCall>, write: WriteCall): Verdict {
    match ReadAll(calls).result
    case ReadFailed(error) => Fail(error)
    case Data(_) =>
      match write
      case Wrote => GoOn
      case Partly(_, WouldBlock) => Skip
      case Partly(_, StreamEof) => Stop
      case Partly(_, error) => Fail(error)
  }

  function Judge(l: Loop, v: Verdict, reregistered: bool): Loop {
    match v
    case GoOn => if reregistered then l else l.(closing := true, error := Some(OtherError))
    case Skip => l
    case Stop => l.(stopped := true)
    case Fail(error) => l.(closing := true, error := Some(error))
  }

  function HandleEvent(l: Loop, e: IoEvent): Loop {
    match e.token
    case Stream1 =>
      Judge(l.(flow12 := Then(l.flow12, TransferOf(e.calls, e.write))), VerdictOn(e.calls, e.write), e.reregistered)
    case Stream2 =>
      Judge(l.(flow21 := Then(l.flow21, TransferOf(e.calls, e.write))), VerdictOn(e.calls, e.write), e.reregistered)
    case Other => l
  }

  function HandleEvents(l: Loop, es: seq<IoEvent>): Loop
    decreases |es|
  {
    if es == [] || Halted(l) then l else HandleEvents(HandleEvent(l, es[0]), es[1..])
  }

  function HandleTurn(l: Loop, t: Turn): Loop {
    if t.disconnect then l.(closing := true)
    else match t.poll
      case Interrupted => l
      case PollFailed => l.(closing := true, error := Some(OtherError))
      case Ready(es) => HandleEvents(l, es)
  }

  function HandleTurns(l: Loop, ts: seq<Turn>): Loop
    decreases |ts|
  {
    if ts == [] || Halted(l) then l else HandleTurns(HandleTurn(l, ts[0]), ts[1..])
  }

  /**
   * The thread: set-up, the copy loop, and the shutdown on every way out. `finished` is false while the
   * turns given are not enough to end it.
   */
  method CopyThread(setup: Setup, turns: seq<Turn>)
    returns (finished: bool, closedEvents: nat, end: Loop)
    ensures setup.SetUp? ==> end == HandleTurns(STARTED, turns) && (finished <==> Halted(end))
    ensures !setup.SetUp? ==> finished && end == STARTED.(error := Some(OtherError))
    ensures closedEvents == if finished then 1 else 0
  {
    end, closedEvents := STARTED, 0;
    if !setup.SetUp? {
      // perform_shutdown: one Closed, whatever the socket shutdowns return
      closedEvents := closedEvents + 1;
      return true, closedEvents, end.(error := Some(OtherError));
    }
    var i := 0;
    assert turns[0..] == turns;
    while i < |turns| && !end.closing && !end.stopped
      invariant 0 <= i <= |turns| && closedEvents == 0
      invariant HandleTurns(STARTED, turns) == HandleTurns(end, turns[i..])
    {
      assert turns[i..][1..] == turns[i + 1..];
      if turns[i].disconnect {
        end := end.(closing := true);
      } else {
        match turns[i].poll {
          case Interrupted =>
          case PollFailed => end := end.(closing := true, error := Some(OtherError));
          case Ready(es) => end := CopyReady(end, es);
        }
      }
      i := i + 1;
    }
    finished := end.closing || end.stopped;
    if finished {
      closedEvents := closedEvents + 1;
    }
  }

  /** The inner loop over the events of one poll. */
  method CopyReady(l: Loop, es: seq<IoEvent>) returns (end: Loop)
    requires !Halted(l)
    ensures end == HandleEvents(l, es)
  {
    end := l;
    assert es[0..] == es;
    for i := 0 to |es|
      invariant !Halted(end) && HandleEvents(l, es) == HandleEvents(end, es[i..])
    {
      assert es[i..][1..] == es[i + 1..];
      if es[i].token.Other? {
        continue;
      }
      var flow := if es[i].token.Stream1? then end.flow12 else end.flow21;
      var read, consumed := ReadTcpStream(es[i].calls);
      var verdict: Verdict;
      var written := flow.written;
      match read {
        case ReadFailed(error) =>
          assert flow.written + [] == flow.written;
          verdict := Fail(error);
        case Data(data) =>
          written := flow.written + Accepted(data, es[i].write);
          verdict := match es[i].write
                     case Wrote => GoOn
                     case Partly(_, WouldBlock) => Skip
                     case Partly(_, StreamEof) => Stop
                     case Partly(_, error) => Fail(error);
      }
      var taken := Flow(flow.consumed + consumed, written);
      assert taken == Then(flow, TransferOf(es[i].calls, es[i].write));
      assert verdict == VerdictOn(es[i].calls, es[i].write);
      end := if es[i].token.Stream1? then end.(flow12 := taken) else end.(flow21 := taken);
      end := Judge(end, verdict, es[i].reregistered);
      if Halted(end) {
        return;
      }
    }
  }

  // ---- when the loop ends ----

  /** The event ends the loop: its read fails, its write fails otherwise than by blocking, or it cannot wait again. */
  predicate EventEnds(e: IoEvent) {
    && !e.token.Other?
    && (|| ReadAll(e.calls).result.ReadFailed?
        || (e.write.Wrote? && !e.reregistered)
        || (e.write.Partly? && !e.write.error.WouldBlock?))
  }

  /** The error such an event leaves: none if the other side had gone. */
  function EventError(e: IoEvent): Option<StreamError> {
    match ReadAll(e.calls).result
    case ReadFailed(error) => Some(error)
    case Data(_) =>
      match e.write
      case Wrote => Some(OtherError)
      case Partly(_, StreamEof) => None
      case Partly(_, error) => Some(error)
  }

  predicate SomeEnds(es: seq<IoEvent>) {
    exists i :: 0 <= i < |es| && EventEnds(es[i])
  }

  predicate TurnEnds(turn: Turn) {
    turn.disconnect || turn.poll.PollFailed? || (turn.poll.Ready? && SomeEnds(turn.poll.events))
  }

  /** The events up to and including the first that ends the loop. */
  function Handled(es: seq<IoEvent>): seq<IoEvent> {
    if es == [] then [] else if EventEnds(es[0]) then [es[0]] else [es[0]] + Handled(es[1..])
  }

  function HandledTurns(ts: seq<Turn>): seq<IoEvent> {
    if ts == [] then []
    else
      (if !ts[0].disconnect && ts[0].poll.Ready? then Handled(ts[0].poll.events) else [])
      + if TurnEnds(ts[0]) then [] else HandledTurns(ts[1..])
  }

  function EventsError(es: seq<IoEvent>): Option<StreamError> {
    if es == [] then None else if EventEnds(es[0]) then EventError(es[0]) else EventsError(es[1..])
  }

  /** The error of the first turn that ends the loop. */
  function EndError(ts: seq<Turn>): Option<StreamError> {
    if ts == [] then None
    else if !TurnEnds(ts[0]) then EndError(ts[1..])
    else if ts[0].disconnect then None
    else match ts[0].poll
      case Ready(es) => EventsError(es)
      case _ => Some(OtherError)
  }

  lemma SomeEndsHead(es: seq<IoEvent>)
    requires es != []
    ensures SomeEnds(es) <==> EventEnds(es[0]) || SomeEnds(es[1..])
  {
    if SomeEnds(es[1..]) {
      var i :| 0 <= i < |es[1..]| && EventEnds(es[1..][i]);
      assert EventEnds(es[i + 1]);
    }
    if SomeEnds(es) && !EventEnds(es[0]) {
      var i :| 0 <= i < |es| && EventEnds(es[i]);
      assert EventEnds(es[1..][i - 1]);
    }
  }

  lemma {:induction false} EventsEnd(l: Loop, es: seq<IoEvent>)
    requires !Halted(l) && l.error.None?
    ensures Halted(HandleEvents(l, es)) <==> SomeEnds(es)
    ensures HandleEvents(l, es).error == if SomeEnds(es) then EventsError(es) else None
    decreases |es|
  {
    hide SomeEnds, ReadAll, Then;
    if es == [] {
      NoneEnds();
    } else {
      SomeEndsHead(es);
      if !EventEnds(es[0]) {
        EventsEnd(HandleEvent(l, es[0]), es[1..]);
      }
    }
  }

  lemma NoneEnds()
    ensures !SomeEnds([])
  {
  }

  /** The loop ends exactly at the first turn that the outcomes say ends it, and with that turn's error. */
  lemma {:induction false} EndsIff(l: Loop, ts: seq<Turn>)
    requires !Halted(l) && l.error.None?
    ensures Halted(HandleTurns(l, ts)) <==> exists i :: 0 <= i < |ts| && TurnEnds(ts[i])
    ensures HandleTurns(l, ts).error == if Halted(HandleTurns(l, ts)) then EndError(ts) else None
    decreases |ts|
  {
    hide HandleEvents, SomeEnds;
    if ts != [] {
      if ts[0].poll.Ready? {
        EventsEnd(l, ts[0].poll.events);
      }
      if !TurnEnds(ts[0]) {
        EndsIff(HandleTurn(l, ts[0]), ts[1..]);
        assert ts == [ts[0]] + ts[1..];
      }
    }
  }

  function AllEvents(ts: seq<Turn>): seq<IoEvent> {
    if ts == [] then [] else (if ts[0].poll.Ready? then ts[0].poll.events else []) + AllEvents(ts[1..])
  }

  lemma {:induction false} HandlesAllEvents(es: seq<IoEvent>)
    requires !SomeEnds(es)
    ensures Handled(es) == es
  {
    if es != [] {
      SomeEndsHead(es);
      HandlesAllEvents(es[1..]);
    }
  }

  /** Until the loop ends, every event that gets ready is handled. */
  lemma {:induction false} HandlesAll(ts: seq<Turn>)
    requires forall i :: 0 <= i < |ts| ==> !TurnEnds(ts[i])
    ensures HandledTurns(ts) == AllEvents(ts)
  {
    hide SomeEnds;
    if ts != [] {
      assert !TurnEnds(ts[0]);
      if ts[0].poll.Ready? {
        HandlesAllEvents(ts[0].poll.events);
      }
      HandlesAll(ts[1..]);
    }
  }

  // ---- what is written came from the other side, in order ----

  function FlowOf(l: Loop, t: Token): Flow {
    if t.Stream1? then l.flow12 else l.flow21
  }

  /** The transfers of one direction that events lead to. */
  function TransfersOf(es: seq<IoEvent>, t: Token): seq<Flow> {
    if es == [] then []
    else EventTransfers(es[0], t) + TransfersOf(es[1..], t)
  }

  function EventTransfers(e: IoEvent, t: Token): seq<Flow> {
    if e.token == t then [TransferOf(e.calls, e.write)] else []
  }

  lemma {:induction false} TransfersOfAppend(a: seq<IoEvent>, b: seq<IoEvent>, t: Token)
    ensures TransfersOf(a + b, t) == TransfersOf(a, t) + TransfersOf(b, t)
  {
    hide EventTransfers;
    if a == [] {
      assert a + b == b;
    } else {
      TransfersOfAppend(a[1..], b, t);
      assert (a + b)[0] == a[0] && (a + b)[1..] == a[1..] + b;
      var (x, y, z) := (EventTransfers(a[0], t), TransfersOf(a[1..], t), TransfersOf(b, t));
      assert x + (y + z) == x + y + z;
    }
  }

  lemma {:induction false} TransfersOfOk(es: seq<IoEvent>, t: Token)
    ensures Transfers(TransfersOf(es, t))
  {
    if es != [] {
      ReadReturnsConsumed(es[0].calls);
      TransfersOfOk(es[1..], t);
    }
  }

  lemma EventJoins(l: Loop, e: IoEvent, t: Token)
    requires !t.Other?
    ensures FlowOf(HandleEvent(l, e), t) == Then(FlowOf(l, t), Joined(TransfersOf([e], t)))
  {
    assert [e][1..] == [];
    assert TransfersOf([e], t) == EventTransfers(e, t);
    JoinedOne(TransferOf(e.calls, e.write));
    ThenNothing(FlowOf(l, t));
  }

  lemma {:induction false} EventsJoin(l: Loop, es: seq<IoEvent>, t: Token)
    requires !t.Other? && !Halted(l)
    ensures FlowOf(HandleEvents(l, es), t) == Then(FlowOf(l, t), Joined(TransfersOf(Handled(es), t)))
    decreases |es|
  {
    hide ReadAll, Then, TransferOf, Joined;
    if es == [] {
      JoinedNothing(FlowOf(l, t));
    } else {
      var l' := HandleEvent(l, es[0]);
      EventJoins(l, es[0], t);
      if !EventEnds(es[0]) {
        EventsJoin(l', es[1..], t);
        JoinsOn(FlowOf(l, t), [es[0]], Handled(es[1..]), t);
      }
    }
  }

  lemma JoinedNothing(f: Flow)
    ensures Then(f, Joined([])) == f
  {
    ThenNothing(f);
  }

  lemma JoinsOn(f: Flow, here: seq<IoEvent>, later: seq<IoEvent>, t: Token)
    ensures Then(Then(f, Joined(TransfersOf(here, t))), Joined(TransfersOf(later, t)))
         == Then(f, Joined(TransfersOf(here + later, t)))
  {
    TransfersOfAppend(here, later, t);
    JoinedAppend(TransfersOf(here, t), TransfersOf(later, t));
    ThenAssociates(f, Joined(TransfersOf(here, t)), Joined(TransfersOf(later, t)));
  }

  /** Each direction is the transfers of the events handled, one after the other. */
  lemma {:induction false} TurnsJoin(l: Loop, ts: seq<Turn>, t: Token)
    requires !t.Other? && !Halted(l) && l.error.None?
    ensures FlowOf(HandleTurns(l, ts), t) == Then(FlowOf(l, t), Joined(TransfersOf(HandledTurns(ts), t)))
    decreases |ts|
  {
    hide HandleEvents, SomeEnds, Then, Joined, TransfersOf, Handled;
    if ts == [] {
      NoTransfers(FlowOf(l, t), t);
    } else {
      var (l', turn) := (HandleTurn(l, ts[0]), ts[0]);
      var here := if !turn.disconnect && turn.poll.Ready? then Handled(turn.poll.events) else [];
      NoTransfers(FlowOf(l, t), t);
      if turn.poll.Ready? {
        EventsJoin(l, turn.poll.events, t);
        EventsEnd(l, turn.poll.events);
      }
      assert FlowOf(l', t) == Then(FlowOf(l, t), Joined(TransfersOf(here, t)));
      if TurnEnds(turn) {
        assert HandledTurns(ts) == here;
      } else {
        TurnsJoin(l', ts[1..], t);
        JoinsOn(FlowOf(l, t), here, HandledTurns(ts[1..]), t);
      }
    }
  }

  lemma NoTransfers(f: Flow, t: Token)
    ensures Then(f, Joined(TransfersOf([], t))) == f
  {
    JoinedNothing(f);
  }

  // ---- without blocked writes nothing is lost until the end ----

  ghost predicate EventDoesNotBlock(e: IoEvent, t: Token) {
    e.token == t && e.write.Partly? ==> !e.write.error.WouldBlock?
  }

  ghost predicate NoneBlocks(ts: seq<Turn>, t: Token) {
    forall i :: 0 <= i < |ts| && ts[i].poll.Ready? ==>
      forall j :: 0 <= j < |ts[i].poll.events| ==> EventDoesNotBlock(ts[i].poll.events[j], t)
  }

  /** Everything read has been written while the loop runs; when it has ended the last data may be cut. */
  ghost predicate InStep(l: Loop, t: Token) {
    && FlowOf(l, t).written <= FlowOf(l, t).consumed
    && (!Halted(l) ==> FlowOf(l, t).written == FlowOf(l, t).consumed)
  }

  lemma TransferInStep(f: Flow, calls: seq<ReadCall>, write: WriteCall)
    requires f.written == f.consumed
    ensures var f' := Then(f, TransferOf(calls, write));
            f'.written <= f'.consumed && (VerdictOn(calls, write).GoOn? ==> f'.written == f'.consumed)
  {
    ReadReturnsConsumed(calls);
  }

  lemma {:induction false} EventsInStep(l: Loop, es: seq<IoEvent>, t: Token)
    requires InStep(l, t) && !t.Other?
    requires forall j :: 0 <= j < |es| ==> EventDoesNotBlock(es[j], t)
    ensures InStep(HandleEvents(l, es), t)
    decreases |es|
  {
    if es != [] && !Halted(l) {
      assert EventDoesNotBlock(es[0], t);
      if es[0].token == t {
        TransferInStep(FlowOf(l, t), es[0].calls, es[0].write);
        ReadReturnsConsumed(es[0].calls);
      }
      EventsInStep(HandleEvent(l, es[0]), es[1..], t);
    }
  }

  /** If no write to a side would block, what reached it is a prefix of what was read, all of it while running. */
  lemma {:induction false} TurnsInStep(l: Loop, ts: seq<Turn>, t: Token)
    requires InStep(l, t) && !t.Other? && NoneBlocks(ts, t)
    ensures InStep(HandleTurns(l, ts), t)
    decreases |ts|
  {
    if ts != [] && !Halted(l) {
      if ts[0].poll.Ready? {
        EventsInStep(l, ts[0].poll.events, t);
      }
      TurnsInStep(HandleTurn(l, ts[0]), ts[1..], t);
    }
  }

  /**
   * For any events and outcomes, what reaches a side is what the events handled deliver of what was read
   * from the other. If no write to the side would block, it is a prefix, and all of it while the loop runs.
   */
  lemma CopyIsFaithful(ts: seq<Turn>, t: Token)
    requires !t.Other?
    ensures Delivers(TransfersOf(HandledTurns(ts), t), FlowOf(HandleTurns(STARTED, ts), t))
    ensures NoneBlocks(ts, t) ==> InStep(HandleTurns(STARTED, ts), t)
  {
    hide HandleTurns, TransfersOf, Delivers, Joined;
    var ps := TransfersOf(HandledTurns(ts), t);
    TurnsJoin(STARTED, ts, t);
    TransfersOfOk(HandledTurns(ts), t);
    ThenNothing(Joined(ps));
    TransfersDeliver(ps);
    if NoneBlocks(ts, t) {
      TurnsInStep(STARTED, ts, t);
    }
  }

  /** A run that is cut in the middle: a write that would block loses its byte, the next one goes through. */
  lemma BlockedWriteLeavesGap()
    ensures exists ts ::
              && HandleTurns(STARTED, ts).flow12 == Flow([1, 2], [2])
              && TransfersOf(HandledTurns(ts), Stream1) == [Flow([1], []), Flow([2], [2])]
  {
    var first := IoEvent(Stream1, [Got([1])], Partly(0, WouldBlock), true);
    var second := IoEvent(Stream1, [Got([2])], Wrote, true);
    var ts := [Turn(false, Ready([first, second]))];
    assert ReadAll([Got([1])]) == ReadEffect([1], Data([1]));
    assert ReadAll([Got([2])]) == ReadEffect([2], Data([2]));
    assert [first, second][1..] == [second] && [second][1..] == [] && ts[1..] == [];
    assert Handled([second]) == [second];
    assert HandledTurns(ts) == Handled([first, second]) == [first, second];
    var ps := [Flow([1], []), Flow([2], [2])];
    assert TransfersOf([second], Stream1) == [Flow([2], [2])];
    assert TransfersOf([first, second], Stream1) == ps;
    TurnsJoin(STARTED, ts, Stream1);
    ThenNothing(Joined(ps));
    JoinedAppend([ps[0]], [ps[1]]);
    JoinedOne(ps[0]);
    JoinedOne(ps[1]);
    assert [ps[0]] + [ps[1]] == ps;
  }
}
