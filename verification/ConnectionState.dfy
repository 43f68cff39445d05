/**
 * The connection event loop as a machine over its event queue, for all outcomes of reads, writes and
 * socket shutdown and all events other threads send: crates/common/src/net/tls_server/conn_std.rs.
 */
module ConnectionState {
  import opened Types

  datatype ConnectionEvent = Closing | Closed | Write(data: Bytes)

  /** Where the loop is: about to read, taking events, or returned. */
  datatype Phase = Reading | Draining | Returned

  /**
   * A connection, with the history its guarantees are about: the payloads callers asked to write, those
   * handled and whether each was delivered, the Closing events taken and the runs of `on_shutdown`.
   */
  datatype Conn = Conn(
    phase: Phase,
    queue: seq<ConnectionEvent>,
    closed: bool,
    shutdowns: nat,
    requested: seq<Bytes>,
    handled: seq<Bytes>,
    verdicts: seq<bool>,
    closings: nat,
    blocked: bool)

  datatype ReadOutcome = ReadData(data: Bytes, eof: bool) | ReadError

  datatype Io = Done | UnexpectedEof | WouldBlock | Failed

  /** `Take` is one pass of the event loop, with the outcome of the write or socket shutdown it makes. */
  datatype Input =
    | Sent(event: ConnectionEvent)
    | ReadCycle(read: ReadOutcome, replies: seq<ConnectionEvent>, visitorOk: bool, polled: seq<ConnectionEvent>)
    | Take(io: Io)

  /** Only the connection itself sends Closed. */
  predicate NoClosed(es: seq<ConnectionEvent>) {
    forall i :: 0 <= i < |es| ==> !es[i].Closed?
  }

  predicate Enabled(c: Conn, i: Input) {
    match i
    case Sent(e) => !e.Closed?
    case ReadCycle(_, replies, _, polled) => c.phase.Reading? && NoClosed(replies) && NoClosed(polled)
    case Take(_) => c.phase.Draining?
  }

  function Writes(es: seq<ConnectionEvent>): seq<Bytes> {
    if es == [] then []
    else Writes(es[..|es| - 1]) + if es[|es| - 1].Write? then [es[|es| - 1].data] else []
  }

  /** The events one read and one polling tick put on the queue. */
  function CycleEvents(read: ReadOutcome, replies: seq<ConnectionEvent>, visitorOk: bool,
                       polled: seq<ConnectionEvent>): seq<ConnectionEvent> {
    (match read
     case ReadData(data, eof) =>
       (if eof then [Closing] else [])
       + (if data == [] then [] else replies + if visitorOk then [] else [Closing])
     case ReadError => [Closing])
    + polled
  }

  function Enqueue(c: Conn, es: seq<ConnectionEvent>): Conn {
    c.(queue := c.queue + es, requested := c.requested + Writes(es))
  }

  /** `shutdown`: nothing if closed already or if the socket fails; else Closed is queued and the visitor told. */
  function TakeClosing(c: Conn, rest: seq<ConnectionEvent>, io: Io): Conn {
    var taken := c.(queue := rest, closings := c.closings + 1);
    if c.closed || !io.Done? then taken
    else taken.(closed := true, queue := rest + [Closed], shutdowns := c.shutdowns + 1)
  }

  /** `write`: a payload that would block goes back on the queue, a failed one makes a Closing. */
  function TakeWrite(c: Conn, data: Bytes, rest: seq<ConnectionEvent>, io: Io): Conn {
    if io.WouldBlock? then c.(queue := rest + [Write(data)], blocked := true)
    else c.(queue := if io.Done? then rest else rest + [Closing],
            handled := c.handled + [data], verdicts := c.verdicts + [io.Done?])
  }

  function Step(c: Conn, i: Input): Conn
    requires Enabled(c, i)
  {
    match i
    case Sent(e) => Enqueue(c, [e])
    case ReadCycle(read, replies, visitorOk, polled) =>
      Enqueue(c, CycleEvents(read, replies, visitorOk, polled)).(phase := Draining)
    case Take(io) =>
      if c.queue == [] then c.(phase := if c.closed then Returned else Reading)
      else match c.queue[0]
        case Closed => c.(queue := c.queue[1..], phase := if c.closed then Returned else Reading)
        case Closing => TakeClosing(c, c.queue[1..], io)
        case Write(data) => TakeWrite(c, data, c.queue[1..], io)
  }

  predicate Feasible(c: Conn, ins: seq<Input>)
    decreases |ins|, 0
  {
    ins == [] || (Feasible(c, ins[..|ins| - 1]) && Enabled(Run(c, ins[..|ins| - 1]), ins[|ins| - 1]))
  }

  function Run(c: Conn, ins: seq<Input>): Conn
    requires Feasible(c, ins)
    decreases |ins|, 1
  {
    if ins == [] then c else Step(Run(c, ins[..|ins| - 1]), ins[|ins| - 1])
  }

  predicate Initial(c: Conn) {
    c == Conn(Reading, [], false, 0, [], [], [], 0, false)
  }

  // ---- closing ----

  function Count(es: seq<ConnectionEvent>, e: ConnectionEvent): nat {
    if es == [] then 0 else (if es[0] == e then 1 else 0) + Count(es[1..], e)
  }

  lemma {:induction false} CountAppend(a: seq<ConnectionEvent>, b: seq<ConnectionEvent>, e: ConnectionEvent)
    ensures Count(a + b, e) == Count(a, e) + Count(b, e)
  {
    if a == [] {
      assert a + b == b;
    } else {
      CountAppend(a[1..], b, e);
      assert (a + b)[1..] == a[1..] + b && (a + b)[0] == a[0];
    }
  }

  lemma {:induction false} CountZero(es: seq<ConnectionEvent>, e: ConnectionEvent)
    ensures Count(es, e) == 0 <==> e !in es
  {
    if es != [] {
      CountZero(es[1..], e);
      assert es == [es[0]] + es[1..];
    }
  }

  /**
   * Before it is closed the queue holds no Closed and nothing has been shut down; once it is closed
   * exactly one `on_shutdown` has run and one Closed is on its way, until that one is taken.
   */
  ghost predicate Sound(c: Conn) {
    && (!c.closed ==> Count(c.queue, Closed) == 0 && c.shutdowns == 0 && !c.phase.Returned?)
    && (c.closed ==> c.shutdowns == 1 && !c.phase.Reading?)
    && (c.closed && c.phase.Draining? ==> Count(c.queue, Closed) == 1)
  }

  lemma EnqueueKeepsSound(c: Conn, es: seq<ConnectionEvent>)
    requires Sound(c) && NoClosed(es)
    ensures Sound(Enqueue(c, es)) && Count(es, Closed) == 0
  {
    CountZero(es, Closed);
    CountAppend(c.queue, es, Closed);
  }

  lemma StepKeepsSound(c: Conn, i: Input)
    requires Sound(c) && Enabled(c, i)
    ensures Sound(Step(c, i))
  {
    match i
    case Sent(e) => EnqueueKeepsSound(c, [e]);
    case ReadCycle(read, replies, visitorOk, polled) =>
      EnqueueKeepsSound(c, CycleEvents(read, replies, visitorOk, polled));
    case Take(io) =>
      if c.queue != [] {
        CountAppend(c.queue[1..], [Closed], Closed);
        CountAppend(c.queue[1..], [Closing], Closed);
        CountAppend(c.queue[1..], [c.queue[0]], Closed);
        assert Count([Closed], Closed) == 1 && Count([Closing], Closed) == 0;
      }
  }

  /**
   * In every run: `on_shutdown` runs at most once, Closed is never taken while the connection is open,
   * the loop has returned only if it is closed, and it never reads again once closed.
   */
  lemma {:induction false} RunSound(c: Conn, ins: seq<Input>)
    requires Initial(c) && Feasible(c, ins)
    ensures Sound(Run(c, ins)) && Run(c, ins).shutdowns <= 1
    ensures Run(c, ins).closed <==> Run(c, ins).shutdowns == 1
    ensures !Run(c, ins).closed ==> Closed !in Run(c, ins).queue
    ensures Run(c, ins).phase.Returned? ==> Run(c, ins).closed
  {
    if ins != [] {
      RunSound(c, ins[..|ins| - 1]);
      StepKeepsSound(Run(c, ins[..|ins| - 1]), ins[|ins| - 1]);
    }
    CountZero(Run(c, ins).queue, Closed);
  }

  /** The position of the first such event, or the length of the queue. */
  function Position(es: seq<ConnectionEvent>, e: ConnectionEvent): (p: nat)
    ensures p <= |es| && (p < |es| ==> es[p] == e) && (p == |es| ==> e !in es)
    ensures forall j :: 0 <= j < p ==> es[j] != e
  {
    if es == [] then 0
    else if es[0] == e then 0
    else
      assert es == [es[0]] + es[1..];
      1 + Position(es[1..], e)
  }

  lemma PositionAppend(es: seq<ConnectionEvent>, more: seq<ConnectionEvent>, e: ConnectionEvent)
    requires e in es
    ensures Position(es + more, e) == Position(es, e)
  {
    var (p, q) := (Position(es, e), Position(es + more, e));
    assert (es + more)[p] == e && q <= p;
    assert es[q] == e;
  }

  lemma PositionKept(es: seq<ConnectionEvent>, longer: seq<ConnectionEvent>, e: ConnectionEvent)
    requires e in es && es <= longer
    ensures e in longer && Position(longer, e) == Position(es, e)
  {
    assert longer == es + longer[|es|..];
    PositionAppend(es, longer[|es|..], e);
  }

  lemma HeadPosition(es: seq<ConnectionEvent>)
    requires es != []
    ensures Position(es, es[0]) == 0
  {
  }

  /** Taking another event off the front and appending moves an awaited event one place up. */
  lemma PositionShift(es: seq<ConnectionEvent>, more: seq<ConnectionEvent>, e: ConnectionEvent)
    requires e in es && es[0] != e
    ensures e in es[1..] && Position(es[1..] + more, e) + 1 == Position(es, e)
  {
    assert es == [es[0]] + es[1..];
    PositionAppend(es[1..], more, e);
  }

  function Takes(ins: seq<Input>): nat {
    if ins == [] then 0 else Takes(ins[..|ins| - 1]) + if ins[|ins| - 1].Take? then 1 else 0
  }

  /**
   * Once closed, only the events ahead of Closed are still handled: whatever other threads send and
   * however the writes go, the loop has returned exactly when one more pass than that was made.
   */
  lemma {:induction false} ReturnsAfterClosed(c: Conn, ins: seq<Input>)
    requires Sound(c) && c.closed && c.phase.Draining? && Feasible(c, ins)
    ensures Sound(Run(c, ins)) && Run(c, ins).closed && !Run(c, ins).phase.Reading?
    ensures Run(c, ins).phase.Returned? <==> Takes(ins) == Position(c.queue, Closed) + 1
    ensures Run(c, ins).phase.Draining? ==>
              Takes(ins) + Position(Run(c, ins).queue, Closed) == Position(c.queue, Closed)
  {
    if ins != [] {
      var (init, i) := (ins[..|ins| - 1], ins[|ins| - 1]);
      var before := Run(c, init);
      ReturnsAfterClosed(c, init);
      StepKeepsSound(before, i);
      if before.phase.Draining? {
        CountZero(before.queue, Closed);
        match i
        case Sent(e) => PositionAppend(before.queue, [e], Closed);
        case Take(io) => TakeTowardsClosed(before, io);
      }
    }
  }

  lemma TakeTowardsClosed(c: Conn, io: Io)
    requires c.closed && c.phase.Draining? && Closed in c.queue
    ensures var c' := Step(c, Take(io));
            if c.queue[0].Closed? then c'.phase.Returned? && Position(c.queue, Closed) == 0
            else c'.phase.Draining? && Position(c'.queue, Closed) + 1 == Position(c.queue, Closed)
  {
    hide Position;
    if c.queue[0].Closed? {
      HeadPosition(c.queue);
    } else {
      var rest := c.queue[1..];
      PositionShift(c.queue, [], Closed);
      assert rest + [] == rest;
      PositionShift(c.queue, [Closing], Closed);
      PositionShift(c.queue, [c.queue[0]], Closed);
    }
  }

  /** Every pass that takes a Closing finds the socket willing to shut down. */
  ghost predicate SocketsShutDown(c: Conn, ins: seq<Input>)
    requires Feasible(c, ins)
  {
    ins == [] ||
    (var (init, i) := (ins[..|ins| - 1], ins[|ins| - 1]);
     && SocketsShutDown(c, init)
     && (i.Take? && Run(c, init).queue != [] && Run(c, init).queue[0].Closing? ==> i.io.Done?))
  }

  /**
   * A queued Closing is reached in the same poll cycle: the loop does not read again, and after the
   * passes ahead of it and its own the connection is closed.
   */
  lemma {:induction false} ClosingIsReached(c: Conn, ins: seq<Input>)
    requires Sound(c) && !c.closed && c.phase.Draining? && Closing in c.queue
    requires Feasible(c, ins) && SocketsShutDown(c, ins)
    ensures Sound(Run(c, ins)) && !Run(c, ins).phase.Reading?
    ensures Run(c, ins).closed <==> Takes(ins) > Position(c.queue, Closing)
    ensures !Run(c, ins).closed ==>
              && Run(c, ins).phase.Draining? && Closing in Run(c, ins).queue
              && Takes(ins) + Position(Run(c, ins).queue, Closing) == Position(c.queue, Closing)
  {
    if ins != [] {
      var (init, i) := (ins[..|ins| - 1], ins[|ins| - 1]);
      var before := Run(c, init);
      ClosingIsReached(c, init);
      StepKeepsSound(before, i);
      if !before.closed {
        match i
        case Sent(e) =>
          PositionAppend(before.queue, [e], Closing);
          assert Closing in before.queue + [e];
        case Take(io) =>
          CountZero(before.queue, Closed);
          TakeTowardsClosing(before, io);
      }
    }
  }

  lemma TakeTowardsClosing(c: Conn, io: Io)
    requires !c.closed && c.phase.Draining? && Closing in c.queue && Closed !in c.queue
    requires c.queue[0].Closing? ==> io.Done?
    ensures var c' := Step(c, Take(io));
            && c'.phase.Draining?
            && if c.queue[0].Closing? then c'.closed && Position(c.queue, Closing) == 0
               else !c'.closed && Closing in c'.queue && Position(c'.queue, Closing) + 1 == Position(c.queue, Closing)
  {
    hide Position;
    if c.queue[0].Closing? {
      HeadPosition(c.queue);
    } else {
      var rest := c.queue[1..];
      PositionShift(c.queue, [], Closing);
      assert rest + [] == rest;
      PositionShift(c.queue, [Closing], Closing);
      PositionShift(c.queue, [c.queue[0]], Closing);
      assert c.queue[0] in c.queue;
    }
  }

  // ---- conservation of what callers asked to write ----

  function Undelivered(verdicts: seq<bool>): nat {
    if verdicts == [] then 0
    else Undelivered(verdicts[..|verdicts| - 1]) + if verdicts[|verdicts| - 1] then 0 else 1
  }

  lemma {:induction false} WritesAppend(a: seq<ConnectionEvent>, b: seq<ConnectionEvent>)
    ensures Writes(a + b) == Writes(a) + Writes(b)
  {
    if b == [] {
      assert a + b == a;
    } else {
      WritesAppend(a, b[..|b| - 1]);
      assert (a + b)[..|a + b| - 1] == a + b[..|b| - 1];
    }
  }

  lemma WritesSnoc(es: seq<ConnectionEvent>, e: ConnectionEvent)
    ensures Writes(es + [e]) == Writes(es) + if e.Write? then [e.data] else []
  {
    assert (es + [e])[..|es|] == es;
  }

  lemma WritesHead(es: seq<ConnectionEvent>)
    requires es != []
    ensures Writes(es) == (if es[0].Write? then [es[0].data] else []) + Writes(es[1..])
  {
    assert es == [es[0]] + es[1..];
    WritesAppend([es[0]], es[1..]);
    WritesSnoc([], es[0]);
    assert [] + [es[0]] == [es[0]];
  }

  /** The payloads asked for are those handled and those still queued. */
  ghost predicate Balanced(c: Conn) {
    multiset(c.requested) == multiset(c.handled) + multiset(Writes(c.queue))
  }

  /** They are so in the order they were asked for. */
  ghost predicate InOrder(c: Conn) {
    c.requested == c.handled + Writes(c.queue)
  }

  /**
   * The Closing events that an input asks for: those of callers and visitor, one for an end of stream, one
   * for a failed read and one for a visitor that fails on the data.
   */
  function Asked(i: Input): nat {
    match i
    case Sent(e) => Count([e], Closing)
    case ReadCycle(ReadError, _, _, polled) => 1 + Count(polled, Closing)
    case ReadCycle(ReadData(data, eof), replies, visitorOk, polled) =>
      (if eof then 1 else 0)
      + (if data == [] then 0 else Count(replies, Closing) + if visitorOk then 0 else 1)
      + Count(polled, Closing)
    case Take(_) => 0
  }

  lemma CycleAsks(read: ReadOutcome, replies: seq<ConnectionEvent>, visitorOk: bool, polled: seq<ConnectionEvent>)
    ensures Count(CycleEvents(read, replies, visitorOk, polled), Closing)
         == Asked(ReadCycle(read, replies, visitorOk, polled))
  {
    assert Count([Closing], Closing) == 1 && Count([], Closing) == 0;
    match read
    case ReadError => CountAppend([Closing], polled, Closing);
    case ReadData(data, eof) =>
      var first := if eof then [Closing] else [];
      var failed := if visitorOk then [] else [Closing];
      var second := if data == [] then [] else replies + failed;
      CountAppend(replies, failed, Closing);
      CountAppend(first, second, Closing);
      CountAppend(first + second, polled, Closing);
  }

  /** The payloads that an input asks to write, in order. */
  function AskedWrites(i: Input): seq<Bytes> {
    match i
    case Sent(e) => if e.Write? then [e.data] else []
    case ReadCycle(read, replies, _, polled) =>
      (if read.ReadData? && read.data != [] then Writes(replies) else []) + Writes(polled)
    case Take(_) => []
  }

  function AllAskedWrites(ins: seq<Input>): seq<Bytes> {
    if ins == [] then [] else AllAskedWrites(ins[..|ins| - 1]) + AskedWrites(ins[|ins| - 1])
  }

  lemma NoWrites()
    ensures Writes([]) == [] && Writes([Closing]) == []
  {
    WritesSnoc([], Closing);
    assert [] + [Closing] == [Closing];
  }

  lemma CycleWrites(read: ReadOutcome, replies: seq<ConnectionEvent>, visitorOk: bool, polled: seq<ConnectionEvent>)
    ensures Writes(CycleEvents(read, replies, visitorOk, polled))
         == AskedWrites(ReadCycle(read, replies, visitorOk, polled))
  {
    hide Writes;
    NoWrites();
    match read
    case ReadError => WritesAppend([Closing], polled);
    case ReadData(data, eof) =>
      var first := if eof then [Closing] else [];
      var failed := if visitorOk then [] else [Closing];
      var second := if data == [] then [] else replies + failed;
      WritesAppend(replies, failed);
      WritesAppend(first, second);
      WritesAppend(first + second, polled);
      assert Writes(replies) + [] == Writes(replies);
  }

  /** The payloads the connection accounts for are those the inputs ask to write. */
  lemma {:induction false} RunRequested(c: Conn, ins: seq<Input>)
    requires Initial(c) && Feasible(c, ins)
    ensures Run(c, ins).requested == AllAskedWrites(ins)
  {
    if ins != [] {
      var (init, i) := (ins[..|ins| - 1], ins[|ins| - 1]);
      RunRequested(c, init);
      match i
      case Sent(e) =>
        WritesSnoc([], e);
        assert [] + [e] == [e];
      case ReadCycle(read, replies, visitorOk, polled) => CycleWrites(read, replies, visitorOk, polled);
      case Take(_) =>
    }
  }

  /** The pass takes a Write off the queue and its write fails. */
  predicate WriteFails(c: Conn, i: Input) {
    && i.Take? && c.phase.Draining? && c.queue != [] && c.queue[0].Write?
    && (i.io.Failed? || i.io.UnexpectedEof?)
  }

  function FailedWrites(c: Conn, ins: seq<Input>): nat
    requires Feasible(c, ins)
  {
    if ins == [] then 0
    else
      var init := ins[..|ins| - 1];
      FailedWrites(c, init) + if WriteFails(Run(c, init), ins[|ins| - 1]) then 1 else 0
  }

  lemma UndeliveredSnoc(verdicts: seq<bool>, v: bool)
    ensures Undelivered(verdicts + [v]) == Undelivered(verdicts) + if v then 0 else 1
  {
    assert (verdicts + [v])[..|verdicts|] == verdicts;
  }

  lemma StepVerdicts(c: Conn, i: Input)
    requires Enabled(c, i)
    ensures Undelivered(Step(c, i).verdicts) == Undelivered(c.verdicts) + if WriteFails(c, i) then 1 else 0
  {
    hide Undelivered;
    if i.Take? {
      UndeliveredSnoc(c.verdicts, i.io.Done?);
    }
  }

  /** The payloads counted as failed are those whose write failed. */
  lemma {:induction false} RunFailures(c: Conn, ins: seq<Input>)
    requires Initial(c) && Feasible(c, ins)
    ensures Undelivered(Run(c, ins).verdicts) == FailedWrites(c, ins)
  {
    if ins != [] {
      var (init, i) := (ins[..|ins| - 1], ins[|ins| - 1]);
      RunFailures(c, init);
      StepVerdicts(Run(c, init), i);
    }
  }

  /** What one pass decides: whether the drain goes on, whether the loop returns, whether the connection closes. */
  lemma TakeDecides(c: Conn, io: Io)
    requires c.phase.Draining?
    ensures var c' := Step(c, Take(io));
            && (c'.phase.Draining? <==> c.queue != [] && !c.queue[0].Closed?)
            && (c'.phase.Returned? <==> !c'.phase.Draining? && c.closed)
            && (c'.closed <==> c.closed || (c.queue != [] && c.queue[0].Closing? && io.Done?))
            && (c.queue != [] && c.queue[0].Write? && io.WouldBlock? ==> c'.queue == c.queue[1..] + [c.queue[0]])
  {
  }

  function AskedClosings(ins: seq<Input>): nat {
    if ins == [] then 0 else AskedClosings(ins[..|ins| - 1]) + Asked(ins[|ins| - 1])
  }

  /** Besides the Closing events asked for, there has been one for every payload that failed, and no other. */
  ghost predicate FailuresClose(c: Conn, asked: nat) {
    |c.verdicts| == |c.handled| && c.closings + Count(c.queue, Closing) == asked + Undelivered(c.verdicts)
  }

  lemma EnqueueConserves(c: Conn, es: seq<ConnectionEvent>)
    ensures Balanced(c) ==> Balanced(Enqueue(c, es))
    ensures InOrder(c) ==> InOrder(Enqueue(c, es))
  {
    WritesAppend(c.queue, es);
    assert c.handled + (Writes(c.queue) + Writes(es)) == c.handled + Writes(c.queue) + Writes(es);
  }

  lemma TakeWriteMoves(c: Conn, data: Bytes, rest: seq<ConnectionEvent>, io: Io)
    requires !io.WouldBlock?
    ensures var c' := TakeWrite(c, data, rest, io);
            && c'.requested == c.requested && c'.blocked == c.blocked
            && c'.handled + Writes(c'.queue) == c.handled + ([data] + Writes(rest))
  {
    WritesSnoc(rest, Closing);
    assert Writes(rest) + [] == Writes(rest);
    assert (c.handled + [data]) + Writes(rest) == c.handled + ([data] + Writes(rest));
  }

  lemma TakeOtherMoves(c: Conn, io: Io)
    requires c.phase.Draining? && (c.queue == [] || !c.queue[0].Write?)
    ensures var c' := Step(c, Take(io));
            && c'.requested == c.requested && c'.blocked == c.blocked && c'.handled == c.handled
            && Writes(c'.queue) == Writes(c.queue)
  {
    if c.queue != [] {
      var rest := c.queue[1..];
      WritesHead(c.queue);
      WritesSnoc(rest, Closed);
      assert [] + Writes(rest) == Writes(rest) == Writes(rest) + [];
    }
  }

  /** A pass only moves a payload from the queue to the handled ones, unless it blocks and goes to the end. */
  lemma TakeMoves(c: Conn, io: Io)
    requires c.phase.Draining?
    ensures var c' := Step(c, Take(io));
            && c'.requested == c.requested
            && if c.queue != [] && c.queue[0].Write? && io.WouldBlock?
               then && c'.handled == c.handled && c'.blocked
                    && Writes(c'.queue) == Writes(c.queue[1..]) + [c.queue[0].data]
               else c'.blocked == c.blocked && c'.handled + Writes(c'.queue) == c.handled + Writes(c.queue)
  {
    if c.queue != [] && c.queue[0].Write? {
      WritesHead(c.queue);
      if io.WouldBlock? {
        WritesSnoc(c.queue[1..], c.queue[0]);
      } else {
        TakeWriteMoves(c, c.queue[0].data, c.queue[1..], io);
      }
    } else {
      TakeOtherMoves(c, io);
    }
  }

  lemma SameMultiset(requested: seq<Bytes>, handled: seq<Bytes>, writes: seq<Bytes>,
                     handled': seq<Bytes>, writes': seq<Bytes>)
    requires multiset(requested) == multiset(handled) + multiset(writes)
    requires handled' + writes' == handled + writes
    ensures multiset(requested) == multiset(handled') + multiset(writes')
  {
    assert multiset(handled' + writes') == multiset(handled') + multiset(writes');
    assert multiset(handled + writes) == multiset(handled) + multiset(writes);
  }

  lemma RotatedMultiset(rest: seq<Bytes>, data: Bytes)
    ensures multiset(rest + [data]) == multiset([data] + rest)
  {
  }

  lemma TakeConserves(c: Conn, io: Io)
    requires c.phase.Draining?
    ensures Balanced(c) ==> Balanced(Step(c, Take(io)))
    ensures InOrder(c) && !Step(c, Take(io)).blocked ==> InOrder(Step(c, Take(io)))
  {
    var c' := Step(c, Take(io));
    TakeMoves(c, io);
    if Balanced(c) {
      if c.queue != [] && c.queue[0].Write? && io.WouldBlock? {
        WritesHead(c.queue);
        RotatedMultiset(Writes(c.queue[1..]), c.queue[0].data);
      } else {
        SameMultiset(c.requested, c.handled, Writes(c.queue), c'.handled, Writes(c'.queue));
      }
    }
  }

  lemma FailuresCloseAfterWrite(c: Conn, data: Bytes, rest: seq<ConnectionEvent>, io: Io, asked: nat)
    requires |c.verdicts| == |c.handled| && c.closings + Count(rest, Closing) == asked + Undelivered(c.verdicts)
    ensures FailuresClose(TakeWrite(c, data, rest, io), asked)
  {
    CountAppend(rest, [Closing], Closing);
    CountAppend(rest, [Write(data)], Closing);
    assert Count([Closing], Closing) == 1;
    assert (c.verdicts + [io.Done?])[..|c.verdicts|] == c.verdicts;
  }

  lemma TakeClosesFailures(c: Conn, io: Io, asked: nat)
    requires c.phase.Draining? && FailuresClose(c, asked)
    ensures FailuresClose(Step(c, Take(io)), asked)
  {
    if c.queue != [] {
      match c.queue[0]
      case Write(data) => FailuresCloseAfterWrite(c, data, c.queue[1..], io, asked);
      case _ => CountAppend(c.queue[1..], [Closed], Closing);
    }
  }

  /**
   * In every run the payloads asked for are those handled plus those still queued; while no write has
   * blocked they are so in order.
   */
  lemma {:induction false} RunConserves(c: Conn, ins: seq<Input>)
    requires Initial(c) && Feasible(c, ins)
    ensures Balanced(Run(c, ins))
    ensures !Run(c, ins).blocked ==> InOrder(Run(c, ins))
  {
    if ins != [] {
      var (init, i) := (ins[..|ins| - 1], ins[|ins| - 1]);
      var before := Run(c, init);
      RunConserves(c, init);
      match i
      case Sent(e) => EnqueueConserves(before, [e]);
      case ReadCycle(read, replies, visitorOk, polled) =>
        EnqueueConserves(before, CycleEvents(read, replies, visitorOk, polled));
      case Take(io) =>
        TakeConserves(before, io);
        TakeMoves(before, io);
    }
  }

  /**
   * In every run the Closing events, taken and queued, are those asked for plus exactly one for every
   * payload that failed.
   */
  lemma {:induction false} RunClosesFailures(c: Conn, ins: seq<Input>)
    requires Initial(c) && Feasible(c, ins)
    ensures FailuresClose(Run(c, ins), AskedClosings(ins))
    ensures Run(c, ins).closings + Count(Run(c, ins).queue, Closing) == AskedClosings(ins) + FailedWrites(c, ins)
  {
    RunFailures(c, ins);
    if ins != [] {
      var (init, i) := (ins[..|ins| - 1], ins[|ins| - 1]);
      var before := Run(c, init);
      RunClosesFailures(c, init);
      match i
      case Sent(e) => CountAppend(before.queue, [e], Closing);
      case ReadCycle(read, replies, visitorOk, polled) =>
        CountAppend(before.queue, CycleEvents(read, replies, visitorOk, polled), Closing);
        CycleAsks(read, replies, visitorOk, polled);
      case Take(io) => TakeClosesFailures(before, io, AskedClosings(init));
    }
  }
}
