/** The two copy threads of a channel-to-TCP proxy: crates/common/src/proxy/proxy_channel_and_tcp.rs. */
module ChannelRelay {
  import opened Types
  import opened Streams
  import opened Flows
  import opened ProxyKeys

  // ---- socket channel to TCP stream ----

  /** One turn: `received` is the next datagram, or nothing when the channel's senders are gone. */
  datatype ChannelTurn = ChannelTurn(disconnect: bool, received: Option<Bytes>, write: WriteCall)

  datatype Outbound = Outbound(flow: Flow, halted: bool)

  function HandleDatagram(o: Outbound, t: ChannelTurn): Outbound {
    if t.disconnect || t.received.None? then o.(halted := true)
    else
      var data := t.received.value;
      Outbound(Then(o.flow, Flow(data, Accepted(data, t.write))), t.write.Partly? && !t.write.error.WouldBlock?)
  }

  function HandleDatagrams(o: Outbound, ts: seq<ChannelTurn>): Outbound
    decreases |ts|
  {
    if ts == [] || o.halted then o else HandleDatagrams(HandleDatagram(o, ts[0]), ts[1..])
  }

  const IDLE := Outbound(NOTHING, false)

  method ChannelToTcp(turns: seq<ChannelTurn>) returns (finished: bool, closedEvents: nat, flow: Flow)
    ensures Outbound(flow, finished) == HandleDatagrams(IDLE, turns)
    ensures closedEvents == if finished then 1 else 0
  {
    flow, closedEvents, finished := NOTHING, 0, false;
    assert turns[0..] == turns;
    var i := 0;
    while i < |turns| && !finished
      invariant 0 <= i <= |turns|
      invariant HandleDatagrams(IDLE, turns) == HandleDatagrams(Outbound(flow, finished), turns[i..])
    {
      assert turns[i..][1..] == turns[i + 1..];
      var t := turns[i];
      if t.disconnect || t.received.None? {
        finished := true;
      } else {
        flow := Flow(flow.consumed + t.received.value, flow.written + Accepted(t.received.value, t.write));
        match t.write {
          case Wrote =>
          case Partly(_, WouldBlock) =>
          case Partly(_, _) => finished := true;
        }
      }
      i := i + 1;
    }
    if finished {
      closedEvents := closedEvents + 1;
    }
  }

  /** The write fails otherwise than by blocking. */
  predicate WriteEnds(t: ChannelTurn) {
    t.write.Partly? && !t.write.error.WouldBlock?
  }

  predicate ChannelTurnEnds(t: ChannelTurn) {
    t.disconnect || t.received.None? || WriteEnds(t)
  }

  /** The transfers of the datagrams received up to the turn that ends the loop. */
  function DatagramTransfers(ts: seq<ChannelTurn>): seq<Flow> {
    if ts == [] || ts[0].disconnect || ts[0].received.None? then []
    else
      [Flow(ts[0].received.value, Accepted(ts[0].received.value, ts[0].write))]
      + if WriteEnds(ts[0]) then [] else DatagramTransfers(ts[1..])
  }

  /** The loop ends exactly at the first turn that the outcomes say ends it. */
  lemma {:induction false} DatagramsEndIff(o: Outbound, ts: seq<ChannelTurn>)
    requires !o.halted
    ensures HandleDatagrams(o, ts).halted <==> exists i :: 0 <= i < |ts| && ChannelTurnEnds(ts[i])
    decreases |ts|
  {
    if ts != [] && !ChannelTurnEnds(ts[0]) {
      DatagramsEndIff(HandleDatagram(o, ts[0]), ts[1..]);
      assert ts == [ts[0]] + ts[1..];
    }
  }

  lemma {:induction false} DatagramsJoin(o: Outbound, ts: seq<ChannelTurn>)
    requires !o.halted
    ensures Transfers(DatagramTransfers(ts))
    ensures HandleDatagrams(o, ts).flow == Then(o.flow, Joined(DatagramTransfers(ts)))
    decreases |ts|
  {
    ThenNothing(o.flow);
    if ts != [] && !ts[0].disconnect && ts[0].received.Some? {
      var p := Flow(ts[0].received.value, Accepted(ts[0].received.value, ts[0].write));
      JoinedOne(p);
      if !WriteEnds(ts[0]) {
        var later := DatagramTransfers(ts[1..]);
        DatagramsJoin(HandleDatagram(o, ts[0]), ts[1..]);
        JoinedAppend([p], later);
        ThenAssociates(o.flow, p, Joined(later));
      }
    }
  }

  /** No datagram's write would block. */
  ghost predicate NoneBlocks(ts: seq<ChannelTurn>) {
    forall i :: 0 <= i < |ts| && ts[i].write.Partly? ==> !ts[i].write.error.WouldBlock?
  }

  lemma {:induction false} UnblockedOnlyEndCut(ts: seq<ChannelTurn>)
    requires NoneBlocks(ts)
    ensures OnlyEndCut(DatagramTransfers(ts))
  {
    if ts != [] && !ts[0].disconnect && ts[0].received.Some? {
      UnblockedOnlyEndCut(ts[1..]);
    }
  }

  /** Until the loop ends, every datagram is handled. */
  lemma {:induction false} HandlesAllDatagrams(ts: seq<ChannelTurn>)
    requires forall i :: 0 <= i < |ts| ==> !ChannelTurnEnds(ts[i])
    ensures |DatagramTransfers(ts)| == |ts|
    ensures forall i :: 0 <= i < |ts| ==>
              && ts[i].received.Some?
              && DatagramTransfers(ts)[i] == Flow(ts[i].received.value, Accepted(ts[i].received.value, ts[i].write))
  {
    if ts != [] {
      assert !ChannelTurnEnds(ts[0]);
      HandlesAllDatagrams(ts[1..]);
    }
  }

  /** What reaches the gateway is what the datagrams handled deliver; a prefix of them if no write would block. */
  lemma DatagramsFaithful(ts: seq<ChannelTurn>)
    ensures Delivers(DatagramTransfers(ts), HandleDatagrams(IDLE, ts).flow)
    ensures NoneBlocks(ts) ==> OnlyEndCut(DatagramTransfers(ts))
  {
    hide HandleDatagrams, DatagramTransfers, Delivers, Joined;
    DatagramsJoin(IDLE, ts);
    ThenNothing(Joined(DatagramTransfers(ts)));
    TransfersDeliver(DatagramTransfers(ts));
    if NoneBlocks(ts) {
      UnblockedOnlyEndCut(ts);
    }
  }

  // ---- TCP stream to socket channel ----

  /** A datagram to be sent from the server socket. */
  datatype Reply = Reply(key: string, to: Addr, data: Bytes)

  /** One readiness event of the stream and whether the reply it leads to could be sent. */
  datatype ReplyEvent = ReplyEvent(calls: seq<ReadCall>, sent: bool, reregistered: bool)

  /** One turn: another thread's `closing`, then what polling gave: an interruption, a failure or events. */
  datatype ReplyTurn = ReplyTurn(disconnect: bool, interrupted: bool, failed: bool, events: seq<ReplyEvent>)

  datatype Inbound = Inbound(consumed: Bytes, replies: seq<Reply>, halted: bool)

  function HandleReply(n: Inbound, e: ReplyEvent, key: string, to: Addr): Inbound {
    var r := ReadAll(e.calls);
    var read := n.(consumed := n.consumed + r.consumed);
    match r.result
    case ReadFailed(_) => read.(halted := true)
    case Data(data) =>
      if data != [] && !e.sent then read.(halted := true)
      else read.(replies := if data == [] then n.replies else n.replies + [Reply(key, to, data)],
                 halted := !e.reregistered)
  }

  function HandleReplies(n: Inbound, es: seq<ReplyEvent>, key: string, to: Addr): Inbound
    decreases |es|
  {
    if es == [] || n.halted then n else HandleReplies(HandleReply(n, es[0], key, to), es[1..], key, to)
  }

  function HandleReplyTurn(n: Inbound, t: ReplyTurn, key: string, to: Addr): Inbound {
    if t.disconnect || (!t.interrupted && t.failed) then n.(halted := true)
    else if t.interrupted then n
    else HandleReplies(n, t.events, key, to)
  }

  function HandleReplyTurns(n: Inbound, ts: seq<ReplyTurn>, key: string, to: Addr): Inbound
    decreases |ts|
  {
    if ts == [] || n.halted then n else HandleReplyTurns(HandleReplyTurn(n, ts[0], key, to), ts[1..], key, to)
  }

  const SILENT := Inbound([], [], false)

  method TcpToChannel(setUp: bool, turns: seq<ReplyTurn>, key: string, to: Addr)
    returns (closedEvents: nat, n: Inbound)
    ensures setUp ==> n == HandleReplyTurns(SILENT, turns, key, to)
    ensures !setUp ==> n == SILENT.(halted := true)
    ensures closedEvents == if n.halted then 1 else 0
  {
    n, closedEvents := SILENT, 0;
    if !setUp {
      return 1, n.(halted := true);
    }
    assert turns[0..] == turns;
    var i := 0;
    while i < |turns| && !n.halted
      invariant 0 <= i <= |turns| && closedEvents == 0
      invariant HandleReplyTurns(SILENT, turns, key, to) == HandleReplyTurns(n, turns[i..], key, to)
    {
      assert turns[i..][1..] == turns[i + 1..];
      var t := turns[i];
      if t.disconnect || (!t.interrupted && t.failed) {
        n := n.(halted := true);
      } else if !t.interrupted {
        n := RelayReady(n, t.events, key, to);
      }
      i := i + 1;
    }
    if n.halted {
      closedEvents := closedEvents + 1;
    }
  }

  method RelayReady(start: Inbound, es: seq<ReplyEvent>, key: string, to: Addr) returns (n: Inbound)
    requires !start.halted
    ensures n == HandleReplies(start, es, key, to)
  {
    n := start;
    assert es[0..] == es;
    for i := 0 to |es|
      invariant !n.halted && HandleReplies(start, es, key, to) == HandleReplies(n, es[i..], key, to)
    {
      assert es[i..][1..] == es[i + 1..];
      var read, consumed := ReadTcpStream(es[i].calls);
      assert ReadEffect(consumed, read) == ReadAll(es[i].calls);
      n := n.(consumed := n.consumed + consumed);
      match read {
        case ReadFailed(_) => return n.(halted := true);
        case Data(data) =>
          if data != [] {
            if !es[i].sent {
              return n.(halted := true);
            }
            n := n.(replies := n.replies + [Reply(key, to, data)]);
          }
      }
      if !es[i].reregistered {
        return n.(halted := true);
      }
    }
  }

  function ReplyBytes(replies: seq<Reply>): Bytes {
    if replies == [] then [] else ReplyBytes(replies[..|replies| - 1]) + replies[|replies| - 1].data
  }

  /** Replies all go to the one peer, are never empty, and together are a prefix of what the stream gave. */
  ghost predicate RepliesOk(n: Inbound, key: string, to: Addr) {
    && (forall i :: 0 <= i < |n.replies| ==>
          n.replies[i].key == key && n.replies[i].to == to && n.replies[i].data != [])
    && ReplyBytes(n.replies) <= n.consumed
    && (!n.halted ==> ReplyBytes(n.replies) == n.consumed)
  }

  lemma ReplyBytesSnoc(replies: seq<Reply>, r: Reply)
    ensures ReplyBytes(replies + [r]) == ReplyBytes(replies) + r.data
  {
    assert (replies + [r])[..|replies|] == replies;
  }

  lemma ReplyOk(n: Inbound, e: ReplyEvent, key: string, to: Addr)
    requires RepliesOk(n, key, to) && !n.halted
    ensures RepliesOk(HandleReply(n, e, key, to), key, to)
  {
    hide ReadAll, ReplyBytes;
    ReadReturnsConsumed(e.calls);
    ReplyBytesSnoc(n.replies, Reply(key, to, ReadAll(e.calls).consumed));
    assert n.consumed + [] == n.consumed;
  }

  lemma {:induction false} RepliesAllOk(n: Inbound, es: seq<ReplyEvent>, key: string, to: Addr)
    requires RepliesOk(n, key, to)
    ensures RepliesOk(HandleReplies(n, es, key, to), key, to)
    decreases |es|
  {
    if es != [] && !n.halted {
      ReplyOk(n, es[0], key, to);
      RepliesAllOk(HandleReply(n, es[0], key, to), es[1..], key, to);
    }
  }

  lemma {:induction false} ReplyTurnsOk(n: Inbound, ts: seq<ReplyTurn>, key: string, to: Addr)
    requires RepliesOk(n, key, to)
    ensures RepliesOk(HandleReplyTurns(n, ts, key, to), key, to)
    decreases |ts|
  {
    if ts != [] && !n.halted {
      RepliesAllOk(n, ts[0].events, key, to);
      ReplyTurnsOk(HandleReplyTurn(n, ts[0], key, to), ts[1..], key, to);
    }
  }

  // ---- when the reply thread ends, and what it has relayed by then ----

  /** The read fails, its reply cannot be sent, or the stream cannot be waited for again. */
  predicate ReplyEnds(e: ReplyEvent) {
    match ReadAll(e.calls).result
    case ReadFailed(_) => true
    case Data(data) => (data != [] && !e.sent) || !e.reregistered
  }

  predicate SomeReplyEnds(es: seq<ReplyEvent>) {
    exists i :: 0 <= i < |es| && ReplyEnds(es[i])
  }

  predicate ReplyTurnEnds(t: ReplyTurn) {
    t.disconnect || (!t.interrupted && (t.failed || SomeReplyEnds(t.events)))
  }

  /** The events up to and including the first that ends the loop. */
  function Answered(es: seq<ReplyEvent>): seq<ReplyEvent> {
    if es == [] then [] else if ReplyEnds(es[0]) then [es[0]] else [es[0]] + Answered(es[1..])
  }

  function AnsweredTurns(ts: seq<ReplyTurn>): seq<ReplyEvent> {
    if ts == [] then []
    else
      AnsweredIn(ts[0])
      + if ReplyTurnEnds(ts[0]) then [] else AnsweredTurns(ts[1..])
  }

  /** One reply for each event that read data and could send it. */
  function RepliesTo(es: seq<ReplyEvent>, key: string, to: Addr): seq<Reply> {
    if es == [] then [] else ReplyTo(es[0], key, to) + RepliesTo(es[1..], key, to)
  }

  function ReplyTo(e: ReplyEvent, key: string, to: Addr): seq<Reply> {
    match ReadAll(e.calls).result
    case ReadFailed(_) => []
    case Data(data) => if data != [] && e.sent then [Reply(key, to, data)] else []
  }

  lemma {:induction false} RepliesToAppend(a: seq<ReplyEvent>, b: seq<ReplyEvent>, key: string, to: Addr)
    ensures RepliesTo(a + b, key, to) == RepliesTo(a, key, to) + RepliesTo(b, key, to)
  {
    hide ReplyTo;
    if a == [] {
      assert a + b == b;
    } else {
      RepliesToAppend(a[1..], b, key, to);
      assert (a + b)[0] == a[0] && (a + b)[1..] == a[1..] + b;
      var (x, y, z) := (ReplyTo(a[0], key, to), RepliesTo(a[1..], key, to), RepliesTo(b, key, to));
      assert x + (y + z) == x + y + z;
    }
  }

  lemma SomeReplyEndsHead(es: seq<ReplyEvent>)
    requires es != []
    ensures SomeReplyEnds(es) <==> ReplyEnds(es[0]) || SomeReplyEnds(es[1..])
  {
    if SomeReplyEnds(es[1..]) {
      var i :| 0 <= i < |es[1..]| && ReplyEnds(es[1..][i]);
      assert ReplyEnds(es[i + 1]);
    }
    if SomeReplyEnds(es) && !ReplyEnds(es[0]) {
      var i :| 0 <= i < |es| && ReplyEnds(es[i]);
      assert ReplyEnds(es[1..][i - 1]);
    }
  }

  lemma NoReplyEnds()
    ensures !SomeReplyEnds([])
  {
  }

  lemma ReplyLaw(n: Inbound, e: ReplyEvent, key: string, to: Addr)
    requires !n.halted
    ensures HandleReply(n, e, key, to).halted <==> ReplyEnds(e)
    ensures HandleReply(n, e, key, to).replies == n.replies + ReplyTo(e, key, to)
  {
    hide ReadAll;
  }

  lemma {:induction false} RepliesLaw(n: Inbound, es: seq<ReplyEvent>, key: string, to: Addr)
    requires !n.halted
    ensures HandleReplies(n, es, key, to).halted <==> SomeReplyEnds(es)
    ensures HandleReplies(n, es, key, to).replies == n.replies + RepliesTo(Answered(es), key, to)
    decreases |es|
  {
    hide SomeReplyEnds, HandleReply, ReplyTo, ReplyEnds;
    if es == [] {
      NoReplyEnds();
    } else {
      SomeReplyEndsHead(es);
      var n' := HandleReply(n, es[0], key, to);
      ReplyLaw(n, es[0], key, to);
      if ReplyEnds(es[0]) {
        assert [es[0]][1..] == [];
      } else {
        RepliesLaw(n', es[1..], key, to);
        var later := RepliesTo(Answered(es[1..]), key, to);
        assert n.replies + ReplyTo(es[0], key, to) + later == n.replies + (ReplyTo(es[0], key, to) + later);
      }
    }
  }

  function AnsweredIn(t: ReplyTurn): seq<ReplyEvent> {
    if t.disconnect || t.interrupted || t.failed then [] else Answered(t.events)
  }

  lemma ReplyTurnLaw(n: Inbound, t: ReplyTurn, key: string, to: Addr)
    requires !n.halted
    ensures HandleReplyTurn(n, t, key, to).halted <==> ReplyTurnEnds(t)
    ensures HandleReplyTurn(n, t, key, to).replies == n.replies + RepliesTo(AnsweredIn(t), key, to)
  {
    hide SomeReplyEnds, HandleReplies, Answered;
    RepliesLaw(n, t.events, key, to);
  }

  /** The loop ends exactly at the first turn that the outcomes say ends it. */
  lemma {:induction false} RepliesEndIff(n: Inbound, ts: seq<ReplyTurn>, key: string, to: Addr)
    requires !n.halted
    ensures HandleReplyTurns(n, ts, key, to).halted <==> exists i :: 0 <= i < |ts| && ReplyTurnEnds(ts[i])
    decreases |ts|
  {
    hide HandleReplyTurn, ReplyTurnEnds;
    if ts != [] {
      ReplyTurnLaw(n, ts[0], key, to);
      if !ReplyTurnEnds(ts[0]) {
        RepliesEndIff(HandleReplyTurn(n, ts[0], key, to), ts[1..], key, to);
        assert ts == [ts[0]] + ts[1..];
      }
    }
  }

  /** By then it has sent one reply for each event up to there that read data and could send it. */
  lemma {:induction false} RepliesSent(n: Inbound, ts: seq<ReplyTurn>, key: string, to: Addr)
    requires !n.halted
    ensures HandleReplyTurns(n, ts, key, to).replies == n.replies + RepliesTo(AnsweredTurns(ts), key, to)
    decreases |ts|
  {
    hide HandleReplyTurn, AnsweredIn, ReplyTurnEnds, RepliesTo;
    NoReplies(key, to);
    if ts != [] {
      var (turn, n') := (ts[0], HandleReplyTurn(n, ts[0], key, to));
      ReplyTurnLaw(n, turn, key, to);
      if ReplyTurnEnds(turn) {
        assert AnsweredTurns(ts) == AnsweredIn(turn);
      } else {
        RepliesSent(n', ts[1..], key, to);
        RepliesToAppend(AnsweredIn(turn), AnsweredTurns(ts[1..]), key, to);
        var (here, later) := (RepliesTo(AnsweredIn(turn), key, to), RepliesTo(AnsweredTurns(ts[1..]), key, to));
        assert n.replies + here + later == n.replies + (here + later);
      }
    }
  }

  lemma NoReplies(key: string, to: Addr)
    ensures RepliesTo([], key, to) == []
  {
  }
}
