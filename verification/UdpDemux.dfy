/** The UDP client's demultiplexer of datagrams to per-peer channels: crates/client/src/service/proxy/udp_proxy.rs. */
module UdpDemux {
  import opened Types
  import opened Registry
  import opened GatewayState
  import opened ProxyKeys
  import opened SharedState
  import opened ClientManager
  import ChannelRelay

  datatype Datagram = Datagram(peer: Addr, data: Bytes)

  /**
   * What a visitor goes through: a datagram (with whether the gateway can be reached, if need be, and
   * whether the channel still has a reader), a proxy that ended, or a shutdown of its connections.
   */
  datatype Event =
    | Arrival(datagram: Datagram, connected: bool, listening: bool)
    | ProxyClosed(key: string)
    | Shutdown

  /** Nothing but a refused task is in the way of the event. */
  predicate GoesWell(event: Event) {
    event.Arrival? ==> event.connected && event.listening
  }

  function From(d: Datagram, peer: Addr): seq<Datagram> {
    if d.peer == peer then [d] else []
  }

  function Brought(event: Event, peer: Addr): seq<Datagram> {
    match event
    case Arrival(d, _, _) => From(d, peer)
    case _ => []
  }

  /** The datagrams of one peer, in the order they arrived. */
  function DatagramsFrom(events: seq<Event>, peer: Addr): seq<Datagram> {
    if events == [] then []
    else
      DatagramsFrom(events[..|events| - 1], peer)
      + Brought(events[|events| - 1], peer)
  }

  lemma DatagramsStep(events: seq<Event>, i: nat)
    requires i < |events|
    ensures forall p: Addr, had: seq<Datagram> ::
              had + DatagramsFrom(events[..i + 1], p) == had + DatagramsFrom(events[..i], p) + Brought(events[i], p)
  {
    assert events[..i + 1][..i] == events[..i];
  }

  function Opens(keys: seq<string>): seq<Task> {
    seq(|keys|, i requires 0 <= i < |keys| => Open(keys[i]))
  }

  /** The keys of the Open tasks of a sequence of tasks. */
  function OpenKeys(tasks: seq<Task>): seq<string> {
    if tasks == [] then []
    else
      OpenKeys(tasks[..|tasks| - 1])
      + match tasks[|tasks| - 1]
        case Open(k) => [k]
        case Close(_) => []
  }

  lemma OpenKeysSnoc(tasks: seq<Task>, key: string)
    ensures OpenKeys(tasks + [Open(key)]) == OpenKeys(tasks) + [key]
  {
    assert (tasks + [Open(key)])[..|tasks|] == tasks;
  }

  lemma {:induction false} OpenKeysCloses(tasks: seq<Task>, keys: seq<string>)
    ensures OpenKeys(tasks + Closes(keys)) == OpenKeys(tasks)
  {
    if keys == [] {
      assert tasks + Closes(keys) == tasks;
    } else {
      var n := |keys| - 1;
      OpenKeysCloses(tasks, keys[..n]);
      assert tasks + Closes(keys) == tasks + Closes(keys[..n]) + [Close(keys[n])];
      assert (tasks + Closes(keys))[..|tasks| + n] == tasks + Closes(keys[..n]);
    }
  }

  /** Everything ever sent into each channel (channels are never dropped), and the peer each was opened for. */
  datatype Channels = Channels(local: Addr, sent: map<string, seq<Datagram>>, peers: map<string, Addr>) {
    function KeyOf(peer: Addr): string {
      KeyValue(ChannelAndTcp, Some(peer), Some(local))
    }

    /** Each channel carries the datagrams of one peer, the one its key and its proxy were made for. */
    ghost predicate Separate() {
      && sent.Keys == peers.Keys
      && forall k :: k in sent ==>
           k == KeyOf(peers[k]) && forall i :: 0 <= i < |sent[k]| ==> sent[k][i].peer == peers[k]
    }

    /** What the channel of a peer has been sent. */
    ghost function Delivered(peer: Addr): seq<Datagram> {
      if KeyOf(peer) in sent then sent[KeyOf(peer)] else []
    }

    /** Two peers never share a key. */
    lemma KeyOfInjective(p: Addr, q: Addr)
      ensures KeyOf(p) == KeyOf(q) <==> p == q
    {
      KeyValueInjective(ChannelAndTcp, Some(p), Some(local), ChannelAndTcp, Some(q), Some(local));
    }

    /** Nor do visitors that listen on different addresses. */
    lemma KeysOfVisitorsDiffer(other: Channels, p: Addr, q: Addr)
      ensures KeyOf(p) == other.KeyOf(q) <==> p == q && local == other.local
    {
      KeyValueInjective(ChannelAndTcp, Some(p), Some(local), ChannelAndTcp, Some(q), Some(other.local));
    }

    function Opened(peer: Addr): Channels {
      this.(sent := sent[KeyOf(peer) := []], peers := peers[KeyOf(peer) := peer])
    }

    lemma OpenedSeparate(peer: Addr)
      requires Separate() && KeyOf(peer) !in sent
      ensures Opened(peer).Separate() && KeyOf(peer) in Opened(peer).sent
      ensures forall p: Addr :: Opened(peer).Delivered(p) == Delivered(p)
    {
      hide KeyValue;
      forall p: Addr
        ensures Opened(peer).Delivered(p) == Delivered(p)
      {
        assert Opened(peer).KeyOf(p) == KeyOf(p);
      }
    }

    function Sent(d: Datagram): Channels
      requires KeyOf(d.peer) in sent
    {
      this.(sent := sent[KeyOf(d.peer) := sent[KeyOf(d.peer)] + [d]])
    }

    lemma SentSeparate(d: Datagram)
      requires Separate() && KeyOf(d.peer) in sent
      ensures Sent(d).Separate()
      ensures forall p: Addr :: Sent(d).Delivered(p) == Delivered(p) + From(d, p)
    {
      hide KeyValue;
      KeyOfInjective(d.peer, peers[KeyOf(d.peer)]);
      forall p: Addr
        ensures Sent(d).Delivered(p) == Delivered(p) + From(d, p)
      {
        KeyOfInjective(p, d.peer);
        assert Sent(d).KeyOf(p) == KeyOf(p);
      }
    }
  }

  class UdpVisitor {
    const book: ClientVisitor

    /** `socket_channel_senders_by_proxy_key` */
    var channels: Channels

    /** The keys an Open was sent for, in order. */
    ghost var opens: seq<string>

    /** No key was opened twice, and exactly the keys opened have a channel. */
    ghost predicate Valid()
      reads this
    {
      channels.Separate() && NoDup(opens) && KeySet(opens) == channels.sent.Keys
    }

    constructor (service: U64, shared: SharedIndex, local: Addr)
      ensures Valid() && channels == Channels(local, map[], map[]) && opens == []
      ensures book.service == service && book.shared == shared && fresh(book)
    {
      this.book := new ClientVisitor(service, shared);
      channels, opens := Channels(local, map[], map[]), [];
    }

    static lemma OpensGrow(opens: seq<string>, key: string)
      requires NoDup(opens) && key !in KeySet(opens)
      ensures NoDup(opens + [key]) && KeySet(opens + [key]) == KeySet(opens) + {key}
    {
      assert KeySet([key]) == {key};
      NoDupKeysAppend(opens, [key]);
    }

    static lemma NoDupParts(a: seq<string>, b: seq<string>)
      requires NoDup(a + b)
      ensures NoDup(b) && KeySet(a) !! KeySet(b)
    {
      var c := a + b;
      forall i, j | 0 <= i < j < |b|
        ensures b[i] != b[j]
      {
        assert c[|a| + i] != c[|a| + j];
      }
      forall k | k in KeySet(a)
        ensures k !in KeySet(b)
      {
        var i :| 0 <= i < |a| && a[i] == k;
        forall j | 0 <= j < |b|
          ensures b[j] != k
        {
          assert c[i] != c[|a| + j];
        }
      }
    }

    /** A peer seen for the first time gets a proxy and a channel; a failure leaves it unseen. */
    method OpenChannel(peer: Addr, connected: bool, tasks: TaskSender) returns (ok: bool)
      requires Valid() && channels.KeyOf(peer) !in channels.sent
      modifies this, book, book.shared, tasks
      ensures Valid()
      ensures ok ==> connected
      ensures !ok ==> channels == old(channels) && opens == old(opens) && tasks.sent == old(tasks.sent)
      ensures !ok ==> tasks.refused == old(tasks.refused) + if connected then [Open(channels.KeyOf(peer))] else []
      ensures ok ==> tasks.refused == old(tasks.refused) == []
      ensures ok ==>
                && channels == old(channels).Opened(peer) && channels.KeyOf(peer) in channels.sent
                && opens == old(opens) + [channels.KeyOf(peer)]
                && tasks.sent == old(tasks.sent) + [Open(channels.KeyOf(peer))]
    {
      hide KeyValue;
      var key := channels.KeyOf(peer);
      if !connected {
        return false;
      }
      ok := book.OnConnAccepted(Some(key), tasks);
      if ok {
        OpensGrow(opens, key);
        channels.OpenedSeparate(peer);
        channels := channels.Opened(peer);
        opens := opens + [key];
      }
    }

    method OnMessageReceived(d: Datagram, connected: bool, listening: bool, tasks: TaskSender)
      returns (ok: bool, ghost added: seq<string>)
      requires Valid()
      modifies this, book, book.shared, tasks
      ensures Valid()
      ensures opens == old(opens) + added && tasks.sent == old(tasks.sent) + Opens(added) && |added| <= 1
      ensures old(channels).KeyOf(d.peer) in old(channels).sent ==> added == [] && ok == listening
      ensures old(channels).KeyOf(d.peer) !in old(channels).sent && !connected ==> added == [] && !ok
      ensures old(channels).KeyOf(d.peer) in old(channels).sent || !connected ==> tasks.refused == old(tasks.refused)
      ensures old(channels).KeyOf(d.peer) !in old(channels).sent && connected ==>
                || (added == [old(channels).KeyOf(d.peer)] && ok == listening && tasks.refused == old(tasks.refused))
                || (added == [] && !ok && tasks.refused == old(tasks.refused) + [Open(old(channels).KeyOf(d.peer))])
      ensures ok ==> listening
      ensures forall p: Addr ::
                channels.Delivered(p) == old(channels).Delivered(p) + if ok then From(d, p) else []
    {
      hide KeyValue, Channels.KeyOf, Channels.Separate, Channels.Delivered;
      added := [];
      if channels.KeyOf(d.peer) !in channels.sent {
        channels.OpenedSeparate(d.peer);
        ok := OpenChannel(d.peer, connected, tasks);
        if !ok {
          return false, [];
        }
        added := [channels.KeyOf(d.peer)];
      }
      if !listening {
        return false, added;
      }
      channels.SentSeparate(d);
      channels := channels.Sent(d);
      return true, added;
    }

    method ShutdownConnections(tasks: TaskSender) returns (ok: bool, ghost closed: seq<string>)
      requires Valid()
      modifies book, book.shared, tasks
      ensures Valid() && channels == old(channels) && opens == old(opens)
      ensures tasks.sent == old(tasks.sent) + Closes(closed)
      ensures KeySet(closed) <= old(book.proxyKeys) && (ok <==> KeySet(closed) == old(book.proxyKeys))
      ensures NoDup(closed) && book.proxyKeys == (if ok then {} else old(book.proxyKeys))
      ensures old(tasks.refused) <= tasks.refused && (ok <==> tasks.refused == old(tasks.refused))
      ensures book.shared.services == old(book.shared.services) - old(book.proxyKeys)
    {
      ghost var refused;
      ok, closed, refused := book.ShutdownConnections(tasks);
      assert refused != [] ==> refused[0] in KeySet(refused);
    }

    /** A proxy that ended is forgotten by the bookkeeping, but its channel stays: the key is not opened again. */
    method RemoveProxyForKey(key: string) returns (removed: bool)
      requires Valid()
      modifies book, book.shared
      ensures Valid() && channels == old(channels) && opens == old(opens)
      ensures removed <==> key in old(book.proxyKeys)
      ensures book.proxyKeys == old(book.proxyKeys) - {key}
      ensures book.shared.services == old(book.shared.services) - if removed then {key} else {}
    {
      removed := book.RemoveProxyForKey(key);
    }

    /** One event of a visitor's life. */
    method Handle(event: Event, tasks: TaskSender) returns (ok: bool, ghost added: seq<string>)
      requires Valid()
      modifies this, book, book.shared, tasks
      ensures Valid()
      ensures opens == old(opens) + added && OpenKeys(tasks.sent) == OpenKeys(old(tasks.sent)) + added
      ensures ok ==> forall p: Addr :: channels.Delivered(p) == old(channels).Delivered(p) + Brought(event, p)
      ensures old(tasks.refused) <= tasks.refused
      ensures tasks.refused == [] && GoesWell(event) ==> ok
      ensures event.ProxyClosed? ==> book.proxyKeys == old(book.proxyKeys) - {event.key}
      ensures event.Shutdown? ==> book.proxyKeys == if ok then {} else old(book.proxyKeys)
    {
      hide Channels.Delivered, Channels.Separate;
      match event
      case Arrival(d, connected, listening) =>
        ok, added := OnMessageReceived(d, connected, listening, tasks);
        if added == [] {
          assert old(tasks.sent) + Opens(added) == old(tasks.sent);
        } else {
          assert Opens(added) == [Open(added[0])];
          OpenKeysSnoc(old(tasks.sent), added[0]);
        }
      case ProxyClosed(key) =>
        var removed := RemoveProxyForKey(key);
        ok, added := true, [];
      case Shutdown =>
        ghost var closed;
        ok, closed := ShutdownConnections(tasks);
        OpenKeysCloses(old(tasks.sent), closed);
        added := [];
    }

    /**
     * A visitor's life: however its calls go, the keys it opens are all different and have not been
     * opened before; if they all go well, each peer's channel gets exactly that peer's datagrams, in
     * the order they arrived.
     */
    method Serve(events: seq<Event>, tasks: TaskSender) returns (allOk: bool, ghost added: seq<string>)
      requires Valid()
      modifies this, book, book.shared, tasks
      ensures Valid()
      ensures opens == old(opens) + added && OpenKeys(tasks.sent) == OpenKeys(old(tasks.sent)) + added
      ensures NoDup(added) && KeySet(old(opens)) !! KeySet(added)
      ensures allOk ==>
                forall p: Addr :: channels.Delivered(p) == old(channels).Delivered(p) + DatagramsFrom(events, p)
      ensures tasks.refused == [] && (forall i :: 0 <= i < |events| ==> GoesWell(events[i])) ==> allOk
    {
      hide Channels.Delivered, Channels.Separate;
      allOk, added := true, [];
      for i := 0 to |events|
        invariant Valid()
        invariant opens == old(opens) + added && OpenKeys(tasks.sent) == OpenKeys(old(tasks.sent)) + added
        invariant tasks.refused == [] && (forall j :: 0 <= j < i ==> GoesWell(events[j])) ==> allOk
        invariant allOk ==>
                    forall p: Addr ::
                      channels.Delivered(p) == old(channels).Delivered(p) + DatagramsFrom(events[..i], p)
      {
        var ok, more := Handle(events[i], tasks);
        DatagramsStep(events, i);
        allOk, added := allOk && ok, added + more;
      }
      assert events[..|events|] == events;
      NoDupParts(old(opens), added);
    }

    /** Replies relayed for a key go to the peer whose datagrams its channel carries. */
    lemma RepliesReachSender(key: string, turns: seq<ChannelRelay.ReplyTurn>)
      requires Valid() && key in channels.sent
      ensures var n := ChannelRelay.HandleReplyTurns(ChannelRelay.SILENT, turns, key, channels.peers[key]);
              forall i, j :: 0 <= i < |n.replies| && 0 <= j < |channels.sent[key]| ==>
                && n.replies[i].key == channels.KeyOf(channels.sent[key][j].peer)
                && n.replies[i].to == channels.sent[key][j].peer
    {
      hide KeyValue;
      ChannelRelay.ReplyTurnsOk(ChannelRelay.SILENT, turns, key, channels.peers[key]);
    }
  }
}
