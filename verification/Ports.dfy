/** The service port allocator: crates/gateway/src/service/manager.rs. */
module Ports {
  import opened Types

  const DEFAULT_SERVICE_PORT_START: U16 := 8200
  const DEFAULT_SERVICE_PORT_END: U16 := 8250

  /** `next_service_port += 1` on a 16-bit port, wrapping as unchecked arithmetic does. */
  function Bump(port: U16): U16 {
    if port == U16_MAX then 0 else port + 1
  }

  /** The ports handed out so far are distinct, are the first ones of the range, and are counted by `next`. */
  ghost predicate InOrder(first: U16, next: U16, last: U16, ports: map<U64, U16>) {
    && first <= next && (next <= last + 1 || next == first)
    && |ports| == next - first
    && (forall s :: s in ports ==> first <= ports[s] < next)
    && (forall s, t :: s in ports && t in ports && ports[s] == ports[t] ==> s == t)
  }

  lemma AllocationKeepsOrder(first: U16, next: U16, last: U16, ports: map<U64, U16>, s: U64)
    requires InOrder(first, next, last, ports) && s !in ports && next <= last < U16_MAX
    ensures InOrder(first, Bump(next), last, ports[s := next])
  {
    assert ports[s := next].Keys == ports.Keys + {s};
  }

  /** One allocator: the next port, and the ports given out. */
  datatype Allocator = Allocator(next: U16, last: U16, ports: map<U64, U16>)

  /** Starting a service: a started one keeps its port, an exhausted range gives none. */
  function Start(a: Allocator, s: U64): Allocator {
    if s in a.ports || a.next > a.last then a
    else Allocator(Bump(a.next), a.last, a.ports[s := a.next])
  }

  function StartAll(a: Allocator, services: seq<U64>): Allocator {
    if services == [] then a
    else Start(StartAll(a, services[..|services| - 1]), services[|services| - 1])
  }

  /** Starting any services leaves the ports in order. */
  lemma {:induction false} StartAllInOrder(first: U16, last: U16, services: seq<U64>)
    requires last < U16_MAX
    ensures var a := StartAll(Allocator(first, last, map[]), services);
            a.last == last && InOrder(first, a.next, last, a.ports)
  {
    if services != [] {
      var init := services[..|services| - 1];
      StartAllInOrder(first, last, init);
      var a := StartAll(Allocator(first, last, map[]), init);
      var s := services[|services| - 1];
      if s !in a.ports && a.next <= a.last {
        AllocationKeepsOrder(first, a.next, last, a.ports, s);
      }
    }
  }

  /** A started service keeps its first port whatever is started later. */
  lemma {:induction false} StartedKeepsPort(a: Allocator, earlier: seq<U64>, later: seq<U64>, s: U64)
    requires s in StartAll(a, earlier).ports
    ensures s in StartAll(a, earlier + later).ports
    ensures StartAll(a, earlier + later).ports[s] == StartAll(a, earlier).ports[s]
  {
    var all := earlier + later;
    if later == [] {
      assert all == earlier;
    } else {
      StartedKeepsPort(a, earlier, later[..|later| - 1], s);
      assert all[..|all| - 1] == earlier + later[..|later| - 1];
    }
  }

  /** The first `n` service ids. */
  function FirstIds(n: nat): seq<U64>
    requires n <= U64_MAX + 1
  {
    seq(n, i requires 0 <= i < n => i as U64)
  }

  /** The first `n` services have the `n` ports from `first` on, modulo the number of ports. */
  ghost predicate GoneRound(first: U16, n: nat, a: Allocator) {
    && a.last == U16_MAX && a.next == (first + n) % 0x1_0000
    && (forall i :: i in a.ports <==> 0 <= i < n)
    && (forall i :: i in a.ports ==> a.ports[i] == (first + i) % 0x1_0000)
  }

  lemma GoneRoundOneMore(first: U16, n: U64, a: Allocator)
    requires GoneRound(first, n, a)
    ensures GoneRound(first, n + 1, Start(a, n))
  {
    assert Bump(a.next) == (first + n + 1) % 0x1_0000;
  }

  /** With 65535 as the last port the range never runs out: the ports go round. */
  lemma {:induction false} FullRangeGoesRound(first: U16, n: nat)
    requires n <= U64_MAX + 1
    ensures GoneRound(first, n, StartAll(Allocator(first, U16_MAX, map[]), FirstIds(n)))
  {
    if n > 0 {
      FullRangeGoesRound(first, n - 1);
      assert FirstIds(n)[..n - 1] == FirstIds(n - 1);
      GoneRoundOneMore(first, n - 1, StartAll(Allocator(first, U16_MAX, map[]), FirstIds(n - 1)));
    }
  }

  ghost predicate AlwaysDistinct(first: U16, last: U16) {
    forall services: seq<U64>, s: U64, t: U64 ::
      var ports := StartAll(Allocator(first, last, map[]), services).ports;
      s in ports && t in ports && s != t ==> ports[s] != ports[t]
  }

  /**
   * Services never share a port exactly when the range stops below 65535: the check against the last
   * port is made on a counter that has already wrapped when the last port is the largest one.
   */
  lemma DistinctPortsIff(first: U16, last: U16)
    ensures AlwaysDistinct(first, last) <==> last < U16_MAX
  {
    if last < U16_MAX {
      forall services: seq<U64>
        ensures InOrder(first, StartAll(Allocator(first, last, map[]), services).next, last,
                        StartAll(Allocator(first, last, map[]), services).ports)
      {
        StartAllInOrder(first, last, services);
      }
    } else {
      FullRangeGoesRound(first, 0x1_0001);
      var ports := StartAll(Allocator(first, last, map[]), FirstIds(0x1_0001)).ports;
      assert 0 in ports && 0x1_0000 in ports && ports[0] == ports[0x1_0000];
    }
  }

  ghost predicate AlwaysInRange(first: U16, last: U16) {
    forall services: seq<U64>, s: U64 ::
      var ports := StartAll(Allocator(first, last, map[]), services).ports;
      s in ports ==> first <= ports[s] <= last
  }

  /** Ports stay in the range exactly when it stops below 65535 or holds all ports: else port 0 follows 65535. */
  lemma InRangeIff(first: U16, last: U16)
    ensures AlwaysInRange(first, last) <==> last < U16_MAX || first == 0
  {
    if last < U16_MAX {
      forall services: seq<U64>
        ensures InOrder(first, StartAll(Allocator(first, last, map[]), services).next, last,
                        StartAll(Allocator(first, last, map[]), services).ports)
      {
        StartAllInOrder(first, last, services);
      }
    } else if first > 0 {
      var n := 0x1_0000 - first;
      FullRangeGoesRound(first, n + 1);
      var ports := StartAll(Allocator(first, last, map[]), FirstIds(n + 1)).ports;
      assert n in ports && ports[n] == 0;
    }
  }

  /** Exactly the size of the range many services can start: one more starts iff that many have not. */
  lemma ExhaustionIff(first: U16, last: U16, services: seq<U64>, s: U64)
    requires last < U16_MAX
    ensures var a := StartAll(Allocator(first, last, map[]), services);
            s in Start(a, s).ports <==> s in a.ports || |a.ports| < last - first + 1
  {
    StartAllInOrder(first, last, services);
  }
}
