/** A data packet from the first router to the host, or to the border: the data branch at each router on the way,
    while distance vectors may still be flowing (lab3-router/router.cpp, TYPE_DATA). */
module HostJourney {
  import opened DistanceVector
  import opened DvNetwork
  import opened DvConvergence
  import opened Forwarding
  import opened Traps
  import opened LoopFreedom
  import opened Words
  import opened Router
  import opened Translation
  import Nat
  import LocalDelivery

  /** A packet is at a router. Before it is handled, the routers exchange some vectors; `routers` are their states
      then, and `after` and `out` are what the data branch makes of the router and the packet. */
  datatype Leg = Leg(acts: seq<Action>, routers: seq<State>, at: nat, after: State, out: Outcome)

  ghost predicate Handles(t: Topology, m: Net, tables: Tables, src: uint32, dst: uint32, leg: Leg) {
    && Shape(t, m) && TablesOk(tables) && |leg.routers| == t.n && leg.at < t.n
    && (forall u :: 0 <= u < t.n ==> leg.routers[u].node == m.nodes[u])
    && RoutesInside(leg.routers[leg.at], tables, src, dst, leg.after, leg.out)
  }

  /** A packet that leaves u by this port reaches v. */
  ghost predicate LeadsTo(t: Topology, u: nat, port: int, v: nat) {
    exists l :: 0 <= l < |t.links| && t.links[l].dst == u && t.links[l].port == port && t.links[l].src == v
  }

  /** The source and destination the packet has when it comes to the i-th router. */
  function SrcAt(src: uint32, legs: seq<Leg>, i: nat): uint32
    requires i <= |legs|
  {
    if i == 0 then src else legs[i - 1].out.src
  }

  function DstAt(dst: uint32, legs: seq<Leg>, i: nat): uint32
    requires i <= |legs|
  {
    if i == 0 then dst else legs[i - 1].out.dst
  }

  /** The i-th stop, from nets[i] to nets[i + 1]; unless it is the last, the next is where its port leads to. */
  ghost predicate Stop(t: Topology, nets: seq<Net>, tables: Tables, src: uint32, dst: uint32, legs: seq<Leg>, i: nat)
    requires |nets| == |legs| + 1 && i < |legs|
  {
    && Runs(t, nets[i], legs[i].acts) && AllKeepOrder(legs[i].acts) && nets[i + 1] == Exec(t, nets[i], legs[i].acts)
    && Handles(t, nets[i + 1], tables, SrcAt(src, legs, i), DstAt(dst, legs, i), legs[i])
    && (i + 1 < |legs| ==> LeadsTo(t, legs[i].at, legs[i].out.port, legs[i + 1].at))
  }

  /** The packet goes from router to router by the ports the data branch returns, with the addresses it left with. */
  ghost predicate Travels(t: Topology, nets: seq<Net>, tables: Tables, src: uint32, dst: uint32, legs: seq<Leg>) {
    |nets| == |legs| + 1 &&
    forall i {:trigger Stop(t, nets, tables, src, dst, legs, i)} :: 0 <= i < |legs| ==>
      Stop(t, nets, tables, src, dst, legs, i)
  }

  /** Router r is responsible for the address, and no other takes it for one of its own external range. */
  ghost predicate Heading(routers: seq<State>, tables: Tables, dst: uint32, r: nat) {
    && r < |routers| && !NobodyResponsible(tables, dst) && (forall q :: Responsible(tables, dst, q) ==> q == r)
    && forall u :: 0 <= u < |routers| && u != r ==> !Nat.InInterval(dst, routers[u].externalAddr)
  }

  ghost predicate AllHeading(legs: seq<Leg>, tables: Tables, dst: uint32, r: nat) {
    forall k :: 0 <= k < |legs| ==> Heading(legs[k].routers, tables, dst, r)
  }

  /** The address is that of a host of router r, and external to no router. */
  ghost predicate HostOf(routers: seq<State>, tables: Tables, dst: uint32, r: nat) {
    && r < |routers| && dst in tables.hosts && tables.hosts[dst] == r && dst in routers[r].hostToPort
    && forall u :: 0 <= u < |routers| ==> !Nat.InInterval(dst, routers[u].externalAddr)
  }

  ghost predicate AllHostOf(legs: seq<Leg>, tables: Tables, dst: uint32, r: nat) {
    forall k :: 0 <= k < |legs| ==> HostOf(legs[k].routers, tables, dst, r)
  }

  /** The address is in the external range of router r, which is responsible for it. */
  ghost predicate AllBorderOf(legs: seq<Leg>, tables: Tables, dst: uint32, r: nat) {
    forall k :: 0 <= k < |legs| ==>
      Heading(legs[k].routers, tables, dst, r) && Nat.InInterval(dst, legs[k].routers[r].externalAddr)
  }

  /** The packet leaves by the host's own port, its addresses as they were. */
  ghost predicate Delivered(leg: Leg, src: uint32, dst: uint32) {
    && leg.at < |leg.routers| && dst in leg.routers[leg.at].hostToPort
    && leg.out == Outcome(leg.routers[leg.at].hostToPort[dst], src, dst)
  }

  /** The packet leaves by the external port, its source bound to an external address; it is dropped if and only if
      the source has none and there is none left. */
  ghost predicate LeavesBorder(leg: Leg, src: uint32, dst: uint32) {
    leg.at < |leg.routers| &&
    var st := leg.routers[leg.at];
    if src !in st.pool.table && st.pool.free == [] then
      leg.after == st && leg.out == Outcome(DROP, src, dst)
    else
      && src in leg.after.pool.table && (src in st.pool.table ==> leg.after == st)
      && leg.out == Outcome(st.externalPort, leg.after.pool.table[src], dst)
  }

  /** The port the packet leaves by leads on to another router. */
  ghost predicate LeadsOn(t: Topology, leg: Leg) {
    exists v: nat :: LeadsTo(t, leg.at, leg.out.port, v)
  }

  lemma OnlyLeadsTo(t: Topology, l: nat, v: nat)
    requires TopologyOk(t) && l < |t.links| && LeadsTo(t, t.links[l].dst, t.links[l].port, v)
    ensures v == t.links[l].src
  {
    var k :| 0 <= k < |t.links| && t.links[k].dst == t.links[l].dst && t.links[k].port == t.links[l].port
          && t.links[k].src == v;
    OneLinkPerPort(t, k, l);
  }

  /** A router other than r that knows the way to r sends the packet, unchanged, over the link it picks for r. */
  lemma OneStop(t: Topology, m: Net, tables: Tables, src: uint32, dst: uint32, leg: Leg, r: nat)
    requires Monotone(t, m) && Handles(t, m, tables, src, dst, leg) && Heading(leg.routers, tables, dst, r)
    requires leg.at != r && r < t.n && 0 <= Own(m, leg.at)[r]
    ensures LeadsOn(t, leg) && leg.out.src == src && leg.out.dst == dst
    ensures forall v: nat :: LeadsTo(t, leg.at, leg.out.port, v) ==> v == Across(t, m, leg.at, r)
  {
    var l := DataTakesTheHop(t, m, leg.at, r, leg.routers[leg.at], tables, src, dst, leg.after, leg.out);
    assert LeadsTo(t, leg.at, leg.out.port, t.links[l].src);
    AcrossIs(t, m, leg.at, r, l);
    forall v: nat | LeadsTo(t, leg.at, leg.out.port, v)
      ensures v == t.links[l].src
    {
      OnlyLeadsTo(t, l, v);
    }
  }

  /** The packet has not been at r before the k-th stop. */
  ghost predicate NotYet(legs: seq<Leg>, k: nat, r: nat) {
    forall i :: 0 <= i < k && i < |legs| ==> legs[i].at != r
  }

  /** A journey that starts, in a reachable state, at a router where r is known. */
  ghost predicate StartsFrom(t: Topology, past: seq<Action>, nets: seq<Net>, tables: Tables, src: uint32, dst: uint32,
                             r: nat, legs: seq<Leg>)
    requires TopologyOk(t)
  {
    && Runs(t, Initial(t), past) && AllKeepOrder(past) && r < t.n && legs != []
    && Travels(t, nets, tables, src, dst, legs) && nets[0] == Exec(t, Initial(t), past) && Shape(t, nets[0])
    && legs[0].at < t.n && 0 <= Own(nets[0], legs[0].at)[r]
  }

  /** At the k-th stop r is still known, and the packet is as it was. */
  ghost predicate Underway(t: Topology, nets: seq<Net>, tables: Tables, src: uint32, dst: uint32, r: nat,
                           legs: seq<Leg>, k: nat)
    requires |nets| == |legs| + 1 && k < |legs|
  {
    && Sound(t, nets[k], r) && legs[k].at < t.n && 0 <= Own(nets[k], legs[k].at)[r]
    && SrcAt(src, legs, k) == src && DstAt(dst, legs, k) == dst
  }

  /** A stop at another router leads on. */
  lemma StopLeadsOn(t: Topology, nets: seq<Net>, tables: Tables, src: uint32, dst: uint32, r: nat,
                    legs: seq<Leg>, k: nat)
    requires |nets| == |legs| + 1 && k < |legs| && Underway(t, nets, tables, src, dst, r, legs, k)
    requires Stop(t, nets, tables, src, dst, legs, k) && Heading(legs[k].routers, tables, dst, r) && legs[k].at != r
    ensures LeadsOn(t, legs[k])
    ensures k + 1 < |legs| ==> Underway(t, nets, tables, src, dst, r, legs, k + 1)
  {
    var m, u := nets[k + 1], legs[k].at;
    SoundRun(t, nets[k], r, legs[k].acts);
    HopBoundFalls(t, nets[k], r, u, legs[k].acts);
    OneStop(t, m, tables, src, dst, legs[k], r);
    AcrossNoFarther(t, m, u, r);
  }

  lemma OneMoreStop(t: Topology, nets: seq<Net>, tables: Tables, src: uint32, dst: uint32, r: nat,
                    legs: seq<Leg>, k: nat)
    requires Travels(t, nets, tables, src, dst, legs) && AllHeading(legs, tables, dst, r)
    requires k < |legs| && Underway(t, nets, tables, src, dst, r, legs, k) && legs[k].at != r
    ensures LeadsOn(t, legs[k])
    ensures k + 1 < |legs| ==> Underway(t, nets, tables, src, dst, r, legs, k + 1)
  {
    assert Stop(t, nets, tables, src, dst, legs, k);
    StopLeadsOn(t, nets, tables, src, dst, r, legs, k);
  }

  lemma {:induction false} UnderwayUpTo(t: Topology, nets: seq<Net>, tables: Tables, src: uint32, dst: uint32, r: nat,
                                        legs: seq<Leg>, k: nat, end: nat)
    requires Travels(t, nets, tables, src, dst, legs) && AllHeading(legs, tables, dst, r) && NotYet(legs, end, r)
    requires k <= end < |legs| && Underway(t, nets, tables, src, dst, r, legs, k)
    ensures Underway(t, nets, tables, src, dst, r, legs, end)
    decreases end - k
  {
    if k < end {
      OneMoreStop(t, nets, tables, src, dst, r, legs, k);
      UnderwayUpTo(t, nets, tables, src, dst, r, legs, k + 1, end);
    }
  }

  /** A bound on the hops left at the k-th stop. */
  ghost predicate Left(t: Topology, nets: seq<Net>, r: nat, legs: seq<Leg>, k: nat, b: nat) {
    && k < |legs| && k < |nets| && Shape(t, nets[k]) && r < t.n && legs[k].at < t.n
    && 0 <= Own(nets[k], legs[k].at)[r] && HopBound(t, nets[k], r, legs[k].at) <= b
  }

  /** One stop uses up a hop, if there is no trap. */
  lemma StopLowers(t: Topology, nets: seq<Net>, tables: Tables, src: uint32, dst: uint32, r: nat,
                   legs: seq<Leg>, k: nat, b: nat)
    requires TopologyOk(t) && !HasTrap(t, r) && Travels(t, nets, tables, src, dst, legs)
    requires AllHeading(legs, tables, dst, r) && k < |legs| && legs[k].at != r
    requires Underway(t, nets, tables, src, dst, r, legs, k) && Left(t, nets, r, legs, k, b)
    ensures b >= 1 && (k + 1 < |legs| ==> Left(t, nets, r, legs, k + 1, b - 1))
  {
    var m, u := nets[k + 1], legs[k].at;
    OneMoreStop(t, nets, tables, src, dst, r, legs, k);
    assert Stop(t, nets, tables, src, dst, legs, k);
    SoundRun(t, nets[k], r, legs[k].acts);
    HopBoundFalls(t, nets[k], r, u, legs[k].acts);
    OneStop(t, m, tables, src, dst, legs[k], r);
    HopLowers(t, m, r, u);
  }

  lemma {:induction false} HopsUsed(t: Topology, nets: seq<Net>, tables: Tables, src: uint32, dst: uint32, r: nat,
                                    legs: seq<Leg>, k: nat, b: nat)
    requires TopologyOk(t) && !HasTrap(t, r) && Travels(t, nets, tables, src, dst, legs)
    requires AllHeading(legs, tables, dst, r) && k < |legs| && NotYet(legs, |legs|, r)
    requires Underway(t, nets, tables, src, dst, r, legs, k) && Left(t, nets, r, legs, k, b)
    ensures |legs| - k <= b
    decreases |legs| - k
  {
    StopLowers(t, nets, tables, src, dst, r, legs, k, b);
    if k + 1 < |legs| {
      OneMoreStop(t, nets, tables, src, dst, r, legs, k);
      HopsUsed(t, nets, tables, src, dst, r, legs, k + 1, b - 1);
    }
  }

  /** In every reachable state, while vectors go on being exchanged or lost: as long as a packet for router r has not
      been at r, the port it leaves by leads on to another router; and in a network without a trap it has been
      handled no more often than HopBound says. */
  lemma ComesCloser(t: Topology, past: seq<Action>, nets: seq<Net>, tables: Tables, src: uint32, dst: uint32, r: nat,
                    legs: seq<Leg>)
    requires TopologyOk(t) && StartsFrom(t, past, nets, tables, src, dst, r, legs)
    requires AllHeading(legs, tables, dst, r) && NotYet(legs, |legs|, r)
    ensures LeadsOn(t, legs[|legs| - 1])
    ensures !HasTrap(t, r) ==> |legs| <= HopBound(t, nets[0], r, legs[0].at)
  {
    var last := |legs| - 1;
    SoundReached(t, past, r);
    UnderwayUpTo(t, nets, tables, src, dst, r, legs, 0, last);
    OneMoreStop(t, nets, tables, src, dst, r, legs, last);
    if !HasTrap(t, r) {
      HopsUsed(t, nets, tables, src, dst, r, legs, 0, HopBound(t, nets[0], r, legs[0].at));
    }
  }

  /** A packet for a host keeps its addresses, whatever stops it makes. */
  lemma {:induction false} KeepsAddresses(t: Topology, nets: seq<Net>, tables: Tables, src: uint32, dst: uint32,
                                          r: nat, legs: seq<Leg>, k: nat)
    requires Travels(t, nets, tables, src, dst, legs) && AllHostOf(legs, tables, dst, r) && k <= |legs|
    ensures SrcAt(src, legs, k) == src && DstAt(dst, legs, k) == dst
    decreases k
  {
    if k > 0 {
      KeepsAddresses(t, nets, tables, src, dst, r, legs, k - 1);
      assert Stop(t, nets, tables, src, dst, legs, k - 1);
      assert HostOf(legs[k - 1].routers, tables, dst, r);
    }
  }

  lemma ArrivesByHostPort(t: Topology, nets: seq<Net>, tables: Tables, src: uint32, dst: uint32, r: nat,
                          legs: seq<Leg>, k: nat)
    requires Travels(t, nets, tables, src, dst, legs) && AllHostOf(legs, tables, dst, r)
    requires k < |legs| && legs[k].at == r
    ensures Delivered(legs[k], src, dst)
  {
    KeepsAddresses(t, nets, tables, src, dst, r, legs, k);
    assert Stop(t, nets, tables, src, dst, legs, k);
    assert HostOf(legs[k].routers, tables, dst, r);
  }

  lemma HostsAreHeading(legs: seq<Leg>, tables: Tables, dst: uint32, r: nat)
    requires AllHostOf(legs, tables, dst, r)
    ensures AllHeading(legs, tables, dst, r)
  {
    forall k | 0 <= k < |legs|
      ensures Heading(legs[k].routers, tables, dst, r)
    {
      assert HostOf(legs[k].routers, tables, dst, r);
    }
  }

  /** The journey of a packet for a host of router r, which starts where r is known: it comes closer as ComesCloser
      says, so a journey of more stops has been at r; and at r the packet leaves by the host's port. */
  lemma HostReached(t: Topology, past: seq<Action>, nets: seq<Net>, tables: Tables, src: uint32, dst: uint32, r: nat,
                    legs: seq<Leg>)
    requires TopologyOk(t) && StartsFrom(t, past, nets, tables, src, dst, r, legs)
    requires AllHostOf(legs, tables, dst, r)
    ensures NotYet(legs, |legs|, r) ==>
      && LeadsOn(t, legs[|legs| - 1])
      && (!HasTrap(t, r) ==> |legs| <= HopBound(t, nets[0], r, legs[0].at))
    ensures forall k :: 0 <= k < |legs| && legs[k].at == r ==> Delivered(legs[k], src, dst)
  {
    HostsAreHeading(legs, tables, dst, r);
    if NotYet(legs, |legs|, r) {
      ComesCloser(t, past, nets, tables, src, dst, r, legs);
    }
    forall k | 0 <= k < |legs| && legs[k].at == r
      ensures Delivered(legs[k], src, dst)
    {
      ArrivesByHostPort(t, nets, tables, src, dst, r, legs, k);
    }
  }

  lemma BorderLeaves(t: Topology, m: Net, tables: Tables, src: uint32, dst: uint32, leg: Leg)
    requires Handles(t, m, tables, src, dst, leg)
    requires Nat.InInterval(dst, leg.routers[leg.at].externalAddr)
    ensures LeavesBorder(leg, src, dst)
  {
  }

  lemma MeetsBorder(t: Topology, past: seq<Action>, nets: seq<Net>, tables: Tables, src: uint32, dst: uint32, r: nat,
                    legs: seq<Leg>, k: nat)
    requires TopologyOk(t) && StartsFrom(t, past, nets, tables, src, dst, r, legs)
    requires AllBorderOf(legs, tables, dst, r) && k < |legs| && legs[k].at == r && NotYet(legs, k, r)
    ensures LeavesBorder(legs[k], src, dst)
  {
    SoundReached(t, past, r);
    UnderwayUpTo(t, nets, tables, src, dst, r, legs, 0, k);
    assert Stop(t, nets, tables, src, dst, legs, k);
    BorderLeaves(t, nets[k + 1], tables, src, dst, legs[k]);
  }

  /** The same for an address in the external range of router r: at r the packet leaves by the external port with a
      bound source, or is dropped when no address is left for it. */
  lemma BorderReached(t: Topology, past: seq<Action>, nets: seq<Net>, tables: Tables, src: uint32, dst: uint32,
                      r: nat, legs: seq<Leg>)
    requires TopologyOk(t) && StartsFrom(t, past, nets, tables, src, dst, r, legs)
    requires AllBorderOf(legs, tables, dst, r)
    ensures NotYet(legs, |legs|, r) ==>
      && LeadsOn(t, legs[|legs| - 1])
      && (!HasTrap(t, r) ==> |legs| <= HopBound(t, nets[0], r, legs[0].at))
    ensures forall k :: 0 <= k < |legs| && legs[k].at == r && NotYet(legs, k, r) ==> LeavesBorder(legs[k], src, dst)
  {
    if NotYet(legs, |legs|, r) {
      ComesCloser(t, past, nets, tables, src, dst, r, legs);
    }
    forall k | 0 <= k < |legs| && legs[k].at == r && NotYet(legs, k, r)
      ensures LeavesBorder(legs[k], src, dst)
    {
      MeetsBorder(t, past, nets, tables, src, dst, r, legs, k);
    }
  }

  // ----- From outside to a host -------------------------------------------------------------------

  /** The first stop of a packet that comes from outside, to an address bound to a host. */
  ghost predicate HandlesInbound(t: Topology, m: Net, tables: Tables, src: uint32, a: uint32, host: uint32, leg: Leg) {
    && Shape(t, m) && TablesOk(tables) && |leg.routers| == t.n && leg.at < t.n
    && (forall u :: 0 <= u < t.n ==> leg.routers[u].node == m.nodes[u])
    && var st := leg.routers[leg.at];
    && LocalDelivery.Partitioned(st.pool) && host in st.pool.table && st.pool.table[host] == a
    && RoutesData(st, tables, st.externalPort, src, a, leg.after, leg.out)
  }

  ghost predicate TravelsIn(t: Topology, nets: seq<Net>, tables: Tables, src: uint32, a: uint32, host: uint32,
                            legs: seq<Leg>) {
    && |nets| == |legs| + 1 >= 2
    && Runs(t, nets[0], legs[0].acts) && AllKeepOrder(legs[0].acts) && nets[1] == Exec(t, nets[0], legs[0].acts)
    && HandlesInbound(t, nets[1], tables, src, a, host, legs[0])
    && (1 < |legs| ==> LeadsTo(t, legs[0].at, legs[0].out.port, legs[1].at))
    && forall i {:trigger Stop(t, nets, tables, src, host, legs, i)} :: 1 <= i < |legs| ==>
         Stop(t, nets, tables, src, host, legs, i)
  }

  lemma InboundTravels(t: Topology, nets: seq<Net>, tables: Tables, src: uint32, a: uint32, host: uint32,
                       legs: seq<Leg>)
    requires TravelsIn(t, nets, tables, src, a, host, legs)
    ensures Travels(t, nets, tables, src, host, legs)
  {
    var leg := legs[0];
    TranslatedIn(leg.routers[leg.at], tables, src, a, host, leg.after, leg.out);
    assert Handles(t, nets[1], tables, src, host, leg);
    assert Stop(t, nets, tables, src, host, legs, 0);
  }

  /** A packet from outside that comes in at a router where its destination is bound to a host of router r, and r is
      known: it goes to r as HostReached says, and leaves r by the port of that host, addressed to it. */
  lemma InboundReached(t: Topology, past: seq<Action>, nets: seq<Net>, tables: Tables, src: uint32, a: uint32,
                       host: uint32, r: nat, legs: seq<Leg>)
    requires TopologyOk(t) && Runs(t, Initial(t), past) && AllKeepOrder(past) && r < t.n
    requires TravelsIn(t, nets, tables, src, a, host, legs) && AllHostOf(legs, tables, host, r)
    requires nets[0] == Exec(t, Initial(t), past) && Shape(t, nets[0])
    requires legs[0].at < t.n && 0 <= Own(nets[0], legs[0].at)[r]
    ensures NotYet(legs, |legs|, r) ==>
      && LeadsOn(t, legs[|legs| - 1])
      && (!HasTrap(t, r) ==> |legs| <= HopBound(t, nets[0], r, legs[0].at))
    ensures forall k :: 0 <= k < |legs| && legs[k].at == r ==> Delivered(legs[k], src, host)
  {
    InboundTravels(t, nets, tables, src, a, host, legs);
    HostReached(t, past, nets, tables, src, host, r, legs);
  }
}
