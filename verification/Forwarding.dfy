/** Data packets on their way to a router, while distance vectors may still be flowing
    (lab3-router/router.cpp, the next-hop search at the end of TYPE_DATA). */
module Forwarding {
  import opened DistanceVector
  import opened DvNetwork
  import opened DvConvergence
  import opened Words
  import opened Router
  import Nat

  /** Every port with a link costs at least 1 when it is up. */
  ghost predicate PositiveCosts(t: Topology)
    requires TopologyOk(t)
  {
    forall l :: 0 <= l < |t.links| ==> Hop(t, l) != 0
  }

  /** The link plugged into the port that router u picks for dest. */
  ghost predicate Picks(t: Topology, s: Net, u: nat, dest: nat, l: nat)
    requires Shape(t, s) && u < t.n && dest < VECTOR_SIZE
  {
    && l < |t.links| && t.links[l].dst == u && t.links[l].port == NextHop(s.nodes[u], dest, 2)
    && NextHop(s.nodes[u], dest, 2) < |s.nodes[u].ports|
  }

  /** The search finds a port: the least offer is one of those it looks for. */
  lemma SearchFinds(t: Topology, node: Node, u: nat, dest: nat)
    requires TopologyOk(t) && u < t.n && dest < t.n && u != dest && NodeOk(t, node, u)
    requires Tight(t, node, u) && node.table[0][dest] != UNKNOWN
    ensures var port := NextHop(node, dest, 2);
      && 2 <= port < |node.ports| && node.ports[port] != UNKNOWN && node.table[port][dest] != UNKNOWN
      && node.ports[port] + node.table[port][dest] == node.table[0][dest]
  {
    MinDistIs(node.ports, node.table, dest, |node.ports|);
    var i := MinDistSource(node.ports, node.table, dest);
    NextHopIs(node, dest, 2);
    assert NextHop(node, dest, 2) <= i;
  }

  lemma PortHasLink(t: Topology, node: Node, u: nat, port: nat, dest: nat) returns (l: nat)
    requires TopologyOk(t) && u < t.n && NodeOk(t, node, u) && RealNode(t, node, u)
    requires 2 <= port < |node.ports| && dest < VECTOR_SIZE && node.table[port][dest] != UNKNOWN
    ensures l < |t.links| && t.links[l].dst == u && t.links[l].port == port
  {
    assert Plugged(t, u, port);
    l :| 0 <= l < |t.links| && t.links[l].dst == u && t.links[l].port == port;
  }

  /** The sender of a link knows what it has told the other end, and at no greater distance. */
  lemma SenderNoWorse(t: Topology, s: Net, l: nat)
    requires Monotone(t, s) && l < |t.links|
    ensures NoWorse(Own(s, t.links[l].src), Stored(t, s, l))
  {
    var stream := Stream(t, s, l);
    assert stream[|stream| - 1] == Own(s, t.links[l].src) && stream[0] == Stored(t, s, l);
  }

  /** The next-hop search succeeds whenever the destination is known: the port picked has a link, and the router
      behind it knows the destination at no greater distance, less by the cost of the port. */
  lemma NextHopFound(t: Topology, s: Net, u: nat, dest: nat) returns (l: nat)
    requires Monotone(t, s) && u < t.n && dest < t.n && u != dest && Own(s, u)[dest] != UNKNOWN
    ensures Picks(t, s, u, dest, l) && Hop(t, l) >= 0
    ensures 0 <= Own(s, t.links[l].src)[dest] <= Stored(t, s, l)[dest]
    ensures Hop(t, l) + Stored(t, s, l)[dest] == Own(s, u)[dest]
  {
    assert Tight(t, s.nodes[u], u) && RealNode(t, s.nodes[u], u);
    SearchFinds(t, s.nodes[u], u, dest);
    l := PortHasLink(t, s.nodes[u], u, NextHop(s.nodes[u], dest, 2), dest);
    SenderNoWorse(t, s, l);
  }

  lemma OneLinkPerPort(t: Topology, k: nat, l: nat)
    requires TopologyOk(t) && k < |t.links| && l < |t.links|
    requires t.links[k].dst == t.links[l].dst && t.links[k].port == t.links[l].port
    ensures k == l
  {
  }

  lemma PortsDiffer(t: Topology, k: nat, l: nat)
    requires TopologyOk(t) && k < |t.links| && l < |t.links| && k != l && t.links[k].dst == t.links[l].dst
    ensures t.links[k].port != t.links[l].port
  {
  }

  ghost function PickedLink(t: Topology, s: Net, u: nat, dest: nat): (l: nat)
    requires Shape(t, s) && u < t.n && dest < VECTOR_SIZE && exists l: nat :: Picks(t, s, u, dest, l)
    ensures Picks(t, s, u, dest, l)
  {
    var l: nat :| Picks(t, s, u, dest, l);
    l
  }

  /** Where the packet is after one hop: across the link picked, or still here if it is for this router or
      the destination is unknown. */
  ghost function Across(t: Topology, s: Net, u: nat, dest: nat): (v: nat)
    requires Shape(t, s) && u < t.n && dest < t.n
    ensures v < t.n
  {
    if u != dest && exists l: nat :: Picks(t, s, u, dest, l)
    then t.links[PickedLink(t, s, u, dest)].src
    else u
  }

  /** A journey: between two hops the routers may exchange any number of vectors. */
  ghost predicate Journey(t: Topology, s: Net, legs: seq<seq<Action>>)
    decreases |legs|
  {
    legs == [] || (Runs(t, s, legs[0]) && AllKeepOrder(legs[0]) && Journey(t, Exec(t, s, legs[0]), legs[1..]))
  }

  ghost function Position(t: Topology, s: Net, u: nat, dest: nat, legs: seq<seq<Action>>): (v: nat)
    requires Monotone(t, s) && Journey(t, s, legs) && u < t.n && dest < t.n
    ensures v < t.n
    decreases |legs|
  {
    if legs == [] then u
    else
      MonotoneRun(t, s, legs[0]);
      var m := Exec(t, s, legs[0]);
      Position(t, m, Across(t, m, u, dest), dest, legs[1..])
  }

  lemma AcrossIs(t: Topology, s: Net, u: nat, dest: nat, l: nat)
    requires Shape(t, s) && u < t.n && dest < t.n && u != dest && Picks(t, s, u, dest, l)
    ensures Across(t, s, u, dest) == t.links[l].src
  {
    OneLinkPerPort(t, PickedLink(t, s, u, dest), l);
  }

  /** One hop never leads away from the destination. */
  lemma AcrossNoFarther(t: Topology, s: Net, u: nat, dest: nat)
    requires Monotone(t, s) && u < t.n && dest < t.n && Own(s, u)[dest] != UNKNOWN
    ensures 0 <= Own(s, Across(t, s, u, dest))[dest] <= Own(s, u)[dest]
    ensures PositiveCosts(t) && u != dest ==> Own(s, Across(t, s, u, dest))[dest] < Own(s, u)[dest]
  {
    assert Tight(t, s.nodes[u], u) && RealNode(t, s.nodes[u], u);
    if u != dest {
      var l := NextHopFound(t, s, u, dest);
      AcrossIs(t, s, u, dest, l);
    }
  }

  /** Routers that send packets for dest only to each other. */
  ghost predicate Inescapable(t: Topology, s: Net, dest: nat, inside: set<nat>)
    requires Shape(t, s) && dest < t.n
  {
    dest !in inside && forall x :: x in inside ==> x < t.n && Across(t, s, x, dest) in inside
  }

  /** While no vectors are exchanged, a packet never gets out of there. */
  lemma {:induction false} NeverOut(t: Topology, s: Net, dest: nat, inside: set<nat>, u: nat, legs: seq<seq<Action>>)
    requires Monotone(t, s) && dest < t.n && Inescapable(t, s, dest, inside) && u in inside
    requires forall k :: 0 <= k < |legs| ==> legs[k] == []
    ensures Journey(t, s, legs) && Position(t, s, u, dest, legs) != dest
    decreases |legs|
  {
    if legs != [] {
      assert Exec(t, s, legs[0]) == s;
      NeverOut(t, s, dest, inside, Across(t, s, u, dest), legs[1..]);
    }
  }

  /** The data branch of the program really takes that hop: in a reachable state, a packet that stays inside the
      network and whose responsible router is another, known one leaves by the port of a picked link. */
  lemma DataTakesTheHop(t: Topology, s: Net, u: nat, r: nat, st: State, tables: Tables,
                        src: uint32, dst: uint32, st': State, out: Outcome) returns (l: nat)
    requires Monotone(t, s) && u < t.n && r < t.n && r != u
    requires st.node == s.nodes[u] && TablesOk(tables) && Own(s, u)[r] != UNKNOWN
    requires !Nat.InInterval(dst, st.externalAddr) && RoutesInside(st, tables, src, dst, st', out)
    requires !NobodyResponsible(tables, dst) && forall q :: Responsible(tables, dst, q) ==> q == r
    ensures st' == st && Picks(t, s, u, r, l) && out == Outcome(t.links[l].port, src, dst)
  {
    l := NextHopFound(t, s, u, r);
  }
}
