/** Packets do not circle in a network without a trap: a bound on the hops of a packet that vectors, while they flow,
    can only lower (lab3-router/router.cpp, the next-hop search at the end of TYPE_DATA). */
module LoopFreedom {
  import opened DistanceVector
  import opened DvNetwork
  import opened DvConvergence
  import opened Forwarding
  import opened Orbits
  import opened Traps

  // ----- Vectors only lower distances and picked ports --------------------------------------------

  lemma {:induction false} NextHopBound(node: Node, r: nat, i: nat)
    requires WellFormed(node) && r < VECTOR_SIZE && i <= |node.ports| + 1
    ensures NextHop(node, r, i) <= |node.ports| + 1
    decreases |node.ports| + 1 - i
  {
    if i < |node.ports| {
      NextHopBound(node, r, i + 1);
    }
  }

  /** Above every known distance. */
  ghost function Ceiling(t: Topology): (top: int)
    ensures top >= SENTINEL
  {
    SENTINEL + t.n
  }

  /** A smaller distance counts more than any port. */
  function RouteWeight(node: Node, dest: nat, top: int): nat
    requires WellFormed(node) && dest < VECTOR_SIZE
  {
    var d := node.table[0][dest];
    if d < 0 then Scaled(top, |node.ports| + 1) else Scaled(d, |node.ports| + 1) + NextHop(node, dest, 2)
  }

  ghost function WeightAt(t: Topology, s: Net, dest: nat, u: nat): nat
    requires Shape(t, s) && dest < t.n && u < t.n
  {
    if u == dest then 0 else RouteWeight(s.nodes[u], dest, Ceiling(t))
  }

  ghost function Weights(t: Topology, s: Net, dest: nat): (w: seq<nat>)
    requires Shape(t, s) && dest < t.n
    ensures |w| == t.n && forall u :: 0 <= u < t.n ==> w[u] == WeightAt(t, s, dest, u)
  {
    seq(t.n, u requires 0 <= u < t.n => WeightAt(t, s, dest, u))
  }

  function Sum(w: seq<nat>): nat {
    if w == [] then 0 else w[0] + Sum(w[1..])
  }

  lemma {:induction false} SumFalls(a: seq<nat>, b: seq<nat>)
    requires |b| == |a| && forall i :: 0 <= i < |a| ==> b[i] <= a[i]
    ensures Sum(b) <= Sum(a)
    ensures Sum(b) == Sum(a) ==> b == a
    decreases |a|
  {
    if a != [] {
      SumFalls(a[1..], b[1..]);
      assert Sum(b[1..]) == Sum(a[1..]) && b[0] == a[0] ==> b == [a[0]] + a[1..];
    }
  }

  /** u knows dest as before and picks the same port for it. */
  ghost predicate SameRoute(t: Topology, s: Net, s': Net, dest: nat, u: nat)
    requires Shape(t, s) && Shape(t, s') && dest < t.n && u < t.n
  {
    u == dest || Own(s, u)[dest] == UNKNOWN || (
      && Own(s', u)[dest] == Own(s, u)[dest]
      && NextHop(s'.nodes[u], dest, 2) == NextHop(s.nodes[u], dest, 2))
  }

  /** Everything heard and known in s' is as good as in s. */
  ghost predicate Later(t: Topology, s: Net, s': Net) {
    && Monotone(t, s) && Monotone(t, s')
    && (forall u :: 0 <= u < t.n ==> NoWorse(Own(s', u), Own(s, u)))
    && forall m :: 0 <= m < |t.links| ==> NoWorse(Stored(t, s', m), Stored(t, s, m))
  }

  lemma LaterStep(t: Topology, s: Net, a: Action)
    requires Monotone(t, s) && Enabled(t, s, a) && KeepsOrder(a)
    ensures Later(t, s, Next(t, s, a))
  {
    MonotoneStep(t, s, a);
    forall m | 0 <= m < |t.links|
      ensures NoWorse(Stored(t, Next(t, s, a), m), Stored(t, s, m))
    {
      if a.Deliver? {
        StoredImproves(t, s, a.l, m);
      }
    }
  }

  /** With an unchanged distance, the port picked before is still as good, so a lower one may be picked, but no
      higher one. */
  lemma PickNoHigher(t: Topology, s: Net, s': Net, dest: nat, u: nat)
    requires Later(t, s, s') && dest < t.n && u < t.n && u != dest
    requires Own(s, u)[dest] != UNKNOWN && Own(s', u)[dest] == Own(s, u)[dest]
    ensures NextHop(s'.nodes[u], dest, 2) <= NextHop(s.nodes[u], dest, 2)
  {
    var l := NextHopFound(t, s, u, dest);
    OfferStays(t, s, s', dest, u, l);
    NextHopIs(s'.nodes[u], dest, 2);
  }

  /** The weight of u has fallen, or its route is the same. */
  ghost predicate Fell(t: Topology, s: Net, s': Net, dest: nat, u: nat)
    requires Shape(t, s) && Shape(t, s') && dest < t.n && u < t.n
  {
    && WeightAt(t, s', dest, u) <= WeightAt(t, s, dest, u)
    && (WeightAt(t, s', dest, u) == WeightAt(t, s, dest, u) ==> SameRoute(t, s, s', dest, u))
  }

  lemma NearerWeighsLess(node: Node, node': Node, dest: nat, top: int)
    requires WellFormed(node) && WellFormed(node') && |node'.ports| == |node.ports| && dest < VECTOR_SIZE
    requires 0 <= node'.table[0][dest] < top
    requires node.table[0][dest] < 0 || node'.table[0][dest] < node.table[0][dest]
    ensures RouteWeight(node', dest, top) < RouteWeight(node, dest, top)
  {
    var d, d', k := node.table[0][dest], node'.table[0][dest], |node.ports| + 1;
    NextHopBound(node', dest, 2);
    ScaledDrop(d', if d < 0 then top else d, k);
  }

  lemma NearerFell(t: Topology, s: Net, s': Net, dest: nat, u: nat)
    requires Shape(t, s) && Shape(t, s') && dest < t.n && u < t.n && u != dest
    requires 0 <= Own(s', u)[dest] < SENTINEL && (Own(s, u)[dest] < 0 || Own(s', u)[dest] < Own(s, u)[dest])
    ensures Fell(t, s, s', dest, u)
  {
    NearerWeighsLess(s.nodes[u], s'.nodes[u], dest, Ceiling(t));
  }

  lemma AsNearFell(t: Topology, s: Net, s': Net, dest: nat, u: nat)
    requires Later(t, s, s') && dest < t.n && u < t.n && u != dest
    requires 0 <= Own(s, u)[dest] == Own(s', u)[dest]
    ensures Fell(t, s, s', dest, u)
  {
    PickNoHigher(t, s, s', dest, u);
  }

  lemma WeightFalls(t: Topology, s: Net, s': Net, dest: nat, u: nat)
    requires Later(t, s, s') && dest < t.n && u < t.n
    ensures Fell(t, s, s', dest, u)
  {
    var d, d' := Own(s, u)[dest], Own(s', u)[dest];
    assert RealNode(t, s.nodes[u], u) && RealNode(t, s'.nodes[u], u);
    assert d >= 0 ==> 0 <= d' <= d;
    if u != dest {
      if d != d' {
        NearerFell(t, s, s', dest, u);
      } else if d >= 0 {
        AsNearFell(t, s, s', dest, u);
      }
    }
  }

  lemma WeightsFall(t: Topology, s: Net, s': Net, dest: nat)
    requires Later(t, s, s') && dest < t.n
    ensures Sum(Weights(t, s', dest)) <= Sum(Weights(t, s, dest))
    ensures Sum(Weights(t, s', dest)) == Sum(Weights(t, s, dest)) ==>
      forall u :: 0 <= u < t.n ==> SameRoute(t, s, s', dest, u)
  {
    var a, b := Weights(t, s, dest), Weights(t, s', dest);
    forall u | 0 <= u < t.n
      ensures b[u] <= a[u] && (b[u] == a[u] ==> SameRoute(t, s, s', dest, u))
    {
      WeightFalls(t, s, s', dest, u);
    }
    SumFalls(a, b);
  }

  lemma SameRouteSameHop(t: Topology, s: Net, s': Net, dest: nat, u: nat)
    requires Monotone(t, s) && Shape(t, s') && dest < t.n && u < t.n && 0 <= Own(s, u)[dest]
    requires SameRoute(t, s, s', dest, u)
    ensures Across(t, s', u, dest) == Across(t, s, u, dest)
  {
    if u != dest {
      var l := NextHopFound(t, s, u, dest);
      assert Picks(t, s', u, dest, l);
      AcrossIs(t, s, u, dest, l);
      AcrossIs(t, s', u, dest, l);
    }
  }

  lemma {:induction false} SameDepth(t: Topology, s: Net, dest: nat, f: seq<nat>, g: seq<nat>, u: nat, fuel: nat)
    requires Shape(t, s) && NoFarther(t, s, dest, f) && Closed(g) && |g| == t.n && u < t.n && 0 <= Own(s, u)[dest]
    requires forall x :: 0 <= x < t.n && 0 <= Own(s, x)[dest] ==> g[x] == f[x]
    ensures Depth(g, u, dest, fuel) == Depth(f, u, dest, fuel)
    decreases fuel
  {
    if u != dest && fuel > 0 {
      SameDepth(t, s, dest, f, g, f[u], fuel - 1);
    }
  }

  // ----- The bound ----------------------------------------------------------------------------------

  /** Any change of route is worth more than all hops of a packet. */
  ghost function Potential(t: Topology, s: Net, dest: nat, u: nat): nat
    requires Shape(t, s) && dest < t.n && u < t.n
  {
    Scaled(Sum(Weights(t, s, dest)), t.n) + Depth(Routes(t, s, dest), u, dest, t.n)
  }

  lemma PotentialFalls(t: Topology, s: Net, s': Net, dest: nat, u: nat)
    requires Later(t, s, s') && dest < t.n && u < t.n && 0 <= Own(s, u)[dest]
    ensures Potential(t, s', dest, u) <= Potential(t, s, dest, u)
  {
    var w, w' := Sum(Weights(t, s, dest)), Sum(Weights(t, s', dest));
    WeightsFall(t, s, s', dest);
    if w' < w {
      ScaledDrop(w', w, t.n);
    } else {
      forall x | 0 <= x < t.n && 0 <= Own(s, x)[dest]
        ensures Routes(t, s', dest)[x] == Routes(t, s, dest)[x]
      {
        SameRouteSameHop(t, s, s', dest, x);
      }
      RoutesNoFarther(t, s, dest);
      SameDepth(t, s, dest, Routes(t, s, dest), Routes(t, s', dest), u, t.n);
    }
  }

  /** A state in which every known distance came from somewhere. */
  ghost predicate Sound(t: Topology, s: Net, dest: nat) {
    Monotone(t, s) && dest < t.n && exists rank :: Grounded(t, s, dest, rank)
  }

  lemma SoundRun(t: Topology, s: Net, dest: nat, acts: seq<Action>)
    requires Sound(t, s, dest) && Runs(t, s, acts) && AllKeepOrder(acts)
    ensures Sound(t, Exec(t, s, acts), dest)
  {
    var rank :| Grounded(t, s, dest, rank);
    var rank' := GroundedRun(t, s, acts, dest, rank);
  }

  lemma SoundInitial(t: Topology, dest: nat)
    requires TopologyOk(t) && dest < t.n
    ensures Sound(t, Initial(t), dest)
  {
    var rank := GroundedInitial(t, dest);
  }

  lemma NoCircle(t: Topology, s: Net, dest: nat, v: nat, m: nat)
    requires Sound(t, s, dest) && !HasTrap(t, dest)
    ensures !Circling(t, s, dest, v, m)
  {
    if Circling(t, s, dest, v, m) {
      var rank :| Grounded(t, s, dest, rank);
      CircleMeansTrap(t, s, dest, rank, v, m);
    }
  }

  lemma ReturnsOnlyAtEnd(f: seq<nat>, u: nat, dest: nat, i: nat)
    requires Closed(f) && u < |f| && dest < |f| && f[dest] == dest && i <= |f| && Follow(f, u, i) == dest
    ensures Follow(f, u, |f|) == dest
  {
    FollowAdd(f, u, i, |f| - i);
    FollowStays(f, dest, |f| - i);
  }

  /** With routes as they are, packets for a known destination get there. */
  lemma RoutesArrive(t: Topology, s: Net, dest: nat, u: nat)
    requires Sound(t, s, dest) && !HasTrap(t, dest) && u < t.n && 0 <= Own(s, u)[dest]
    ensures Follow(Routes(t, s, dest), u, t.n) == dest
  {
    var f := Routes(t, s, dest);
    var i, m := ComesAgain(f, u);
    RoutesNoFarther(t, s, dest);
    FollowNoFarther(t, s, dest, f, u, i);
    NoCircle(t, s, dest, Follow(f, u, i), m);
    ReturnsOnlyAtEnd(f, u, dest, i);
  }

  /** Most hops a packet for dest can still make from u: no more than the distance known there, when every port with
      a link costs something. */
  ghost function HopBound(t: Topology, s: Net, dest: nat, u: nat): nat
    requires Shape(t, s) && dest < t.n && u < t.n && 0 <= Own(s, u)[dest]
  {
    if PositiveCosts(t) then Own(s, u)[dest] else Potential(t, s, dest, u)
  }

  lemma {:induction false} HopBoundFalls(t: Topology, s: Net, dest: nat, u: nat, acts: seq<Action>)
    requires Monotone(t, s) && Runs(t, s, acts) && AllKeepOrder(acts)
    requires dest < t.n && u < t.n && 0 <= Own(s, u)[dest]
    ensures Monotone(t, Exec(t, s, acts)) && 0 <= Own(Exec(t, s, acts), u)[dest]
    ensures HopBound(t, Exec(t, s, acts), dest, u) <= HopBound(t, s, dest, u)
    decreases |acts|
  {
    if acts != [] {
      var m := Next(t, s, acts[0]);
      LaterStep(t, s, acts[0]);
      assert NoWorse(Own(m, u), Own(s, u));
      PotentialFalls(t, s, m, dest, u);
      assert AllKeepOrder(acts[1..]);
      HopBoundFalls(t, m, dest, u, acts[1..]);
    }
  }

  /** Each hop lowers it. */
  lemma HopLowers(t: Topology, s: Net, dest: nat, u: nat)
    requires Sound(t, s, dest) && !HasTrap(t, dest) && u < t.n && u != dest && 0 <= Own(s, u)[dest]
    ensures 0 <= Own(s, Across(t, s, u, dest))[dest] <= Own(s, u)[dest]
    ensures HopBound(t, s, dest, Across(t, s, u, dest)) < HopBound(t, s, dest, u)
  {
    AcrossNoFarther(t, s, u, dest);
    RoutesArrive(t, s, dest, u);
    DepthStep(Routes(t, s, dest), u, dest, t.n);
  }

  lemma {:induction false} PacketArrives(t: Topology, s: Net, u: nat, dest: nat, legs: seq<seq<Action>>)
    requires Sound(t, s, dest) && !HasTrap(t, dest) && Journey(t, s, legs)
    requires u < t.n && 0 <= Own(s, u)[dest] && HopBound(t, s, dest, u) <= |legs|
    ensures Position(t, s, u, dest, legs) == dest
    decreases |legs|
  {
    if legs == [] {
      if u != dest {
        HopLowers(t, s, dest, u);
      }
    } else {
      var m := Exec(t, s, legs[0]);
      SoundRun(t, s, dest, legs[0]);
      HopBoundFalls(t, s, dest, u, legs[0]);
      if u != dest {
        HopLowers(t, m, dest, u);
        PacketArrives(t, m, Across(t, m, u, dest), dest, legs[1..]);
      } else {
        StaysArrived(t, m, dest, legs[1..]);
      }
    }
  }

  lemma {:induction false} StaysArrived(t: Topology, s: Net, dest: nat, legs: seq<seq<Action>>)
    requires Monotone(t, s) && Journey(t, s, legs) && dest < t.n
    ensures Position(t, s, dest, dest, legs) == dest
    decreases |legs|
  {
    if legs != [] {
      MonotoneRun(t, s, legs[0]);
      StaysArrived(t, Exec(t, s, legs[0]), dest, legs[1..]);
    }
  }

  lemma SoundReached(t: Topology, past: seq<Action>, dest: nat)
    requires TopologyOk(t) && dest < t.n && Runs(t, Initial(t), past) && AllKeepOrder(past)
    ensures Sound(t, Exec(t, Initial(t), past), dest)
  {
    SoundInitial(t, dest);
    SoundRun(t, Initial(t), dest, past);
  }

  /** In every reachable state, not only after convergence, and while vectors go on being exchanged or lost: a router
      that knows the destination finds a port, over which no router is farther away; and in a network without a
      trap, a packet arrives within HopBound hops, which with positive costs is the known distance. */
  lemma ForwardingIsLoopFree(t: Topology, past: seq<Action>, u: nat, dest: nat, legs: seq<seq<Action>>)
    requires TopologyOk(t) && u < t.n && dest < t.n && Runs(t, Initial(t), past) && AllKeepOrder(past)
    ensures var s := Exec(t, Initial(t), past);
      && Monotone(t, s)
      && (Own(s, u)[dest] != UNKNOWN ==>
            && 0 <= Own(s, Across(t, s, u, dest))[dest] <= Own(s, u)[dest]
            && (u != dest ==> NextHop(s.nodes[u], dest, 2) < |s.nodes[u].ports|)
            && (!HasTrap(t, dest) && Journey(t, s, legs) && HopBound(t, s, dest, u) <= |legs| ==>
                  Position(t, s, u, dest, legs) == dest))
  {
    var s := Exec(t, Initial(t), past);
    SoundReached(t, past, dest);
    assert RealNode(t, s.nodes[u], u);
    if Own(s, u)[dest] != UNKNOWN {
      AcrossNoFarther(t, s, u, dest);
      if u != dest {
        var l := NextHopFound(t, s, u, dest);
      }
      if !HasTrap(t, dest) && Journey(t, s, legs) && HopBound(t, s, dest, u) <= |legs| {
        PacketArrives(t, s, u, dest, legs);
      }
    }
  }
}
