/** When packets circle (lab3-router/router.cpp, the next-hop search): the shape in a network that lets it happen, and
    why a circle in any reachable state has that shape. */
module Traps {
  import opened DistanceVector
  import opened DvNetwork
  import opened DvConvergence
  import opened Forwarding
  import opened Orbits

  // ----- The shape --------------------------------------------------------------------------------

  ghost predicate OnRing(t: Topology, ring: seq<nat>, u: nat) {
    exists i :: 0 <= i < |ring| && ring[i] < |t.links| && t.links[ring[i]].dst == u
  }

  /** The link after the i-th of a ring. */
  function After(ring: seq<nat>, i: nat): nat
    requires i < |ring|
  {
    ring[if i + 1 < |ring| then i + 1 else 0]
  }

  /** Links of cost 0, each leading from one router to the next and the last back to the first; no router twice. */
  ghost predicate FreeRing(t: Topology, ring: seq<nat>)
    requires TopologyOk(t)
  {
    && ring != []
    && (forall i :: 0 <= i < |ring| ==> ring[i] < |t.links| && Hop(t, ring[i]) == 0)
    && (forall i {:trigger After(ring, i)} :: 0 <= i < |ring| ==>
          t.links[ring[i]].src == t.links[After(ring, i)].dst)
    && (forall i, j :: 0 <= i < j < |ring| ==> t.links[ring[i]].dst != t.links[ring[j]].dst)
  }

  /** A ring of links of cost 0, whose first router has, on a later port than the ring's, the start of a way to the
      destination that keeps clear of the ring. */
  ghost predicate Trap(t: Topology, dest: nat, ring: seq<nat>, q: nat, way: seq<nat>)
    requires TopologyOk(t)
  {
    && FreeRing(t, ring) && !OnRing(t, ring, dest)
    && q < |t.links| && t.links[q].dst == t.links[ring[0]].dst
    && t.links[ring[0]].port < t.links[q].port && Hop(t, q) >= 0
    && Walk(t, t.links[q].src, way, dest) && Hop(t, q) + Cost(t, t.links[q].src, way, dest) < SENTINEL
    && ClearOf(t, ring, t.links[q].src, way)
  }

  /** No router of the walk is on the ring. */
  ghost predicate ClearOf(t: Topology, ring: seq<nat>, u: nat, way: seq<nat>) {
    && !OnRing(t, ring, u)
    && forall j :: 0 <= j < |way| ==> way[j] < |t.links| && !OnRing(t, ring, t.links[way[j]].src)
  }

  ghost predicate HasTrap(t: Topology, dest: nat)
    requires TopologyOk(t)
  {
    exists ring, q, way :: Trap(t, dest, ring, q, way)
  }

  // ----- Every known distance came from somewhere -------------------------------------------------

  /** The link over which u has its distance to dest, from a router that is nearer or has known it longer. */
  ghost predicate Source(t: Topology, s: Net, dest: nat, rank: seq<nat>, u: nat, l: nat)
    requires Shape(t, s) && u < t.n && dest < VECTOR_SIZE && |rank| == t.n
  {
    && l < |t.links| && t.links[l].dst == u && Hop(t, l) >= 0 && Stored(t, s, l)[dest] >= 0
    && Hop(t, l) + Stored(t, s, l)[dest] == Own(s, u)[dest]
    && var v := t.links[l].src;
       0 <= Own(s, v)[dest] && (Own(s, v)[dest] < Own(s, u)[dest] || rank[v] < rank[u])
  }

  ghost predicate HasSource(t: Topology, s: Net, dest: nat, rank: seq<nat>, u: nat)
    requires Shape(t, s) && u < t.n && dest < VECTOR_SIZE && |rank| == t.n
  {
    exists l: nat :: Source(t, s, dest, rank, u, l)
  }

  ghost predicate Grounded(t: Topology, s: Net, dest: nat, rank: seq<nat>)
    requires Shape(t, s) && dest < t.n
  {
    && |rank| == t.n && rank[dest] == 0
    && forall u {:trigger HasSource(t, s, dest, rank, u)} ::
         0 <= u < t.n && u != dest && Own(s, u)[dest] != UNKNOWN ==> HasSource(t, s, dest, rank, u)
  }

  lemma {:induction false} TopRank(rank: seq<nat>) returns (top: nat)
    ensures forall x :: 0 <= x < |rank| ==> rank[x] < top
    decreases |rank|
  {
    if rank == [] {
      top := 0;
    } else {
      top := TopRank(rank[1..]);
      assert forall x :: 1 <= x < |rank| ==> rank[x] == rank[1..][x - 1];
      if rank[0] >= top {
        top := rank[0] + 1;
      }
    }
  }

  /** A router that has just learnt or improved its distance gets the highest rank. */
  lemma SourceOfChange(t: Topology, s: Net, dest: nat, rank: seq<nat>, u: nat)
    requires Monotone(t, s) && dest < t.n && u < t.n && u != dest && |rank| == t.n
    requires forall x :: 0 <= x < |rank| && x != u ==> rank[x] < rank[u]
    requires Own(s, u)[dest] != UNKNOWN
    ensures HasSource(t, s, dest, rank, u)
  {
    assert Tight(t, s.nodes[u], u) && RealNode(t, s.nodes[u], u);
    var m := OfferSource(t, s.nodes[u], u, dest);
    SenderNoWorse(t, s, m);
    assert Source(t, s, dest, rank, u, m);
  }

  lemma StoredImproves(t: Topology, s: Net, l: nat, m: nat)
    requires Monotone(t, s) && Enabled(t, s, Deliver(l, 0)) && m < |t.links| && Shape(t, Next(t, s, Deliver(l, 0)))
    ensures NoWorse(Stored(t, Next(t, s, Deliver(l, 0)), m), Stored(t, s, m))
  {
    if m == l {
      var before := Stream(t, s, l);
      assert before[0] == Stored(t, s, l) && before[1] == s.queues[l][0] && NoWorse(before[1], before[0]);
    } else {
      assert t.links[m].dst != t.links[l].dst || t.links[m].port != t.links[l].port;
    }
  }

  /** Where the distance has not changed, neither has what is heard over a link that offers it. */
  lemma OfferStays(t: Topology, s: Net, s': Net, dest: nat, u: nat, m: nat)
    requires Monotone(t, s) && Monotone(t, s') && dest < t.n && u < t.n && u != dest
    requires m < |t.links| && t.links[m].dst == u && Hop(t, m) >= 0 && Stored(t, s, m)[dest] >= 0
    requires Hop(t, m) + Stored(t, s, m)[dest] == Own(s, u)[dest] == Own(s', u)[dest]
    requires NoWorse(Stored(t, s', m), Stored(t, s, m))
    ensures Stored(t, s', m)[dest] == Stored(t, s, m)[dest]
  {
    assert RealNode(t, s.nodes[u], u) && Tight(t, s'.nodes[u], u);
    OfferAtMost(t, s'.nodes[u], u, dest, m);
  }

  lemma SourceStays(t: Topology, s: Net, l: nat, dest: nat, rank: seq<nat>, rank': seq<nat>, x: nat)
    requires Monotone(t, s) && Enabled(t, s, Deliver(l, 0)) && dest < t.n && |rank| == |rank'| == t.n
    requires Monotone(t, Next(t, s, Deliver(l, 0)))
    requires forall v :: 0 <= v < t.n ==> NoWorse(Own(Next(t, s, Deliver(l, 0)), v), Own(s, v))
    requires forall v :: 0 <= v < t.n ==>
      rank'[v] == rank[v] || Own(Next(t, s, Deliver(l, 0)), v)[dest] != Own(s, v)[dest]
    requires x < t.n && x != dest && HasSource(t, s, dest, rank, x)
    requires Own(Next(t, s, Deliver(l, 0)), x)[dest] == Own(s, x)[dest]
    ensures HasSource(t, Next(t, s, Deliver(l, 0)), dest, rank', x)
  {
    var s' := Next(t, s, Deliver(l, 0));
    var m: nat :| Source(t, s, dest, rank, x, m);
    StoredImproves(t, s, l, m);
    OfferStays(t, s, s', dest, x, m);
    SenderNoWorse(t, s, m);
    assert Source(t, s', dest, rank', x, m);
  }

  lemma OwnEntryIsZero(t: Topology, s: Net, dest: nat)
    requires Monotone(t, s) && dest < t.n
    ensures Own(s, dest)[dest] == 0
  {
    assert Tight(t, s.nodes[dest], dest);
  }

  lemma OthersKeepOwn(t: Topology, s: Net, l: nat, x: nat)
    requires Enabled(t, s, Deliver(l, 0)) && x < t.n && x != t.links[l].dst
    requires Shape(t, Next(t, s, Deliver(l, 0)))
    ensures Own(Next(t, s, Deliver(l, 0)), x) == Own(s, x)
  {
  }

  /** The ranks after a delivery: the receiver's is now the highest, if its distance has changed. */
  ghost predicate Reranked(t: Topology, s: Net, l: nat, dest: nat, rank: seq<nat>, rank': seq<nat>)
    requires Shape(t, s) && Enabled(t, s, Deliver(l, 0)) && Shape(t, Next(t, s, Deliver(l, 0))) && dest < t.n
  {
    && |rank| == |rank'| == t.n
    && var u, s' := t.links[l].dst, Next(t, s, Deliver(l, 0));
       && (forall v :: 0 <= v < t.n && v != u ==> rank'[v] == rank[v])
       && if Own(s', u)[dest] == Own(s, u)[dest] then rank' == rank
          else forall v :: 0 <= v < t.n && v != u ==> rank'[v] < rank'[u]
  }

  lemma SourceAfter(t: Topology, s: Net, l: nat, dest: nat, rank: seq<nat>, rank': seq<nat>, x: nat)
    requires Monotone(t, s) && Enabled(t, s, Deliver(l, 0)) && Monotone(t, Next(t, s, Deliver(l, 0)))
    requires forall v :: 0 <= v < t.n ==> NoWorse(Own(Next(t, s, Deliver(l, 0)), v), Own(s, v))
    requires dest < t.n && Grounded(t, s, dest, rank) && Reranked(t, s, l, dest, rank, rank')
    requires x < t.n && x != dest && Own(Next(t, s, Deliver(l, 0)), x)[dest] != UNKNOWN
    ensures HasSource(t, Next(t, s, Deliver(l, 0)), dest, rank', x)
  {
    var s' := Next(t, s, Deliver(l, 0));
    if x != t.links[l].dst {
      OthersKeepOwn(t, s, l, x);
    }
    if Own(s', x)[dest] == Own(s, x)[dest] {
      assert HasSource(t, s, dest, rank, x);
      SourceStays(t, s, l, dest, rank, rank', x);
    } else {
      SourceOfChange(t, s', dest, rank', x);
    }
  }

  lemma GroundedDeliver(t: Topology, s: Net, l: nat, dest: nat, rank: seq<nat>) returns (rank': seq<nat>)
    requires Monotone(t, s) && Enabled(t, s, Deliver(l, 0)) && dest < t.n && Grounded(t, s, dest, rank)
    requires Monotone(t, Next(t, s, Deliver(l, 0)))
    requires forall v :: 0 <= v < t.n ==> NoWorse(Own(Next(t, s, Deliver(l, 0)), v), Own(s, v))
    ensures Grounded(t, Next(t, s, Deliver(l, 0)), dest, rank')
  {
    var u, s' := t.links[l].dst, Next(t, s, Deliver(l, 0));
    var top := TopRank(rank);
    OwnEntryIsZero(t, s, dest);
    OwnEntryIsZero(t, s', dest);
    rank' := if Own(s', u)[dest] == Own(s, u)[dest] then rank else rank[u := top];
    forall x | 0 <= x < t.n && x != dest && Own(s', x)[dest] != UNKNOWN
      ensures HasSource(t, s', dest, rank', x)
    {
      SourceAfter(t, s, l, dest, rank, rank', x);
    }
  }

  lemma GroundedStep(t: Topology, s: Net, a: Action, dest: nat, rank: seq<nat>) returns (rank': seq<nat>)
    requires Monotone(t, s) && Enabled(t, s, a) && KeepsOrder(a) && dest < t.n && Grounded(t, s, dest, rank)
    ensures Monotone(t, Next(t, s, a)) && Grounded(t, Next(t, s, a), dest, rank')
  {
    MonotoneStep(t, s, a);
    if a.Deliver? {
      rank' := GroundedDeliver(t, s, a.l, dest, rank);
    } else {
      rank' := rank;
      forall u | 0 <= u < t.n && u != dest && Own(s, u)[dest] != UNKNOWN
        ensures HasSource(t, Next(t, s, a), dest, rank, u)
      {
        assert HasSource(t, s, dest, rank, u);
        var l: nat :| Source(t, s, dest, rank, u, l);
        assert Source(t, Next(t, s, a), dest, rank, u, l);
      }
    }
  }

  lemma {:induction false} GroundedRun(t: Topology, s: Net, acts: seq<Action>, dest: nat, rank: seq<nat>)
    returns (rank': seq<nat>)
    requires Monotone(t, s) && Runs(t, s, acts) && AllKeepOrder(acts) && dest < t.n && Grounded(t, s, dest, rank)
    ensures Monotone(t, Exec(t, s, acts)) && Grounded(t, Exec(t, s, acts), dest, rank')
    decreases |acts|
  {
    if acts == [] {
      rank' := rank;
    } else {
      var next := GroundedStep(t, s, acts[0], dest, rank);
      assert AllKeepOrder(acts[1..]);
      rank' := GroundedRun(t, Next(t, s, acts[0]), acts[1..], dest, next);
    }
  }

  lemma GroundedInitial(t: Topology, dest: nat) returns (rank: seq<nat>)
    requires TopologyOk(t) && dest < t.n
    ensures Monotone(t, Initial(t)) && Grounded(t, Initial(t), dest, rank)
  {
    MonotoneInitial(t);
    rank := seq(t.n, u => 0);
  }

  // ----- A circle of picks is a trap --------------------------------------------------------------

  /** Where each router sends packets for dest. */
  ghost function Routes(t: Topology, s: Net, dest: nat): (f: seq<nat>)
    requires Shape(t, s) && dest < t.n
    ensures |f| == t.n && Closed(f) && f[dest] == dest
    ensures forall u :: 0 <= u < t.n ==> f[u] == Across(t, s, u, dest)
  {
    seq(t.n, u requires 0 <= u < t.n => Across(t, s, u, dest))
  }

  /** Distances known do not grow along f. */
  ghost predicate NoFarther(t: Topology, s: Net, dest: nat, f: seq<nat>)
    requires Shape(t, s)
  {
    && |f| == t.n && Closed(f) && dest < t.n
    && forall x :: 0 <= x < t.n && 0 <= Own(s, x)[dest] ==> 0 <= Own(s, f[x])[dest] <= Own(s, x)[dest]
  }

  lemma {:induction false} FollowNoFarther(t: Topology, s: Net, dest: nat, f: seq<nat>, u: nat, k: nat)
    requires Shape(t, s) && NoFarther(t, s, dest, f) && u < t.n && 0 <= Own(s, u)[dest]
    ensures 0 <= Own(s, Follow(f, u, k))[dest] <= Own(s, u)[dest]
    decreases k
  {
    if k > 0 {
      FollowNoFarther(t, s, dest, f, f[u], k - 1);
    }
  }

  lemma RoutesNoFarther(t: Topology, s: Net, dest: nat)
    requires Monotone(t, s) && dest < t.n
    ensures NoFarther(t, s, dest, Routes(t, s, dest))
  {
    forall x | 0 <= x < t.n && 0 <= Own(s, x)[dest]
      ensures 0 <= Own(s, Across(t, s, x, dest))[dest] <= Own(s, x)[dest]
    {
      AcrossNoFarther(t, s, x, dest);
    }
  }

  /** A router from which packets for dest come back to it. */
  ghost predicate Circling(t: Topology, s: Net, dest: nat, u: nat, m: nat)
    requires Shape(t, s)
  {
    && dest < t.n && u < t.n && u != dest && 0 <= Own(s, u)[dest]
    && m > 0 && Follow(Routes(t, s, dest), u, m) == u
  }

  lemma OrbitLevel(t: Topology, s: Net, dest: nat, f: seq<nat>, u: nat, m: nat, i: nat)
    requires Shape(t, s) && NoFarther(t, s, dest, f) && f[dest] == dest && u < t.n && u != dest
    requires 0 <= Own(s, u)[dest] && i < m && Follow(f, u, m) == u
    ensures Follow(f, u, i) != dest && Own(s, Follow(f, u, i))[dest] == Own(s, u)[dest]
  {
    var v := Follow(f, u, i);
    FollowAdd(f, u, i, m - i);
    FollowNoFarther(t, s, dest, f, u, i);
    FollowNoFarther(t, s, dest, f, v, m - i);
    if v == dest {
      FollowStays(f, dest, m - i);
    }
  }

  /** All routers of a circle know the destination at the same distance, and it is none of them. */
  lemma CircleLevel(t: Topology, s: Net, dest: nat, u: nat, m: nat, k: nat)
    requires Monotone(t, s) && Circling(t, s, dest, u, m)
    ensures var v := Follow(Routes(t, s, dest), u, k); v != dest && Own(s, v)[dest] == Own(s, u)[dest]
  {
    var f := Routes(t, s, dest);
    var i := FollowReduce(f, u, m, k);
    RoutesNoFarther(t, s, dest);
    OrbitLevel(t, s, dest, f, u, m, i);
  }

  /** The link a router on a circle picks is free, and leads to the next. */
  lemma CircleLink(t: Topology, s: Net, dest: nat, u: nat, m: nat) returns (l: nat)
    requires Monotone(t, s) && Circling(t, s, dest, u, m)
    ensures Picks(t, s, u, dest, l) && Hop(t, l) == 0 && t.links[l].src == Routes(t, s, dest)[u]
  {
    l := NextHopFound(t, s, u, dest);
    AcrossIs(t, s, u, dest, l);
    CircleLevel(t, s, dest, u, m, 1);
    assert Follow(Routes(t, s, dest), u, 1) == Routes(t, s, dest)[u];
  }

  lemma CirclingOn(t: Topology, s: Net, dest: nat, u: nat, m: nat, k: nat)
    requires Monotone(t, s) && Circling(t, s, dest, u, m)
    ensures Circling(t, s, dest, Follow(Routes(t, s, dest), u, k), m)
  {
    CircleLevel(t, s, dest, u, m, k);
    OrbitShift(Routes(t, s, dest), u, m, k);
  }

  /** l is the free link picked by the i-th router from u on. */
  ghost predicate PickedAfter(t: Topology, s: Net, dest: nat, f: seq<nat>, u: nat, i: nat, l: nat)
    requires Shape(t, s) && dest < t.n && u < t.n == |f| && Closed(f)
  {
    Picks(t, s, Follow(f, u, i), dest, l) && Hop(t, l) == 0 && t.links[l].src == Follow(f, u, i + 1)
  }

  lemma PickAfter(t: Topology, s: Net, dest: nat, u: nat, m: nat, i: nat) returns (l: nat)
    requires Monotone(t, s) && Circling(t, s, dest, u, m)
    ensures PickedAfter(t, s, dest, Routes(t, s, dest), u, i, l)
  {
    CirclingOn(t, s, dest, u, m, i);
    l := CircleLink(t, s, dest, Follow(Routes(t, s, dest), u, i), m);
    FollowNext(Routes(t, s, dest), u, i);
  }

  /** The links picked from u on. */
  ghost predicate PickedRing(t: Topology, s: Net, dest: nat, f: seq<nat>, u: nat, ring: seq<nat>)
    requires Shape(t, s) && dest < t.n && u < t.n == |f| && Closed(f)
  {
    forall i :: 0 <= i < |ring| ==> PickedAfter(t, s, dest, f, u, i, ring[i])
  }

  ghost predicate HasPick(t: Topology, s: Net, dest: nat, f: seq<nat>, u: nat, i: nat)
    requires Shape(t, s) && dest < t.n && u < t.n == |f| && Closed(f)
  {
    exists l: nat :: PickedAfter(t, s, dest, f, u, i, l)
  }

  lemma {:induction false} RingOfPicks(t: Topology, s: Net, dest: nat, f: seq<nat>, u: nat, p: nat)
    returns (ring: seq<nat>)
    requires Shape(t, s) && dest < t.n && u < t.n == |f| && Closed(f)
    requires forall i :: 0 <= i < p ==> HasPick(t, s, dest, f, u, i)
    ensures |ring| == p && PickedRing(t, s, dest, f, u, ring)
    decreases p
  {
    if p == 0 {
      ring := [];
    } else {
      var rest := RingOfPicks(t, s, dest, f, u, p - 1);
      assert HasPick(t, s, dest, f, u, p - 1);
      var l: nat :| PickedAfter(t, s, dest, f, u, p - 1, l);
      ring := rest + [l];
    }
  }

  lemma RingFrom(t: Topology, s: Net, dest: nat, u: nat, m: nat, p: nat) returns (ring: seq<nat>)
    requires Monotone(t, s) && Circling(t, s, dest, u, m)
    ensures |ring| == p && PickedRing(t, s, dest, Routes(t, s, dest), u, ring)
  {
    forall i | 0 <= i < p
      ensures HasPick(t, s, dest, Routes(t, s, dest), u, i)
    {
      var l := PickAfter(t, s, dest, u, m, i);
    }
    ring := RingOfPicks(t, s, dest, Routes(t, s, dest), u, p);
  }

  /** A ring of free links that follows f from u. */
  ghost predicate RingAlong(t: Topology, f: seq<nat>, u: nat, ring: seq<nat>)
    requires TopologyOk(t) && Closed(f) && u < |f|
  {
    && Follow(f, u, |ring|) == u
    && forall i :: 0 <= i < |ring| ==>
         && ring[i] < |t.links| && Hop(t, ring[i]) == 0
         && t.links[ring[i]].dst == Follow(f, u, i) && t.links[ring[i]].src == Follow(f, u, i + 1)
  }

  lemma RingIsFree(t: Topology, f: seq<nat>, u: nat, ring: seq<nat>)
    requires TopologyOk(t) && Closed(f) && u < |f| && RingAlong(t, f, u, ring) && ring != []
    requires forall k :: 0 < k < |ring| ==> Follow(f, u, k) != u
    ensures FreeRing(t, ring) && t.links[ring[0]].dst == u
  {
    assert Follow(f, u, 0) == u;
    forall i, j | 0 <= i < j < |ring|
      ensures t.links[ring[i]].dst != t.links[ring[j]].dst
    {
      PeriodDistinct(f, u, |ring|, i, j);
    }
  }

  lemma PickedIsAlong(t: Topology, s: Net, dest: nat, u: nat, p: nat, ring: seq<nat>)
    requires Monotone(t, s) && Circling(t, s, dest, u, p) && |ring| == p
    requires PickedRing(t, s, dest, Routes(t, s, dest), u, ring)
    ensures RingAlong(t, Routes(t, s, dest), u, ring) && !OnRing(t, ring, dest)
  {
    forall i | 0 <= i < |ring|
      ensures ring[i] < |t.links| && Hop(t, ring[i]) == 0 && t.links[ring[i]].dst != dest
      ensures t.links[ring[i]].dst == Follow(Routes(t, s, dest), u, i)
      ensures t.links[ring[i]].src == Follow(Routes(t, s, dest), u, i + 1)
    {
      CircleLevel(t, s, dest, u, p, i);
      assert PickedAfter(t, s, dest, Routes(t, s, dest), u, i, ring[i]);
    }
  }

  /** v is nearer than d, or as near and has known it for longer than rank r. */
  ghost predicate Before(t: Topology, s: Net, dest: nat, rank: seq<nat>, v: nat, d: int, r: nat)
    requires Shape(t, s) && dest < t.n && |rank| == t.n
  {
    && v < t.n && 0 <= Own(s, v)[dest]
    && (Own(s, v)[dest] < d || (Own(s, v)[dest] == d && rank[v] < r))
  }

  lemma ExtendWay(t: Topology, l: nat, rest: seq<nat>, dest: nat)
    requires TopologyOk(t) && l < |t.links| && Hop(t, l) >= 0 && Walk(t, t.links[l].src, rest, dest)
    ensures Walk(t, t.links[l].dst, [l] + rest, dest)
    ensures Cost(t, t.links[l].dst, [l] + rest, dest) == Hop(t, l) + Cost(t, t.links[l].src, rest, dest)
  {
    assert ([l] + rest)[1..] == rest;
  }

  lemma StepBack(t: Topology, s: Net, dest: nat, rank: seq<nat>, v: nat, d: int, r: nat) returns (l: nat)
    requires Monotone(t, s) && dest < t.n && Grounded(t, s, dest, rank) && Before(t, s, dest, rank, v, d, r)
    requires v != dest
    ensures l < |t.links| && t.links[l].dst == v && Hop(t, l) >= 0 && Before(t, s, dest, rank, t.links[l].src, d, r)
    ensures Hop(t, l) + Own(s, t.links[l].src)[dest] <= Own(s, v)[dest]
    ensures Own(s, t.links[l].src)[dest] < Own(s, v)[dest] || rank[t.links[l].src] < rank[v]
  {
    assert HasSource(t, s, dest, rank, v);
    l :| Source(t, s, dest, rank, v, l);
    SenderNoWorse(t, s, l);
  }

  /** A way from v to dest that costs no more than v's distance, all of it before d and r. */
  ghost predicate WayBefore(t: Topology, s: Net, dest: nat, rank: seq<nat>, v: nat, way: seq<nat>, d: int, r: nat)
    requires Shape(t, s) && dest < t.n && |rank| == t.n && v < t.n
  {
    && Walk(t, v, way, dest) && Cost(t, v, way, dest) <= Own(s, v)[dest]
    && forall j :: 0 <= j < |way| ==> way[j] < |t.links| && Before(t, s, dest, rank, t.links[way[j]].src, d, r)
  }

  lemma ExtendBefore(t: Topology, s: Net, dest: nat, rank: seq<nat>, l: nat, way: seq<nat>, d: int, r: nat)
    requires Shape(t, s) && dest < t.n && |rank| == t.n && l < |t.links| && Hop(t, l) >= 0
    requires WayBefore(t, s, dest, rank, t.links[l].src, way, d, r)
    requires Before(t, s, dest, rank, t.links[l].src, d, r)
    requires Hop(t, l) + Own(s, t.links[l].src)[dest] <= Own(s, t.links[l].dst)[dest]
    ensures WayBefore(t, s, dest, rank, t.links[l].dst, [l] + way, d, r)
  {
    ExtendWay(t, l, way, dest);
  }

  /** From source to source, back to the destination. */
  lemma {:induction false} WayBack(t: Topology, s: Net, dest: nat, rank: seq<nat>, v: nat, d: int, r: nat)
    returns (way: seq<nat>)
    requires Monotone(t, s) && dest < t.n && Grounded(t, s, dest, rank) && Before(t, s, dest, rank, v, d, r)
    ensures WayBefore(t, s, dest, rank, v, way, d, r)
    decreases Own(s, v)[dest], rank[v]
  {
    if v == dest {
      way := [];
    } else {
      var l := StepBack(t, s, dest, rank, v, d, r);
      var rest := WayBack(t, s, dest, rank, t.links[l].src, d, r);
      ExtendBefore(t, s, dest, rank, l, rest, d, r);
      way := [l] + rest;
    }
  }

  /** A circle, seen from the router that has known its distance for longest. */
  ghost predicate LongestKnown(t: Topology, s: Net, dest: nat, rank: seq<nat>, v: nat, p: nat, ring: seq<nat>)
    requires Shape(t, s)
  {
    && Circling(t, s, dest, v, p) && |rank| == t.n
    && ring != [] && PickedRing(t, s, dest, Routes(t, s, dest), v, ring)
    && forall k: nat :: rank[v] <= rank[Follow(Routes(t, s, dest), v, k)]
  }

  lemma FindRing(t: Topology, s: Net, dest: nat, rank: seq<nat>, u: nat, m: nat)
    returns (v: nat, p: nat, ring: seq<nat>)
    requires Monotone(t, s) && Circling(t, s, dest, u, m) && |rank| == t.n
    ensures LongestKnown(t, s, dest, rank, v, p, ring)
    ensures FreeRing(t, ring) && !OnRing(t, ring, dest) && t.links[ring[0]].dst == v
  {
    var j: nat;
    v, j := LowestOnOrbit(Routes(t, s, dest), u, m, rank);
    CirclingOn(t, s, dest, u, m, j);
    p := LeastPeriod(Routes(t, s, dest), v, m);
    ring := RingFrom(t, s, dest, v, p, p);
    PickedIsAlong(t, s, dest, v, p, ring);
    RingIsFree(t, Routes(t, s, dest), v, ring);
  }

  /** That router has its distance over a later port, from outside. */
  lemma CircleMeansTrap(t: Topology, s: Net, dest: nat, rank: seq<nat>, u: nat, m: nat)
    requires Monotone(t, s) && Circling(t, s, dest, u, m) && Grounded(t, s, dest, rank)
    ensures HasTrap(t, dest)
  {
    var v, p, ring := FindRing(t, s, dest, rank, u, m);
    assert HasSource(t, s, dest, rank, v);
    var q: nat :| Source(t, s, dest, rank, v, q);
    var way := WayOut(t, s, dest, rank, v, q);
    forall w: nat | Before(t, s, dest, rank, w, Own(s, v)[dest], rank[v])
      ensures !OnRing(t, ring, w)
    {
      NotOnRing(t, s, dest, rank, v, p, ring, w);
    }
    LaterPort(t, s, dest, rank, v, p, ring, q);
    assert Trap(t, dest, ring, q, way);
  }

  lemma WayOut(t: Topology, s: Net, dest: nat, rank: seq<nat>, v: nat, q: nat) returns (way: seq<nat>)
    requires Monotone(t, s) && dest < t.n && Grounded(t, s, dest, rank) && v < t.n && Source(t, s, dest, rank, v, q)
    ensures Walk(t, t.links[q].src, way, dest) && Hop(t, q) + Cost(t, t.links[q].src, way, dest) < SENTINEL
    ensures Before(t, s, dest, rank, t.links[q].src, Own(s, v)[dest], rank[v])
    ensures forall j :: 0 <= j < |way| ==>
      way[j] < |t.links| && Before(t, s, dest, rank, t.links[way[j]].src, Own(s, v)[dest], rank[v])
  {
    SenderNoWorse(t, s, q);
    way := WayBack(t, s, dest, rank, t.links[q].src, Own(s, v)[dest], rank[v]);
    assert RealNode(t, s.nodes[v], v);
  }

  lemma NotOnRing(t: Topology, s: Net, dest: nat, rank: seq<nat>, v: nat, p: nat, ring: seq<nat>, w: nat)
    requires Monotone(t, s) && LongestKnown(t, s, dest, rank, v, p, ring)
    requires Before(t, s, dest, rank, w, Own(s, v)[dest], rank[v])
    ensures !OnRing(t, ring, w)
  {
    forall i | 0 <= i < |ring|
      ensures ring[i] < |t.links| ==> t.links[ring[i]].dst != w
    {
      CircleLevel(t, s, dest, v, p, i);
      assert PickedAfter(t, s, dest, Routes(t, s, dest), v, i, ring[i]);
    }
  }

  lemma LaterPort(t: Topology, s: Net, dest: nat, rank: seq<nat>, v: nat, p: nat, ring: seq<nat>, q: nat)
    requires Monotone(t, s) && LongestKnown(t, s, dest, rank, v, p, ring) && Source(t, s, dest, rank, v, q)
    ensures ring[0] < |t.links| && t.links[ring[0]].port < t.links[q].port
  {
    NextHopIs(s.nodes[v], dest, 2);
    assert PickedAfter(t, s, dest, Routes(t, s, dest), v, 0, ring[0]);
    CircleLevel(t, s, dest, v, p, 1);
    assert q != ring[0];
    PortsDiffer(t, q, ring[0]);
  }
}
