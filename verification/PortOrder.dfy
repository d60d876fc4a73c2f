/** The same question when the numbering of the ports is left open: a network can be made to loop by renumbering ports
    if and only if links of cost 0 form a circle from which the destination can be reached. */
module PortOrder {
  import opened DistanceVector
  import opened DvNetwork
  import opened DvConvergence
  import opened Orbits
  import opened Forwarding
  import opened Traps
  import opened LoopFreedom
  import opened TrapRuns

  /** The same routers and links at the same costs; only the ports may differ. */
  ghost predicate Same(t: Topology, t': Topology) {
    && TopologyOk(t) && TopologyOk(t') && t'.n == t.n && |t'.links| == |t.links|
    && forall l :: 0 <= l < |t.links| ==>
         t'.links[l].src == t.links[l].src && t'.links[l].dst == t.links[l].dst && Hop(t', l) == Hop(t, l)
  }

  ghost predicate InReach(t: Topology, u: nat, dest: nat)
    requires TopologyOk(t)
  {
    exists path :: Walk(t, u, path, dest) && Cost(t, u, path, dest) < SENTINEL
  }

  /** A link of cost 0 from u to another router of next. */
  ghost predicate FreeNext(t: Topology, next: map<nat, nat>, u: nat)
    requires TopologyOk(t) && u in next
  {
    && u < t.n && next[u] < |t.links| && t.links[next[u]].dst == u && Hop(t, next[u]) == 0
    && t.links[next[u]].src in next
  }

  /** Routers in reach of dest, each with a link of cost 0 to another of them. */
  ghost predicate Circle(t: Topology, dest: nat, next: map<nat, nat>)
    requires TopologyOk(t)
  {
    && next != map[] && dest !in next
    && forall u {:trigger FreeNext(t, next, u)} :: u in next ==> FreeNext(t, next, u) && InReach(t, u, dest)
  }

  ghost predicate HasCircle(t: Topology, dest: nat)
    requires TopologyOk(t)
  {
    exists next :: Circle(t, dest, next)
  }

  lemma {:induction false} SameWalk(t: Topology, t': Topology, u: nat, path: seq<nat>, dest: nat)
    requires Same(t, t') && Walk(t, u, path, dest)
    ensures Walk(t', u, path, dest) && Cost(t', u, path, dest) == Cost(t, u, path, dest)
    decreases |path|
  {
    if path != [] {
      SameWalk(t, t', t.links[path[0]].src, path[1..], dest);
    }
  }

  // ----- From a trap to a circle --------------------------------------------------------------------

  lemma ReachOver(t: Topology, l: nat, dest: nat)
    requires TopologyOk(t) && l < |t.links| && Hop(t, l) == 0 && InReach(t, t.links[l].src, dest)
    ensures InReach(t, t.links[l].dst, dest)
  {
    var path :| Walk(t, t.links[l].src, path, dest) && Cost(t, t.links[l].src, path, dest) < SENTINEL;
    ExtendWay(t, l, path, dest);
  }

  lemma {:induction false} RingInReach(t: Topology, dest: nat, ring: seq<nat>, j: nat)
    requires TopologyOk(t) && FreeRing(t, ring) && j < |ring| && InReach(t, t.links[ring[0]].dst, dest)
    ensures InReach(t, t.links[ring[j]].dst, dest)
    decreases |ring| - j
  {
    if j > 0 {
      assert t.links[ring[j]].src == t.links[After(ring, j)].dst;
      if j + 1 < |ring| {
        RingInReach(t, dest, ring, j + 1);
      }
      ReachOver(t, ring[j], dest);
    }
  }

  /** The ring's link at one of its routers. */
  ghost function LinkAt(t: Topology, ring: seq<nat>, u: nat): (l: nat)
    requires OnRing(t, ring, u)
    ensures l in ring && l < |t.links| && t.links[l].dst == u
  {
    var i :| 0 <= i < |ring| && ring[i] < |t.links| && t.links[ring[i]].dst == u;
    ring[i]
  }

  lemma RingLink(t: Topology, dest: nat, ring: seq<nat>, u: nat)
    requires TopologyOk(t) && FreeRing(t, ring) && OnRing(t, ring, u) && InReach(t, t.links[ring[0]].dst, dest)
    ensures u < t.n && Hop(t, LinkAt(t, ring, u)) == 0 && InReach(t, u, dest)
    ensures t.links[LinkAt(t, ring, u)].src < t.n && OnRing(t, ring, t.links[LinkAt(t, ring, u)].src)
  {
    var j :| 0 <= j < |ring| && ring[j] == LinkAt(t, ring, u);
    RingInReach(t, dest, ring, j);
    assert After(ring, j) in ring;
  }

  ghost function RingNexts(t: Topology, ring: seq<nat>): (next: map<nat, nat>)
    ensures forall u: nat :: u in next <==> u < t.n && OnRing(t, ring, u)
    ensures forall u :: u in next ==> next[u] == LinkAt(t, ring, u)
  {
    map u | u in RingRouters(t, ring) :: LinkAt(t, ring, u)
  }

  lemma RingNextIsFree(t: Topology, dest: nat, ring: seq<nat>, u: nat)
    requires TopologyOk(t) && FreeRing(t, ring) && OnRing(t, ring, u) && InReach(t, t.links[ring[0]].dst, dest)
    ensures u in RingNexts(t, ring) && FreeNext(t, RingNexts(t, ring), u) && InReach(t, u, dest)
  {
    RingLink(t, dest, ring, u);
  }

  lemma RingMeansCircle(t: Topology, dest: nat, ring: seq<nat>)
    requires TopologyOk(t) && FreeRing(t, ring) && !OnRing(t, ring, dest) && InReach(t, t.links[ring[0]].dst, dest)
    ensures HasCircle(t, dest)
  {
    var next := RingNexts(t, ring);
    forall u | u in next
      ensures FreeNext(t, next, u) && InReach(t, u, dest)
    {
      RingNextIsFree(t, dest, ring, u);
    }
    RingNextIsFree(t, dest, ring, t.links[ring[0]].dst);
    assert Circle(t, dest, next);
  }

  lemma TrapInReach(t: Topology, q: nat, way: seq<nat>, dest: nat)
    requires TopologyOk(t) && q < |t.links| && Hop(t, q) >= 0 && Walk(t, t.links[q].src, way, dest)
    requires Hop(t, q) + Cost(t, t.links[q].src, way, dest) < SENTINEL
    ensures InReach(t, t.links[q].dst, dest)
  {
    ExtendWay(t, q, way, dest);
  }

  lemma TrapMeansCircle(t: Topology, dest: nat)
    requires TopologyOk(t) && HasTrap(t, dest)
    ensures HasCircle(t, dest)
  {
    var ring, q, way :| Trap(t, dest, ring, q, way);
    TrapInReach(t, q, way, dest);
    RingMeansCircle(t, dest, ring);
  }

  lemma SameReach(t: Topology, t': Topology, u: nat, dest: nat)
    requires Same(t, t') && InReach(t, u, dest)
    ensures InReach(t', u, dest)
  {
    var path :| Walk(t, u, path, dest) && Cost(t, u, path, dest) < SENTINEL;
    SameWalk(t, t', u, path, dest);
  }

  lemma SameCircle(t: Topology, t': Topology, dest: nat)
    requires Same(t, t') && HasCircle(t, dest)
    ensures HasCircle(t', dest)
  {
    var next :| Circle(t, dest, next);
    forall u | u in next
      ensures FreeNext(t', next, u) && InReach(t', u, dest)
    {
      assert FreeNext(t, next, u);
      SameReach(t, t', u, dest);
    }
    assert Circle(t', dest, next);
  }

  // ----- From a circle to a trap ----------------------------------------------------------------------

  ghost function Nexts(t: Topology, next: map<nat, nat>): (f: seq<nat>)
    requires TopologyOk(t)
    ensures |f| == t.n && Closed(f)
    ensures forall x :: 0 <= x < t.n && x in next && FreeNext(t, next, x) ==> f[x] == t.links[next[x]].src
  {
    seq(t.n, x requires 0 <= x < t.n =>
      if x in next && FreeNext(t, next, x) then t.links[next[x]].src else x)
  }

  /** Following a circle one stays on it. */
  lemma OnCircle(t: Topology, dest: nat, next: map<nat, nat>, v: nat, k: nat)
    requires TopologyOk(t) && Circle(t, dest, next) && v in next
    ensures v < t.n && Follow(Nexts(t, next), v, k) in next && FreeNext(t, next, Follow(Nexts(t, next), v, k))
  {
    var f := Nexts(t, next);
    assert FreeNext(t, next, v);
    forall x | 0 <= x < |f| && x in next.Keys
      ensures f[x] in next.Keys
    {
      assert FreeNext(t, next, x);
    }
    FollowInside(f, next.Keys, v, k);
  }

  /** The link by which a walk from inside leaves for good. */
  lemma {:induction false} LeavesFor(t: Topology, inside: set<nat>, u: nat, path: seq<nat>, dest: nat)
    returns (found: bool, q: nat, way: seq<nat>)
    requires TopologyOk(t) && Walk(t, u, path, dest) && dest !in inside
    ensures found ==>
      && q < |t.links| && t.links[q].dst in inside && Hop(t, q) >= 0 && Walk(t, t.links[q].src, way, dest)
      && Hop(t, q) + Cost(t, t.links[q].src, way, dest) <= Cost(t, u, path, dest)
      && Outside(t, inside, t.links[q].src, way)
    ensures !found ==> Outside(t, inside, u, path)
    decreases |path|
  {
    if path == [] {
      found, q, way := false, 0, [];
    } else {
      found, q, way := LeavesFor(t, inside, t.links[path[0]].src, path[1..], dest);
      if !found {
        if u in inside {
          found, q, way := true, path[0], path[1..];
        } else {
          assert forall j :: 0 < j < |path| ==> path[j] == path[1..][j - 1];
        }
      }
    }
  }

  ghost predicate Outside(t: Topology, inside: set<nat>, u: nat, way: seq<nat>) {
    u !in inside && forall j :: 0 <= j < |way| ==> way[j] < |t.links| && t.links[way[j]].src !in inside
  }

  /** The routers that v leads to. */
  ghost function Orbit(f: seq<nat>, v: nat, m: nat): (inside: set<nat>)
    requires Closed(f) && v < |f|
  {
    set i | 0 <= i < m :: Follow(f, v, i)
  }

  /** l is the link of the i-th router from v on. */
  ghost predicate NextAfter(t: Topology, next: map<nat, nat>, v: nat, i: nat, l: nat)
    requires TopologyOk(t) && v < t.n
  {
    && l < |t.links| && Hop(t, l) == 0
    && t.links[l].dst == Follow(Nexts(t, next), v, i) && t.links[l].src == Follow(Nexts(t, next), v, i + 1)
  }

  ghost predicate HasNext(t: Topology, next: map<nat, nat>, v: nat, i: nat)
    requires TopologyOk(t) && v < t.n
  {
    exists l: nat :: NextAfter(t, next, v, i, l)
  }

  lemma NextOnCircle(t: Topology, dest: nat, next: map<nat, nat>, v: nat, i: nat)
    requires TopologyOk(t) && Circle(t, dest, next) && v in next
    ensures v < t.n && HasNext(t, next, v, i)
  {
    OnCircle(t, dest, next, v, i);
    FollowNext(Nexts(t, next), v, i);
    assert NextAfter(t, next, v, i, next[Follow(Nexts(t, next), v, i)]);
  }

  lemma {:induction false} CollectNexts(t: Topology, next: map<nat, nat>, v: nat, p: nat) returns (ring: seq<nat>)
    requires TopologyOk(t) && v < t.n && forall i :: 0 <= i < p ==> HasNext(t, next, v, i)
    ensures |ring| == p && forall i :: 0 <= i < p ==> NextAfter(t, next, v, i, ring[i])
    decreases p
  {
    if p == 0 {
      ring := [];
    } else {
      var rest := CollectNexts(t, next, v, p - 1);
      assert HasNext(t, next, v, p - 1);
      var l: nat :| NextAfter(t, next, v, p - 1, l);
      ring := rest + [l];
    }
  }

  lemma CollectedIsAlong(t: Topology, next: map<nat, nat>, v: nat, ring: seq<nat>)
    requires TopologyOk(t) && v < t.n && Follow(Nexts(t, next), v, |ring|) == v
    requires forall i :: 0 <= i < |ring| ==> NextAfter(t, next, v, i, ring[i])
    ensures RingAlong(t, Nexts(t, next), v, ring)
  {
  }

  lemma AllHaveNext(t: Topology, dest: nat, next: map<nat, nat>, v: nat, p: nat)
    requires TopologyOk(t) && Circle(t, dest, next) && v in next && v < t.n
    ensures forall i :: 0 <= i < p ==> HasNext(t, next, v, i)
  {
    forall i | 0 <= i < p
      ensures HasNext(t, next, v, i)
    {
      NextOnCircle(t, dest, next, v, i);
    }
  }

  lemma RingOfNexts(t: Topology, dest: nat, next: map<nat, nat>, v: nat, p: nat) returns (ring: seq<nat>)
    requires TopologyOk(t) && Circle(t, dest, next) && v in next && v < t.n
    requires Follow(Nexts(t, next), v, p) == v
    ensures |ring| == p && RingAlong(t, Nexts(t, next), v, ring)
  {
    AllHaveNext(t, dest, next, v, p);
    ring := CollectNexts(t, next, v, p);
    CollectedIsAlong(t, next, v, ring);
  }

  /** Somewhere on the circle a way out begins: a ring from there, and a link q that leaves it for good. */
  ghost predicate RingAndWay(t: Topology, dest: nat, ring: seq<nat>, q: nat, way: seq<nat>)
    requires TopologyOk(t)
  {
    && FreeRing(t, ring) && !OnRing(t, ring, dest)
    && q < |t.links| && t.links[q].dst == t.links[ring[0]].dst && Hop(t, q) >= 0
    && Walk(t, t.links[q].src, way, dest) && Hop(t, q) + Cost(t, t.links[q].src, way, dest) < SENTINEL
    && ClearOf(t, ring, t.links[q].src, way)
  }

  lemma FindOrbit(t: Topology, dest: nat, next: map<nat, nat>) returns (v: nat, m: nat)
    requires TopologyOk(t) && Circle(t, dest, next)
    ensures v in next && v < t.n && m > 0 && Follow(Nexts(t, next), v, m) == v
  {
    var u :| u in next;
    OnCircle(t, dest, next, u, 0);
    var i: nat;
    i, m := ComesAgain(Nexts(t, next), u);
    v := Follow(Nexts(t, next), u, i);
    OnCircle(t, dest, next, u, i);
  }

  lemma InOrbit(f: seq<nat>, v: nat, m: nat, k: nat)
    requires Closed(f) && v < |f| && m > 0 && Follow(f, v, m) == v
    ensures Follow(f, v, k) in Orbit(f, v, m)
  {
    var i := FollowReduce(f, v, m, k);
  }

  lemma OrbitAvoids(t: Topology, dest: nat, next: map<nat, nat>, v: nat, m: nat)
    requires TopologyOk(t) && Circle(t, dest, next) && v in next && v < t.n
    ensures dest !in Orbit(Nexts(t, next), v, m)
  {
    forall i: nat
      ensures Follow(Nexts(t, next), v, i) != dest
    {
      OnCircle(t, dest, next, v, i);
    }
  }

  lemma AlongInOrbit(t: Topology, f: seq<nat>, v: nat, m: nat, k: nat, ring: seq<nat>, x: nat)
    requires TopologyOk(t) && Closed(f) && v < |f| && m > 0 && Follow(f, v, m) == v
    requires RingAlong(t, f, Follow(f, v, k), ring) && OnRing(t, ring, x)
    ensures x in Orbit(f, v, m)
  {
    var i :| 0 <= i < |ring| && ring[i] < |t.links| && t.links[ring[i]].dst == x;
    FollowAdd(f, v, k, i);
    InOrbit(f, v, m, k + i);
  }

  /** The ring that starts at w, a router v leads to. */
  lemma RingAt(t: Topology, dest: nat, next: map<nat, nat>, v: nat, m: nat, w: nat) returns (ring: seq<nat>)
    requires TopologyOk(t) && Circle(t, dest, next) && v in next && v < t.n && m > 0
    requires Follow(Nexts(t, next), v, m) == v && w in Orbit(Nexts(t, next), v, m)
    ensures FreeRing(t, ring) && t.links[ring[0]].dst == w
    ensures forall x :: OnRing(t, ring, x) ==> x in Orbit(Nexts(t, next), v, m)
  {
    var f := Nexts(t, next);
    var k :| 0 <= k < m && Follow(f, v, k) == w;
    OrbitShift(f, v, m, k);
    OnCircle(t, dest, next, v, k);
    var p := LeastPeriod(f, w, m);
    ring := RingOfNexts(t, dest, next, w, p);
    RingIsFree(t, f, w, ring);
    forall x | OnRing(t, ring, x)
      ensures x in Orbit(f, v, m)
    {
      AlongInOrbit(t, f, v, m, k, ring, x);
    }
  }

  lemma CircleHasWayOut(t: Topology, dest: nat, next: map<nat, nat>)
    returns (ring: seq<nat>, q: nat, way: seq<nat>)
    requires TopologyOk(t) && Circle(t, dest, next)
    ensures RingAndWay(t, dest, ring, q, way)
  {
    var v, m := FindOrbit(t, dest, next);
    var inside := Orbit(Nexts(t, next), v, m);
    OrbitAvoids(t, dest, next, v, m);
    assert FreeNext(t, next, v) && InReach(t, v, dest);
    var path :| Walk(t, v, path, dest) && Cost(t, v, path, dest) < SENTINEL;
    InOrbit(Nexts(t, next), v, m, 0);
    var found: bool;
    found, q, way := LeavesFor(t, inside, v, path, dest);
    ring := RingAt(t, dest, next, v, m, t.links[q].dst);
  }

  /** The topology with the ports of two links into one router exchanged. */
  ghost function Exchanged(t: Topology, a: nat, b: nat): Topology
    requires TopologyOk(t) && a < |t.links| && b < |t.links| && t.links[a].dst == t.links[b].dst
  {
    var u, i, j := t.links[a].dst, t.links[a].port, t.links[b].port;
    Topology(t.n, t.ports[u := t.ports[u][i := t.ports[u][j]][j := t.ports[u][i]]],
      t.links[a := t.links[a].(port := j)][b := t.links[b].(port := i)])
  }

  lemma ExchangedIsSame(t: Topology, a: nat, b: nat)
    requires TopologyOk(t) && a < |t.links| && b < |t.links| && t.links[a].dst == t.links[b].dst && a != b
    ensures Same(t, Exchanged(t, a, b))
  {
    var t' := Exchanged(t, a, b);
    forall l | 0 <= l < |t.links|
      ensures t'.links[l].dst == t.links[l].dst && LinkOk(t', t'.links[l])
      ensures t'.links[l].port == ExchangedPort(t, a, b, l)
    {
    }
    forall l, m | 0 <= l < m < |t.links|
      ensures t'.links[l].dst != t'.links[m].dst || t'.links[l].port != t'.links[m].port
    {
      ExchangedDiffer(t, a, b, l, m);
    }
  }

  ghost function ExchangedPort(t: Topology, a: nat, b: nat, l: nat): nat
    requires a < |t.links| && b < |t.links| && l < |t.links|
  {
    t.links[if l == a then b else if l == b then a else l].port
  }

  lemma ExchangedDiffer(t: Topology, a: nat, b: nat, l: nat, m: nat)
    requires TopologyOk(t) && a < |t.links| && b < |t.links| && t.links[a].dst == t.links[b].dst && a != b
    requires l < m < |t.links|
    ensures t.links[l].dst != t.links[m].dst || ExchangedPort(t, a, b, l) != ExchangedPort(t, a, b, m)
  {
    var x := if l == a then b else if l == b then a else l;
    var y := if m == a then b else if m == b then a else m;
    if t.links[l].dst == t.links[m].dst {
      PortsDiffer(t, x, y);
    }
  }

  lemma SameOnRing(t: Topology, t': Topology, ring: seq<nat>, x: nat)
    requires Same(t, t')
    ensures OnRing(t', ring, x) == OnRing(t, ring, x)
  {
  }

  lemma SameFreeRing(t: Topology, t': Topology, ring: seq<nat>)
    requires Same(t, t') && FreeRing(t, ring)
    ensures FreeRing(t', ring)
  {
    forall i | 0 <= i < |ring|
      ensures t'.links[ring[i]].src == t'.links[After(ring, i)].dst
    {
      assert t.links[ring[i]].src == t.links[After(ring, i)].dst;
      assert After(ring, i) in ring;
    }
  }

  lemma SameClear(t: Topology, t': Topology, ring: seq<nat>, u: nat, way: seq<nat>)
    requires Same(t, t') && ClearOf(t, ring, u, way)
    ensures ClearOf(t', ring, u, way)
  {
    SameOnRing(t, t', ring, u);
    forall j | 0 <= j < |way|
      ensures way[j] < |t'.links| && !OnRing(t', ring, t'.links[way[j]].src)
    {
      SameOnRing(t, t', ring, t.links[way[j]].src);
    }
  }

  lemma SameRing(t: Topology, t': Topology, dest: nat, ring: seq<nat>, q: nat, way: seq<nat>)
    requires Same(t, t') && RingAndWay(t, dest, ring, q, way)
    ensures RingAndWay(t', dest, ring, q, way)
  {
    SameWalk(t, t', t.links[q].src, way, dest);
    SameFreeRing(t, t', ring);
    SameOnRing(t, t', ring, dest);
    SameClear(t, t', ring, t.links[q].src, way);
  }

  lemma CircleMeansTrap(t: Topology, dest: nat) returns (t': Topology)
    requires TopologyOk(t) && HasCircle(t, dest)
    ensures Same(t, t') && HasTrap(t', dest)
  {
    var next :| Circle(t, dest, next);
    var ring, q, way := CircleHasWayOut(t, dest, next);
    assert t.links[ring[0]].src == t.links[After(ring, 0)].dst;
    assert OnRing(t, ring, t.links[ring[0]].src);
    assert q != ring[0];
    if t.links[ring[0]].port < t.links[q].port {
      t' := t;
    } else {
      PortsDiffer(t, ring[0], q);
      t' := Exchanged(t, ring[0], q);
      ExchangedIsSame(t, ring[0], q);
    }
    SameRing(t, t', dest, ring, q, way);
    assert Trap(t', dest, ring, q, way);
  }

  /** Whatever the numbering of the ports. */
  ghost predicate ArrivesUnderAnyPorts(t: Topology, dest: nat) {
    forall t' :: Same(t, t') ==> AlwaysArrives(t', dest)
  }

  /** Packets for dest always arrive under every numbering of the ports if and only if no links of cost 0 form a
      circle from which dest can be reached. */
  lemma LoopFreeUnderAnyPorts(t: Topology, dest: nat)
    requires TopologyOk(t) && dest < t.n
    ensures ArrivesUnderAnyPorts(t, dest) <==> !HasCircle(t, dest)
  {
    if HasCircle(t, dest) {
      var t' := CircleMeansTrap(t, dest);
      LoopFreeExact(t', dest);
    } else {
      forall t' | Same(t, t')
        ensures AlwaysArrives(t', dest)
      {
        if HasTrap(t', dest) {
          TrapMeansCircle(t', dest);
          SameCircle(t', t, dest);
        }
        LoopFreeExact(t', dest);
      }
    }
  }
}
