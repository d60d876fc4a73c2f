/** A trap is sprung: for every network that has one there is a run, without any loss, into a state in which packets
    circle; so a network forwards without loops if and only if it has no trap. */
module TrapRuns {
  import opened Channels
  import opened DistanceVector
  import opened DvNetwork
  import opened DvConvergence
  import opened Forwarding
  import opened Orbits
  import opened Traps
  import opened LoopFreedom

  // ----- Telling one neighbour ----------------------------------------------------------------------

  /** Only the router at the end of link l has changed, and of what it has heard only the port of l. */
  ghost predicate OnlyHeardOver(t: Topology, s: Net, s': Net, l: nat) {
    && Shape(t, s) && Shape(t, s') && l < |t.links|
    && (forall x :: 0 <= x < t.n && x != t.links[l].dst ==> s'.nodes[x] == s.nodes[x])
    && forall i :: 1 <= i < |s.nodes[t.links[l].dst].table| && i != t.links[l].port ==>
         s'.nodes[t.links[l].dst].table[i] == s.nodes[t.links[l].dst].table[i]
  }

  lemma DeliverHeardOver(t: Topology, s: Net, l: nat)
    requires Monotone(t, s) && Enabled(t, s, Deliver(l, 0))
    ensures var s' := Next(t, s, Deliver(l, 0));
      && Monotone(t, s') && OnlyHeardOver(t, s, s', l)
      && s'.queues[l] == s.queues[l][1..] && Stored(t, s', l) == s.queues[l][0]
  {
    MonotoneStep(t, s, Deliver(l, 0));
    assert Without(s.queues[l], 0) == s.queues[l][1..];
  }

  /** Deliver all that is on the way over l. */
  lemma {:induction false} Drain(t: Topology, s: Net, l: nat) returns (acts: seq<Action>)
    requires Monotone(t, s) && l < |t.links|
    ensures Runs(t, s, acts) && Lossless(acts)
    ensures var m := Exec(t, s, acts);
      Monotone(t, m) && OnlyHeardOver(t, s, m, l) && Stored(t, m, l) == LastSent(t, s, l)
    decreases |s.queues[l]|
  {
    if s.queues[l] == [] {
      acts := [];
    } else {
      DeliverHeardOver(t, s, l);
      var s' := Next(t, s, Deliver(l, 0));
      var rest := Drain(t, s', l);
      LosslessFirst(Deliver(l, 0), rest);
      acts := [Deliver(l, 0)] + rest;
      assert LastSent(t, s', l) == LastSent(t, s, l);
    }
  }

  /** Command '0' at the start of l, and all of it delivered: the end of l has heard the vector of the start. */
  lemma Tell(t: Topology, s: Net, l: nat) returns (acts: seq<Action>)
    requires Monotone(t, s) && l < |t.links|
    ensures Runs(t, s, acts) && Lossless(acts)
    ensures var m := Exec(t, s, acts);
      && Monotone(t, m) && OnlyHeardOver(t, s, m, l)
      && Stored(t, m, l) == Own(s, t.links[l].src) == Own(m, t.links[l].src)
  {
    var a := Trigger(t.links[l].src);
    MonotoneStep(t, s, a);
    var s' := Next(t, s, a);
    var rest := Drain(t, s', l);
    LosslessFirst(a, rest);
    acts := [a] + rest;
  }

  lemma LosslessAppend(a: seq<Action>, b: seq<Action>)
    requires Lossless(a) && Lossless(b)
    ensures Lossless(a + b)
  {
  }

  // ----- Along the way out --------------------------------------------------------------------------

  /** Routers off the walk from u are as they were. */
  ghost predicate OffWalkSame(t: Topology, s: Net, s': Net, u: nat, path: seq<nat>) {
    && Shape(t, s) && Shape(t, s')
    && forall x :: 0 <= x < t.n && OffWalk(t, u, path, x) ==> s'.nodes[x] == s.nodes[x]
  }

  ghost predicate OffWalk(t: Topology, u: nat, path: seq<nat>, x: nat) {
    x != u && forall j :: 0 <= j < |path| && path[j] < |t.links| ==> x != t.links[path[j]].src
  }

  /** Tell along a walk, from its end back to u: then u knows the end, at no more than the cost of the walk. */
  lemma {:induction false} TellAlong(t: Topology, s: Net, u: nat, path: seq<nat>, dest: nat) returns (acts: seq<Action>)
    requires Monotone(t, s) && u < t.n && dest < t.n && Walk(t, u, path, dest) && Cost(t, u, path, dest) < SENTINEL
    ensures Runs(t, s, acts) && Lossless(acts)
    ensures var m := Exec(t, s, acts);
      && Monotone(t, m) && 0 <= Own(m, u)[dest] <= Cost(t, u, path, dest) && OffWalkSame(t, s, m, u, path)
    decreases |path|
  {
    if path == [] {
      acts := [];
      OwnEntryIsZero(t, s, dest);
    } else {
      var l := path[0];
      var first := TellAlong(t, s, t.links[l].src, path[1..], dest);
      var m := Exec(t, s, first);
      var second := Tell(t, m, l);
      var m' := Exec(t, m, second);
      RunsAppend(t, s, first, second);
      LosslessAppend(first, second);
      acts := first + second;
      HeardMeansKnown(t, m', l, dest);
      OffLongerWalk(t, s, m, m', path);
    }
  }

  lemma HeardMeansKnown(t: Topology, s: Net, l: nat, dest: nat)
    requires Monotone(t, s) && l < |t.links| && Hop(t, l) >= 0 && dest < t.n
    requires 0 <= Stored(t, s, l)[dest] && Hop(t, l) + Stored(t, s, l)[dest] < SENTINEL
    ensures 0 <= Own(s, t.links[l].dst)[dest] <= Hop(t, l) + Stored(t, s, l)[dest]
  {
    var u := t.links[l].dst;
    if u == dest {
      OwnEntryIsZero(t, s, dest);
    } else {
      assert Tight(t, s.nodes[u], u);
      OfferAtMost(t, s.nodes[u], u, dest, l);
    }
  }

  lemma OffLongerWalk(t: Topology, s: Net, m: Net, m': Net, path: seq<nat>)
    requires path != [] && path[0] < |t.links|
    requires OffWalkSame(t, s, m, t.links[path[0]].src, path[1..]) && OnlyHeardOver(t, m, m', path[0])
    ensures OffWalkSame(t, s, m', t.links[path[0]].dst, path)
  {
    forall x | 0 <= x < t.n && OffWalk(t, t.links[path[0]].dst, path, x)
      ensures m'.nodes[x] == s.nodes[x]
    {
      assert forall j :: 0 <= j < |path[1..]| ==> path[1..][j] == path[j + 1];
      assert OffWalk(t, t.links[path[0]].src, path[1..], x);
    }
  }

  // ----- Around the ring ------------------------------------------------------------------------------

  /** All that a router offers for dest comes at d over port p, or at d over later ports. */
  ghost predicate FirstOffer(node: Node, dest: nat, p: nat, d: int)
    requires WellFormed(node) && dest < VECTOR_SIZE
  {
    && 2 <= p < |node.ports| && 0 <= node.ports[p] && 0 <= node.table[p][dest]
    && node.ports[p] + node.table[p][dest] == d < SENTINEL
    && forall i :: 2 <= i < |node.ports| && i != p && 0 <= node.table[i][dest] && 0 <= node.ports[i] ==>
         p < i && node.ports[i] + node.table[i][dest] == d
  }

  /** Then that is its distance, and the port it picks. */
  lemma FirstOfferPicked(t: Topology, node: Node, u: nat, dest: nat, p: nat, d: int)
    requires TopologyOk(t) && u < t.n && dest < t.n && u != dest && NodeOk(t, node, u)
    requires Tight(t, node, u) && RealNode(t, node, u) && FirstOffer(node, dest, p, d)
    ensures node.table[0][dest] == d && NextHop(node, dest, 2) == p
  {
    MinDistIs(node.ports, node.table, dest, |node.ports|);
    assert Via(node.ports, node.table, p, dest) == d;
    var i := MinDistSource(node.ports, node.table, dest);
    NextHopIs(node, dest, 2);
    RowsReal(t, node, u);
  }

  lemma RowsReal(t: Topology, node: Node, u: nat)
    requires TopologyOk(t) && u < t.n && NodeOk(t, node, u) && RealNode(t, node, u)
    ensures forall i, r :: 2 <= i < |node.table| && 0 <= r < VECTOR_SIZE ==> UNKNOWN <= node.table[i][r]
    ensures forall i :: 0 <= i < |node.ports| ==> UNKNOWN <= node.ports[i]
  {
    forall i, r | 2 <= i < |node.table| && 0 <= r < VECTOR_SIZE
      ensures UNKNOWN <= node.table[i][r]
    {
      if Plugged(t, u, i) {
        var l :| 0 <= l < |t.links| && t.links[l].dst == u && t.links[l].port == i;
      }
    }
  }

  /** Nothing has been heard of dest on any port. */
  ghost predicate Blank(node: Node, dest: nat)
    requires dest < VECTOR_SIZE
  {
    forall i :: 2 <= i < |node.table| ==> node.table[i][dest] == UNKNOWN
  }

  /** The router at the end of l has its distance d over l, and picks it. */
  ghost predicate HasIt(t: Topology, s: Net, dest: nat, d: int, l: nat)
    requires Shape(t, s) && dest < VECTOR_SIZE
  {
    l < |t.links| && Own(s, t.links[l].dst)[dest] == d && NextHop(s.nodes[t.links[l].dst], dest, 2) == t.links[l].port
  }

  /** The first router of the ring has dest at d over q alone. */
  ghost predicate HeadFed(t: Topology, s: Net, dest: nat, q: nat, d: int)
    requires Shape(t, s) && dest < t.n
  {
    && q < |t.links| && Own(s, t.links[q].dst)[dest] == d
    && FirstOffer(s.nodes[t.links[q].dst], dest, t.links[q].port, d)
    && forall k :: 2 <= k < |s.nodes[t.links[q].dst].table| && k != t.links[q].port ==>
         s.nodes[t.links[q].dst].table[k][dest] == UNKNOWN
  }

  /** The i-th router of the ring has heard nothing of dest. */
  ghost predicate StillBlank(t: Topology, s: Net, dest: nat, ring: seq<nat>, i: nat)
    requires Shape(t, s) && dest < t.n && i < |ring|
  {
    ring[i] < |t.links| && Blank(s.nodes[t.links[ring[i]].dst], dest)
  }

  /** A ring to be fed from the link q into its first router. */
  ghost predicate RingInto(t: Topology, dest: nat, ring: seq<nat>, q: nat) {
    && TopologyOk(t) && dest < t.n && FreeRing(t, ring) && !OnRing(t, ring, dest)
    && q < |t.links| && t.links[q].dst == t.links[ring[0]].dst
  }

  /** The ring from its i-th router on knows dest, each router over its link of the ring; the routers before know
      nothing, except the first, which has dest over q. */
  ghost predicate Fed(t: Topology, s: Net, dest: nat, ring: seq<nat>, q: nat, d: int, i: nat)
    requires Shape(t, s) && dest < t.n
  {
    && 1 <= i <= |ring| && 0 <= d < SENTINEL
    && HeadFed(t, s, dest, q, d)
    && (forall j :: 1 <= j < i ==> StillBlank(t, s, dest, ring, j))
    && forall j :: i <= j < |ring| ==> HasIt(t, s, dest, d, ring[j])
  }

  /** The router that the i-th is to hear from has dest at d. */
  lemma FedNext(t: Topology, s: Net, dest: nat, ring: seq<nat>, q: nat, d: int, i: nat)
    requires RingInto(t, dest, ring, q) && Shape(t, s) && Fed(t, s, dest, ring, q, d, i)
    ensures t.links[ring[i - 1]].src < t.n && Own(s, t.links[ring[i - 1]].src)[dest] == d
  {
    assert t.links[ring[i - 1]].src == t.links[After(ring, i - 1)].dst;
    if i < |ring| {
      assert HasIt(t, s, dest, d, ring[i]);
    }
  }

  /** A router that has heard of dest on no other port takes it over l. */
  lemma HearFirst(t: Topology, s: Net, s': Net, dest: nat, l: nat, d: int)
    requires Monotone(t, s') && OnlyHeardOver(t, s, s', l) && dest < t.n && t.links[l].dst != dest
    requires Blank(s.nodes[t.links[l].dst], dest) && Hop(t, l) == 0 && Stored(t, s', l)[dest] == d && 0 <= d < SENTINEL
    ensures HasIt(t, s', dest, d, l)
  {
    var u := t.links[l].dst;
    assert Tight(t, s'.nodes[u], u) && RealNode(t, s'.nodes[u], u);
    FirstOfferPicked(t, s'.nodes[u], u, dest, t.links[l].port, d);
  }

  /** The routers of the ring are different, so the others keep what they have. */
  lemma OthersOnRing(t: Topology, s: Net, s': Net, ring: seq<nat>, i: nat, j: nat)
    requires TopologyOk(t) && FreeRing(t, ring) && i < |ring| && j < |ring| && i != j
    requires OnlyHeardOver(t, s, s', ring[i])
    ensures t.links[ring[j]].dst < t.n && s'.nodes[t.links[ring[j]].dst] == s.nodes[t.links[ring[j]].dst]
  {
  }

  lemma OthersStayFed(t: Topology, s: Net, s': Net, dest: nat, ring: seq<nat>, d: int, i: nat, j: nat)
    requires TopologyOk(t) && dest < t.n && FreeRing(t, ring) && i < |ring| && j < |ring| && i != j
    requires OnlyHeardOver(t, s, s', ring[i])
    ensures StillBlank(t, s, dest, ring, j) ==> StillBlank(t, s', dest, ring, j)
    ensures HasIt(t, s, dest, d, ring[j]) ==> HasIt(t, s', dest, d, ring[j])
  {
    OthersOnRing(t, s, s', ring, i, j);
  }

  lemma HeadStaysFed(t: Topology, s: Net, s': Net, dest: nat, q: nat, l: nat, d: int)
    requires OnlyHeardOver(t, s, s', l) && dest < t.n && HeadFed(t, s, dest, q, d)
    requires t.links[q].dst != t.links[l].dst
    ensures HeadFed(t, s', dest, q, d)
  {
  }

  lemma NotTheFirst(t: Topology, ring: seq<nat>, i: nat)
    requires TopologyOk(t) && FreeRing(t, ring) && 0 < i < |ring|
    ensures t.links[ring[0]].dst != t.links[ring[i]].dst
  {
  }

  lemma BlankStays(t: Topology, s: Net, s': Net, dest: nat, ring: seq<nat>, d: int, i: nat)
    requires TopologyOk(t) && dest < t.n && FreeRing(t, ring) && i < |ring| && OnlyHeardOver(t, s, s', ring[i])
    requires forall j :: 1 <= j < i ==> StillBlank(t, s, dest, ring, j)
    ensures forall j :: 1 <= j < i ==> StillBlank(t, s', dest, ring, j)
  {
    forall j | 1 <= j < i
      ensures StillBlank(t, s', dest, ring, j)
    {
      OthersStayFed(t, s, s', dest, ring, d, i, j);
    }
  }

  lemma FedStays(t: Topology, s: Net, s': Net, dest: nat, ring: seq<nat>, d: int, i: nat)
    requires TopologyOk(t) && dest < t.n && FreeRing(t, ring) && i < |ring| && OnlyHeardOver(t, s, s', ring[i])
    requires forall j :: i < j < |ring| ==> HasIt(t, s, dest, d, ring[j])
    ensures forall j :: i < j < |ring| ==> HasIt(t, s', dest, d, ring[j])
  {
    forall j | i < j < |ring|
      ensures HasIt(t, s', dest, d, ring[j])
    {
      OthersStayFed(t, s, s', dest, ring, d, i, j);
    }
  }

  lemma FeedHears(t: Topology, s: Net, s': Net, dest: nat, ring: seq<nat>, q: nat, d: int, i: nat)
    requires RingInto(t, dest, ring, q) && Shape(t, s) && Fed(t, s, dest, ring, q, d, i) && i > 1
    requires Monotone(t, s')
    requires OnlyHeardOver(t, s, s', ring[i - 1]) && Stored(t, s', ring[i - 1]) == Own(s, t.links[ring[i - 1]].src)
    ensures HasIt(t, s', dest, d, ring[i - 1])
  {
    FedNext(t, s, dest, ring, q, d, i);
    assert StillBlank(t, s, dest, ring, i - 1);
    NotDest(t, ring, dest, i - 1);
    HearFirst(t, s, s', dest, ring[i - 1], d);
  }

  lemma FeedKeeps(t: Topology, s: Net, s': Net, dest: nat, ring: seq<nat>, q: nat, d: int, i: nat)
    requires RingInto(t, dest, ring, q) && Shape(t, s) && Fed(t, s, dest, ring, q, d, i) && i > 1
    requires OnlyHeardOver(t, s, s', ring[i - 1])
    ensures HeadFed(t, s', dest, q, d)
    ensures forall j :: 1 <= j < i - 1 ==> StillBlank(t, s', dest, ring, j)
    ensures forall j :: i <= j < |ring| ==> HasIt(t, s', dest, d, ring[j])
  {
    BlankStays(t, s, s', dest, ring, d, i - 1);
    FedStays(t, s, s', dest, ring, d, i - 1);
    NotTheFirst(t, ring, i - 1);
    HeadStaysFed(t, s, s', dest, q, ring[i - 1], d);
  }

  lemma FeedOne(t: Topology, s: Net, s': Net, dest: nat, ring: seq<nat>, q: nat, d: int, i: nat)
    requires RingInto(t, dest, ring, q) && Shape(t, s) && Fed(t, s, dest, ring, q, d, i) && i > 1
    requires OnlyHeardOver(t, s, s', ring[i - 1]) && HasIt(t, s', dest, d, ring[i - 1])
    ensures Fed(t, s', dest, ring, q, d, i - 1)
  {
    FeedKeeps(t, s, s', dest, ring, q, d, i);
  }

  lemma NotDest(t: Topology, ring: seq<nat>, dest: nat, i: nat)
    requires i < |ring| && ring[i] < |t.links| && !OnRing(t, ring, dest)
    ensures t.links[ring[i]].dst != dest
  {
  }

  lemma {:induction false} Feed(t: Topology, s: Net, dest: nat, ring: seq<nat>, q: nat, d: int, i: nat)
    returns (acts: seq<Action>)
    requires RingInto(t, dest, ring, q) && Monotone(t, s) && Fed(t, s, dest, ring, q, d, i)
    ensures Runs(t, s, acts) && Lossless(acts)
    ensures var m := Exec(t, s, acts); Monotone(t, m) && Fed(t, m, dest, ring, q, d, 1)
    decreases i
  {
    if i == 1 {
      acts := [];
    } else {
      var first := Tell(t, s, ring[i - 1]);
      var m := Exec(t, s, first);
      FeedHears(t, s, m, dest, ring, q, d, i);
      FeedOne(t, s, m, dest, ring, q, d, i);
      var rest := Feed(t, m, dest, ring, q, d, i - 1);
      RunsAppend(t, s, first, rest);
      LosslessAppend(first, rest);
      acts := first + rest;
    }
  }

  /** Every router of the ring picks its link of the ring. */
  ghost predicate Sprung(t: Topology, s: Net, dest: nat, ring: seq<nat>) {
    && Monotone(t, s) && FreeRing(t, ring) && !OnRing(t, ring, dest) && dest < t.n
    && forall j :: 0 <= j < |ring| ==>
         0 <= Own(s, t.links[ring[j]].dst)[dest] && Picks(t, s, t.links[ring[j]].dst, dest, ring[j])
  }

  /** When the first router of the ring hears of it from the second, it prefers the earlier port. */
  lemma HeadTurns(t: Topology, s: Net, s': Net, dest: nat, ring: seq<nat>, q: nat, d: int)
    requires RingInto(t, dest, ring, q) && t.links[ring[0]].port < t.links[q].port
    requires OnlyHeardOver(t, s, s', ring[0]) && HeadFed(t, s, dest, q, d) && Monotone(t, s')
    requires Stored(t, s', ring[0])[dest] == d && 0 <= d < SENTINEL
    ensures HasIt(t, s', dest, d, ring[0])
  {
    var u := t.links[ring[0]].dst;
    assert OnRing(t, ring, u);
    assert Tight(t, s'.nodes[u], u) && RealNode(t, s'.nodes[u], u);
    FirstOfferPicked(t, s'.nodes[u], u, dest, t.links[ring[0]].port, d);
  }

  lemma CloseRing(t: Topology, s: Net, s': Net, dest: nat, ring: seq<nat>, q: nat, d: int)
    requires RingInto(t, dest, ring, q) && Shape(t, s) && Fed(t, s, dest, ring, q, d, 1)
    requires Monotone(t, s') && t.links[ring[0]].port < t.links[q].port
    requires OnlyHeardOver(t, s, s', ring[0]) && Stored(t, s', ring[0]) == Own(s, t.links[ring[0]].src)
    ensures Sprung(t, s', dest, ring)
  {
    FedNext(t, s, dest, ring, q, d, 1);
    HeadTurns(t, s, s', dest, ring, q, d);
    forall j | 0 <= j < |ring|
      ensures HasIt(t, s', dest, d, ring[j])
    {
      if j > 0 {
        OthersStayFed(t, s, s', dest, ring, d, 0, j);
      }
    }
    AllHaveIt(t, s', dest, ring, d);
  }

  lemma AllHaveIt(t: Topology, s: Net, dest: nat, ring: seq<nat>, d: int)
    requires Monotone(t, s) && dest < t.n && FreeRing(t, ring) && !OnRing(t, ring, dest) && 0 <= d
    requires forall j :: 0 <= j < |ring| ==> HasIt(t, s, dest, d, ring[j])
    ensures Sprung(t, s, dest, ring)
  {
    forall j | 0 <= j < |ring|
      ensures 0 <= Own(s, t.links[ring[j]].dst)[dest] && Picks(t, s, t.links[ring[j]].dst, dest, ring[j])
    {
      assert HasIt(t, s, dest, d, ring[j]);
    }
  }

  lemma InitialBlank(t: Topology, x: nat, dest: nat)
    requires TopologyOk(t) && x < t.n && dest < t.n
    ensures Blank(Initial(t).nodes[x], dest)
  {
  }

  /** Off the walk and off q, everything is as it was at the start. */
  lemma BlankAtStart(t: Topology, s: Net, s': Net, dest: nat, ring: seq<nat>, q: nat, way: seq<nat>, x: nat)
    requires TopologyOk(t) && dest < t.n && x < t.n && OnRing(t, ring, x)
    requires q < |t.links| && ClearOf(t, ring, t.links[q].src, way)
    requires OffWalkSame(t, Initial(t), s, t.links[q].src, way) && OnlyHeardOver(t, s, s', q)
    ensures x == t.links[q].dst ==> forall k :: 2 <= k < |s'.nodes[x].table| && k != t.links[q].port ==>
      s'.nodes[x].table[k][dest] == UNKNOWN
    ensures x != t.links[q].dst ==> Blank(s'.nodes[x], dest)
  {
    assert OffWalk(t, t.links[q].src, way, x);
    InitialBlank(t, x, dest);
  }

  lemma HeadStarts(t: Topology, s: Net, dest: nat, q: nat, d: int)
    requires Monotone(t, s) && dest < t.n && q < |t.links| && t.links[q].dst != dest && Hop(t, q) >= 0
    requires 0 <= Stored(t, s, q)[dest] && d == Hop(t, q) + Stored(t, s, q)[dest] < SENTINEL
    requires forall k :: 2 <= k < |s.nodes[t.links[q].dst].table| && k != t.links[q].port ==>
      s.nodes[t.links[q].dst].table[k][dest] == UNKNOWN
    ensures HeadFed(t, s, dest, q, d)
  {
    var u := t.links[q].dst;
    assert Tight(t, s.nodes[u], u) && RealNode(t, s.nodes[u], u);
    FirstOfferPicked(t, s.nodes[u], u, dest, t.links[q].port, d);
  }

  lemma StartFeeding(t: Topology, s: Net, s': Net, dest: nat, ring: seq<nat>, q: nat, way: seq<nat>, d: int)
    requires TopologyOk(t) && dest < t.n && Trap(t, dest, ring, q, way) && Monotone(t, s')
    requires OffWalkSame(t, Initial(t), s, t.links[q].src, way) && OnlyHeardOver(t, s, s', q)
    requires 0 <= Stored(t, s', q)[dest] && d == Hop(t, q) + Stored(t, s', q)[dest] < SENTINEL
    ensures RingInto(t, dest, ring, q) && Fed(t, s', dest, ring, q, d, |ring|)
  {
    var u := t.links[q].dst;
    assert OnRing(t, ring, u) && u != dest;
    BlankAtStart(t, s, s', dest, ring, q, way, u);
    HeadStarts(t, s', dest, q, d);
    forall j | 1 <= j < |ring|
      ensures StillBlank(t, s', dest, ring, j)
    {
      assert OnRing(t, ring, t.links[ring[j]].dst);
      BlankAtStart(t, s, s', dest, ring, q, way, t.links[ring[j]].dst);
    }
  }

  /** Out of every trap there is a lossless run that springs it. */
  lemma Spring(t: Topology, dest: nat, ring: seq<nat>, q: nat, way: seq<nat>) returns (acts: seq<Action>)
    requires TopologyOk(t) && dest < t.n && Trap(t, dest, ring, q, way)
    ensures Runs(t, Initial(t), acts) && Lossless(acts) && Sprung(t, Exec(t, Initial(t), acts), dest, ring)
  {
    MonotoneInitial(t);
    var s0 := Initial(t);
    var a := TellAlong(t, s0, t.links[q].src, way, dest);
    var s1 := Exec(t, s0, a);
    var b := Tell(t, s1, q);
    var s2 := Exec(t, s1, b);
    var d := Hop(t, q) + Stored(t, s2, q)[dest];
    StartFeeding(t, s1, s2, dest, ring, q, way, d);
    var e := SpringFed(t, s2, dest, ring, q, d);
    RunsAppend(t, s1, b, e);
    RunsAppend(t, s0, a, b + e);
    LosslessAppend(b, e);
    LosslessAppend(a, b + e);
    acts := a + (b + e);
  }

  lemma SpringFed(t: Topology, s: Net, dest: nat, ring: seq<nat>, q: nat, d: int) returns (acts: seq<Action>)
    requires RingInto(t, dest, ring, q) && Monotone(t, s) && Fed(t, s, dest, ring, q, d, |ring|)
    requires t.links[ring[0]].port < t.links[q].port
    ensures Runs(t, s, acts) && Lossless(acts) && Sprung(t, Exec(t, s, acts), dest, ring)
  {
    var a := Feed(t, s, dest, ring, q, d, |ring|);
    var m := Exec(t, s, a);
    var b := Tell(t, m, ring[0]);
    CloseRing(t, m, Exec(t, m, b), dest, ring, q, d);
    RunsAppend(t, s, a, b);
    LosslessAppend(a, b);
    acts := a + b;
  }

  // ----- Exactly the networks without a trap ----------------------------------------------------------

  lemma RingHop(t: Topology, s: Net, dest: nat, ring: seq<nat>, u: nat)
    requires Sprung(t, s, dest, ring) && u < t.n && OnRing(t, ring, u)
    ensures OnRing(t, ring, Across(t, s, u, dest))
  {
    var j :| 0 <= j < |ring| && ring[j] < |t.links| && t.links[ring[j]].dst == u;
    assert Picks(t, s, u, dest, ring[j]);
    AcrossIs(t, s, u, dest, ring[j]);
    assert After(ring, j) in ring;
  }

  /** Every journey of at least n hops ends at dest. */
  ghost predicate ArrivesWithin(t: Topology, s: Net, u: nat, dest: nat, n: nat)
    requires Monotone(t, s) && u < t.n && dest < t.n
  {
    forall legs :: Journey(t, s, legs) && |legs| >= n ==> Position(t, s, u, dest, legs) == dest
  }

  ghost predicate Arrives(t: Topology, s: Net, u: nat, dest: nat)
    requires Monotone(t, s) && u < t.n && dest < t.n
  {
    exists n: nat :: ArrivesWithin(t, s, u, dest, n)
  }

  /** Wherever dest is known, packets for it get there. */
  ghost predicate AllArrive(t: Topology, s: Net, dest: nat) {
    && Monotone(t, s) && dest < t.n
    && forall u: nat :: u < t.n && Own(s, u)[dest] != UNKNOWN ==> Arrives(t, s, u, dest)
  }

  /** From every state an order-keeping run reaches. */
  ghost predicate AlwaysArrives(t: Topology, dest: nat)
    requires TopologyOk(t)
  {
    forall past :: Runs(t, Initial(t), past) && AllKeepOrder(past) ==> AllArrive(t, Exec(t, Initial(t), past), dest)
  }

  lemma NoArrival(t: Topology, s: Net, dest: nat, inside: set<nat>, u: nat)
    requires Monotone(t, s) && dest < t.n && Inescapable(t, s, dest, inside) && u in inside
    ensures !Arrives(t, s, u, dest)
  {
    forall n: nat
      ensures !ArrivesWithin(t, s, u, dest, n)
    {
      var legs := seq(n, k => []);
      NeverOut(t, s, dest, inside, u, legs);
    }
  }

  ghost function RingRouters(t: Topology, ring: seq<nat>): (inside: set<nat>) {
    set x | 0 <= x < t.n && OnRing(t, ring, x)
  }

  lemma SprungIsInescapable(t: Topology, s: Net, dest: nat, ring: seq<nat>)
    requires Sprung(t, s, dest, ring)
    ensures Inescapable(t, s, dest, RingRouters(t, ring))
  {
    forall x | x in RingRouters(t, ring)
      ensures Across(t, s, x, dest) in RingRouters(t, ring)
    {
      RingHop(t, s, dest, ring, x);
    }
  }

  lemma SprungNeverArrives(t: Topology, s: Net, dest: nat, ring: seq<nat>)
    requires Sprung(t, s, dest, ring)
    ensures !AllArrive(t, s, dest)
  {
    assert OnRing(t, ring, t.links[ring[0]].dst);
    SprungIsInescapable(t, s, dest, ring);
    NoArrival(t, s, dest, RingRouters(t, ring), t.links[ring[0]].dst);
  }

  lemma TrapMeansLoop(t: Topology, dest: nat)
    requires TopologyOk(t) && dest < t.n && HasTrap(t, dest)
    ensures !AlwaysArrives(t, dest)
  {
    var ring, q, way :| Trap(t, dest, ring, q, way);
    var past := Spring(t, dest, ring, q, way);
    SprungNeverArrives(t, Exec(t, Initial(t), past), dest, ring);
  }

  lemma NoTrapAllArrive(t: Topology, s: Net, dest: nat)
    requires Sound(t, s, dest) && !HasTrap(t, dest)
    ensures AllArrive(t, s, dest)
  {
    forall u: nat | u < t.n && Own(s, u)[dest] != UNKNOWN
      ensures Arrives(t, s, u, dest)
    {
      assert RealNode(t, s.nodes[u], u);
      forall legs | Journey(t, s, legs) && |legs| >= HopBound(t, s, dest, u)
        ensures Position(t, s, u, dest, legs) == dest
      {
        PacketArrives(t, s, u, dest, legs);
      }
      assert ArrivesWithin(t, s, u, dest, HopBound(t, s, dest, u));
    }
  }

  lemma NoTrapMeansNoLoop(t: Topology, dest: nat)
    requires TopologyOk(t) && dest < t.n && !HasTrap(t, dest)
    ensures AlwaysArrives(t, dest)
  {
    forall past | Runs(t, Initial(t), past) && AllKeepOrder(past)
      ensures AllArrive(t, Exec(t, Initial(t), past), dest)
    {
      SoundReached(t, past, dest);
      NoTrapAllArrive(t, Exec(t, Initial(t), past), dest);
    }
  }

  /** The exact condition for forwarding without loops, whatever vectors are exchanged, delayed or lost: packets for
      dest always arrive if and only if the network has no trap for dest. */
  lemma LoopFreeExact(t: Topology, dest: nat)
    requires TopologyOk(t) && dest < t.n
    ensures AlwaysArrives(t, dest) <==> !HasTrap(t, dest)
  {
    if HasTrap(t, dest) {
      TrapMeansLoop(t, dest);
    } else {
      NoTrapMeansNoLoop(t, dest);
    }
  }
}
