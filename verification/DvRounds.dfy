/** The same exchange in lock step: in each round every router sends its vector to all its neighbours and then
    processes all vectors received, in any order. This is Bellman-Ford, one more link per round. */
module DvRounds {
  import opened DistanceVector
  import opened DvNetwork
  import opened DvConvergence
  import opened Orbits

  ghost predicate NodesOk(t: Topology, nodes: seq<Node>) {
    && TopologyOk(t) && |nodes| == t.n
    && forall u :: 0 <= u < t.n ==> NodeOk(t, nodes[u], u)
  }

  ghost function OwnVectors(t: Topology, nodes: seq<Node>): (rows: seq<Vector>)
    requires NodesOk(t, nodes)
    ensures |rows| == t.n && forall u :: 0 <= u < t.n ==> rows[u] == nodes[u].table[0]
  {
    seq(t.n, u requires 0 <= u < t.n => nodes[u].table[0])
  }

  /** The far end of link l processes the vector its neighbour sent at the start of the round. */
  ghost function ReceiveOver(t: Topology, nodes: seq<Node>, rows: seq<Vector>, l: nat): (after: seq<Node>)
    requires NodesOk(t, nodes) && |rows| == t.n && l < |t.links|
    ensures NodesOk(t, after)
  {
    var e := t.links[l];
    nodes[e.dst := OnVector(nodes[e.dst], t.n, e.port, e.src, rows[e.src])]
  }

  ghost predicate LinksOnly(t: Topology, order: seq<nat>) {
    forall i :: 0 <= i < |order| ==> order[i] < |t.links|
  }

  ghost function ReceiveAll(t: Topology, nodes: seq<Node>, rows: seq<Vector>, order: seq<nat>): (after: seq<Node>)
    requires NodesOk(t, nodes) && |rows| == t.n && LinksOnly(t, order)
    ensures NodesOk(t, after)
    decreases |order|
  {
    if order == [] then nodes
    else ReceiveAll(t, ReceiveOver(t, nodes, rows, order[0]), rows, order[1..])
  }

  /** Every link is served in the round, in whatever order. */
  ghost predicate ServesAll(t: Topology, order: seq<nat>) {
    && LinksOnly(t, order)
    && forall l :: 0 <= l < |t.links| ==> l in order
  }

  ghost predicate Rounds(t: Topology, orders: seq<seq<nat>>) {
    forall k :: 0 <= k < |orders| ==> ServesAll(t, orders[k])
  }

  ghost function AfterRounds(t: Topology, orders: seq<seq<nat>>): (nodes: seq<Node>)
    requires TopologyOk(t) && Rounds(t, orders)
    ensures NodesOk(t, nodes)
    decreases |orders|
  {
    if orders == [] then
      InitialShape(t);
      Initial(t).nodes
    else
      var last := |orders| - 1;
      assert ServesAll(t, orders[last]);
      var before := AfterRounds(t, orders[..last]);
      ReceiveAll(t, before, OwnVectors(t, before), orders[last])
  }

  // ----- Within a round -----------------------------------------------------------------------------

  /** One router in the middle of a round it began with the vector `begun`. */
  ghost predicate MidNode(t: Topology, node: Node, u: nat, begun: Vector)
    requires TopologyOk(t) && u < t.n && NodeOk(t, node, u)
  {
    Tight(t, node, u) && RealNode(t, node, u) && NoWorse(node.table[0], begun)
  }

  /** Part of a round: links in `served` carry the new vectors, the others still hold the old. */
  ghost predicate Midway(t: Topology, nodes: seq<Node>, before: seq<Vector>, now: seq<Vector>, served: set<nat>) {
    && NodesOk(t, nodes) && |before| == |now| == t.n
    && (forall u :: 0 <= u < t.n ==> NoWorse(now[u], before[u]) && RealVector(t, u, now[u]))
    && (forall u :: 0 <= u < t.n ==> MidNode(t, nodes[u], u, now[u]))
    && forall l :: 0 <= l < |t.links| ==>
         Heard(t, nodes, l) == if l in served then now[t.links[l].src] else before[t.links[l].src]
  }

  ghost function Heard(t: Topology, nodes: seq<Node>, l: nat): Vector
    requires NodesOk(t, nodes) && l < |t.links|
  {
    nodes[t.links[l].dst].table[t.links[l].port]
  }

  lemma MidNodeStep(t: Topology, node: Node, l: nat, begun: Vector, row: Vector)
    requires TopologyOk(t) && l < |t.links|
    requires var u := t.links[l].dst; NodeOk(t, node, u) && MidNode(t, node, u, begun)
    requires RealVector(t, t.links[l].src, row) && NoWorse(row, node.table[t.links[l].port])
    ensures var e := t.links[l]; var after := OnVector(node, t.n, e.port, e.src, row);
      && NodeOk(t, after, e.dst) && MidNode(t, after, e.dst, begun) && after.table[e.port] == row
      && forall i :: 1 <= i < |node.table| && i != e.port ==> after.table[i] == node.table[i]
  {
    var e := t.links[l];
    RealOnVector(t, node, l, row);
    OnVectorImproves(t, node, e.dst, e.port, e.src, row);
    NoWorseTrans(OnVector(node, t.n, e.port, e.src, row).table[0], node.table[0], begun);
  }

  /** Serving a link changes what is heard over that link only. */
  lemma HeardAfter(t: Topology, nodes: seq<Node>, now: seq<Vector>, l: nat, m: nat)
    requires NodesOk(t, nodes) && |now| == t.n && l < |t.links| && m < |t.links|
    ensures Heard(t, ReceiveOver(t, nodes, now, l), m) == if m == l then now[t.links[l].src] else Heard(t, nodes, m)
  {
  }

  lemma MidwayStep(t: Topology, nodes: seq<Node>, before: seq<Vector>, now: seq<Vector>, served: set<nat>, l: nat)
    requires Midway(t, nodes, before, now, served) && l < |t.links|
    ensures Midway(t, ReceiveOver(t, nodes, now, l), before, now, served + {l})
  {
    var e, after := t.links[l], ReceiveOver(t, nodes, now, l);
    forall m | 0 <= m < |t.links|
      ensures Heard(t, after, m) == if m in served + {l} then now[t.links[m].src] else before[t.links[m].src]
    {
      HeardAfter(t, nodes, now, l, m);
    }
    MidwayNodes(t, nodes, before, now, served, l);
  }

  lemma MidwayNodes(t: Topology, nodes: seq<Node>, before: seq<Vector>, now: seq<Vector>, served: set<nat>, l: nat)
    requires Midway(t, nodes, before, now, served) && l < |t.links|
    ensures forall u :: 0 <= u < t.n ==> MidNode(t, ReceiveOver(t, nodes, now, l)[u], u, now[u])
  {
    var e := t.links[l];
    assert MidNode(t, nodes[e.dst], e.dst, now[e.dst]);
    assert Heard(t, nodes, l) == if l in served then now[e.src] else before[e.src];
    MidNodeStep(t, nodes[e.dst], l, now[e.dst], now[e.src]);
    forall u | 0 <= u < t.n
      ensures MidNode(t, ReceiveOver(t, nodes, now, l)[u], u, now[u])
    {
      assert MidNode(t, nodes[u], u, now[u]);
    }
  }

  ghost function Elements(order: seq<nat>): set<nat> {
    if order == [] then {} else {order[0]} + Elements(order[1..])
  }

  lemma ElementsFirst(served: set<nat>, order: seq<nat>)
    requires order != []
    ensures (served + {order[0]}) + Elements(order[1..]) == served + Elements(order)
  {
  }

  lemma {:induction false} InElements(order: seq<nat>, l: nat)
    requires l in order
    ensures l in Elements(order)
  {
    if order[0] != l {
      InElements(order[1..], l);
    }
  }

  lemma {:induction false} MidwayAll(t: Topology, nodes: seq<Node>, before: seq<Vector>, now: seq<Vector>,
                                     served: set<nat>, order: seq<nat>)
    requires Midway(t, nodes, before, now, served) && LinksOnly(t, order)
    ensures Midway(t, ReceiveAll(t, nodes, now, order), before, now, served + Elements(order))
    decreases |order|
  {
    if order == [] {
      assert served + Elements(order) == served;
    } else {
      MidwayStep(t, nodes, before, now, served, order[0]);
      MidwayAll(t, ReceiveOver(t, nodes, now, order[0]), before, now, served + {order[0]}, order[1..]);
      ElementsFirst(served, order);
    }
  }

  /** Between rounds: every port holds the neighbour's vector of the round before. */
  ghost predicate Between(t: Topology, nodes: seq<Node>, prev: seq<Vector>) {
    Midway(t, nodes, prev, prev, {})
  }

  lemma Begin(t: Topology, nodes: seq<Node>, prev: seq<Vector>)
    requires Between(t, nodes, prev)
    ensures Midway(t, nodes, prev, OwnVectors(t, nodes), {})
  {
    forall u | 0 <= u < t.n
      ensures NoWorse(nodes[u].table[0], prev[u]) && RealVector(t, u, nodes[u].table[0])
      ensures MidNode(t, nodes[u], u, nodes[u].table[0])
    {
      assert MidNode(t, nodes[u], u, prev[u]);
    }
  }

  lemma RoundKeeps(t: Topology, nodes: seq<Node>, prev: seq<Vector>, order: seq<nat>)
    requires Between(t, nodes, prev) && ServesAll(t, order)
    ensures Between(t, ReceiveAll(t, nodes, OwnVectors(t, nodes), order), OwnVectors(t, nodes))
  {
    var rows := OwnVectors(t, nodes);
    Begin(t, nodes, prev);
    MidwayAll(t, nodes, prev, rows, {}, order);
    var after := ReceiveAll(t, nodes, rows, order);
    forall l | 0 <= l < |t.links|
      ensures Heard(t, after, l) == rows[t.links[l].src]
    {
      InElements(order, l);
    }
  }

  lemma MidNodeInitial(t: Topology, u: nat)
    requires TopologyOk(t) && u < t.n
    ensures NodeOk(t, Initial(t).nodes[u], u) && MidNode(t, Initial(t).nodes[u], u, BlankVector())
  {
    MonotoneInitial(t);
    assert Tight(t, Initial(t).nodes[u], u) && RealNode(t, Initial(t).nodes[u], u);
  }

  lemma HeardInitial(t: Topology, l: nat)
    requires TopologyOk(t) && l < |t.links|
    ensures NodesOk(t, Initial(t).nodes) && Heard(t, Initial(t).nodes, l) == BlankVector()
  {
    InitialShape(t);
  }

  lemma BetweenInitial(t: Topology)
    requires TopologyOk(t)
    ensures Between(t, Initial(t).nodes, seq(t.n, u => BlankVector()))
  {
    var nodes, blank := Initial(t).nodes, seq(t.n, u => BlankVector());
    InitialShape(t);
    forall u | 0 <= u < t.n
      ensures MidNode(t, nodes[u], u, blank[u])
    {
      MidNodeInitial(t, u);
    }
    forall l | 0 <= l < |t.links|
      ensures Heard(t, nodes, l) == blank[t.links[l].src]
    {
      HeardInitial(t, l);
    }
  }

  // ----- After k rounds: the best walk of at most k links -----------------------------------------------

  ghost predicate HasShortWalk(t: Topology, u: nat, r: nat, k: nat, d: int)
    requires TopologyOk(t)
  {
    exists path :: Walk(t, u, path, r) && |path| <= k && Cost(t, u, path, r) == d
  }

  ghost predicate BestWithin(t: Topology, u: nat, r: nat, k: nat, d: int)
    requires TopologyOk(t)
  {
    && (d == UNKNOWN || (0 <= d < SENTINEL && HasShortWalk(t, u, r, k, d)))
    && forall path :: Walk(t, u, path, r) && |path| <= k && Cost(t, u, path, r) < SENTINEL ==>
         0 <= d <= Cost(t, u, path, r)
  }

  ghost predicate AllBestWithin(t: Topology, rows: seq<Vector>, k: nat)
    requires TopologyOk(t) && |rows| == t.n
  {
    forall u, r :: 0 <= u < t.n && 0 <= r < t.n ==> BestWithin(t, u, r, k, rows[u][r])
  }

  lemma ExtendShortWalk(t: Topology, l: nat, r: nat, k: nat, d: int)
    requires TopologyOk(t) && l < |t.links| && Hop(t, l) >= 0
    requires HasShortWalk(t, t.links[l].src, r, k, d)
    ensures HasShortWalk(t, t.links[l].dst, r, k + 1, Hop(t, l) + d)
  {
    var path :| Walk(t, t.links[l].src, path, r) && |path| <= k && Cost(t, t.links[l].src, path, r) == d;
    var longer := [l] + path;
    assert longer[1..] == path;
    assert Walk(t, t.links[l].dst, longer, r);
  }

  lemma BestHas(t: Topology, rows: seq<Vector>, v: nat, r: nat, k: nat)
    requires TopologyOk(t) && |rows| == t.n && v < t.n && r < t.n
    requires AllBestWithin(t, rows, k) && rows[v][r] != UNKNOWN
    ensures HasShortWalk(t, v, r, k, rows[v][r])
  {
    assert BestWithin(t, v, r, k, rows[v][r]);
  }

  lemma OfferHasWalk(t: Topology, node: Node, prev: seq<Vector>, u: nat, r: nat, k: nat)
    requires TopologyOk(t) && |prev| == t.n && u < t.n && r < t.n && NodeOk(t, node, u) && RealNode(t, node, u)
    requires AllBestWithin(t, prev, k) && OfferTo(node, r) != UNKNOWN
    requires forall l :: 0 <= l < |t.links| && t.links[l].dst == u ==>
               node.table[t.links[l].port] == prev[t.links[l].src]
    ensures HasShortWalk(t, u, r, k + 1, OfferTo(node, r))
  {
    var l := OfferSource(t, node, u, r);
    var v := t.links[l].src;
    BestHas(t, prev, v, r, k);
    ExtendShortWalk(t, l, r, k, prev[v][r]);
  }

  lemma BestUse(t: Topology, u: nat, r: nat, k: nat, d: int, path: seq<nat>)
    requires TopologyOk(t) && BestWithin(t, u, r, k, d)
    requires Walk(t, u, path, r) && |path| <= k && Cost(t, u, path, r) < SENTINEL
    ensures 0 <= d <= Cost(t, u, path, r)
  {
  }

  lemma OfferIsBest(t: Topology, nodes: seq<Node>, prev: seq<Vector>, u: nat, r: nat, k: nat, path: seq<nat>)
    requires Between(t, nodes, prev) && AllBestWithin(t, prev, k) && u < t.n && r < t.n
    requires Walk(t, u, path, r) && |path| <= k + 1 && Cost(t, u, path, r) < SENTINEL
    ensures 0 <= nodes[u].table[0][r] <= Cost(t, u, path, r)
  {
    assert MidNode(t, nodes[u], u, prev[u]);
    if u != r {
      var l, v := path[0], t.links[path[0]].src;
      assert Cost(t, u, path, r) == Hop(t, l) + Cost(t, v, path[1..], r);
      assert BestWithin(t, v, r, k, prev[v][r]);
      BestUse(t, v, r, k, prev[v][r], path[1..]);
      assert Heard(t, nodes, l) == prev[v];
      OfferAtMost(t, nodes[u], u, r, l);
    }
  }

  lemma EmptyWalk(t: Topology, u: nat, k: nat)
    requires TopologyOk(t)
    ensures HasShortWalk(t, u, u, k, 0)
  {
    assert Walk(t, u, [], u) && Cost(t, u, [], u) == 0;
  }

  lemma EntryHasWalk(t: Topology, nodes: seq<Node>, prev: seq<Vector>, u: nat, r: nat, k: nat)
    requires Between(t, nodes, prev) && AllBestWithin(t, prev, k) && u < t.n && r < t.n
    ensures var d := nodes[u].table[0][r];
      d == UNKNOWN || (0 <= d < SENTINEL && HasShortWalk(t, u, r, k + 1, d))
  {
    assert MidNode(t, nodes[u], u, prev[u]);
    if u == r {
      EmptyWalk(t, u, k + 1);
    } else if nodes[u].table[0][r] != UNKNOWN {
      assert forall l :: 0 <= l < |t.links| && t.links[l].dst == u ==> Heard(t, nodes, l) == prev[t.links[l].src];
      OfferHasWalk(t, nodes[u], prev, u, r, k);
    }
  }

  lemma OneMoreLink(t: Topology, nodes: seq<Node>, prev: seq<Vector>, k: nat)
    requires Between(t, nodes, prev) && AllBestWithin(t, prev, k)
    ensures AllBestWithin(t, OwnVectors(t, nodes), k + 1)
  {
    forall u, r | 0 <= u < t.n && 0 <= r < t.n
      ensures BestWithin(t, u, r, k + 1, nodes[u].table[0][r])
    {
      EntryHasWalk(t, nodes, prev, u, r, k);
      forall path | Walk(t, u, path, r) && |path| <= k + 1 && Cost(t, u, path, r) < SENTINEL
        ensures 0 <= nodes[u].table[0][r] <= Cost(t, u, path, r)
      {
        OfferIsBest(t, nodes, prev, u, r, k, path);
      }
    }
  }

  lemma {:induction false} RoundsBetween(t: Topology, orders: seq<seq<nat>>) returns (prev: seq<Vector>)
    requires TopologyOk(t) && Rounds(t, orders)
    ensures Between(t, AfterRounds(t, orders), prev)
    ensures AllBestWithin(t, OwnVectors(t, AfterRounds(t, orders)), |orders|)
    decreases |orders|
  {
    if orders == [] {
      prev := seq(t.n, u => BlankVector());
      BetweenInitial(t);
      ZeroLinks(t);
    } else {
      var last := |orders| - 1;
      assert ServesAll(t, orders[last]);
      var before := AfterRounds(t, orders[..last]);
      var older := RoundsBetween(t, orders[..last]);
      prev := OwnVectors(t, before);
      RoundKeeps(t, before, older, orders[last]);
      OneMoreLink(t, AfterRounds(t, orders), prev, last);
    }
  }

  lemma ZeroLinks(t: Topology)
    requires TopologyOk(t)
    ensures NodesOk(t, Initial(t).nodes) && AllBestWithin(t, OwnVectors(t, Initial(t).nodes), 0)
  {
    InitialShape(t);
    forall u, r | 0 <= u < t.n && 0 <= r < t.n
      ensures BestWithin(t, u, r, 0, Initial(t).nodes[u].table[0][r])
    {
      assert Walk(t, u, [], u) && Cost(t, u, [], u) == 0;
      assert HasShortWalk(t, u, u, 0, 0);
    }
  }

  // ----- n - 1 rounds are enough ----------------------------------------------------------------------

  /** The router a walk has reached after i links. */
  ghost function Visits(t: Topology, u: nat, path: seq<nat>, r: nat, i: nat): (v: nat)
    requires TopologyOk(t) && Walk(t, u, path, r) && i <= |path| && u < t.n
    ensures v < t.n
    decreases i
  {
    if i == 0 then u else Visits(t, t.links[path[0]].src, path[1..], r, i - 1)
  }

  lemma {:induction false} WalkSplit(t: Topology, u: nat, path: seq<nat>, r: nat, i: nat)
    requires TopologyOk(t) && Walk(t, u, path, r) && i <= |path| && u < t.n
    ensures var v := Visits(t, u, path, r, i);
      && Walk(t, u, path[..i], v) && Walk(t, v, path[i..], r)
      && Cost(t, u, path, r) == Cost(t, u, path[..i], v) + Cost(t, v, path[i..], r)
    decreases i
  {
    if i == 0 {
      assert path[..0] == [] && path[0..] == path;
    } else {
      WalkSplit(t, t.links[path[0]].src, path[1..], r, i - 1);
      assert path[..i][1..] == path[1..][..i - 1];
      assert path[i..] == path[1..][i - 1..];
    }
  }

  lemma {:induction false} WalkJoin(t: Topology, u: nat, a: seq<nat>, v: nat, b: seq<nat>, r: nat)
    requires TopologyOk(t) && Walk(t, u, a, v) && Walk(t, v, b, r)
    ensures Walk(t, u, a + b, r) && Cost(t, u, a + b, r) == Cost(t, u, a, v) + Cost(t, v, b, r)
    decreases |a|
  {
    if a == [] {
      assert a + b == b;
    } else {
      assert (a + b)[1..] == a[1..] + b;
      WalkJoin(t, t.links[a[0]].src, a[1..], v, b, r);
    }
  }

  /** A walk with at least n links revisits a router, and cutting the loop out costs nothing more. */
  lemma CutLoop(t: Topology, u: nat, path: seq<nat>, r: nat) returns (shorter: seq<nat>)
    requires TopologyOk(t) && Walk(t, u, path, r) && u < t.n && |path| >= t.n
    ensures Walk(t, u, shorter, r) && |shorter| < |path| && Cost(t, u, shorter, r) <= Cost(t, u, path, r)
  {
    var visited := seq(|path| + 1, i requires 0 <= i <= |path| => Visits(t, u, path, r, i));
    var i, j := Pigeonhole(visited, t.n);
    var v := visited[i];
    WalkSplit(t, u, path, r, i);
    WalkSplit(t, u, path, r, j);
    WalkPrefixCost(t, u, path, r, i, j);
    WalkJoin(t, u, path[..i], v, path[j..], r);
    shorter := path[..i] + path[j..];
  }

  lemma WalkPrefixCost(t: Topology, u: nat, path: seq<nat>, r: nat, i: nat, j: nat)
    requires TopologyOk(t) && Walk(t, u, path, r) && u < t.n && i <= j <= |path|
    ensures var v, w := Visits(t, u, path, r, i), Visits(t, u, path, r, j);
      && Walk(t, u, path[..i], v) && Walk(t, u, path[..j], w)
      && Cost(t, u, path[..i], v) <= Cost(t, u, path[..j], w)
    decreases i
  {
    WalkSplit(t, u, path, r, i);
    WalkSplit(t, u, path, r, j);
    if i > 0 {
      WalkPrefixCost(t, t.links[path[0]].src, path[1..], r, i - 1, j - 1);
      assert path[..i][1..] == path[1..][..i - 1];
      assert path[..j][1..] == path[1..][..j - 1];
    }
  }

  lemma {:induction false} ShortenWalk(t: Topology, u: nat, path: seq<nat>, r: nat) returns (short: seq<nat>)
    requires TopologyOk(t) && Walk(t, u, path, r) && u < t.n
    ensures Walk(t, u, short, r) && |short| < t.n && Cost(t, u, short, r) <= Cost(t, u, path, r)
    decreases |path|
  {
    if |path| < t.n {
      short := path;
    } else {
      var cut := CutLoop(t, u, path, r);
      short := ShortenWalk(t, u, cut, r);
    }
  }

  /** The best walk of at most n - 1 links is the best of all. */
  lemma BestIsShortest(t: Topology, u: nat, r: nat, k: nat, d: int)
    requires TopologyOk(t) && u < t.n && k >= t.n - 1 && BestWithin(t, u, r, k, d)
    ensures ShortestDistance(t, u, r, d)
  {
    if d != UNKNOWN {
      var path :| Walk(t, u, path, r) && |path| <= k && Cost(t, u, path, r) == d;
      assert HasWalk(t, u, r, d);
    }
    forall path | Walk(t, u, path, r) && Cost(t, u, path, r) < SENTINEL
      ensures 0 <= d <= Cost(t, u, path, r)
    {
      var short := ShortenWalk(t, u, path, r);
      BestUse(t, u, r, k, d, short);
    }
  }

  /** After k rounds each router's own vector holds the least costs of walks of at most k links, whatever the
      order inside the rounds; after n - 1 rounds these are the shortest distances. */
  lemma BellmanFord(t: Topology, orders: seq<seq<nat>>, u: nat, r: nat)
    requires TopologyOk(t) && Rounds(t, orders) && u < t.n && r < t.n
    ensures BestWithin(t, u, r, |orders|, AfterRounds(t, orders)[u].table[0][r])
    ensures |orders| >= t.n - 1 ==> ShortestDistance(t, u, r, AfterRounds(t, orders)[u].table[0][r])
  {
    var prev := RoundsBetween(t, orders);
    var d := OwnVectors(t, AfterRounds(t, orders))[u][r];
    assert BestWithin(t, u, r, |orders|, d);
    if |orders| >= t.n - 1 {
      BestIsShortest(t, u, r, |orders|, d);
    }
  }
}
