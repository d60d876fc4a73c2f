/** A small network whose trap is sprung even at rest. */
module ZeroCost {
  import opened DistanceVector
  import opened DvNetwork
  import opened DvConvergence
  import opened Forwarding

  /** Routers 0 and 1 are joined at cost 0, and both reach router 2 at cost 1. */
  const TRIANGLE: Topology := Topology(3, [[0, -1, 0, 1], [0, -1, 0, 1], [0, -1, 1, 1]],
    [Link(1, 0, 2), Link(2, 0, 3), Link(0, 1, 2), Link(2, 1, 3), Link(0, 2, 2), Link(1, 2, 3)])

  lemma TrianglePorts(u: nat, i: nat)
    requires u < 3 && i < 4
    ensures |TRIANGLE.ports[u]| == 4 && -1 <= TRIANGLE.ports[u][i] <= 1
  {
  }

  lemma TriangleLinks(l: nat, m: nat)
    requires l < m < 6
    ensures TRIANGLE.links[l].dst != TRIANGLE.links[m].dst || TRIANGLE.links[l].port != TRIANGLE.links[m].port
  {
  }

  lemma TriangleOk()
    ensures TopologyOk(TRIANGLE)
  {
    forall u, i | 0 <= u < 3 && 0 <= i < |TRIANGLE.ports[u]|
      ensures UNKNOWN <= TRIANGLE.ports[u][i] < SENTINEL
    {
      TrianglePorts(u, i);
    }
    forall l, m | 0 <= l < m < 6
      ensures TRIANGLE.links[l].dst != TRIANGLE.links[m].dst || TRIANGLE.links[l].port != TRIANGLE.links[m].port
    {
      TriangleLinks(l, m);
    }
  }

  lemma {:induction false} TriangleCost(u: nat, path: seq<nat>)
    requires TopologyOk(TRIANGLE) && u < 2 && Walk(TRIANGLE, u, path, 2)
    ensures Cost(TRIANGLE, u, path, 2) >= 1
    decreases |path|
  {
    if TRIANGLE.links[path[0]].src < 2 {
      TriangleCost(TRIANGLE.links[path[0]].src, path[1..]);
    } else {
      assert Hop(TRIANGLE, path[0]) == 1;
    }
  }

  lemma TriangleDistance(u: nat, d: int)
    requires TopologyOk(TRIANGLE) && u < 2 && ShortestDistance(TRIANGLE, u, 2, d)
    ensures d == 1
  {
    var l := if u == 0 then 1 else 3;
    assert [l][1..] == [];
    assert Walk(TRIANGLE, 2, [], 2) && Walk(TRIANGLE, u, [l], 2) && Cost(TRIANGLE, u, [l], 2) == 1;
    var path :| Walk(TRIANGLE, u, path, 2) && Cost(TRIANGLE, u, path, 2) == d;
    TriangleCost(u, path);
  }

  /** Each of the two believes the other to be on a shortest way. */
  ghost predicate Mutual(s: Net) {
    && Shape(TRIANGLE, s) && Own(s, 0)[2] == 1 == Own(s, 1)[2]
    && NextHop(s.nodes[0], 2, 2) == 2 == NextHop(s.nodes[1], 2, 2)
  }

  lemma TriangleAcross(s: Net, u: nat)
    requires Mutual(s) && u < 2
    ensures Across(TRIANGLE, s, u, 2) == 1 - u
  {
    var l := if u == 0 then 0 else 2;
    assert TRIANGLE.links[l] == Link(1 - u, u, 2);
    assert NextHop(s.nodes[u], 2, 2) == 2;
    AcrossIs(TRIANGLE, s, u, 2, l);
  }

  lemma TriangleInescapable(s: Net)
    requires Mutual(s)
    ensures Inescapable(TRIANGLE, s, 2, {0, 1})
  {
    TriangleAcross(s, 0);
    TriangleAcross(s, 1);
  }

  /** Port 2 leads to the other of the two, and is the first the search looks at. */
  lemma TrianglePort(node: Node)
    requires WellFormed(node) && node.ports == TRIANGLE.ports[0]
    requires node.table[2][2] == 1 == node.table[0][2]
    ensures NextHop(node, 2, 2) == 2
  {
  }

  lemma TriangleMutual(s: Net)
    requires Monotone(TRIANGLE, s) && Synced(TRIANGLE, s) && Quiescent(TRIANGLE, s)
    ensures Mutual(s)
  {
    RestMeansShortest(TRIANGLE, s, 0, 2);
    TriangleDistance(0, Own(s, 0)[2]);
    RestMeansShortest(TRIANGLE, s, 1, 2);
    TriangleDistance(1, Own(s, 1)[2]);
    TriangleHeard(s);
    TrianglePort(s.nodes[0]);
    TrianglePort(s.nodes[1]);
  }

  lemma TriangleHeard(s: Net)
    requires Synced(TRIANGLE, s) && Quiescent(TRIANGLE, s)
    ensures s.nodes[0].table[2] == Own(s, 1) && s.nodes[1].table[2] == Own(s, 0)
  {
    assert LastSent(TRIANGLE, s, 0) == Own(s, 1) && LastSent(TRIANGLE, s, 2) == Own(s, 0);
  }

  /** While no vectors are exchanged, no number of hops brings a packet for dest there from u. */
  ghost predicate NeverAt(t: Topology, s: Net, u: nat, dest: nat)
    requires Monotone(t, s) && u < t.n && dest < t.n
  {
    forall legs :: (forall k :: 0 <= k < |legs| ==> legs[k] == []) ==>
      Journey(t, s, legs) && Position(t, s, u, dest, legs) != dest
  }

  lemma NeverArrives(t: Topology, s: Net, inside: set<nat>, u: nat, dest: nat)
    requires Monotone(t, s) && dest < t.n && Inescapable(t, s, dest, inside) && u in inside
    ensures u < t.n && NeverAt(t, s, u, dest)
  {
    forall legs: seq<seq<Action>> | forall k :: 0 <= k < |legs| ==> legs[k] == []
      ensures Journey(t, s, legs) && Position(t, s, u, dest, legs) != dest
    {
      NeverOut(t, s, dest, inside, u, legs);
    }
  }

  lemma ComesToRest(t: Topology) returns (past: seq<Action>)
    requires TopologyOk(t)
    ensures Runs(t, Initial(t), past) && AllKeepOrder(past)
    ensures var s := Exec(t, Initial(t), past); Monotone(t, s) && Synced(t, s) && Quiescent(t, s)
  {
    MonotoneInitial(t);
    past := SpeakAndSettle(t, Initial(t), 0);
    MonotoneRun(t, Initial(t), past);
    SyncedRun(t, Initial(t), past);
  }

  /** With a cost of 0, packets can circle for ever, even in a network at rest: router 0 knows router 2 at distance 1,
      yet no number of hops brings a packet there. */
  lemma ZeroCostLoops() returns (past: seq<Action>, s: Net)
    ensures TopologyOk(TRIANGLE) && Runs(TRIANGLE, Initial(TRIANGLE), past) && AllKeepOrder(past)
    ensures s == Exec(TRIANGLE, Initial(TRIANGLE), past)
    ensures Monotone(TRIANGLE, s) && Quiescent(TRIANGLE, s) && Own(s, 0)[2] == 1 && NeverAt(TRIANGLE, s, 0, 2)
  {
    TriangleOk();
    past := ComesToRest(TRIANGLE);
    s := Exec(TRIANGLE, Initial(TRIANGLE), past);
    TriangleMutual(s);
    TriangleInescapable(s);
    NeverArrives(TRIANGLE, s, {0, 1}, 0, 2);
  }
}
