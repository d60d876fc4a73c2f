/** Many routers exchanging distance vectors (lab3-router/router.cpp, TYPE_DV and command '0').

    All port values are set before any vector is exchanged; then each router may be told to send its vector, and
    from there on every change of a router's own vector is sent to all its neighbours. Each direction of a
    link is a queue of vectors. */
module DvNetwork {
  import opened Channels
  import opened DistanceVector

  /** Vectors sent by src arrive at dst on this port; the port's value is dst's cost of going to src. */
  datatype Link = Link(src: nat, dst: nat, port: nat)

  datatype Topology = Topology(n: nat, ports: seq<seq<int>>, links: seq<Link>)

  ghost predicate TopologyOk(t: Topology) {
    && t.n == |t.ports| <= VECTOR_SIZE
    && (forall u :: 0 <= u < t.n ==> |t.ports[u]| >= 1)
    && (forall u, i :: 0 <= u < t.n && 0 <= i < |t.ports[u]| ==> UNKNOWN <= t.ports[u][i] < SENTINEL)
    && (forall l :: 0 <= l < |t.links| ==> LinkOk(t, t.links[l]))
    && (forall l, m :: 0 <= l < m < |t.links| ==>
          t.links[l].dst != t.links[m].dst || t.links[l].port != t.links[m].port)
  }

  ghost predicate LinkOk(t: Topology, e: Link)
    requires t.n == |t.ports|
  {
    e.src < t.n && e.dst < t.n && e.src != e.dst && 2 <= e.port < |t.ports[e.dst]|
  }

  datatype Net = Net(nodes: seq<Node>, queues: seq<seq<Vector>>, announced: set<nat>)

  ghost predicate Shape(t: Topology, s: Net) {
    && TopologyOk(t)
    && |s.nodes| == t.n && |s.queues| == |t.links|
    && forall u :: 0 <= u < t.n ==> NodeOk(t, s.nodes[u], u)
  }

  ghost predicate NodeOk(t: Topology, node: Node, u: nat)
    requires u < t.n == |t.ports|
  {
    WellFormed(node) && node.id == u && node.ports == t.ports[u]
  }

  /** The router's own vector. */
  function Own(s: Net, u: nat): Vector
    requires u < |s.nodes| && |s.nodes[u].table| >= 1
  {
    s.nodes[u].table[0]
  }

  /** The vector last received over a link. */
  function Stored(t: Topology, s: Net, l: nat): Vector
    requires l < |t.links| && t.links[l].dst < |s.nodes|
    requires t.links[l].port < |s.nodes[t.links[l].dst].table|
  {
    s.nodes[t.links[l].dst].table[t.links[l].port]
  }

  // ----- Steps ------------------------------------------------------------------------------------

  datatype Action =
    | Trigger(u: nat)           // command '0': send the vector to all neighbours
    | Deliver(l: nat, i: nat)   // the i-th vector queued on a link is received
    | Lose(l: nat, i: nat)
    | Copy(l: nat, i: nat)

  ghost function Initial(t: Topology): Net
    requires TopologyOk(t)
  {
    Net(seq(t.n, u requires 0 <= u < t.n => Fresh(u, |t.ports[u]| - 1).(ports := t.ports[u])),
        seq(|t.links|, l => []), {})
  }

  /** Each router starts as router_init leaves it, followed by one port command per port. */
  lemma InitialIsSetUp(t: Topology, u: nat)
    requires TopologyOk(t) && u < t.n
    ensures Initial(t).nodes[u] == AfterInputs(Fresh(u, |t.ports[u]| - 1), Setup(t.ports[u]))
  {
    SetupReaches(u, t.ports[u]);
  }

  /** Return value 0 of router(): the vector goes out on every link of u. */
  function Broadcast(t: Topology, queues: seq<seq<Vector>>, u: nat, row: Vector): (q: seq<seq<Vector>>)
    requires |queues| == |t.links|
    ensures |q| == |queues|
    ensures forall l :: 0 <= l < |q| ==> q[l] == queues[l] + if t.links[l].src == u then [row] else []
  {
    seq(|queues|, l requires 0 <= l < |queues| =>
      if t.links[l].src == u then queues[l] + [row] else queues[l] + [])
  }

  ghost predicate Enabled(t: Topology, s: Net, a: Action) {
    Shape(t, s) &&
    match a
    case Trigger(u) => u < t.n
    case Deliver(l, i) => l < |s.queues| && i < |s.queues[l]|
    case Lose(l, i) => l < |s.queues| && i < |s.queues[l]|
    case Copy(l, i) => l < |s.queues| && i < |s.queues[l]|
  }

  /** The receiver of a vector recomputes its own and passes it on if it changed. */
  ghost function Received(t: Topology, s: Net, l: nat, i: nat): Net
    requires Shape(t, s) && l < |s.queues| && i < |s.queues[l]|
  {
    var e := t.links[l];
    var node := OnVector(s.nodes[e.dst], t.n, e.port, e.src, s.queues[l][i]);
    var queues := s.queues[l := Without(s.queues[l], i)];
    var nodes := s.nodes[e.dst := node];
    if node.table[0] != Own(s, e.dst)
    then Net(nodes, Broadcast(t, queues, e.dst, node.table[0]), s.announced + {e.dst})
    else Net(nodes, queues, s.announced)
  }

  ghost function Next(t: Topology, s: Net, a: Action): Net
    requires Enabled(t, s, a)
  {
    match a
    case Trigger(u) => s.(queues := Broadcast(t, s.queues, u, Own(s, u)), announced := s.announced + {u})
    case Deliver(l, i) => Received(t, s, l, i)
    case Lose(l, i) => s.(queues := s.queues[l := Without(s.queues[l], i)])
    case Copy(l, i) => s.(queues := s.queues[l := s.queues[l] + [s.queues[l][i]]])
  }

  ghost predicate Runs(t: Topology, s: Net, acts: seq<Action>)
    decreases |acts|
  {
    acts == [] || (Enabled(t, s, acts[0]) && Runs(t, Next(t, s, acts[0]), acts[1..]))
  }

  ghost function Exec(t: Topology, s: Net, acts: seq<Action>): Net
    requires Runs(t, s, acts)
    decreases |acts|
  {
    if acts == [] then s else Exec(t, Next(t, s, acts[0]), acts[1..])
  }

  lemma {:induction false} RunsAppend(t: Topology, s: Net, a: seq<Action>, b: seq<Action>)
    requires Runs(t, s, a) && Runs(t, Exec(t, s, a), b)
    ensures Runs(t, s, a + b) && Exec(t, s, a + b) == Exec(t, Exec(t, s, a), b)
    decreases |a|
  {
    if a == [] {
      assert a + b == b;
    } else {
      assert (a + b)[1..] == a[1..] + b;
      RunsAppend(t, Next(t, s, a[0]), a[1..], b);
    }
  }

  lemma NextShape(t: Topology, s: Net, a: Action)
    requires Enabled(t, s, a)
    ensures Shape(t, Next(t, s, a))
  {
  }

  lemma InitialShape(t: Topology)
    requires TopologyOk(t)
    ensures Shape(t, Initial(t))
  {
  }

  // ----- Walks ------------------------------------------------------------------------------------

  function Hop(t: Topology, l: nat): int
    requires TopologyOk(t) && l < |t.links|
  {
    t.ports[t.links[l].dst][t.links[l].port]
  }

  /** A sequence of links leading from u to r, each over a port that is up. */
  ghost predicate Walk(t: Topology, u: nat, path: seq<nat>, r: nat)
    requires TopologyOk(t)
    decreases |path|
  {
    if path == [] then u == r
    else (
      && path[0] < |t.links| && t.links[path[0]].dst == u && Hop(t, path[0]) >= 0
      && Walk(t, t.links[path[0]].src, path[1..], r))
  }

  ghost function Cost(t: Topology, u: nat, path: seq<nat>, r: nat): (c: nat)
    requires TopologyOk(t) && Walk(t, u, path, r)
    decreases |path|
  {
    if path == [] then 0 else Hop(t, path[0]) + Cost(t, t.links[path[0]].src, path[1..], r)
  }

  ghost predicate HasWalk(t: Topology, u: nat, r: nat, d: int)
    requires TopologyOk(t)
  {
    exists path :: Walk(t, u, path, r) && Cost(t, u, path, r) == d
  }

  lemma ExtendWalk(t: Topology, l: nat, r: nat, d: int)
    requires TopologyOk(t) && l < |t.links| && Hop(t, l) >= 0
    requires HasWalk(t, t.links[l].src, r, d)
    ensures HasWalk(t, t.links[l].dst, r, Hop(t, l) + d)
  {
    var path :| Walk(t, t.links[l].src, path, r) && Cost(t, t.links[l].src, path, r) == d;
    var longer := [l] + path;
    assert longer[1..] == path;
    assert Walk(t, t.links[l].dst, longer, r);
  }

  // ----- Every known distance is real ---------------------------------------------------------------

  /** Entries of a vector of u are unknown or the cost of a walk, and always below SENTINEL. */
  ghost predicate RealVector(t: Topology, u: nat, row: Vector)
    requires TopologyOk(t)
  {
    forall r :: 0 <= r < VECTOR_SIZE ==>
      UNKNOWN <= row[r] < SENTINEL && (row[r] >= 0 ==> HasWalk(t, u, r, row[r]))
  }

  ghost predicate Plugged(t: Topology, u: nat, i: nat) {
    exists l :: 0 <= l < |t.links| && t.links[l].dst == u && t.links[l].port == i
  }

  ghost predicate RealNode(t: Topology, node: Node, u: nat)
    requires TopologyOk(t) && u < t.n && NodeOk(t, node, u)
  {
    && RealVector(t, u, node.table[0])
    && (forall l :: 0 <= l < |t.links| && t.links[l].dst == u ==>
          RealVector(t, t.links[l].src, node.table[t.links[l].port]))
    && (forall i :: 2 <= i < |node.table| && !Plugged(t, u, i) ==> node.table[i] == BlankVector())
  }

  ghost predicate Real(t: Topology, s: Net)
  {
    && Shape(t, s)
    && (forall u :: 0 <= u < t.n ==> RealNode(t, s.nodes[u], u))
    && (forall l, j :: 0 <= l < |t.links| && 0 <= j < |s.queues[l]| ==>
          RealVector(t, t.links[l].src, s.queues[l][j]))
  }

  /** A recomputed entry is again unknown or real. */
  lemma RealEntry(t: Topology, node: Node, u: nat, r: nat)
    requires TopologyOk(t) && u < t.n && NodeOk(t, node, u) && RealNode(t, node, u) && r < VECTOR_SIZE
    ensures var d := Entry(node.ports, node.table, r);
      UNKNOWN <= d < SENTINEL && (d >= 0 ==> HasWalk(t, u, r, d))
  {
    MinDistIs(node.ports, node.table, r, |node.ports|);
    if MinDist(node.ports, node.table, r, |node.ports|) < SENTINEL {
      var i := MinDistSource(node.ports, node.table, r);
      assert Plugged(t, u, i);
      var l :| 0 <= l < |t.links| && t.links[l].dst == u && t.links[l].port == i;
      ExtendWalk(t, l, r, node.table[i][r]);
    }
  }

  lemma RealOnVector(t: Topology, node: Node, l: nat, row: Vector)
    requires TopologyOk(t) && l < |t.links| && RealVector(t, t.links[l].src, row)
    requires var u := t.links[l].dst; NodeOk(t, node, u) && RealNode(t, node, u)
    ensures var e := t.links[l]; RealNode(t, OnVector(node, t.n, e.port, e.src, row), e.dst)
  {
    var e := t.links[l];
    var mid := node.(table := node.table[e.port := row]);
    assert RealNode(t, mid, e.dst);
    forall r | 0 <= r < VECTOR_SIZE
      ensures var d := Entry(mid.ports, mid.table, r);
        UNKNOWN <= d < SENTINEL && (d >= 0 ==> HasWalk(t, e.dst, r, d))
    {
      RealEntry(t, mid, e.dst, r);
    }
  }

  lemma RealStep(t: Topology, s: Net, a: Action)
    requires Real(t, s) && Enabled(t, s, a)
    ensures Real(t, Next(t, s, a))
  {
    NextShape(t, s, a);
    if a.Deliver? {
      RealOnVector(t, s.nodes[t.links[a.l].dst], a.l, s.queues[a.l][a.i]);
    }
  }

  lemma RealInitial(t: Topology)
    requires TopologyOk(t)
    ensures Real(t, Initial(t))
  {
    InitialShape(t);
    forall u | 0 <= u < t.n
      ensures RealNode(t, Initial(t).nodes[u], u)
    {
      assert Walk(t, u, [], u) && Cost(t, u, [], u) == 0;
      assert HasWalk(t, u, u, 0);
    }
  }

  lemma {:induction false} RealRun(t: Topology, s: Net, acts: seq<Action>)
    requires Real(t, s) && Runs(t, s, acts)
    ensures Real(t, Exec(t, s, acts))
    decreases |acts|
  {
    if acts != [] {
      RealStep(t, s, acts[0]);
      RealRun(t, Next(t, s, acts[0]), acts[1..]);
    }
  }

  /** In every run, with vectors lost, copied and reordered at will: each known entry, in a table or on the
      wire, is the cost of an actual walk, and every sum the program forms fits a 32-bit int. */
  lemma EveryDistanceIsReal(t: Topology, acts: seq<Action>)
    requires TopologyOk(t) && Runs(t, Initial(t), acts)
    ensures Real(t, Exec(t, Initial(t), acts))
    ensures var s := Exec(t, Initial(t), acts);
      forall u, i, r :: 0 <= u < t.n && 2 <= i < |s.nodes[u].table| && 0 <= r < VECTOR_SIZE ==>
        s.nodes[u].ports[i] + s.nodes[u].table[i][r] < 0x8000_0000
  {
    RealInitial(t);
    RealRun(t, Initial(t), acts);
    var s := Exec(t, Initial(t), acts);
    forall u, i, r | 0 <= u < t.n && 2 <= i < |s.nodes[u].table| && 0 <= r < VECTOR_SIZE
      ensures s.nodes[u].ports[i] + s.nodes[u].table[i][r] < 0x8000_0000
    {
      if Plugged(t, u, i) {
        var l :| 0 <= l < |t.links| && t.links[l].dst == u && t.links[l].port == i;
      }
    }
  }
}
