/** What the exchange of distance vectors achieves when links keep order: known distances only improve, every
    run dies out, and what is left are the shortest paths. */
module DvConvergence {
  import opened Channels
  import opened DistanceVector
  import opened DvNetwork

  // ----- Vectors only improve ---------------------------------------------------------------------

  /** b knows all that a knows, at no greater distance. */
  ghost predicate NoWorse(b: Vector, a: Vector) {
    forall r :: 0 <= r < VECTOR_SIZE && a[r] >= 0 ==> 0 <= b[r] <= a[r]
  }

  /** Row 0 is exactly what the other rows offer. */
  ghost predicate Tight(t: Topology, node: Node, u: nat)
    requires TopologyOk(t) && u < t.n && NodeOk(t, node, u)
  {
    && node.table[0][u] == 0
    && forall r :: 0 <= r < VECTOR_SIZE && r != u ==>
         node.table[0][r] == if r < t.n then OfferTo(node, r) else UNKNOWN
  }

  ghost function OfferTo(node: Node, r: nat): int
    requires WellFormed(node) && r < VECTOR_SIZE
  {
    var m := MinDist(node.ports, node.table, r, |node.ports|);
    if m == SENTINEL then UNKNOWN else m
  }

  /** From the vector stored at the far end, over those on the way, to the sender's own. */
  ghost function Stream(t: Topology, s: Net, l: nat): seq<Vector>
    requires Shape(t, s) && l < |t.links|
  {
    [Stored(t, s, l)] + s.queues[l] + [Own(s, t.links[l].src)]
  }

  ghost predicate Improving(rows: seq<Vector>) {
    forall j, k :: 0 <= j <= k < |rows| ==> NoWorse(rows[k], rows[j])
  }

  ghost predicate Monotone(t: Topology, s: Net) {
    && Real(t, s)
    && (forall u :: 0 <= u < t.n ==> Tight(t, s.nodes[u], u))
    && (forall l :: 0 <= l < |t.links| ==> Improving(Stream(t, s, l)))
  }

  /** Links keep order: the oldest vector is delivered, none is copied. Vectors may still be lost. */
  ghost predicate KeepsOrder(a: Action) {
    !a.Copy? && (a.Deliver? ==> a.i == 0)
  }

  lemma MinDistImproves(ports: seq<int>, before: seq<Vector>, after: seq<Vector>, r: nat)
    requires |ports| == |before| == |after| && r < VECTOR_SIZE
    requires forall i :: 2 <= i < |ports| ==> NoWorse(after[i], before[i])
    ensures MinDist(ports, after, r, |ports|) <= MinDist(ports, before, r, |ports|)
  {
    MinDistIs(ports, before, r, |ports|);
    MinDistIs(ports, after, r, |ports|);
    if MinDist(ports, before, r, |ports|) < SENTINEL {
      var i := MinDistSource(ports, before, r);
      assert Via(ports, after, i, r) <= Via(ports, before, i, r);
    }
  }

  /** Receiving a better vector leaves the router tight and its own vector no worse. */
  lemma OnVectorImproves(t: Topology, node: Node, u: nat, port: nat, src: nat, row: Vector)
    requires TopologyOk(t) && u < t.n && NodeOk(t, node, u) && Tight(t, node, u)
    requires RealVector(t, u, node.table[0])
    requires 2 <= port < |node.ports| && NoWorse(row, node.table[port])
    ensures var after := OnVector(node, t.n, port, src, row);
      && NodeOk(t, after, u) && Tight(t, after, u) && NoWorse(after.table[0], node.table[0])
      && after.table[port] == row
      && forall i :: 1 <= i < |node.table| && i != port ==> after.table[i] == node.table[i]
  {
    var after := OnVector(node, t.n, port, src, row);
    var mid := node.table[port := row];
    forall r | 0 <= r < VECTOR_SIZE && r != u && r < t.n
      ensures after.table[0][r] == OfferTo(after, r)
      ensures node.table[0][r] >= 0 ==> 0 <= after.table[0][r] <= node.table[0][r]
    {
      MinDistRowZero(node.ports, mid, after.table[0], r, |node.ports|);
      MinDistImproves(node.ports, node.table, mid, r);
      MinDistNonNegative(node.ports, mid, r);
      MinDistIs(node.ports, node.table, r, |node.ports|);
    }
  }

  /** What a router is offered for r comes over one of its links. */
  lemma OfferSource(t: Topology, node: Node, u: nat, r: nat) returns (l: nat)
    requires TopologyOk(t) && u < t.n && NodeOk(t, node, u) && RealNode(t, node, u) && r < VECTOR_SIZE
    requires OfferTo(node, r) != UNKNOWN
    ensures l < |t.links| && t.links[l].dst == u && Hop(t, l) >= 0
    ensures var d := node.table[t.links[l].port][r]; 0 <= d && OfferTo(node, r) == Hop(t, l) + d < SENTINEL
  {
    MinDistIs(node.ports, node.table, r, |node.ports|);
    var i := MinDistSource(node.ports, node.table, r);
    assert Plugged(t, u, i);
    l :| 0 <= l < |t.links| && t.links[l].dst == u && t.links[l].port == i;
  }

  /** And it is no more than any of them offers. */
  lemma OfferAtMost(t: Topology, node: Node, u: nat, r: nat, l: nat)
    requires TopologyOk(t) && u < t.n && NodeOk(t, node, u) && r < VECTOR_SIZE
    requires l < |t.links| && t.links[l].dst == u && Hop(t, l) >= 0
    requires var d := node.table[t.links[l].port][r]; 0 <= d && Hop(t, l) + d < SENTINEL
    ensures 0 <= OfferTo(node, r) <= Hop(t, l) + node.table[t.links[l].port][r]
  {
    MinDistIs(node.ports, node.table, r, |node.ports|);
    MinDistNonNegative(node.ports, node.table, r);
    assert Via(node.ports, node.table, t.links[l].port, r) == Hop(t, l) + node.table[t.links[l].port][r];
  }

  lemma MinDistNonNegative(ports: seq<int>, table: seq<Vector>, r: nat)
    requires |ports| == |table| && r < VECTOR_SIZE
    ensures 0 <= MinDist(ports, table, r, |ports|) <= SENTINEL
  {
    MinDistIs(ports, table, r, |ports|);
    if MinDist(ports, table, r, |ports|) < SENTINEL {
      var i := MinDistSource(ports, table, r);
    }
  }

  lemma NoWorseTrans(c: Vector, b: Vector, a: Vector)
    requires NoWorse(c, b) && NoWorse(b, a)
    ensures NoWorse(c, a)
  {
  }

  lemma ImprovingAppend(rows: seq<Vector>, own: Vector)
    requires rows != [] && Improving(rows) && NoWorse(own, rows[|rows| - 1])
    ensures Improving(rows + [own])
  {
    forall j | 0 <= j < |rows|
      ensures NoWorse(own, rows[j])
    {
      NoWorseTrans(own, rows[|rows| - 1], rows[j]);
    }
  }

  lemma ImprovingSkip(rows: seq<Vector>, i: nat)
    requires Improving(rows) && i < |rows|
    ensures Improving(rows[..i] + rows[i + 1..])
  {
    var less := rows[..i] + rows[i + 1..];
    forall j, k | 0 <= j <= k < |less|
      ensures NoWorse(less[k], less[j])
    {
      assert less[j] == rows[if j < i then j else j + 1];
      assert less[k] == rows[if k < i then k else k + 1];
    }
  }

  lemma FreshTight(t: Topology, u: nat)
    requires TopologyOk(t) && u < t.n
    ensures NodeOk(t, Initial(t).nodes[u], u) && Tight(t, Initial(t).nodes[u], u)
  {
    var node := Initial(t).nodes[u];
    forall r | 0 <= r < VECTOR_SIZE && r != u
      ensures OfferTo(node, r) == UNKNOWN
    {
      MinDistIs(node.ports, node.table, r, |node.ports|);
    }
  }

  lemma MonotoneInitial(t: Topology)
    requires TopologyOk(t)
    ensures Monotone(t, Initial(t))
  {
    RealInitial(t);
    var s := Initial(t);
    forall u | 0 <= u < t.n
      ensures Tight(t, s.nodes[u], u)
    {
      FreshTight(t, u);
    }
    forall l | 0 <= l < |t.links|
      ensures Improving(Stream(t, s, l))
    {
      assert Stored(t, s, l) == BlankVector();
    }
  }

  lemma MonotoneDeliver(t: Topology, s: Net, l: nat)
    requires Monotone(t, s) && Enabled(t, s, Deliver(l, 0))
    ensures Monotone(t, Next(t, s, Deliver(l, 0)))
    ensures forall u :: 0 <= u < t.n ==> NoWorse(Own(Next(t, s, Deliver(l, 0)), u), Own(s, u))
  {
    var e, s' := t.links[l], Next(t, s, Deliver(l, 0));
    RealStep(t, s, Deliver(l, 0));
    var before := Stream(t, s, l);
    assert before[1] == s.queues[l][0] && before[0] == Stored(t, s, l);
    OnVectorImproves(t, s.nodes[e.dst], e.dst, e.port, e.src, s.queues[l][0]);
    forall m | 0 <= m < |t.links|
      ensures Improving(Stream(t, s', m))
    {
      StreamImproves(t, s, l, m);
    }
  }

  /** The end of a stream is replaced by a better vector, sent and owned. */
  lemma ImprovingAtEnd(rows: seq<Vector>, own: Vector)
    requires rows != [] && Improving(rows) && NoWorse(own, rows[|rows| - 1])
    ensures Improving(rows[..|rows| - 1] + [own, own])
  {
    var last := |rows| - 1;
    ImprovingAppend(rows, own);
    ImprovingSkip(rows + [own], last);
    var mid := (rows + [own])[..last] + (rows + [own])[last + 1..];
    ImprovingAppend(mid, own);
    assert rows[..last] + [own, own] == mid + [own];
  }

  /** Each stream of the new state is a stream of the old one, shortened at the front or lengthened by
      better vectors at the back. */
  lemma StreamAfterDeliver(t: Topology, s: Net, l: nat, m: nat)
    requires Enabled(t, s, Deliver(l, 0)) && m < |t.links| && Shape(t, Next(t, s, Deliver(l, 0)))
    ensures var u := t.links[l].dst; var s' := Next(t, s, Deliver(l, 0));
      var before, after := Stream(t, s, m), Stream(t, s', m);
      if m == l then after == before[..0] + before[0 + 1..]
      else if t.links[m].src == u && Own(s', u) != Own(s, u)
      then after == before[..|before| - 1] + [Own(s', u), Own(s', u)]
      else after == before
  {
  }

  lemma StreamImproves(t: Topology, s: Net, l: nat, m: nat)
    requires Monotone(t, s) && Enabled(t, s, Deliver(l, 0)) && m < |t.links|
    requires Shape(t, Next(t, s, Deliver(l, 0)))
    requires NoWorse(Own(Next(t, s, Deliver(l, 0)), t.links[l].dst), Own(s, t.links[l].dst))
    ensures Improving(Stream(t, Next(t, s, Deliver(l, 0)), m))
  {
    var before := Stream(t, s, m);
    StreamAfterDeliver(t, s, l, m);
    ImprovingSkip(before, 0);
    if t.links[m].src == t.links[l].dst {
      ImprovingAtEnd(before, Own(Next(t, s, Deliver(l, 0)), t.links[l].dst));
    }
  }

  lemma StreamAfterTrigger(t: Topology, s: Net, u: nat, m: nat)
    requires Monotone(t, s) && Enabled(t, s, Trigger(u)) && m < |t.links| && Shape(t, Next(t, s, Trigger(u)))
    ensures Improving(Stream(t, Next(t, s, Trigger(u)), m))
  {
    var before, after := Stream(t, s, m), Stream(t, Next(t, s, Trigger(u)), m);
    if t.links[m].src == u {
      ImprovingAppend(before, Own(s, u));
      assert after == before + [Own(s, u)];
    } else {
      assert after == before;
    }
  }

  lemma StreamAfterLoss(t: Topology, s: Net, l: nat, i: nat, m: nat)
    requires Monotone(t, s) && Enabled(t, s, Lose(l, i)) && m < |t.links| && Shape(t, Next(t, s, Lose(l, i)))
    ensures Improving(Stream(t, Next(t, s, Lose(l, i)), m))
  {
    var before, after := Stream(t, s, m), Stream(t, Next(t, s, Lose(l, i)), m);
    if l == m {
      ImprovingSkip(before, i + 1);
      assert after == before[..i + 1] + before[i + 1 + 1..];
    } else {
      assert after == before;
    }
  }

  lemma MonotoneStep(t: Topology, s: Net, a: Action)
    requires Monotone(t, s) && Enabled(t, s, a) && KeepsOrder(a)
    ensures Monotone(t, Next(t, s, a))
    ensures forall u :: 0 <= u < t.n ==> NoWorse(Own(Next(t, s, a), u), Own(s, u))
  {
    RealStep(t, s, a);
    match a
    case Deliver(l, _) => MonotoneDeliver(t, s, l);
    case Trigger(u) =>
      forall m | 0 <= m < |t.links|
        ensures Improving(Stream(t, Next(t, s, a), m))
      {
        StreamAfterTrigger(t, s, u, m);
      }
    case Lose(l, i) =>
      forall m | 0 <= m < |t.links|
        ensures Improving(Stream(t, Next(t, s, a), m))
      {
        StreamAfterLoss(t, s, l, i, m);
      }
  }

  ghost predicate AllKeepOrder(acts: seq<Action>) {
    forall i :: 0 <= i < |acts| ==> KeepsOrder(acts[i])
  }

  lemma {:induction false} MonotoneRun(t: Topology, s: Net, acts: seq<Action>)
    requires Monotone(t, s) && Runs(t, s, acts) && AllKeepOrder(acts)
    ensures Monotone(t, Exec(t, s, acts))
    ensures forall u :: 0 <= u < t.n ==> NoWorse(Own(Exec(t, s, acts), u), Own(s, u))
    decreases |acts|
  {
    if acts != [] {
      var m := Next(t, s, acts[0]);
      MonotoneStep(t, s, acts[0]);
      assert AllKeepOrder(acts[1..]);
      MonotoneRun(t, m, acts[1..]);
      forall u | 0 <= u < t.n
        ensures NoWorse(Own(Exec(t, s, acts), u), Own(s, u))
      {
        NoWorseTrans(Own(Exec(t, s, acts), u), Own(m, u), Own(s, u));
      }
    }
  }

  // ----- Quiescence means shortest paths ------------------------------------------------------------

  ghost predicate Lossless(acts: seq<Action>) {
    forall i :: 0 <= i < |acts| ==> KeepsOrder(acts[i]) && !acts[i].Lose?
  }

  /** The last vector a neighbour has been sent over a link, received or not. */
  ghost function LastSent(t: Topology, s: Net, l: nat): Vector
    requires Shape(t, s) && l < |t.links|
  {
    if s.queues[l] == [] then Stored(t, s, l) else s.queues[l][|s.queues[l]| - 1]
  }

  /** Every change was sent on: once a router has spoken, each neighbour has or will get its vector. */
  ghost predicate Synced(t: Topology, s: Net) {
    && Shape(t, s)
    && forall l :: 0 <= l < |t.links| && t.links[l].src in s.announced ==>
         LastSent(t, s, l) == Own(s, t.links[l].src)
  }

  lemma SyncedDeliver(t: Topology, s: Net, l: nat, m: nat)
    requires Synced(t, s) && Enabled(t, s, Deliver(l, 0)) && m < |t.links|
    requires Shape(t, Next(t, s, Deliver(l, 0)))
    ensures var s' := Next(t, s, Deliver(l, 0));
      t.links[m].src in s'.announced ==> LastSent(t, s', m) == Own(s', t.links[m].src)
  {
    var e, s' := t.links[l], Next(t, s, Deliver(l, 0));
    if m == l {
      assert LastSent(t, s', l) == LastSent(t, s, l);
    } else {
      assert Stored(t, s', m) == Stored(t, s, m);
    }
  }

  lemma SyncedStep(t: Topology, s: Net, a: Action)
    requires Synced(t, s) && Enabled(t, s, a) && KeepsOrder(a) && !a.Lose?
    ensures Synced(t, Next(t, s, a))
  {
    NextShape(t, s, a);
    if a.Deliver? {
      forall m | 0 <= m < |t.links| && t.links[m].src in Next(t, s, a).announced
        ensures LastSent(t, Next(t, s, a), m) == Own(Next(t, s, a), t.links[m].src)
      {
        SyncedDeliver(t, s, a.l, m);
      }
    }
  }

  lemma {:induction false} SyncedRun(t: Topology, s: Net, acts: seq<Action>)
    requires Synced(t, s) && Runs(t, s, acts) && Lossless(acts)
    ensures Synced(t, Exec(t, s, acts))
    decreases |acts|
  {
    if acts != [] {
      SyncedStep(t, s, acts[0]);
      assert Lossless(acts[1..]);
      SyncedRun(t, Next(t, s, acts[0]), acts[1..]);
    }
  }

  /** Nothing in flight, and every router has sent its vector at least once. */
  ghost predicate Quiescent(t: Topology, s: Net) {
    && (forall l :: 0 <= l < |s.queues| ==> s.queues[l] == [])
    && (forall u :: 0 <= u < t.n ==> u in s.announced)
  }

  /** d is the least cost of a walk from u to r if that is below SENTINEL, and otherwise UNKNOWN. */
  ghost predicate ShortestDistance(t: Topology, u: nat, r: nat, d: int)
    requires TopologyOk(t)
  {
    && (d == UNKNOWN || (0 <= d < SENTINEL && HasWalk(t, u, r, d)))
    && forall path :: Walk(t, u, path, r) && Cost(t, u, path, r) < SENTINEL ==> 0 <= d <= Cost(t, u, path, r)
  }

  lemma {:induction false} WalkBound(t: Topology, s: Net, u: nat, path: seq<nat>, r: nat)
    requires Monotone(t, s) && u < t.n && r < t.n
    requires forall l :: 0 <= l < |t.links| ==> Stored(t, s, l) == Own(s, t.links[l].src)
    requires Walk(t, u, path, r) && Cost(t, u, path, r) < SENTINEL
    ensures 0 <= Own(s, u)[r] <= Cost(t, u, path, r)
    decreases |path|
  {
    assert Tight(t, s.nodes[u], u);
    if path != [] && u != r {
      var l := path[0];
      WalkBound(t, s, t.links[l].src, path[1..], r);
      assert Stored(t, s, l)[r] == Own(s, t.links[l].src)[r];
      OfferAtMost(t, s.nodes[u], u, r, l);
    }
  }

  /** Forgetting who has spoken changes nothing else. */
  lemma MonotoneForgets(t: Topology, s: Net)
    requires Monotone(t, s)
    ensures Monotone(t, s.(announced := {})) && Synced(t, s.(announced := {}))
  {
    forall l | 0 <= l < |t.links|
      ensures Improving(Stream(t, s.(announced := {}), l))
    {
      assert Stream(t, s.(announced := {}), l) == Stream(t, s, l);
    }
  }

  lemma RestMeansShortest(t: Topology, s: Net, u: nat, r: nat)
    requires Monotone(t, s) && Synced(t, s) && Quiescent(t, s) && u < t.n && r < t.n
    ensures ShortestDistance(t, u, r, Own(s, u)[r])
  {
    assert RealNode(t, s.nodes[u], u);
    assert forall l :: 0 <= l < |t.links| ==> Stored(t, s, l) == LastSent(t, s, l);
    forall path | Walk(t, u, path, r) && Cost(t, u, path, r) < SENTINEL
      ensures 0 <= Own(s, u)[r] <= Cost(t, u, path, r)
    {
      WalkBound(t, s, u, path, r);
    }
  }

  /** Command '0' repairs what links have lost: whatever vectors went missing in the past, once every router has
      spoken again over links that no longer lose, and nothing is in flight, every router's own vector holds
      exactly the shortest distances. */
  lemma ShortestAfterLosses(t: Topology, past: seq<Action>, acts: seq<Action>, u: nat, r: nat)
    requires TopologyOk(t) && Runs(t, Initial(t), past) && AllKeepOrder(past) && u < t.n && r < t.n
    requires var s := Exec(t, Initial(t), past).(announced := {});
      Runs(t, s, acts) && Lossless(acts) && Quiescent(t, Exec(t, s, acts))
    ensures var s := Exec(t, Exec(t, Initial(t), past).(announced := {}), acts);
      Shape(t, s) && ShortestDistance(t, u, r, Own(s, u)[r])
  {
    MonotoneInitial(t);
    MonotoneRun(t, Initial(t), past);
    MonotoneForgets(t, Exec(t, Initial(t), past));
    var s := Exec(t, Initial(t), past).(announced := {});
    MonotoneRun(t, s, acts);
    SyncedRun(t, s, acts);
    RestMeansShortest(t, Exec(t, s, acts), u, r);
  }

  /** In every run over links that neither lose nor reorder, once every router has spoken and nothing is in
      flight, every router's own vector holds exactly the shortest distances. */
  lemma QuiescentMeansShortest(t: Topology, acts: seq<Action>, u: nat, r: nat)
    requires TopologyOk(t) && Runs(t, Initial(t), acts) && Lossless(acts) && u < t.n && r < t.n
    requires Quiescent(t, Exec(t, Initial(t), acts))
    ensures var s := Exec(t, Initial(t), acts); Shape(t, s) && ShortestDistance(t, u, r, Own(s, u)[r])
  {
    assert Initial(t).(announced := {}) == Initial(t);
    ShortestAfterLosses(t, [], acts, u, r);
  }

  // ----- Every run dies out -------------------------------------------------------------------------

  function RowWeight(row: Vector, k: nat): int
    requires k <= VECTOR_SIZE
  {
    if k == 0 then 0 else RowWeight(row, k - 1) + if row[k - 1] < 0 then SENTINEL else row[k - 1]
  }

  function NetWeight(s: Net, k: nat): int
    requires k <= |s.nodes| && forall u :: 0 <= u < k ==> |s.nodes[u].table| >= 1
  {
    if k == 0 then 0 else NetWeight(s, k - 1) + RowWeight(Own(s, k - 1), VECTOR_SIZE)
  }

  function InFlight(queues: seq<seq<Vector>>, k: nat): nat
    requires k <= |queues|
  {
    if k == 0 then 0 else InFlight(queues, k - 1) + |queues[k - 1]|
  }

  /** w times k + 1. */
  function Scaled(w: int, k: nat): nat
    decreases w
  {
    if w <= 0 then 0 else Scaled(w - 1, k) + k + 1
  }

  /** Each improvement of a vector is worth more than the messages it sends out. */
  ghost function Measure(t: Topology, s: Net): nat
    requires Shape(t, s)
  {
    Scaled(NetWeight(s, t.n), |t.links|) + InFlight(s.queues, |s.queues|)
  }

  lemma {:induction false} RowWeightImproves(b: Vector, a: Vector, k: nat)
    requires k <= VECTOR_SIZE && NoWorse(b, a)
    requires forall r :: 0 <= r < VECTOR_SIZE ==> UNKNOWN <= a[r] && UNKNOWN <= b[r] < SENTINEL
    ensures 0 <= RowWeight(b, k) <= RowWeight(a, k)
    ensures (exists r :: 0 <= r < k && a[r] != b[r]) ==> RowWeight(b, k) < RowWeight(a, k)
  {
    if k > 0 {
      RowWeightImproves(b, a, k - 1);
    }
  }

  lemma OwnWeightImproves(t: Topology, s: Net, s': Net, u: nat)
    requires Real(t, s) && Real(t, s') && u < t.n && NoWorse(Own(s', u), Own(s, u))
    ensures 0 <= RowWeight(Own(s', u), VECTOR_SIZE) <= RowWeight(Own(s, u), VECTOR_SIZE)
    ensures Own(s', u) != Own(s, u) ==> RowWeight(Own(s', u), VECTOR_SIZE) < RowWeight(Own(s, u), VECTOR_SIZE)
  {
    assert RealNode(t, s.nodes[u], u) && RealNode(t, s'.nodes[u], u);
    var b, a := Own(s', u), Own(s, u);
    RowWeightImproves(b, a, VECTOR_SIZE);
    if a != b {
      var r :| 0 <= r < VECTOR_SIZE && a[r] != b[r];
    }
  }

  lemma {:induction false} NetWeightImproves(t: Topology, s: Net, s': Net, k: nat)
    requires Real(t, s) && Real(t, s') && k <= t.n
    requires forall u :: 0 <= u < t.n ==> NoWorse(Own(s', u), Own(s, u))
    ensures 0 <= NetWeight(s', k) <= NetWeight(s, k)
    ensures (exists u :: 0 <= u < k && Own(s', u) != Own(s, u)) ==> NetWeight(s', k) < NetWeight(s, k)
  {
    if k > 0 {
      NetWeightImproves(t, s, s', k - 1);
      OwnWeightImproves(t, s, s', k - 1);
    }
  }

  lemma {:induction false} NetWeightSame(s: Net, s': Net, k: nat)
    requires k <= |s.nodes| && k <= |s'.nodes|
    requires forall u :: 0 <= u < k ==> |s.nodes[u].table| >= 1 && |s'.nodes[u].table| >= 1 && Own(s', u) == Own(s, u)
    ensures NetWeight(s', k) == NetWeight(s, k)
  {
    if k > 0 {
      NetWeightSame(s, s', k - 1);
    }
  }

  lemma {:induction false} InFlightUpdate(queues: seq<seq<Vector>>, l: nat, q: seq<Vector>, k: nat)
    requires l < |queues| && k <= |queues|
    ensures InFlight(queues[l := q], k) == InFlight(queues, k) + if l < k then |q| - |queues[l]| else 0
  {
    if k > 0 {
      InFlightUpdate(queues, l, q, k - 1);
    }
  }

  lemma {:induction false} InFlightBroadcast(t: Topology, queues: seq<seq<Vector>>, u: nat, row: Vector, k: nat)
    requires |queues| == |t.links| && k <= |queues|
    ensures InFlight(Broadcast(t, queues, u, row), k) <= InFlight(queues, k) + k
  {
    if k > 0 {
      InFlightBroadcast(t, queues, u, row, k - 1);
    }
  }

  lemma {:induction false} ScaledDrop(w': int, w: int, k: nat)
    requires 0 <= w' < w
    ensures Scaled(w', k) + k + 1 <= Scaled(w, k)
    decreases w
  {
    if w' < w - 1 {
      ScaledDrop(w', w - 1, k);
    }
  }

  lemma InFlightDeliver(t: Topology, s: Net, l: nat)
    requires Enabled(t, s, Deliver(l, 0)) && Shape(t, Next(t, s, Deliver(l, 0)))
    ensures var s' := Next(t, s, Deliver(l, 0));
      InFlight(s'.queues, |s'.queues|) <= InFlight(s.queues, |s.queues|) - 1
        + if Own(s', t.links[l].dst) != Own(s, t.links[l].dst) then |t.links| else 0
  {
    var e, s' := t.links[l], Next(t, s, Deliver(l, 0));
    InFlightUpdate(s.queues, l, Without(s.queues[l], 0), |s.queues|);
    InFlightBroadcast(t, s.queues[l := Without(s.queues[l], 0)], e.dst, Own(s', e.dst), |s.queues|);
  }

  /** A vector that changes the receiver's own lowers the weight by more than the messages it causes. */
  lemma ChangeDescends(t: Topology, s: Net, l: nat)
    requires Monotone(t, s) && Enabled(t, s, Deliver(l, 0)) && Shape(t, Next(t, s, Deliver(l, 0)))
    requires Own(Next(t, s, Deliver(l, 0)), t.links[l].dst) != Own(s, t.links[l].dst)
    ensures Scaled(NetWeight(Next(t, s, Deliver(l, 0)), t.n), |t.links|) + |t.links| + 1
         <= Scaled(NetWeight(s, t.n), |t.links|)
  {
    var s' := Next(t, s, Deliver(l, 0));
    MonotoneStep(t, s, Deliver(l, 0));
    NetWeightImproves(t, s, s', t.n);
    ScaledDrop(NetWeight(s', t.n), NetWeight(s, t.n), |t.links|);
  }

  /** Receiving a vector always lowers the measure. */
  lemma DeliverDescends(t: Topology, s: Net, l: nat)
    requires Monotone(t, s) && Enabled(t, s, Deliver(l, 0)) && Shape(t, Next(t, s, Deliver(l, 0)))
    ensures Measure(t, Next(t, s, Deliver(l, 0))) < Measure(t, s)
  {
    var s' := Next(t, s, Deliver(l, 0));
    InFlightDeliver(t, s, l);
    if Own(s', t.links[l].dst) != Own(s, t.links[l].dst) {
      ChangeDescends(t, s, l);
    } else {
      NetWeightSame(s, s', t.n);
    }
  }

  /** What the triggers of a run may add: one message per link, and themselves. */
  function Allowance(t: Topology, acts: seq<Action>): nat {
    if acts == [] then 0 else (if acts[0].Trigger? then |t.links| + 1 else 0) + Allowance(t, acts[1..])
  }

  lemma StepMeasure(t: Topology, s: Net, a: Action)
    requires Monotone(t, s) && Enabled(t, s, a) && KeepsOrder(a) && Shape(t, Next(t, s, a))
    ensures !a.Trigger? ==> Measure(t, Next(t, s, a)) < Measure(t, s)
    ensures a.Trigger? ==> Measure(t, Next(t, s, a)) <= Measure(t, s) + |t.links|
  {
    if a.Deliver? {
      DeliverDescends(t, s, a.l);
    } else {
      NetWeightSame(s, Next(t, s, a), t.n);
      if a.Lose? {
        InFlightUpdate(s.queues, a.l, Without(s.queues[a.l], a.i), |s.queues|);
      } else {
        InFlightBroadcast(t, s.queues, a.u, Own(s, a.u), |s.queues|);
      }
    }
  }

  /** A run can contain no more steps than its starting measure and its triggers allow: without new triggers
      the exchange always comes to rest. */
  lemma {:induction false} RunsDieOut(t: Topology, s: Net, acts: seq<Action>)
    requires Monotone(t, s) && Runs(t, s, acts) && AllKeepOrder(acts)
    ensures Shape(t, Exec(t, s, acts))
    ensures |acts| + Measure(t, Exec(t, s, acts)) <= Measure(t, s) + Allowance(t, acts)
    decreases |acts|
  {
    if acts != [] {
      var a, m := acts[0], Next(t, s, acts[0]);
      MonotoneStep(t, s, a);
      StepMeasure(t, s, a);
      assert AllKeepOrder(acts[1..]);
      RunsDieOut(t, m, acts[1..]);
    }
  }

  /** From the start: every run that keeps order is bounded by its triggers alone. */
  lemma EveryRunDiesOut(t: Topology, acts: seq<Action>)
    requires TopologyOk(t) && Runs(t, Initial(t), acts) && AllKeepOrder(acts)
    ensures |acts| <= Measure(t, Initial(t)) + Allowance(t, acts)
  {
    MonotoneInitial(t);
    RunsDieOut(t, Initial(t), acts);
  }

  // ----- Rest is always in reach --------------------------------------------------------------------

  lemma LosslessFirst(a: Action, rest: seq<Action>)
    requires KeepsOrder(a) && !a.Lose? && Lossless(rest)
    ensures Lossless([a] + rest) && ([a] + rest)[1..] == rest
  {
  }

  /** Deliver what is in flight, oldest first, until nothing is. */
  lemma {:induction false} Settle(t: Topology, s: Net) returns (acts: seq<Action>)
    requires Monotone(t, s)
    ensures Runs(t, s, acts) && Lossless(acts)
    ensures var m := Exec(t, s, acts);
      s.announced <= m.announced && forall l :: 0 <= l < |m.queues| ==> m.queues[l] == []
    decreases Measure(t, s)
  {
    if l: nat :| l < |s.queues| && s.queues[l] != [] {
      MonotoneStep(t, s, Deliver(l, 0));
      DeliverDescends(t, s, l);
      var rest := Settle(t, Next(t, s, Deliver(l, 0)));
      LosslessFirst(Deliver(l, 0), rest);
      acts := [Deliver(l, 0)] + rest;
    } else {
      acts := [];
    }
  }

  lemma {:induction false} SpeakAndSettle(t: Topology, s: Net, k: nat) returns (acts: seq<Action>)
    requires Monotone(t, s) && k <= t.n && forall u :: 0 <= u < k ==> u in s.announced
    ensures Runs(t, s, acts) && Lossless(acts) && Quiescent(t, Exec(t, s, acts))
    decreases t.n - k
  {
    if k == t.n {
      acts := Settle(t, s);
    } else {
      MonotoneStep(t, s, Trigger(k));
      var rest := SpeakAndSettle(t, Next(t, s, Trigger(k)), k + 1);
      LosslessFirst(Trigger(k), rest);
      acts := [Trigger(k)] + rest;
    }
  }

  /** From every state that an order-keeping run reaches, losses included, some lossless continuation comes to
      rest with the shortest distances everywhere. */
  lemma ConvergenceReachable(t: Topology, past: seq<Action>) returns (acts: seq<Action>)
    requires TopologyOk(t) && Runs(t, Initial(t), past) && AllKeepOrder(past)
    ensures var s := Exec(t, Initial(t), past).(announced := {});
      Runs(t, s, acts) && Lossless(acts) && Quiescent(t, Exec(t, s, acts))
    ensures var s := Exec(t, Exec(t, Initial(t), past).(announced := {}), acts);
      && Shape(t, s)
      && forall u, r :: 0 <= u < t.n && 0 <= r < t.n ==> ShortestDistance(t, u, r, Own(s, u)[r])
  {
    MonotoneInitial(t);
    MonotoneRun(t, Initial(t), past);
    MonotoneForgets(t, Exec(t, Initial(t), past));
    var s := Exec(t, Initial(t), past).(announced := {});
    acts := SpeakAndSettle(t, s, 0);
    MonotoneRun(t, s, acts);
    forall u, r | 0 <= u < t.n && 0 <= r < t.n
      ensures ShortestDistance(t, u, r, Own(Exec(t, s, acts), u)[r])
    {
      ShortestAfterLosses(t, past, acts, u, r);
    }
  }
}
