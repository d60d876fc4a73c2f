/** The distance-vector half of one router (lab3-router/router.cpp): port values, the table of vectors, and
    what a DV message, a port change and a route lookup do with them. */
module DistanceVector {

  const SENTINEL: int := 0x3a3a3a3a
  const VECTOR_SIZE := 128
  const UNKNOWN := -1

  type Vector = row: seq<int> | |row| == VECTOR_SIZE witness seq(VECTOR_SIZE, i => 0)

  /** Port i has value ports[i] (negative: down) and, in table[i], the last vector received on it; row 0 is
      the router's own vector. Ports below 2 carry no link. */
  datatype Node = Node(id: nat, ports: seq<int>, table: seq<Vector>, neighbors: map<nat, nat>)

  ghost predicate WellFormed(node: Node) {
    |node.ports| == |node.table| >= 1 && node.id < VECTOR_SIZE
  }

  function BlankVector(): Vector {
    seq(VECTOR_SIZE, i => UNKNOWN)
  }

  function FreshRow(id: nat, i: nat): Vector
    requires id < VECTOR_SIZE
  {
    if i == 0 then BlankVector()[id := 0] else BlankVector()
  }

  function FreshPorts(portNum: nat): seq<int> {
    seq(portNum + 1, i => if i == 0 then 0 else UNKNOWN)
  }

  function FreshTable(id: nat, portNum: nat): seq<Vector>
    requires id < VECTOR_SIZE
  {
    seq(portNum + 1, i requires 0 <= i => FreshRow(id, i))
  }

  /** router_init. */
  function Fresh(id: nat, portNum: nat): Node
    requires id < VECTOR_SIZE
  {
    Node(id, FreshPorts(portNum), FreshTable(id, portNum), map[])
  }

  /** Cost to r through port i, if the port is up and its neighbour knows r. */
  function Via(ports: seq<int>, table: seq<Vector>, i: nat, r: nat): int
    requires i < |ports| == |table| && r < VECTOR_SIZE
  {
    if ports[i] < 0 || table[i][r] < 0 then SENTINEL else ports[i] + table[i][r]
  }

  /** Least cost to r through the ports below hi; SENTINEL if there is none below it. */
  function MinDist(ports: seq<int>, table: seq<Vector>, r: nat, hi: nat): int
    requires hi <= |ports| == |table| && r < VECTOR_SIZE
    decreases hi
  {
    if hi <= 2 then SENTINEL
    else
      var m := MinDist(ports, table, r, hi - 1);
      if Via(ports, table, hi - 1, r) < m then Via(ports, table, hi - 1, r) else m
  }

  /** The entry of row 0 for r after recomputing it: unchanged if no port offers a route. */
  function Entry(ports: seq<int>, table: seq<Vector>, r: nat): int
    requires 1 <= |ports| == |table| && r < VECTOR_SIZE
  {
    var m := MinDist(ports, table, r, |ports|);
    if m == SENTINEL then table[0][r] else m
  }

  /** Row 0 with the entries for the first n routers recomputed, except the router's own. */
  function Recomputed(id: nat, ports: seq<int>, table: seq<Vector>, n: nat): Vector
    requires 1 <= |ports| == |table|
  {
    seq(VECTOR_SIZE, r requires 0 <= r < VECTOR_SIZE =>
      if r < n && r != id then Entry(ports, table, r) else table[0][r])
  }

  /** A DV message from router src on a port. */
  function OnVector(node: Node, n: nat, port: nat, src: nat, row: Vector): Node
    requires WellFormed(node) && 1 <= port < |node.ports|
  {
    var table := node.table[port := row];
    node.(table := table[0 := Recomputed(node.id, node.ports, table, n)],
          neighbors := node.neighbors[port := src])
  }

  /** Command '2': set a port value; if a vector has come in on that port, recompute its sender's entry only. */
  function OnPortValue(node: Node, port: nat, value: int): Node
    requires WellFormed(node) && port < |node.ports|
    requires port in node.neighbors ==> node.neighbors[port] < VECTOR_SIZE
  {
    var ports := node.ports[port := value];
    if port in node.neighbors then
      var r := node.neighbors[port];
      node.(ports := ports,
            table := node.table[0 := node.table[0][r := Entry(ports, node.table, r)]])
    else node.(ports := ports)
  }

  /** First port from i on whose cost to r is the one in row 0. */
  function NextHop(node: Node, r: nat, i: nat): (port: nat)
    requires WellFormed(node) && r < VECTOR_SIZE
    ensures i <= port && (i <= |node.ports| ==> port <= |node.ports|)
    decreases |node.ports| - i
  {
    if i >= |node.ports| then i
    else if node.ports[i] != UNKNOWN && node.table[i][r] != UNKNOWN
         && node.ports[i] + node.table[i][r] == node.table[0][r] then i
    else NextHop(node, r, i + 1)
  }

  lemma {:induction false} MinDistIs(ports: seq<int>, table: seq<Vector>, r: nat, hi: nat)
    requires hi <= |ports| == |table| && r < VECTOR_SIZE
    ensures MinDist(ports, table, r, hi) <= SENTINEL
    ensures forall i :: 2 <= i < hi ==> MinDist(ports, table, r, hi) <= Via(ports, table, i, r)
    ensures MinDist(ports, table, r, hi) < SENTINEL ==>
              exists i :: 2 <= i < hi && MinDist(ports, table, r, hi) == Via(ports, table, i, r)
    decreases hi
  {
    if hi > 2 {
      MinDistIs(ports, table, r, hi - 1);
    }
  }

  /** A value below SENTINEL comes from a port that is up and whose neighbour knows r. */
  lemma MinDistSource(ports: seq<int>, table: seq<Vector>, r: nat) returns (i: nat)
    requires |ports| == |table| && r < VECTOR_SIZE
    requires MinDist(ports, table, r, |ports|) < SENTINEL
    ensures 2 <= i < |ports| && ports[i] >= 0 && table[i][r] >= 0
    ensures MinDist(ports, table, r, |ports|) == ports[i] + table[i][r]
  {
    MinDistIs(ports, table, r, |ports|);
    i :| 2 <= i < |ports| && MinDist(ports, table, r, |ports|) == Via(ports, table, i, r);
  }

  /** MinDist looks at no row but the ports' own. */
  lemma {:induction false} MinDistRowZero(ports: seq<int>, table: seq<Vector>, own: Vector, r: nat, hi: nat)
    requires 1 <= hi <= |ports| == |table| && r < VECTOR_SIZE
    ensures MinDist(ports, table[0 := own], r, hi) == MinDist(ports, table, r, hi)
    decreases hi
  {
    if hi > 2 {
      MinDistRowZero(ports, table, own, r, hi - 1);
    }
  }

  /** Port i is up, its neighbour knows r, and the cost is below the program's infinity. */
  ghost predicate Offers(ports: seq<int>, table: seq<Vector>, i: int, r: nat)
    requires |ports| == |table| && r < VECTOR_SIZE
  {
    2 <= i < |ports| && 0 <= ports[i] && 0 <= table[i][r] && ports[i] + table[i][r] < 0x3a3a3a3a
  }

  /** d is the best offer for r, or `kept` if no port makes one. */
  ghost predicate BestOffer(ports: seq<int>, table: seq<Vector>, r: nat, d: int, kept: int)
    requires |ports| == |table| && r < VECTOR_SIZE
  {
    if exists i :: Offers(ports, table, i, r) then
      && (exists i :: Offers(ports, table, i, r) && d == ports[i] + table[i][r])
      && forall i :: Offers(ports, table, i, r) ==> d <= ports[i] + table[i][r]
    else d == kept
  }

  lemma MinDistIsBestOffer(ports: seq<int>, table: seq<Vector>, r: nat)
    requires |ports| == |table| && r < VECTOR_SIZE
    ensures BestOffer(ports, table, r, MinDist(ports, table, r, |ports|), 0x3a3a3a3a)
  {
    var d := MinDist(ports, table, r, |ports|);
    MinDistIs(ports, table, r, |ports|);
    assert forall i :: Offers(ports, table, i, r) ==> Via(ports, table, i, r) == ports[i] + table[i][r];
    if d < SENTINEL {
      var i := MinDistSource(ports, table, r);
      assert Offers(ports, table, i, r) && d == ports[i] + table[i][r];
    }
  }

  lemma EntryIsBestOffer(ports: seq<int>, table: seq<Vector>, r: nat)
    requires 1 <= |ports| == |table| && r < VECTOR_SIZE
    ensures BestOffer(ports, table, r, Entry(ports, table, r), table[0][r])
  {
    MinDistIsBestOffer(ports, table, r);
  }

  lemma RowZeroOffersNothing(ports: seq<int>, table: seq<Vector>, own: Vector, r: nat, d: int, kept: int)
    requires 1 <= |ports| == |table| && r < VECTOR_SIZE && BestOffer(ports, table, r, d, kept)
    ensures BestOffer(ports, table[0 := own], r, d, kept)
  {
    var table' := table[0 := own];
    assert forall i :: Offers(ports, table', i, r) ==> Offers(ports, table, i, r);
    if i :| Offers(ports, table, i, r) && d == ports[i] + table[i][r] {
      assert Offers(ports, table', i, r) && d == ports[i] + table'[i][r];
    }
  }

  /** A DV message: the vector and its sender are remembered for the port, every other entry of row 0 becomes the
      best offer under the new table, and nothing else changes. */
  lemma VectorIsBestOffer(node: Node, n: nat, port: nat, src: nat, row: Vector)
    requires WellFormed(node) && 1 <= port < |node.ports|
    ensures var after := OnVector(node, n, port, src, row);
      && after.id == node.id && after.ports == node.ports && after.neighbors == node.neighbors[port := src]
      && |after.table| == |node.table| && after.table[port] == row
      && (forall i :: 1 <= i < |after.table| && i != port ==> after.table[i] == node.table[i])
      && forall r :: 0 <= r < 128 ==>
           if r < n && r != node.id
           then BestOffer(node.ports, after.table, r, after.table[0][r], node.table[0][r])
           else after.table[0][r] == node.table[0][r]
  {
    var table, own := node.table[port := row], OnVector(node, n, port, src, row).table[0];
    forall r | 0 <= r < n && r < VECTOR_SIZE && r != node.id
      ensures BestOffer(node.ports, table[0 := own], r, own[r], node.table[0][r])
    {
      EntryIsBestOffer(node.ports, table, r);
      RowZeroOffersNothing(node.ports, table, own, r, own[r], node.table[0][r]);
    }
  }

  /** Command '2': the port has the new value. If some vector has come in on it, the entry of its sender becomes
      the best offer under the new values; nothing else changes. */
  lemma PortChangeIsBestOffer(node: Node, port: nat, value: int)
    requires WellFormed(node) && port < |node.ports|
    requires port in node.neighbors ==> node.neighbors[port] < VECTOR_SIZE
    ensures var after := OnPortValue(node, port, value);
      && after == node.(ports := node.ports[port := value], table := after.table)
      && (port !in node.neighbors ==> after.table == node.table)
      && (port in node.neighbors ==>
            var src := node.neighbors[port];
            && after.table == node.table[0 := node.table[0][src := after.table[0][src]]]
            && BestOffer(after.ports, after.table, src, after.table[0][src], node.table[0][src]))
  {
    if port in node.neighbors {
      var ports, src := node.ports[port := value], node.neighbors[port];
      var d := Entry(ports, node.table, src);
      EntryIsBestOffer(ports, node.table, src);
      RowZeroOffersNothing(ports, node.table, node.table[0][src := d], src, d, node.table[0][src]);
    }
  }

  /** Port i leads to r at the distance in row 0. */
  ghost predicate IsHop(node: Node, i: int, r: nat)
    requires WellFormed(node) && r < VECTOR_SIZE
  {
    && 2 <= i < |node.ports| && node.ports[i] != -1 && node.table[i][r] != -1
    && node.ports[i] + node.table[i][r] == node.table[0][r]
  }

  lemma {:induction false} NextHopIs(node: Node, r: nat, i: nat)
    requires WellFormed(node) && r < VECTOR_SIZE
    ensures var port := NextHop(node, r, i);
      && (port < |node.ports| ==>
            node.ports[port] != UNKNOWN && node.table[port][r] != UNKNOWN
            && node.ports[port] + node.table[port][r] == node.table[0][r])
      && forall j :: i <= j < port && j < |node.ports| ==>
           !(node.ports[j] != UNKNOWN && node.table[j][r] != UNKNOWN
             && node.ports[j] + node.table[j][r] == node.table[0][r])
    decreases |node.ports| - i
  {
    if i < |node.ports| {
      NextHopIs(node, r, i + 1);
    }
  }

  // ----- Any sequence of vectors and commands -----------------------------------------------------

  /** A DV message while there are n routers, or command '2'. */
  datatype Input = Heard(n: nat, port: nat, src: nat, row: Vector) | Commanded(port: nat, value: int)

  ghost predicate SendersOk(node: Node) {
    forall p :: p in node.neighbors ==> node.neighbors[p] < VECTOR_SIZE
  }

  /** Only to ports below `size`, and vectors not on port 0. */
  ghost predicate InputOk(input: Input, size: nat) {
    input.port < size && (input.Heard? ==> 1 <= input.port && input.src < VECTOR_SIZE)
  }

  ghost predicate InputsOk(inputs: seq<Input>, size: nat) {
    forall k :: 0 <= k < |inputs| ==> InputOk(inputs[k], size)
  }

  ghost function AfterInput(node: Node, input: Input): (after: Node)
    requires WellFormed(node) && SendersOk(node) && InputOk(input, |node.ports|)
    ensures WellFormed(after) && SendersOk(after) && |after.ports| == |node.ports|
  {
    match input
    case Heard(n, port, src, row) => OnVector(node, n, port, src, row)
    case Commanded(port, value) => OnPortValue(node, port, value)
  }

  ghost function AfterInputs(node: Node, inputs: seq<Input>): (after: Node)
    requires WellFormed(node) && SendersOk(node) && InputsOk(inputs, |node.ports|)
    ensures WellFormed(after) && SendersOk(after) && |after.ports| == |node.ports|
    decreases |inputs|
  {
    if inputs == [] then node
    else
      var last := |inputs| - 1;
      AfterInput(AfterInputs(node, inputs[..last]), inputs[last])
  }

  ghost predicate IsCommand(input: Input, i: nat) {
    input.Commanded? && input.port == i
  }

  ghost predicate IsVector(input: Input, i: nat) {
    input.Heard? && input.port == i
  }

  /** The k-th input is the last command for port i. */
  ghost predicate LastCommand(inputs: seq<Input>, i: nat, k: nat) {
    k < |inputs| && IsCommand(inputs[k], i) && forall j :: k < j < |inputs| ==> !IsCommand(inputs[j], i)
  }

  /** The k-th input is the last vector to come in on port i. */
  ghost predicate LastVector(inputs: seq<Input>, i: nat, k: nat) {
    k < |inputs| && IsVector(inputs[k], i) && forall j :: k < j < |inputs| ==> !IsVector(inputs[j], i)
  }

  lemma InputAtPort(node: Node, input: Input, i: nat)
    requires WellFormed(node) && SendersOk(node) && InputOk(input, |node.ports|) && i < |node.ports|
    ensures var after := AfterInput(node, input);
      && after.id == node.id
      && after.ports[i] == (if IsCommand(input, i) then input.value else node.ports[i])
      && (IsVector(input, i) ==> after.table[i] == input.row)
      && (!IsVector(input, i) && i >= 1 ==> after.table[i] == node.table[i])
      && (i in after.neighbors <==> IsVector(input, i) || i in node.neighbors)
      && (i in after.neighbors ==>
            after.neighbors[i] == if IsVector(input, i) then input.src else node.neighbors[i])
  {
  }

  /** Whatever comes in: a port has the value last commanded for it, or as it was. */
  lemma {:induction false} LastCommandCounts(node: Node, inputs: seq<Input>, i: nat)
    requires WellFormed(node) && SendersOk(node) && InputsOk(inputs, |node.ports|) && i < |node.ports|
    ensures var after := AfterInputs(node, inputs);
      && after.id == node.id
      && (forall k: nat :: LastCommand(inputs, i, k) ==> after.ports[i] == inputs[k].value)
      && ((forall k :: 0 <= k < |inputs| ==> !IsCommand(inputs[k], i)) ==> after.ports[i] == node.ports[i])
    decreases |inputs|
  {
    if inputs != [] {
      var last := |inputs| - 1;
      var rest := inputs[..last];
      LastCommandCounts(node, rest, i);
      InputAtPort(AfterInputs(node, rest), inputs[last], i);
      assert forall k: nat :: k < last && LastCommand(inputs, i, k) ==> LastCommand(rest, i, k);
    }
  }

  /** The row and the neighbour remembered for a port are those of the last vector on it. */
  lemma {:induction false} LastVectorCounts(node: Node, inputs: seq<Input>, i: nat, k: nat)
    requires WellFormed(node) && SendersOk(node) && InputsOk(inputs, |node.ports|) && 1 <= i < |node.ports|
    requires LastVector(inputs, i, k)
    ensures var after := AfterInputs(node, inputs);
      after.table[i] == inputs[k].row && i in after.neighbors && after.neighbors[i] == inputs[k].src
    decreases |inputs|
  {
    var last := |inputs| - 1;
    var rest := inputs[..last];
    InputAtPort(AfterInputs(node, rest), inputs[last], i);
    if k < last {
      LastVectorCounts(node, rest, i, k);
    }
  }

  /** Or as they were, if none has come in. */
  lemma {:induction false} NoVectorKeeps(node: Node, inputs: seq<Input>, i: nat)
    requires WellFormed(node) && SendersOk(node) && InputsOk(inputs, |node.ports|) && 1 <= i < |node.ports|
    requires forall k :: 0 <= k < |inputs| ==> !IsVector(inputs[k], i)
    ensures var after := AfterInputs(node, inputs);
      && after.table[i] == node.table[i] && (i in after.neighbors <==> i in node.neighbors)
      && (i in node.neighbors ==> after.neighbors[i] == node.neighbors[i])
    decreases |inputs|
  {
    if inputs != [] {
      var last := |inputs| - 1;
      var rest := inputs[..last];
      NoVectorKeeps(node, rest, i);
      InputAtPort(AfterInputs(node, rest), inputs[last], i);
    }
  }

  /** Commands before any vector: they set the ports and touch nothing else. */
  lemma {:induction false} SetupSetsPorts(node: Node, inputs: seq<Input>)
    requires WellFormed(node) && node.neighbors == map[] && InputsOk(inputs, |node.ports|)
    requires forall k :: 0 <= k < |inputs| ==> inputs[k].Commanded?
    ensures var after := AfterInputs(node, inputs); after == node.(ports := after.ports)
    decreases |inputs|
  {
    if inputs != [] {
      SetupSetsPorts(node, inputs[..|inputs| - 1]);
    }
  }

  /** A command for every port. */
  function Setup(ports: seq<int>): (inputs: seq<Input>)
    ensures InputsOk(inputs, |ports|)
  {
    seq(|ports|, i requires 0 <= i < |ports| => Commanded(i, ports[i]))
  }

  /** So any port values can be set up, in a router that is otherwise as router_init left it. */
  lemma SetupReaches(id: nat, ports: seq<int>)
    requires id < VECTOR_SIZE && ports != []
    ensures AfterInputs(Fresh(id, |ports| - 1), Setup(ports)) == Fresh(id, |ports| - 1).(ports := ports)
  {
    var node, after := Fresh(id, |ports| - 1), AfterInputs(Fresh(id, |ports| - 1), Setup(ports));
    SetupSetsPorts(node, Setup(ports));
    forall i | 0 <= i < |ports|
      ensures after.ports[i] == ports[i]
    {
      LastCommandCounts(node, Setup(ports), i);
      assert LastCommand(Setup(ports), i, i);
    }
    assert after.ports == ports;
  }

  /** Command '2' after any history: the entry for the sender of the port's last vector becomes the best offer. */
  lemma CommandUpdatesSender(node: Node, inputs: seq<Input>, port: nat, k: nat, value: int)
    requires WellFormed(node) && SendersOk(node) && InputsOk(inputs, |node.ports|) && 1 <= port < |node.ports|
    requires LastVector(inputs, port, k)
    ensures var before := AfterInputs(node, inputs);
      var after, src := AfterInput(before, Commanded(port, value)), inputs[k].src;
      && after.ports == before.ports[port := value]
      && src < VECTOR_SIZE && after.table == before.table[0 := before.table[0][src := after.table[0][src]]]
      && BestOffer(after.ports, after.table, src, after.table[0][src], before.table[0][src])
  {
    LastVectorCounts(node, inputs, port, k);
    PortChangeIsBestOffer(AfterInputs(node, inputs), port, value);
  }

  /** MinDist does not look at the row of a port that is down. */
  lemma {:induction false} MinDistRowDown(ports: seq<int>, table: seq<Vector>, p: nat, row: Vector, r: nat, hi: nat)
    requires hi <= |ports| == |table| && r < VECTOR_SIZE && p < |ports| && (ports[p] < 0 || p < 2)
    ensures MinDist(ports, table[p := row], r, hi) == MinDist(ports, table, r, hi)
    decreases hi
  {
    if hi > 2 {
      MinDistRowDown(ports, table, p, row, r, hi - 1);
    }
  }

  /** What a vector says does not matter while its port is down. */
  lemma DownPortIgnored(node: Node, n: nat, port: nat, src: nat, row: Vector)
    requires WellFormed(node) && 1 <= port < |node.ports| && (node.ports[port] < 0 || port == 1)
    ensures OnVector(node, n, port, src, row).table[0] == Recomputed(node.id, node.ports, node.table, n)
  {
    forall r | 0 <= r < VECTOR_SIZE
      ensures Entry(node.ports, node.table[port := row], r) == Entry(node.ports, node.table, r)
    {
      MinDistRowDown(node.ports, node.table, port, row, r, |node.ports|);
    }
  }

  /** Every port is down, and the router knows its distance to no one but itself. */
  ghost predicate Isolated(node: Node) {
    && WellFormed(node) && (forall i :: 1 <= i < |node.ports| ==> node.ports[i] == -1)
    && forall r :: 0 <= r < 128 ==> node.table[0][r] == if r == node.id then 0 else -1
  }

  lemma StaysIsolated(node: Node, n: nat, port: nat, src: nat, row: Vector)
    requires Isolated(node) && 1 <= port < |node.ports|
    ensures Isolated(OnVector(node, n, port, src, row))
  {
    VectorIsBestOffer(node, n, port, src, row);
  }

  /** Until ports are commanded a router learns nothing, whatever vectors come in. */
  lemma {:induction false} NothingBeforeCommands(id: nat, portNum: nat, inputs: seq<Input>)
    requires id < VECTOR_SIZE && InputsOk(inputs, portNum + 1)
    requires forall k :: 0 <= k < |inputs| ==> inputs[k].Heard?
    ensures Isolated(AfterInputs(Fresh(id, portNum), inputs)) && AfterInputs(Fresh(id, portNum), inputs).id == id
    decreases |inputs|
  {
    if inputs != [] {
      var last := |inputs| - 1;
      NothingBeforeCommands(id, portNum, inputs[..last]);
      var before := AfterInputs(Fresh(id, portNum), inputs[..last]);
      StaysIsolated(before, inputs[last].n, inputs[last].port, inputs[last].src, inputs[last].row);
    }
  }
}
