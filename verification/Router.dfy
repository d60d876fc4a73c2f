/** A whole router (lab3-router/router.cpp): what one packet does to its state, and the object that does it. */
module Router {
  import opened Words
  import opened DistanceVector
  import opened Nat

  // ----- State and packets as values --------------------------------------------------------------

  datatype State = State(
    node: Node, pool: Pool, externalPort: nat, externalAddr: Interval, hostToPort: map<uint32, nat>)

  /** The tables shared by all routers: where each host is attached, and who leads to each external range. */
  datatype Tables = Tables(hosts: map<uint32, nat>, externals: map<Interval, nat>)

  const BROADCAST := 0
  const DEFAULT_PORT := 1
  const DROP := -1

  /** Where a data packet goes, and its addresses after translation. */
  datatype Outcome = Outcome(port: int, src: uint32, dst: uint32)

  ghost predicate TablesOk(tables: Tables) {
    && (forall ip :: ip in tables.hosts ==> tables.hosts[ip] < VECTOR_SIZE)
    && (forall iv :: iv in tables.externals ==> tables.externals[iv] < VECTOR_SIZE)
  }

  /** The order of a std::map keyed by pairs. */
  predicate Before(a: Interval, b: Interval) {
    a.first < b.first || (a.first == b.first && a.last < b.last)
  }

  /** The first range in that order to contain the address. */
  ghost predicate FirstMatch(externals: map<Interval, nat>, dst: uint32, iv: Interval) {
    && iv in externals && InInterval(dst, iv)
    && forall other :: other in externals && InInterval(dst, other) && other != iv ==> Before(iv, other)
  }

  /** The router responsible for an address: a known host's, else that of the first external range. */
  ghost predicate Responsible(tables: Tables, dst: uint32, r: nat) {
    if dst in tables.hosts then r == tables.hosts[dst]
    else exists iv :: FirstMatch(tables.externals, dst, iv) && r == tables.externals[iv]
  }

  ghost predicate NobodyResponsible(tables: Tables, dst: uint32) {
    dst !in tables.hosts && forall iv :: iv in tables.externals ==> !InInterval(dst, iv)
  }

  /** The last part of TYPE_DATA: an address that needs no translation. A missing entry of hostToPort would be
      inserted as port 0. */
  ghost predicate Forwards(st: State, tables: Tables, dst: uint32, st': State, port: int)
    requires WellFormed(st.node) && TablesOk(tables)
  {
    if NobodyResponsible(tables, dst) then st' == st && port == DEFAULT_PORT
    else exists r :: Responsible(tables, dst, r) && ForwardsTo(st, r, dst, st', port)
  }

  ghost predicate ForwardsTo(st: State, r: nat, dst: uint32, st': State, port: int)
    requires WellFormed(st.node)
  {
    if r == st.node.id then
      if dst in st.hostToPort then st' == st && port == st.hostToPort[dst]
      else st' == st.(hostToPort := st.hostToPort[dst := 0]) && port == 0
    else if r >= VECTOR_SIZE then false
    else if st.node.table[0][r] == UNKNOWN then st' == st && port == DEFAULT_PORT
    else
      var hop := NextHop(st.node, r, 2);
      st' == st && port == if hop < |st.node.ports| then hop else DEFAULT_PORT
  }

  /** A packet addressed to the router's own external range leaves it, its source translated. */
  ghost predicate Leaves(st: State, src: uint32, dst: uint32, st': State, out: Outcome) {
    match Bind(st.pool, src)
    case None => st' == st && out == Outcome(DROP, src, dst)
    case Some(pool) =>
      src in pool.table && st' == st.(pool := pool) && out == Outcome(st.externalPort, pool.table[src], dst)
  }

  ghost predicate RoutesInside(st: State, tables: Tables, src: uint32, dst: uint32, st': State, out: Outcome)
    requires WellFormed(st.node) && TablesOk(tables)
  {
    if InInterval(dst, st.externalAddr) then Leaves(st, src, dst, st', out)
    else out.src == src && out.dst == dst && Forwards(st, tables, dst, st', out.port)
  }

  /** TYPE_DATA: a packet from outside is first translated to the host its destination is bound to. */
  ghost predicate RoutesData(
    st: State, tables: Tables, inPort: nat, src: uint32, dst: uint32, st': State, out: Outcome)
    requires WellFormed(st.node) && TablesOk(tables)
  {
    if inPort == st.externalPort then
      if Taken(st.pool, dst)
      then exists host :: IsHostOf(st.pool, dst, host) && RoutesInside(st, tables, src, host, st', out)
      else st' == st && out == Outcome(DROP, src, dst)
    else RoutesInside(st, tables, src, dst, st', out)
  }

  // ----- The objects ------------------------------------------------------------------------------

  /** The static members of the Router class. */
  class Directory {
    var routerNum: nat
    var hostTable: map<uint32, nat>
    var externalNetTable: map<Interval, nat>

    ghost function View(): Tables
      reads this
    {
      Tables(hostTable, externalNetTable)
    }

    ghost predicate Valid()
      reads this
    {
      routerNum <= VECTOR_SIZE && TablesOk(View())
    }

    constructor ()
      ensures Valid() && routerNum == 0 && View() == Tables(map[], map[])
    {
      routerNum, hostTable, externalNetTable := 0, map[], map[];
    }

    /** The loop over externalNetTable: first range in key order that contains the address. */
    method LookupExternal(dst: uint32) returns (found: bool, iv: Interval)
      ensures found ==> FirstMatch(externalNetTable, dst, iv)
      ensures found ==> iv.first <= dst <= iv.last && forall other ::
                other in externalNetTable && other.first <= dst <= other.last ==>
                  iv.first < other.first || (iv.first == other.first && iv.last <= other.last)
      ensures !found ==> forall other :: other in externalNetTable ==> !(other.first <= dst <= other.last)
    {
      found, iv := false, Interval(0, 0);
      var rest := externalNetTable.Keys;
      while rest != {}
        invariant rest <= externalNetTable.Keys
        invariant found ==> iv in externalNetTable && InInterval(dst, iv)
        invariant forall other :: other in externalNetTable && other !in rest && InInterval(dst, other) ==>
                    found && (other == iv || Before(iv, other))
      {
        var next :| next in rest;
        rest := rest - {next};
        if InInterval(dst, next) && (!found || Before(next, iv)) {
          found, iv := true, next;
        }
      }
    }
  }

  class RouterObject {
    const dir: Directory
    const id: nat
    const portNum: nat
    const externalPort: nat
    const externalAddr: Interval
    const availableAddr: Interval
    var portValueTable: seq<int>
    var distanceVectorTable: seq<Vector>
    var portToRouter: map<nat, nat>
    var natTable: map<uint32, uint32>
    var availableAddrStack: seq<uint32>
    var hostToPort: map<uint32, nat>

    ghost function View(): State
      reads this
    {
      State(Node(id, portValueTable, distanceVectorTable, portToRouter),
            Pool(natTable, availableAddrStack), externalPort, externalAddr, hostToPort)
    }

    ghost predicate Valid()
      reads this
    {
      && WellFormed(View().node) && |portValueTable| == portNum + 1
      && Partition(View().pool, availableAddr)
      && (forall p :: p in portToRouter ==> portToRouter[p] < VECTOR_SIZE)
    }

    /** Router() and router_init. A router without an external port passes no ranges, which read as 0..0. */
    constructor (d: Directory, port_num: nat, external_port: nat, external_addr: Interval, available: Interval)
      requires d.Valid() && d.routerNum < VECTOR_SIZE
      requires available.first <= available.last < 0xFFFF_FFFF
      modifies d
      ensures Valid() && dir == d && id == old(d.routerNum) && availableAddr == available
      ensures View() == State(Fresh(id, port_num), Pool(map[], Addresses(available)),
                              external_port, external_addr, map[])
      ensures d.Valid() && d.routerNum == old(d.routerNum) + 1
      ensures d.View() == old(d.View()).(externals :=
                if external_port != 0 then old(d.externalNetTable)[external_addr := id]
                else old(d.externalNetTable))
      ensures |portValueTable| == |distanceVectorTable| == port_num + 1 && portValueTable[0] == 0
      ensures forall i :: 1 <= i <= port_num ==> portValueTable[i] == -1
      ensures forall i, r :: 0 <= i <= port_num && 0 <= r < 128 ==>
                distanceVectorTable[i][r] == if i == 0 && r == id then 0 else -1
      ensures |availableAddrStack| == available.last - available.first + 1
      ensures forall i :: 0 <= i < |availableAddrStack| ==> availableAddrStack[i] == available.first + i
    {
      dir, id, portNum := d, d.routerNum, port_num;
      externalPort, externalAddr, availableAddr := external_port, external_addr, available;
      var stack: seq<uint32> := [];
      var i := available.first;
      while i <= available.last
        invariant available.first <= i <= available.last + 1
        invariant stack == Addresses(available)[..i - available.first]
        decreases available.last + 1 - i
      {
        stack := stack + [i];
        i := i + 1;
      }
      assert stack == Addresses(available);
      availableAddrStack, natTable, hostToPort, portToRouter := stack, map[], map[], map[];
      portValueTable := FreshPorts(port_num);
      distanceVectorTable := FreshTable(d.routerNum, port_num);
      new;
      PartitionInitial(available);
      d.routerNum := d.routerNum + 1;
      if external_port != 0 {
        d.externalNetTable := d.externalNetTable[external_addr := id];
      }
    }

    /** The inner loop of a DV message and of a port change. */
    method LeastDistance(r: nat) returns (minDist: int)
      requires Valid() && r < VECTOR_SIZE
      ensures minDist == MinDist(portValueTable, distanceVectorTable, r, |portValueTable|)
      ensures BestOffer(portValueTable, distanceVectorTable, r, minDist, 0x3a3a3a3a)
    {
      minDist := SENTINEL;
      var i := 2;
      while i <= portNum
        invariant i == 2 || 2 < i <= portNum + 1
        invariant i == 2 ==> minDist == SENTINEL
        invariant i <= portNum + 1 ==> minDist == MinDist(portValueTable, distanceVectorTable, r, i)
      {
        if !(portValueTable[i] < 0 || distanceVectorTable[i][r] < 0)
           && portValueTable[i] + distanceVectorTable[i][r] < minDist {
          minDist := portValueTable[i] + distanceVectorTable[i][r];
        }
        MinDistIs(portValueTable, distanceVectorTable, r, i);
        i := i + 1;
      }
      MinDistIsBestOffer(portValueTable, distanceVectorTable, r);
    }

    /** Command '0'. */
    method TriggerDv() returns (port: int, reply: Vector)
      requires Valid()
      ensures port == 0 && reply == distanceVectorTable[0]
    {
      port, reply := BROADCAST, distanceVectorTable[0];
    }

    /** Command '1'. */
    method ReleaseNat(ip: uint32)
      requires Valid()
      modifies this`natTable, this`availableAddrStack
      ensures Valid() && View() == old(View()).(pool := Release(old(View().pool), ip))
      ensures natTable == old(natTable) - {ip}
      ensures availableAddrStack == old(availableAddrStack) + if ip in old(natTable) then [old(natTable)[ip]] else []
    {
      ReleaseKeeps(View().pool, availableAddr, ip);
      if ip in natTable {
        availableAddrStack := availableAddrStack + [natTable[ip]];
        natTable := natTable - {ip};
      }
    }

    /** Command '2'. */
    method ChangePortValue(portid: nat, value: int)
      requires Valid() && portid <= portNum
      modifies this`portValueTable, this`distanceVectorTable
      ensures Valid() && View() == old(View()).(node := OnPortValue(old(View().node), portid, value))
      ensures portValueTable == old(portValueTable)[portid := value]
      ensures portid !in portToRouter ==> distanceVectorTable == old(distanceVectorTable)
      ensures portid in portToRouter ==>
        var src, table := portToRouter[portid], old(distanceVectorTable);
        && distanceVectorTable == table[0 := table[0][src := distanceVectorTable[0][src]]]
        && BestOffer(portValueTable, distanceVectorTable, src, distanceVectorTable[0][src], table[0][src])
    {
      PortChangeIsBestOffer(View().node, portid, value);
      portValueTable := portValueTable[portid := value];
      if portid in portToRouter {
        var r := portToRouter[portid];
        var minDist := LeastDistance(r);
        if minDist != SENTINEL {
          distanceVectorTable := distanceVectorTable[0 := distanceVectorTable[0][r := minDist]];
        } else {
          assert distanceVectorTable[0][r := distanceVectorTable[0][r]] == distanceVectorTable[0];
          assert distanceVectorTable[0 := distanceVectorTable[0]] == distanceVectorTable;
        }
      }
    }

    /** Command '3'. */
    method AddHost(portid: nat, ip: uint32)
      requires Valid() && dir.Valid() && dir.routerNum > id
      modifies this`hostToPort, dir`hostTable
      ensures Valid() && View() == old(View()).(hostToPort := old(hostToPort)[ip := portid])
      ensures dir.Valid() && dir.View() == old(dir.View()).(hosts := old(dir.hostTable)[ip := id])
    {
      dir.hostTable := dir.hostTable[ip := id];
      hostToPort := hostToPort[ip := portid];
    }

    /** TYPE_DV: the whole of row 0 is recomputed, and sent on exactly if it changed. */
    method ReceiveDv(inPort: nat, src: nat, row: Vector) returns (port: int, reply: Vector)
      requires Valid() && 1 <= inPort <= portNum && src < VECTOR_SIZE && dir.routerNum <= VECTOR_SIZE
      modifies this`distanceVectorTable, this`portToRouter
      ensures Valid()
      ensures View() == old(View()).(node := OnVector(old(View().node), dir.routerNum, inPort, src, row))
      ensures portToRouter == old(portToRouter)[inPort := src] && distanceVectorTable[inPort] == row
      ensures forall i :: 1 <= i <= portNum && i != inPort ==> distanceVectorTable[i] == old(distanceVectorTable)[i]
      ensures forall r :: 0 <= r < 128 ==>
        var d, kept := distanceVectorTable[0][r], old(distanceVectorTable)[0][r];
        if r < dir.routerNum && r != id then BestOffer(portValueTable, distanceVectorTable, r, d, kept) else d == kept
      ensures port == (if distanceVectorTable[0] != old(distanceVectorTable)[0] then 0 else -1)
      ensures reply == distanceVectorTable[0]
    {
      VectorIsBestOffer(View().node, dir.routerNum, inPort, src, row);
      distanceVectorTable := distanceVectorTable[inPort := row];
      portToRouter := portToRouter[inPort := src];
      var changed := RecomputeRow();
      port, reply := if changed then BROADCAST else DROP, distanceVectorTable[0];
    }

    method RecomputeRow() returns (changed: bool)
      requires Valid() && dir.routerNum <= VECTOR_SIZE
      modifies this`distanceVectorTable
      ensures Valid()
      ensures distanceVectorTable == old(distanceVectorTable)[0 :=
                Recomputed(id, portValueTable, old(distanceVectorTable), dir.routerNum)]
      ensures changed <==> distanceVectorTable[0] != old(distanceVectorTable)[0]
    {
      changed := false;
      ghost var table := distanceVectorTable;
      assert Recomputed(id, portValueTable, table, 0) == table[0];
      assert table[0 := table[0]] == table;
      for r := 0 to dir.routerNum
        invariant Valid()
        invariant distanceVectorTable == table[0 := Recomputed(id, portValueTable, table, r)]
        invariant changed <==> distanceVectorTable[0] != table[0]
      {
        var own := distanceVectorTable[0];
        if r != id {
          var minDist := LeastDistance(r);
          MinDistRowZero(portValueTable, table, own, r, |portValueTable|);
          assert own[r] == table[0][r];
          if minDist != SENTINEL {
            if own[r] != minDist {
              changed := true;
            }
            distanceVectorTable := distanceVectorTable[0 := own[r := minDist]];
          }
        }
        RecomputedNext(id, portValueTable, table, r);
        assert distanceVectorTable[0] == Recomputed(id, portValueTable, table, r + 1);
      }
    }

    /** The search of NATTable for an external address; the order of the walk is not determined. */
    method FindHost(external: uint32) returns (found: bool, host: uint32)
      requires Valid()
      ensures found ==> IsHostOf(View().pool, external, host)
      ensures !found ==> !Taken(View().pool, external)
    {
      found, host := false, 0;
      var rest := natTable.Keys;
      while rest != {} && !found
        invariant rest <= natTable.Keys
        invariant found ==> host in natTable && natTable[host] == external
        invariant !found ==> forall h :: h in natTable && h !in rest ==> natTable[h] != external
        decreases rest
      {
        var h :| h in rest;
        rest := rest - {h};
        if natTable[h] == external {
          found, host := true, h;
        }
      }
    }

    /** The packet leaves through the external port, its source bound to an external address. */
    method SendOut(src: uint32, dst: uint32) returns (out: Outcome)
      requires Valid()
      modifies this`natTable, this`availableAddrStack
      ensures Valid() && Leaves(old(View()), src, dst, View(), out)
      ensures src in old(natTable) ==> View() == old(View()) && out == Outcome(externalPort, natTable[src], dst)
      ensures src !in old(natTable) && old(availableAddrStack) == [] ==>
                View() == old(View()) && out == Outcome(-1, src, dst)
      ensures src !in old(natTable) && old(availableAddrStack) != [] ==>
                var rest := |old(availableAddrStack)| - 1;
                && natTable == old(natTable)[src := old(availableAddrStack)[rest]]
                && availableAddrStack == old(availableAddrStack)[..rest]
                && out == Outcome(externalPort, old(availableAddrStack)[rest], dst)
    {
      if src !in natTable {
        if availableAddrStack == [] {
          return Outcome(DROP, src, dst);
        }
        BindKeeps(View().pool, availableAddr, src);
        var external := availableAddrStack[|availableAddrStack| - 1];
        availableAddrStack := availableAddrStack[..|availableAddrStack| - 1];
        natTable := natTable[src := external];
      }
      out := Outcome(externalPort, natTable[src], dst);
    }

    /** The next-hop search: the first such port, or the default port. */
    method SearchPort(r: nat) returns (port: int)
      requires Valid() && r < VECTOR_SIZE
      ensures IsHop(View().node, port, r) || port == 1
      ensures forall i :: IsHop(View().node, i, r) ==> 2 <= port <= i
      ensures var hop := NextHop(View().node, r, 2);
        port == if hop < |portValueTable| then hop else DEFAULT_PORT
    {
      var i := 2;
      while i <= portNum
        invariant i == 2 || 2 < i <= portNum + 1
        invariant NextHop(View().node, r, i) == NextHop(View().node, r, 2)
        invariant forall j :: IsHop(View().node, j, r) ==> i <= j
      {
        if portValueTable[i] != UNKNOWN && distanceVectorTable[i][r] != UNKNOWN
           && portValueTable[i] + distanceVectorTable[i][r] == distanceVectorTable[0][r] {
          return i;
        }
        i := i + 1;
      }
      port := DEFAULT_PORT;
    }

    /** Delivery to a host or router inside. */
    method Forward(dst: uint32) returns (port: int)
      requires Valid() && dir.Valid()
      modifies this`hostToPort
      ensures Valid() && Forwards(old(View()), dir.View(), dst, View(), port)
      ensures NobodyResponsible(dir.View(), dst) ==> port == 1
    {
      var destRouter: int := -1;
      if dst in dir.hostTable {
        destRouter := dir.hostTable[dst];
      } else {
        var found, iv := dir.LookupExternal(dst);
        if found {
          destRouter := dir.externalNetTable[iv];
        }
      }
      if destRouter == -1 {
        return DEFAULT_PORT;
      }
      assert Responsible(dir.View(), dst, destRouter);
      if destRouter == id {
        if dst !in hostToPort {
          hostToPort := hostToPort[dst := 0];
        }
        port := hostToPort[dst];
      } else if distanceVectorTable[0][destRouter] == UNKNOWN {
        port := DEFAULT_PORT;
      } else {
        port := SearchPort(destRouter);
      }
      assert ForwardsTo(old(View()), destRouter, dst, View(), port);
    }

    method RouteInside(src: uint32, dst: uint32) returns (out: Outcome)
      requires Valid() && dir.Valid()
      modifies this`natTable, this`availableAddrStack, this`hostToPort
      ensures Valid() && RoutesInside(old(View()), dir.View(), src, dst, View(), out)
    {
      if InInterval(dst, externalAddr) {
        out := SendOut(src, dst);
      } else {
        var port := Forward(dst);
        out := Outcome(port, src, dst);
      }
    }

    /** TYPE_DATA. */
    method ReceiveData(inPort: nat, src: uint32, dst: uint32) returns (out: Outcome)
      requires Valid() && dir.Valid()
      modifies this`natTable, this`availableAddrStack, this`hostToPort
      ensures Valid() && RoutesData(old(View()), dir.View(), inPort, src, dst, View(), out)
      ensures inPort == externalPort && (forall h :: h in old(natTable) ==> old(natTable)[h] != dst) ==>
                View() == old(View()) && out == Outcome(-1, src, dst)
      ensures inPort == externalPort ==> forall h ::
                h in old(natTable) && old(natTable)[h] == dst && !InInterval(h, externalAddr) ==>
                  out.src == src && out.dst == h && View().pool == old(View().pool)
      ensures inPort != externalPort && !InInterval(dst, externalAddr) ==>
                out.src == src && out.dst == dst && View().pool == old(View().pool)
    {
      if inPort == externalPort {
        var found, host := FindHost(dst);
        if !found {
          return Outcome(DROP, src, dst);
        }
        out := RouteInside(src, host);
      } else {
        out := RouteInside(src, dst);
      }
    }
  }

  lemma RecomputedNext(id: nat, ports: seq<int>, table: seq<Vector>, r: nat)
    requires 1 <= |ports| == |table| && r < VECTOR_SIZE
    ensures Recomputed(id, ports, table, r + 1) ==
      if r == id then Recomputed(id, ports, table, r)
      else Recomputed(id, ports, table, r)[r := Entry(ports, table, r)]
  {
  }
}
