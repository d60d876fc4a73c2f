/** All routers and their shared tables together: delivery to a local host never invents a port, and the
    treatment of a data packet does not depend on the order in which the NAT table is walked. */
module LocalDelivery {
  import opened Words
  import opened DistanceVector
  import opened Nat
  import opened Router

  datatype World = World(routers: seq<State>, tables: Tables)

  datatype Event =
    | NewRouter(portNum: nat, externalPort: nat, externalAddr: Interval, available: Interval)
    | NewHost(u: nat, port: nat, ip: uint32)
    | Data(u: nat, inPort: nat, src: uint32, dst: uint32)
    | Control(u: nat, input: Input)           // a DV message or command '2'
    | ReleaseAddress(u: nat, host: uint32)    // command '1'

  /** What router u does with a packet that stays inside its network. */
  ghost predicate IsLocal(w: World, u: nat, dst: uint32)
    requires u < |w.routers|
  {
    !InInterval(dst, w.routers[u].externalAddr) && Responsible(w.tables, dst, u)
  }

  ghost predicate Partitioned(pool: Pool) {
    exists iv :: Partition(pool, iv)
  }

  ghost predicate WorldOk(w: World) {
    && |w.routers| <= VECTOR_SIZE
    && (forall u :: 0 <= u < |w.routers| ==>
          WellFormed(w.routers[u].node) && SendersOk(w.routers[u].node) && w.routers[u].node.id == u)
    && (forall u :: 0 <= u < |w.routers| ==> Partitioned(w.routers[u].pool))
    && (forall ip :: ip in w.tables.hosts ==>
          w.tables.hosts[ip] < |w.routers| && ip in w.routers[w.tables.hosts[ip]].hostToPort)
    && (forall iv :: iv in w.tables.externals ==>
          w.tables.externals[iv] < |w.routers| && w.routers[w.tables.externals[iv]].externalAddr == iv)
  }

  /** One event, as the methods of RouterObject specify it. */
  ghost predicate Step(w: World, e: Event, w': World) {
    match e
    case NewRouter(n, port, addr, available) =>
      && |w.routers| < VECTOR_SIZE && available.first <= available.last
      && w'.routers == w.routers + [
           State(Fresh(|w.routers|, n), Pool(map[], Addresses(available)), port, addr, map[])]
      && w'.tables == w.tables.(externals :=
           if port != 0 then w.tables.externals[addr := |w.routers|] else w.tables.externals)
    case NewHost(u, port, ip) =>
      && u < |w.routers|
      && w'.routers == w.routers[u := w.routers[u].(hostToPort := w.routers[u].hostToPort[ip := port])]
      && w'.tables == w.tables.(hosts := w.tables.hosts[ip := u])
    case Data(u, inPort, src, dst) =>
      && u < |w.routers| && |w'.routers| == |w.routers|
      && WellFormed(w.routers[u].node) && TablesOk(w.tables)
      && (exists out :: RoutesData(w.routers[u], w.tables, inPort, src, dst, w'.routers[u], out))
      && w' == w.(routers := w.routers[u := w'.routers[u]])
    case Control(u, input) =>
      && u < |w.routers| && w'.tables == w.tables
      && WellFormed(w.routers[u].node) && SendersOk(w.routers[u].node)
      && InputOk(input, |w.routers[u].node.ports|) && (input.Heard? ==> input.n == |w.routers|)
      && w'.routers == w.routers[u := w.routers[u].(node := AfterInput(w.routers[u].node, input))]
    case ReleaseAddress(u, host) =>
      && u < |w.routers| && w'.tables == w.tables
      && w'.routers == w.routers[u := w.routers[u].(pool := Release(w.routers[u].pool, host))]
  }

  /** A history from the start: worlds, one more than events. */
  ghost predicate History(worlds: seq<World>, events: seq<Event>) {
    && |worlds| == |events| + 1
    && worlds[0] == World([], Tables(map[], map[]))
    && forall i :: 0 <= i < |events| ==> Step(worlds[i], events[i], worlds[i + 1])
  }

  /** An address this router is responsible for, by either table, has a port. */
  lemma LocalHasPort(w: World, u: nat, dst: uint32)
    requires WorldOk(w) && u < |w.routers| && IsLocal(w, u, dst)
    ensures dst in w.routers[u].hostToPort
  {
    var addr := w.routers[u].externalAddr;
    assert forall iv :: iv in w.tables.externals && u == w.tables.externals[iv] ==> addr == iv;
  }

  /** Hence a data packet never changes a router's host table. */
  lemma InsideKeepsPorts(w: World, u: nat, src: uint32, dst: uint32, st': State, out: Outcome)
    requires WorldOk(w) && u < |w.routers| && TablesOk(w.tables)
    requires RoutesInside(w.routers[u], w.tables, src, dst, st', out)
    ensures st' == w.routers[u].(pool := st'.pool)
  {
    var st := w.routers[u];
    if !InInterval(dst, st.externalAddr) && !NobodyResponsible(w.tables, dst) {
      var r :| Responsible(w.tables, dst, r) && ForwardsTo(st, r, dst, st', out.port);
      if r == u {
        LocalHasPort(w, u, dst);
      }
    }
  }

  lemma DataKeepsPorts(w: World, u: nat, inPort: nat, src: uint32, dst: uint32, st': State, out: Outcome)
    requires WorldOk(w) && u < |w.routers| && TablesOk(w.tables)
    requires RoutesData(w.routers[u], w.tables, inPort, src, dst, st', out)
    ensures st' == w.routers[u].(pool := st'.pool)
  {
    var st := w.routers[u];
    if inPort != st.externalPort {
      InsideKeepsPorts(w, u, src, dst, st', out);
    } else if Taken(st.pool, dst) {
      var host :| IsHostOf(st.pool, dst, host) && RoutesInside(st, w.tables, src, host, st', out);
      InsideKeepsPorts(w, u, src, host, st', out);
    }
  }

  lemma LeavesKeepsPool(st: State, src: uint32, dst: uint32, st': State, out: Outcome)
    requires Partitioned(st.pool) && Leaves(st, src, dst, st', out)
    ensures Partitioned(st'.pool)
  {
    var iv :| Partition(st.pool, iv);
    if Bind(st.pool, src).Some? {
      BindKeeps(st.pool, iv, src);
    }
  }

  lemma InsideKeepsPool(st: State, tables: Tables, src: uint32, dst: uint32, st': State, out: Outcome)
    requires WellFormed(st.node) && TablesOk(tables) && Partitioned(st.pool)
    requires RoutesInside(st, tables, src, dst, st', out)
    ensures Partitioned(st'.pool)
  {
    if InInterval(dst, st.externalAddr) {
      LeavesKeepsPool(st, src, dst, st', out);
    }
  }

  lemma DataKeepsPool(st: State, tables: Tables, inPort: nat, src: uint32, dst: uint32, st': State, out: Outcome)
    requires WellFormed(st.node) && TablesOk(tables) && Partitioned(st.pool)
    requires RoutesData(st, tables, inPort, src, dst, st', out)
    ensures Partitioned(st'.pool)
  {
    if inPort != st.externalPort {
      InsideKeepsPool(st, tables, src, dst, st', out);
    } else if Taken(st.pool, dst) {
      var host :| IsHostOf(st.pool, dst, host) && RoutesInside(st, tables, src, host, st', out);
      InsideKeepsPool(st, tables, src, host, st', out);
    }
  }

  lemma StepKeepsPools(w: World, e: Event, w': World)
    requires WorldOk(w) && Step(w, e, w')
    ensures forall u :: 0 <= u < |w'.routers| ==> Partitioned(w'.routers[u].pool)
  {
    match e
    case NewRouter(_, _, _, available) =>
      PartitionInitial(available);
    case Data(u, inPort, src, dst) =>
      var out :| RoutesData(w.routers[u], w.tables, inPort, src, dst, w'.routers[u], out);
      DataKeepsPool(w.routers[u], w.tables, inPort, src, dst, w'.routers[u], out);
    case ReleaseAddress(u, host) =>
      var iv :| Partition(w.routers[u].pool, iv);
      ReleaseKeeps(w.routers[u].pool, iv, host);
    case NewHost(_, _, _) =>
    case Control(_, _) =>
  }

  lemma WorldStep(w: World, e: Event, w': World)
    requires WorldOk(w) && Step(w, e, w')
    ensures WorldOk(w')
  {
    StepKeepsPools(w, e, w');
    if e.Data? {
      var out :| RoutesData(w.routers[e.u], w.tables, e.inPort, e.src, e.dst, w'.routers[e.u], out);
      DataKeepsPorts(w, e.u, e.inPort, e.src, e.dst, w'.routers[e.u], out);
    }
  }

  lemma {:induction false} WorldHistory(worlds: seq<World>, events: seq<Event>, k: nat)
    requires History(worlds, events) && k < |worlds|
    ensures WorldOk(worlds[k])
  {
    if k > 0 {
      WorldHistory(worlds, events, k - 1);
      WorldStep(worlds[k - 1], events[k - 1], worlds[k]);
    }
  }

  /** In every history, hosts re-added elsewhere included: whenever a router takes a packet for one of its own
      hosts, the host's port is in its table, so the lookup never inserts port 0. */
  lemma NoInventedPort(worlds: seq<World>, events: seq<Event>, k: nat, u: nat, dst: uint32)
    requires History(worlds, events) && k < |worlds| && u < |worlds[k].routers|
    requires IsLocal(worlds[k], u, dst)
    ensures dst in worlds[k].routers[u].hostToPort
  {
    WorldHistory(worlds, events, k);
    LocalHasPort(worlds[k], u, dst);
  }

  // ----- One treatment per packet -------------------------------------------------------------------

  lemma ResponsibleUnique(tables: Tables, dst: uint32, r: nat, r': nat)
    requires Responsible(tables, dst, r) && Responsible(tables, dst, r')
    ensures r == r'
  {
    if dst !in tables.hosts {
      var iv :| FirstMatch(tables.externals, dst, iv) && r == tables.externals[iv];
      var iv' :| FirstMatch(tables.externals, dst, iv') && r' == tables.externals[iv'];
    }
  }

  lemma InsideDetermined(st: State, tables: Tables, src: uint32, dst: uint32,
                         st1: State, out1: Outcome, st2: State, out2: Outcome)
    requires WellFormed(st.node) && TablesOk(tables)
    requires RoutesInside(st, tables, src, dst, st1, out1) && RoutesInside(st, tables, src, dst, st2, out2)
    ensures st1 == st2 && out1 == out2
  {
    if !InInterval(dst, st.externalAddr) && !NobodyResponsible(tables, dst) {
      var r1 :| Responsible(tables, dst, r1) && ForwardsTo(st, r1, dst, st1, out1.port);
      var r2 :| Responsible(tables, dst, r2) && ForwardsTo(st, r2, dst, st2, out2.port);
      ResponsibleUnique(tables, dst, r1, r2);
    }
  }

  /** As long as the pool is a partition, which every run keeps, what happens to a packet is determined: it
      does not matter in which order the program walks NATTable. */
  lemma DataDetermined(st: State, tables: Tables, iv: Interval, inPort: nat, src: uint32, dst: uint32,
                       st1: State, out1: Outcome, st2: State, out2: Outcome)
    requires WellFormed(st.node) && TablesOk(tables) && Partition(st.pool, iv)
    requires RoutesData(st, tables, inPort, src, dst, st1, out1)
    requires RoutesData(st, tables, inPort, src, dst, st2, out2)
    ensures st1 == st2 && out1 == out2
  {
    if inPort != st.externalPort {
      InsideDetermined(st, tables, src, dst, st1, out1, st2, out2);
    } else if Taken(st.pool, dst) {
      var h1 :| IsHostOf(st.pool, dst, h1) && RoutesInside(st, tables, src, h1, st1, out1);
      var h2 :| IsHostOf(st.pool, dst, h2) && RoutesInside(st, tables, src, h2, st2, out2);
      InsideDetermined(st, tables, src, h1, st1, out1, st2, out2);
    }
  }
}
