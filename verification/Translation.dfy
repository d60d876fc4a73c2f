/** Data packets and the border (lab3-router/router.cpp, TYPE_DATA): what each branch does with a packet, and, whatever
    else goes on, how the answer to a packet that went out finds its way back to the host that sent it. */
module Translation {
  import opened Words
  import opened DistanceVector
  import opened Nat
  import opened Router
  import opened LocalDelivery

  // ----- Inside -----------------------------------------------------------------------------------

  /** An address nobody is known to be responsible for: the packet goes to the default port. */
  lemma NobodysAddress(st: State, tables: Tables, src: uint32, dst: uint32, st': State, out: Outcome)
    requires WellFormed(st.node) && TablesOk(tables) && RoutesInside(st, tables, src, dst, st', out)
    requires !InInterval(dst, st.externalAddr) && dst !in tables.hosts
    requires forall iv :: iv in tables.externals ==> !(iv.first <= dst <= iv.last)
    ensures st' == st && out == Outcome(1, src, dst)
  {
  }

  /** An address of another router: the first port that leads to it at the known distance, else the default port. */
  lemma TowardsRouter(st: State, tables: Tables, src: uint32, dst: uint32, st': State, out: Outcome, r: nat)
    requires WellFormed(st.node) && TablesOk(tables) && RoutesInside(st, tables, src, dst, st', out)
    requires !InInterval(dst, st.externalAddr) && Responsible(tables, dst, r) && r != st.node.id && r < VECTOR_SIZE
    ensures st' == st && out.src == src && out.dst == dst
    ensures if st.node.table[0][r] != -1 && exists i :: IsHop(st.node, i, r)
            then IsHop(st.node, out.port, r) && forall i :: IsHop(st.node, i, r) ==> out.port <= i
            else out.port == 1
  {
    ResponsibleIsUnique(tables, dst, r);
    NextHopIs(st.node, r, 2);
    var hop := NextHop(st.node, r, 2);
    assert hop < |st.node.ports| ==> IsHop(st.node, hop, r);
    assert forall i :: IsHop(st.node, i, r) ==> hop <= i;
  }

  lemma ResponsibleIsUnique(tables: Tables, dst: uint32, r: nat)
    requires Responsible(tables, dst, r)
    ensures !NobodyResponsible(tables, dst) && forall q: nat :: Responsible(tables, dst, q) ==> q == r
  {
    forall q: nat | Responsible(tables, dst, q)
      ensures q == r
    {
      ResponsibleUnique(tables, dst, q, r);
    }
  }

  /** An address of the router's own: the packet leaves by the host's port. A host without one would be given 0. */
  lemma ToOwnHost(st: State, tables: Tables, src: uint32, dst: uint32, st': State, out: Outcome)
    requires WellFormed(st.node) && TablesOk(tables) && RoutesInside(st, tables, src, dst, st', out)
    requires !InInterval(dst, st.externalAddr) && Responsible(tables, dst, st.node.id)
    ensures st' == (if dst in st.hostToPort then st else st.(hostToPort := st.hostToPort[dst := 0]))
    ensures out == Outcome(if dst in st.hostToPort then st.hostToPort[dst] else 0, src, dst)
  {
    ResponsibleIsUnique(tables, dst, st.node.id);
  }

  // ----- Out --------------------------------------------------------------------------------------

  /** From inside to the router's own external range: the source is replaced by the address bound to it, or by the
      one on top of the stack, which then is; with none left the packet is dropped as it is. */
  lemma TranslatedOut(st: State, tables: Tables, inPort: nat, src: uint32, dst: uint32, st': State, out: Outcome)
    requires WellFormed(st.node) && TablesOk(tables) && RoutesData(st, tables, inPort, src, dst, st', out)
    requires inPort != st.externalPort && InInterval(dst, st.externalAddr)
    ensures var table, free := st.pool.table, st.pool.free;
      if src in table then st' == st && out == Outcome(st.externalPort, table[src], dst)
      else if free == [] then st' == st && out == Outcome(-1, src, dst)
      else
        var top := free[|free| - 1];
        && out == Outcome(st.externalPort, top, dst)
        && st' == st.(pool := st'.pool) && st'.pool.table == table[src := top] && st'.pool.free + [top] == free
  {
  }

  // ----- In ---------------------------------------------------------------------------------------

  /** From outside to an address bound to nobody: dropped, and nothing changes. */
  lemma UnknownFromOutside(st: State, tables: Tables, src: uint32, dst: uint32, st': State, out: Outcome)
    requires WellFormed(st.node) && TablesOk(tables)
    requires RoutesData(st, tables, st.externalPort, src, dst, st', out)
    requires forall h :: h in st.pool.table ==> st.pool.table[h] != dst
    ensures st' == st && out == Outcome(-1, src, dst)
  {
  }

  /** From outside to an address bound to a host: from there on it is a packet for that host. */
  lemma TranslatedIn(st: State, tables: Tables, src: uint32, dst: uint32, host: uint32, st': State, out: Outcome)
    requires WellFormed(st.node) && TablesOk(tables) && Partitioned(st.pool)
    requires RoutesData(st, tables, st.externalPort, src, dst, st', out)
    requires host in st.pool.table && st.pool.table[host] == dst
    ensures RoutesInside(st, tables, src, host, st', out) && out.dst == host
    ensures !InInterval(host, st.externalAddr) ==> out.src == src && st'.pool == st.pool
  {
    assert IsHostOf(st.pool, dst, host);
    var h :| IsHostOf(st.pool, dst, h) && RoutesInside(st, tables, src, h, st', out);
  }

  // ----- Out and in again -------------------------------------------------------------------------

  /** Host h is bound to address a at router u, whose border is as given. */
  ghost predicate BoundAt(w: World, u: nat, h: uint32, a: uint32, port: nat, addr: Interval) {
    && u < |w.routers| && w.routers[u].externalPort == port && w.routers[u].externalAddr == addr
    && h in w.routers[u].pool.table && w.routers[u].pool.table[h] == a
  }

  lemma InsideKeepsBinding(st: State, tables: Tables, src: uint32, dst: uint32, st': State, out: Outcome, h: uint32)
    requires WellFormed(st.node) && TablesOk(tables) && RoutesInside(st, tables, src, dst, st', out)
    requires h in st.pool.table
    ensures h in st'.pool.table && st'.pool.table[h] == st.pool.table[h]
  {
  }

  lemma DataKeepsBinding(w: World, e: Event, w': World, h: uint32)
    requires WorldOk(w) && Step(w, e, w') && e.Data? && h in w.routers[e.u].pool.table
    ensures h in w'.routers[e.u].pool.table && w'.routers[e.u] == w.routers[e.u].(pool := w'.routers[e.u].pool)
    ensures w'.routers[e.u].pool.table[h] == w.routers[e.u].pool.table[h]
  {
    var st, st' := w.routers[e.u], w'.routers[e.u];
    var out :| RoutesData(st, w.tables, e.inPort, e.src, e.dst, st', out);
    DataKeepsPorts(w, e.u, e.inPort, e.src, e.dst, st', out);
    if e.inPort != st.externalPort {
      InsideKeepsBinding(st, w.tables, e.src, e.dst, st', out, h);
    } else if Taken(st.pool, e.dst) {
      var host :| IsHostOf(st.pool, e.dst, host) && RoutesInside(st, w.tables, e.src, host, st', out);
      InsideKeepsBinding(st, w.tables, e.src, host, st', out, h);
    }
  }

  lemma StepKeepsBinding(w: World, e: Event, w': World, u: nat, h: uint32, a: uint32, port: nat, addr: Interval)
    requires WorldOk(w) && Step(w, e, w') && BoundAt(w, u, h, a, port, addr) && e != ReleaseAddress(u, h)
    ensures BoundAt(w', u, h, a, port, addr)
  {
    if e.Data? && e.u == u {
      DataKeepsBinding(w, e, w', h);
    }
  }

  lemma NextKeepsBinding(worlds: seq<World>, events: seq<Event>, i: nat,
                         u: nat, h: uint32, a: uint32, port: nat, addr: Interval)
    requires History(worlds, events) && i < |events| && BoundAt(worlds[i], u, h, a, port, addr)
    requires events[i] != ReleaseAddress(u, h)
    ensures BoundAt(worlds[i + 1], u, h, a, port, addr)
  {
    WorldHistory(worlds, events, i);
    StepKeepsBinding(worlds[i], events[i], worlds[i + 1], u, h, a, port, addr);
  }

  lemma {:induction false} HistoryKeepsBinding(worlds: seq<World>, events: seq<Event>, i: nat, k: nat,
                                               u: nat, h: uint32, a: uint32, port: nat, addr: Interval)
    requires History(worlds, events) && i <= k < |worlds| && BoundAt(worlds[i], u, h, a, port, addr)
    requires forall n :: i <= n < k ==> events[n] != ReleaseAddress(u, h)
    ensures BoundAt(worlds[k], u, h, a, port, addr)
    decreases k - i
  {
    if i < k {
      NextKeepsBinding(worlds, events, i, u, h, a, port, addr);
      HistoryKeepsBinding(worlds, events, i + 1, k, u, h, a, port, addr);
    }
  }

  /** At event k router u sends a packet of host h out, and `out` is what becomes of it. */
  ghost predicate GoesOut(worlds: seq<World>, events: seq<Event>, k: nat, u: nat, h: uint32, out: Outcome) {
    && History(worlds, events) && k < |events| && events[k].Data? && events[k].u == u && events[k].src == h
    && u < |worlds[k].routers| && u < |worlds[k + 1].routers|
    && var w, e := worlds[k], events[k];
    && WellFormed(w.routers[u].node) && TablesOk(w.tables)
    && e.inPort != w.routers[u].externalPort && InInterval(e.dst, w.routers[u].externalAddr)
    && RoutesData(w.routers[u], w.tables, e.inPort, h, e.dst, worlds[k + 1].routers[u], out) && out.port != -1
  }

  /** At event k router u receives from outside a packet for address a, and `out` is what becomes of it. */
  ghost predicate ComesIn(worlds: seq<World>, events: seq<Event>, k: nat, u: nat, a: uint32, out: Outcome) {
    && History(worlds, events) && k < |events| && events[k].Data? && events[k].u == u && events[k].dst == a
    && u < |worlds[k].routers| && u < |worlds[k + 1].routers|
    && var w, e := worlds[k], events[k];
    && WellFormed(w.routers[u].node) && TablesOk(w.tables) && e.inPort == w.routers[u].externalPort
    && RoutesData(w.routers[u], w.tables, e.inPort, e.src, a, worlds[k + 1].routers[u], out)
  }

  lemma OutIsBound(worlds: seq<World>, events: seq<Event>, j: nat, u: nat, h: uint32, out: Outcome)
    requires GoesOut(worlds, events, j, u, h, out)
    ensures var st := worlds[j].routers[u];
      && out.port == st.externalPort && out.dst == events[j].dst
      && BoundAt(worlds[j + 1], u, h, out.src, st.externalPort, st.externalAddr)
  {
    var w, e := worlds[j], events[j];
    assert Step(w, e, worlds[j + 1]);
    TranslatedOut(w.routers[u], w.tables, e.inPort, h, e.dst, worlds[j + 1].routers[u], out);
  }

  lemma InIsForHost(worlds: seq<World>, events: seq<Event>, k: nat, u: nat, h: uint32, a: uint32, out: Outcome)
    requires ComesIn(worlds, events, k, u, a, out) && h in worlds[k].routers[u].pool.table
    requires worlds[k].routers[u].pool.table[h] == a
    ensures out.dst == h
    ensures !InInterval(h, worlds[k].routers[u].externalAddr) ==>
      worlds[k + 1] == worlds[k] && out.src == events[k].src
    ensures IsLocal(worlds[k], u, h) ==>
      h in worlds[k].routers[u].hostToPort && out.port == worlds[k].routers[u].hostToPort[h]
  {
    var w, e, st := worlds[k], events[k], worlds[k].routers[u];
    var st' := worlds[k + 1].routers[u];
    WorldHistory(worlds, events, k);
    assert Step(w, e, worlds[k + 1]);
    TranslatedIn(st, w.tables, e.src, a, h, st', out);
    InsideKeepsPorts(w, u, e.src, h, st', out);
    if IsLocal(w, u, h) {
      LocalHasPort(w, u, h);
      ToOwnHost(st, w.tables, e.src, h, st', out);
    }
  }

  /** In every history: a packet of host h that gets out leaves by the external port, from the address h is bound to;
      and when anyone outside sends to that address, whatever came in between except a release of h, the packet is
      passed on to h. It keeps its sender and changes no table, unless h has an external address itself. If the router
      is h's own it leaves by h's port. */
  lemma AnswerReachesHost(worlds: seq<World>, events: seq<Event>, j: nat, k: nat, u: nat, h: uint32,
                          out: Outcome, back: Outcome)
    requires j < k && GoesOut(worlds, events, j, u, h, out) && ComesIn(worlds, events, k, u, out.src, back)
    requires forall n :: j < n < k ==> events[n] != ReleaseAddress(u, h)
    ensures out.port == worlds[j].routers[u].externalPort && out.dst == events[j].dst && back.dst == h
    ensures !InInterval(h, worlds[k].routers[u].externalAddr) ==>
      back.src == events[k].src && worlds[k + 1] == worlds[k]
    ensures IsLocal(worlds[k], u, h) ==>
      h in worlds[k].routers[u].hostToPort && back.port == worlds[k].routers[u].hostToPort[h]
  {
    var st := worlds[j].routers[u];
    OutIsBound(worlds, events, j, u, h, out);
    HistoryKeepsBinding(worlds, events, j + 1, k, u, h, out.src, st.externalPort, st.externalAddr);
    InIsForHost(worlds, events, k, u, h, out.src, back);
  }
}
