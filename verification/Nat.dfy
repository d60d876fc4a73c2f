/** Address ranges and the NAT pool of a border router (lab3-router/router.cpp). Translation is the Basic NAT
    of section 2.1 of RFC 3022: one external address per internal host. */
module Nat {
  import opened Words

  datatype Option<T> = None | Some(value: T)

  /** AddrInterval: both ends included. */
  datatype Interval = Interval(first: uint32, last: uint32)

  predicate InInterval(a: uint32, iv: Interval) {
    iv.first <= a <= iv.last
  }

  /** convert_cidr_to_range on a parsed address and prefix length: masking with the top `prefix` bits clears
      the low 32 - prefix bits, and the upper end sets them all. */
  function CidrRange(ip: uint32, prefix: nat): (iv: Interval)
    requires 1 <= prefix <= 32
  {
    var low := 32 - prefix;
    Pow2Values();
    CidrBounds(ip, 32, low);
    var first := Shl(Shr(ip, low), low);
    Interval(first, first + Pow2(low) - 1)
  }

  lemma {:induction false} CidrBounds(a: nat, bits: nat, low: nat)
    requires a < Pow2(bits) && low <= bits
    ensures Shl(Shr(a, low), low) <= a < Shl(Shr(a, low), low) + Pow2(low) <= Pow2(bits)
    decreases low
  {
    if low > 0 {
      CidrBounds(a / 2, bits - 1, low - 1);
    }
  }

  lemma {:induction false} ShlBlock(q: nat, a: nat, low: nat)
    ensures Shl(q, low) <= a < Shl(q, low) + Pow2(low) <==> Shr(a, low) == q
    decreases low
  {
    if low > 0 {
      ShlBlock(q, a / 2, low - 1);
    }
  }

  /** An address is in the range of a CIDR block exactly when it agrees with it on the prefix. */
  lemma CidrMembership(ip: uint32, prefix: nat, a: uint32)
    requires 1 <= prefix <= 32
    ensures InInterval(a, CidrRange(ip, prefix)) <==> Shr(a, 32 - prefix) == Shr(ip, 32 - prefix)
  {
    ShlBlock(Shr(ip, 32 - prefix), a, 32 - prefix);
  }

  // ----- The pool ---------------------------------------------------------------------------------

  /** NATTable from internal to external addresses, and the stack of free external addresses (top last). */
  datatype Pool = Pool(table: map<uint32, uint32>, free: seq<uint32>)

  /** The addresses first .. last in the order router_init pushes them. */
  function Addresses(iv: Interval): (s: seq<uint32>)
    requires iv.first <= iv.last
  {
    seq(iv.last - iv.first + 1, i requires 0 <= i <= iv.last - iv.first => iv.first + i)
  }

  /** Command '1'. */
  function Release(p: Pool, host: uint32): Pool {
    if host in p.table then Pool(p.table - {host}, p.free + [p.table[host]]) else p
  }

  /** An outbound packet needs an external address for its source. */
  function Bind(p: Pool, host: uint32): Option<Pool> {
    if host in p.table then Some(p)
    else if p.free == [] then None
    else Some(Pool(p.table[host := p.free[|p.free| - 1]], p.free[..|p.free| - 1]))
  }

  /** Some host has this external address. */
  ghost predicate Taken(p: Pool, a: uint32) {
    exists h :: h in p.table && p.table[h] == a
  }

  /** Free and bound addresses partition the range, and no address is free twice or bound twice. */
  ghost predicate Partition(p: Pool, iv: Interval) {
    && (forall i, j :: 0 <= i < j < |p.free| ==> p.free[i] != p.free[j])
    && (forall h, k :: h in p.table && k in p.table && h != k ==> p.table[h] != p.table[k])
    && (forall i :: 0 <= i < |p.free| ==> InInterval(p.free[i], iv))
    && (forall h :: h in p.table ==> InInterval(p.table[h], iv))
    && (forall i, h :: 0 <= i < |p.free| && h in p.table ==> p.free[i] != p.table[h])
    && (forall a: uint32 :: InInterval(a, iv) ==> a in p.free || Taken(p, a))
  }

  lemma PartitionInitial(iv: Interval)
    requires iv.first <= iv.last
    ensures Partition(Pool(map[], Addresses(iv)), iv)
  {
    forall a: uint32 | InInterval(a, iv)
      ensures a in Addresses(iv)
    {
      assert Addresses(iv)[a - iv.first] == a;
    }
  }

  lemma ReleaseKeeps(p: Pool, iv: Interval, host: uint32)
    requires Partition(p, iv)
    ensures Partition(Release(p, host), iv)
  {
    if host in p.table {
      var q := Release(p, host);
      forall a: uint32 | InInterval(a, iv)
        ensures a in q.free || Taken(q, a)
      {
        if a in p.free {
          var i :| 0 <= i < |p.free| && p.free[i] == a;
          assert q.free[i] == a;
        } else {
          var h :| h in p.table && p.table[h] == a;
          if h == host {
            assert q.free[|p.free|] == a;
          } else {
            assert h in q.table && q.table[h] == a;
          }
        }
      }
    }
  }

  lemma BindKeeps(p: Pool, iv: Interval, host: uint32)
    requires Partition(p, iv) && Bind(p, host).Some?
    ensures Partition(Bind(p, host).value, iv) && host in Bind(p, host).value.table
  {
    if host !in p.table {
      var q, last := Bind(p, host).value, |p.free| - 1;
      assert q.table[host] == p.free[last];
      forall a: uint32 | InInterval(a, iv)
        ensures a in q.free || Taken(q, a)
      {
        if a in p.free {
          var i :| 0 <= i < |p.free| && p.free[i] == a;
          if i < last {
            assert q.free[i] == a;
          }
        } else {
          var h :| h in p.table && p.table[h] == a;
          assert h in q.table && q.table[h] == a;
        }
      }
    }
  }

  /** A host that is not bound is refused exactly when every address of the range is bound. */
  lemma BindFailsWhenAllTaken(p: Pool, iv: Interval, host: uint32)
    requires Partition(p, iv)
    ensures Bind(p, host).None? <==>
      host !in p.table && forall a: uint32 :: InInterval(a, iv) ==> Taken(p, a)
  {
    if host !in p.table && p.free != [] {
      var a := p.free[0];
      assert InInterval(a, iv) && !Taken(p, a);
    }
  }

  /** A released address goes to the next host that needs one. */
  lemma ReleasedIsNext(p: Pool, host: uint32, other: uint32)
    requires host in p.table && other !in Release(p, host).table
    ensures host !in Release(p, host).table
    ensures var q := Bind(Release(p, host), other);
      q.Some? && other in q.value.table && q.value.table[other] == p.table[host] && q.value.free == p.free
  {
    assert (p.free + [p.table[host]])[..|p.free|] == p.free;
  }

  // ----- Runs -------------------------------------------------------------------------------------

  datatype NatOp = ReleaseHost(host: uint32) | Outbound(host: uint32)

  /** An outbound packet that finds no free address is dropped and changes nothing. */
  function Apply(p: Pool, op: NatOp): Pool {
    match op
    case ReleaseHost(h) => Release(p, h)
    case Outbound(h) => if Bind(p, h).Some? then Bind(p, h).value else p
  }

  function ApplyAll(p: Pool, ops: seq<NatOp>): Pool
    decreases |ops|
  {
    if ops == [] then p else ApplyAll(Apply(p, ops[0]), ops[1..])
  }

  lemma {:induction false} PoolConserved(p: Pool, iv: Interval, ops: seq<NatOp>)
    requires Partition(p, iv)
    ensures Partition(ApplyAll(p, ops), iv)
    decreases |ops|
  {
    if ops != [] {
      match ops[0] {
        case ReleaseHost(h) => ReleaseKeeps(p, iv, h);
        case Outbound(h) => if Bind(p, h).Some? { BindKeeps(p, iv, h); }
      }
      PoolConserved(Apply(p, ops[0]), iv, ops[1..]);
    }
  }

  ghost function Hosts(ops: seq<NatOp>): (hosts: set<uint32>)
    ensures forall i :: 0 <= i < |ops| ==> ops[i].host in hosts
    ensures forall h :: h in hosts ==> exists i :: 0 <= i < |ops| && ops[i].host == h
  {
    set i | 0 <= i < |ops| :: ops[i].host
  }

  /** As many addresses as are bound have come off the top of the stack as router_init filled it. */
  ghost predicate Untouched(p: Pool, iv: Interval)
    requires iv.first <= iv.last
  {
    && |p.table| <= iv.last - iv.first + 1
    && p.free == Addresses(iv)[..iv.last - iv.first + 1 - |p.table|]
  }

  lemma OutboundUntouched(p: Pool, iv: Interval, host: uint32)
    requires iv.first <= iv.last && Untouched(p, iv)
    ensures var q := Apply(p, Outbound(host));
      && Untouched(q, iv) && q.table.Keys <= p.table.Keys + {host} && |p.table| <= |q.table|
      && if host !in p.table && |p.table| <= iv.last - iv.first
         then q.table == p.table[host := (iv.last - |p.table|) as uint32] else q == p
  {
  }

  lemma HostsFirst(ops: seq<NatOp>)
    requires ops != []
    ensures Hosts(ops) == {ops[0].host} + Hosts(ops[1..])
  {
    var rest := ops[1..];
    forall h | h in Hosts(ops)
      ensures h in {ops[0].host} + Hosts(rest)
    {
      var i :| 0 <= i < |ops| && ops[i].host == h;
      assert i > 0 ==> rest[i - 1].host == h;
    }
  }

  /** Whoever has sent is bound, as long as there are addresses left. */
  lemma {:induction false} OutboundRun(p: Pool, iv: Interval, ops: seq<NatOp>)
    requires iv.first <= iv.last && Untouched(p, iv) && forall i :: 0 <= i < |ops| ==> ops[i].Outbound?
    ensures var q := ApplyAll(p, ops);
      && Untouched(q, iv) && q.table.Keys <= p.table.Keys + Hosts(ops) && |p.table| <= |q.table|
      && (|q.table| <= iv.last - iv.first ==> q.table.Keys == p.table.Keys + Hosts(ops))
    decreases |ops|
  {
    if ops != [] {
      OutboundUntouched(p, iv, ops[0].host);
      OutboundRun(Apply(p, ops[0]), iv, ops[1..]);
      HostsFirst(ops);
    }
  }

  /** The addresses of a fresh pool are handed out from the last one down: after k hosts, whatever the order and
      number of their packets, the next new one gets last - k, or is refused if there are no more. */
  lemma HandedOutDownwards(iv: Interval, ops: seq<NatOp>, host: uint32)
    requires iv.first <= iv.last && forall i :: 0 <= i < |ops| ==> ops[i].Outbound? && ops[i].host != host
    ensures var k, next := |Hosts(ops)|, Bind(ApplyAll(Pool(map[], Addresses(iv)), ops), host);
      if iv.first + k <= iv.last
      then next.Some? && host in next.value.table && next.value.table[host] == iv.last - k
      else next.None?
  {
    var p, q := Pool(map[], Addresses(iv)), ApplyAll(Pool(map[], Addresses(iv)), ops);
    OutboundRun(p, iv, ops);
    assert p.table.Keys + Hosts(ops) == Hosts(ops);
    SubsetSmaller(q.table.Keys, Hosts(ops));
    NextNew(q, iv, host);
  }

  lemma SubsetSmaller<T>(a: set<T>, b: set<T>)
    requires a <= b
    ensures |a| <= |b|
  {
    assert b == a + (b - a);
  }

  lemma NextNew(q: Pool, iv: Interval, host: uint32)
    requires iv.first <= iv.last && Untouched(q, iv) && host !in q.table
    ensures var next := Bind(q, host);
      if |q.table| <= iv.last - iv.first
      then next.Some? && host in next.value.table && next.value.table[host] == iv.last - |q.table|
      else next.None?
  {
    OutboundUntouched(q, iv, host);
  }

  /** A bound host keeps its address until it is released. */
  lemma {:induction false} BindingSticks(p: Pool, host: uint32, ops: seq<NatOp>)
    requires host in p.table
    requires forall i :: 0 <= i < |ops| ==> ops[i] != ReleaseHost(host)
    ensures host in ApplyAll(p, ops).table && ApplyAll(p, ops).table[host] == p.table[host]
    decreases |ops|
  {
    if ops != [] {
      assert ops[0] != ReleaseHost(host);
      BindingSticks(Apply(p, ops[0]), host, ops[1..]);
    }
  }

  /** The inbound search: the host bound to an external address. */
  ghost predicate IsHostOf(p: Pool, external: uint32, host: uint32) {
    host in p.table && p.table[host] == external
  }

  /** From a fresh pool: whatever ran before, an outbound packet that gets out and then, with its host not
      released, an answer to the address it was given: the answer is translated back to that host, and no
      other host could have been found instead. */
  lemma OutThenIn(iv: Interval, before: seq<NatOp>, host: uint32, after: seq<NatOp>)
    requires iv.first <= iv.last
    requires Bind(ApplyAll(Pool(map[], Addresses(iv)), before), host).Some?
    requires forall i :: 0 <= i < |after| ==> after[i] != ReleaseHost(host)
    ensures var bound := Bind(ApplyAll(Pool(map[], Addresses(iv)), before), host).value;
      var later := ApplyAll(bound, after);
      && host in bound.table && InInterval(bound.table[host], iv)
      && forall h :: IsHostOf(later, bound.table[host], h) <==> h == host
  {
    PartitionInitial(iv);
    var p := ApplyAll(Pool(map[], Addresses(iv)), before);
    PoolConserved(Pool(map[], Addresses(iv)), iv, before);
    BindKeeps(p, iv, host);
    var bound := Bind(p, host).value;
    BindingSticks(bound, host, after);
    PoolConserved(bound, iv, after);
  }
}
