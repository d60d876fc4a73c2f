/** Following a function on the numbers below n, given as a sequence, step by step. */
module Orbits {

  predicate Closed(f: seq<nat>) {
    forall x :: 0 <= x < |f| ==> f[x] < |f|
  }

  function Follow(f: seq<nat>, u: nat, k: nat): (v: nat)
    requires Closed(f) && u < |f|
    ensures v < |f|
    decreases k
  {
    if k == 0 then u else Follow(f, f[u], k - 1)
  }

  lemma {:induction false} FollowAdd(f: seq<nat>, u: nat, j: nat, k: nat)
    requires Closed(f) && u < |f|
    ensures Follow(f, u, j + k) == Follow(f, Follow(f, u, j), k)
    decreases j
  {
    if j > 0 {
      FollowAdd(f, f[u], j - 1, k);
    }
  }

  lemma FollowNext(f: seq<nat>, u: nat, k: nat)
    requires Closed(f) && u < |f|
    ensures Follow(f, u, k + 1) == f[Follow(f, u, k)]
  {
    FollowAdd(f, u, k, 1);
    assert Follow(f, Follow(f, u, k), 1) == f[Follow(f, u, k)];
  }

  lemma {:induction false} FollowStays(f: seq<nat>, u: nat, k: nat)
    requires Closed(f) && u < |f| && f[u] == u
    ensures Follow(f, u, k) == u
    decreases k
  {
    if k > 0 {
      FollowStays(f, u, k - 1);
    }
  }

  lemma {:induction false} FollowInside(f: seq<nat>, inside: set<nat>, u: nat, k: nat)
    requires Closed(f) && u < |f| && u in inside
    requires forall x :: 0 <= x < |f| && x in inside ==> f[x] in inside
    ensures Follow(f, u, k) in inside
    decreases k
  {
    if k > 0 {
      FollowInside(f, inside, f[u], k - 1);
    }
  }

  /** More numbers below n than n: two are equal. */
  lemma {:induction false} Pigeonhole(xs: seq<nat>, n: nat) returns (i: nat, j: nat)
    requires |xs| > n && forall k :: 0 <= k < |xs| ==> xs[k] < n
    ensures i < j < |xs| && xs[i] == xs[j]
    decreases n
  {
    assert xs[0] < n;
    if p: nat, q: nat :| p < q < |xs| && xs[p] == xs[q] {
      i, j := p, q;
    } else {
      if k: nat :| k < |xs| && xs[k] == n - 1 {
        var fewer := xs[..k] + xs[k + 1..];
        assert forall m :: 0 <= m < |fewer| ==> fewer[m] == xs[if m < k then m else m + 1];
        i, j := Pigeonhole(fewer, n - 1);
        assert false;
      } else {
        i, j := Pigeonhole(xs, n - 1);
      }
    }
  }

  /** Within n steps some number comes again. */
  lemma ComesAgain(f: seq<nat>, u: nat) returns (i: nat, m: nat)
    requires Closed(f) && u < |f|
    ensures m > 0 && i + m <= |f|
    ensures Follow(f, Follow(f, u, i), m) == Follow(f, u, i)
  {
    var visited := seq(|f| + 1, k requires 0 <= k <= |f| => Follow(f, u, k));
    var j: nat;
    i, j := Pigeonhole(visited, |f|);
    assert visited[i] == visited[j];
    m := j - i;
    FollowAdd(f, u, i, m);
  }

  /** On an orbit of length m every number is one of the first m. */
  lemma {:induction false} FollowReduce(f: seq<nat>, u: nat, m: nat, k: nat) returns (i: nat)
    requires Closed(f) && u < |f| && m > 0 && Follow(f, u, m) == u
    ensures i < m && Follow(f, u, k) == Follow(f, u, i)
    decreases k
  {
    if k < m {
      i := k;
    } else {
      FollowAdd(f, u, m, k - m);
      i := FollowReduce(f, u, m, k - m);
    }
  }

  /** A number of the orbit comes again after as many steps. */
  lemma OrbitShift(f: seq<nat>, u: nat, m: nat, j: nat)
    requires Closed(f) && u < |f| && Follow(f, u, m) == u
    ensures Follow(f, Follow(f, u, j), m) == Follow(f, u, j)
  {
    FollowAdd(f, u, j, m);
    FollowAdd(f, u, m, j);
  }

  lemma {:induction false} LeastPeriod(f: seq<nat>, u: nat, m: nat) returns (p: nat)
    requires Closed(f) && u < |f| && m > 0 && Follow(f, u, m) == u
    ensures 0 < p <= m && Follow(f, u, p) == u && forall i :: 0 < i < p ==> Follow(f, u, i) != u
    decreases m
  {
    if k: nat :| 0 < k < m && Follow(f, u, k) == u {
      p := LeastPeriod(f, u, k);
    } else {
      p := m;
    }
  }

  lemma PeriodDistinct(f: seq<nat>, u: nat, p: nat, i: nat, j: nat)
    requires Closed(f) && u < |f| && Follow(f, u, p) == u && i < j < p
    requires forall k :: 0 < k < p ==> Follow(f, u, k) != u
    ensures Follow(f, u, i) != Follow(f, u, j)
  {
    if Follow(f, u, i) == Follow(f, u, j) {
      FollowAdd(f, u, j, p - j);
      FollowAdd(f, u, i, p - j);
    }
  }

  lemma {:induction false} LowestBelow(f: seq<nat>, u: nat, m: nat, rank: seq<nat>) returns (j: nat)
    requires Closed(f) && u < |f| == |rank| && m > 0
    ensures j < m && forall i :: 0 <= i < m ==> rank[Follow(f, u, j)] <= rank[Follow(f, u, i)]
    decreases m
  {
    if m == 1 {
      j := 0;
    } else {
      j := LowestBelow(f, u, m - 1, rank);
      if rank[Follow(f, u, m - 1)] < rank[Follow(f, u, j)] {
        j := m - 1;
      }
    }
  }

  /** Some number of an orbit has the lowest rank of all that follow it. */
  lemma LowestOnOrbit(f: seq<nat>, u: nat, m: nat, rank: seq<nat>) returns (v: nat, j: nat)
    requires Closed(f) && u < |f| == |rank| && m > 0 && Follow(f, u, m) == u
    ensures v == Follow(f, u, j) && Follow(f, v, m) == v
    ensures forall k: nat :: rank[v] <= rank[Follow(f, v, k)]
  {
    j := LowestBelow(f, u, m, rank);
    v := Follow(f, u, j);
    OrbitShift(f, u, m, j);
    forall k: nat
      ensures rank[v] <= rank[Follow(f, v, k)]
    {
      FollowAdd(f, u, j, k);
      var i := FollowReduce(f, u, m, j + k);
    }
  }

  /** Number of steps from u to d, if that is at most `fuel`. */
  function Depth(f: seq<nat>, u: nat, d: nat, fuel: nat): (k: nat)
    requires Closed(f) && u < |f|
    ensures k <= fuel
    decreases fuel
  {
    if u == d || fuel == 0 then 0 else 1 + Depth(f, f[u], d, fuel - 1)
  }

  lemma {:induction false} DepthEnough(f: seq<nat>, u: nat, d: nat, fuel: nat)
    requires Closed(f) && u < |f| && Follow(f, u, fuel) == d
    ensures Depth(f, u, d, fuel + 1) == Depth(f, u, d, fuel)
    decreases fuel
  {
    if u != d && fuel > 0 {
      DepthEnough(f, f[u], d, fuel - 1);
    }
  }

  /** Each step comes one closer. */
  lemma DepthStep(f: seq<nat>, u: nat, d: nat, fuel: nat)
    requires Closed(f) && u < |f| && u != d && Follow(f, u, fuel) == d
    ensures Depth(f, u, d, fuel) == 1 + Depth(f, f[u], d, fuel)
  {
    assert fuel > 0;
    DepthEnough(f, f[u], d, fuel - 1);
  }
}
