/** Cluster chains: allocation, release, and what keeps them apart. */
module FatChains {
  import opened Bytes
  import opened FatCache

  type Links = seq<nat>

  /** The 28-bit values of a table. */
  function Lows(v: seq<U32>): (t: Links)
    ensures |t| == |v|
  {
    seq(|v|, c requires 0 <= c < |v| => v[c] % LOW)
  }

  lemma LowsSet(v: seq<U32>, c: nat, x: nat)
    requires c < |v|
    ensures Lows(v[c := Kept(v[c], x)]) == Lows(v)[c := x % LOW]
  {
    KeptBits(v[c], x);
  }

  // ---- chains ----

  predicate IsCluster(t: Links, c: nat) { 2 <= c < |t| }

  predicate Distinct(cs: seq<nat>) {
    forall i, j :: 0 <= i < j < |cs| ==> cs[i] != cs[j]
  }

  /** cs are the clusters of the chain from c on: it does not meet itself and ends. */
  predicate Chain(t: Links, c: nat, cs: seq<nat>) {
    && cs != [] && cs[0] == c && Distinct(cs)
    && (forall i :: 0 <= i < |cs| ==> IsCluster(t, cs[i]))
    && (forall i :: 0 <= i < |cs| - 1 ==> t[cs[i]] == cs[i + 1])
    && IsEoc(t[cs[|cs| - 1]])
  }

  predicate Apart(a: seq<nat>, b: seq<nat>) {
    forall c :: c in a ==> c !in b
  }

  /** Members of a chain are not free. */
  lemma ChainUsed(t: Links, c: nat, cs: seq<nat>, i: nat)
    requires Chain(t, c, cs) && i < |cs| && |t| < EOC_MIN
    ensures t[cs[i]] != 0 && (IsEoc(t[cs[i]]) <==> i == |cs| - 1)
  {
    assert i < |cs| - 1 ==> t[cs[i]] == cs[i + 1] && IsCluster(t, cs[i + 1]);
  }

  /** A chain is determined by its first cluster. */
  lemma {:induction false} ChainUnique(t: Links, c: nat, a: seq<nat>, b: seq<nat>, n: nat)
    requires Chain(t, c, a) && Chain(t, c, b) && |t| < EOC_MIN && n <= |a| && n <= |b|
    ensures a[..n] == b[..n] && (n == |a| || n == |b| ==> a == b)
  {
    if 0 < n {
      ChainUnique(t, c, a, b, n - 1);
      assert 1 < n ==> a[n - 2] == a[..n - 1][n - 2] && b[n - 2] == b[..n - 1][n - 2] && t[a[n - 2]] == a[n - 1] && t[b[n - 2]] == b[n - 1];
      assert a[..n] == a[..n - 1] + [a[n - 1]] && b[..n] == b[..n - 1] + [b[n - 1]];
      ChainUsed(t, c, a, n - 1);
      ChainUsed(t, c, b, n - 1);
      assert a[..|a|] == a && b[..|b|] == b;
    }
  }

  /** Two chains that share a cluster share everything after it; so chains from different heads that are
      not inside each other are disjoint. */
  lemma {:induction false} SharedTail(t: Links, c: nat, a: seq<nat>, d: nat, b: seq<nat>, i: nat, j: nat)
    requires Chain(t, c, a) && Chain(t, d, b) && |t| < EOC_MIN
    requires i < |a| && j < |b| && a[i] == b[j]
    ensures a[i..] == b[j..]
    decreases |a| - i
  {
    ChainUsed(t, c, a, i);
    ChainUsed(t, d, b, j);
    if i < |a| - 1 {
      SharedTail(t, c, a, d, b, i + 1, j + 1);
      assert a[i..] == [a[i]] + a[i + 1..] && b[j..] == [b[j]] + b[j + 1..];
    }
  }

  /** Changes outside a chain leave it a chain. */
  lemma ChainFrame(t: Links, u: Links, c: nat, cs: seq<nat>)
    requires Chain(t, c, cs) && |u| == |t| && forall i :: 0 <= i < |cs| ==> u[cs[i]] == t[cs[i]]
    ensures Chain(u, c, cs)
  {
  }

  /** Taking a free cluster and linking it behind the last one: the chain is one longer, all others stay. */
  lemma ChainExtend(t: Links, c: nat, cs: seq<nat>, n: nat)
    requires Chain(t, c, cs) && IsCluster(t, n) && t[n] == 0 && |t| < EOC_MIN
    ensures n !in cs
    ensures Chain(t[n := EOC][cs[|cs| - 1] := n], c, cs + [n])
    ensures forall d, ds :: Chain(t, d, ds) && Apart(cs, ds) ==>
      Chain(t[n := EOC][cs[|cs| - 1] := n], d, ds) && Apart(cs + [n], ds)
  {
    forall i | 0 <= i < |cs| ensures cs[i] != n {
      ChainUsed(t, c, cs, i);
    }
    var u := t[n := EOC][cs[|cs| - 1] := n];
    forall d, ds | Chain(t, d, ds) && Apart(cs, ds) ensures Chain(u, d, ds) && Apart(cs + [n], ds) {
      forall i | 0 <= i < |ds| ensures ds[i] != n && ds[i] != cs[|cs| - 1] {
        ChainUsed(t, d, ds, i);
        assert cs[|cs| - 1] in cs && ds[i] in ds;
      }
      ChainFrame(t, u, d, ds);
    }
  }

  /** A chain of one new cluster. */
  lemma ChainFirst(t: Links, n: nat)
    requires IsCluster(t, n) && t[n] == 0 && |t| < EOC_MIN
    ensures Chain(t[n := EOC], n, [n])
    ensures forall d, ds :: Chain(t, d, ds) ==> Chain(t[n := EOC], d, ds) && Apart([n], ds)
  {
    forall d, ds | Chain(t, d, ds) ensures Chain(t[n := EOC], d, ds) && Apart([n], ds) {
      forall i | 0 <= i < |ds| ensures ds[i] != n {
        ChainUsed(t, d, ds, i);
      }
      ChainFrame(t, t[n := EOC], d, ds);
    }
  }

  // ---- the free clusters ----

  /** The free clusters, lowest first. */
  function FreeList(t: Links): (fs: seq<nat>)
    ensures forall i :: 0 <= i < |fs| ==> IsCluster(t, fs[i]) && t[fs[i]] == 0
  {
    if |t| <= 2 then []
    else FreeList(t[..|t| - 1]) + if t[|t| - 1] == 0 then [|t| - 1] else []
  }

  /** Every free cluster is in the list. */
  lemma {:induction false} FreeListed(t: Links, c: nat)
    requires IsCluster(t, c) && t[c] == 0
    ensures c in FreeList(t)
  {
    if c < |t| - 1 {
      FreeListed(t[..|t| - 1], c);
    }
  }

  /** The list is ascending, so its clusters are distinct. */
  lemma {:induction false} FreeAscending(t: Links, i: nat, j: nat)
    requires i < j < |FreeList(t)|
    ensures FreeList(t)[i] < FreeList(t)[j]
  {
    var r := FreeList(t[..|t| - 1]);
    if j < |r| {
      FreeAscending(t[..|t| - 1], i, j);
    }
  }

  /** It holds exactly the free clusters, each once, the lowest first. */
  lemma FreeListIs(t: Links)
    ensures forall c: nat :: c in FreeList(t) <==> IsCluster(t, c) && t[c] == 0
    ensures forall i, j :: 0 <= i < j < |FreeList(t)| ==> FreeList(t)[i] < FreeList(t)[j]
  {
    forall c: nat | IsCluster(t, c) && t[c] == 0 ensures c in FreeList(t) {
      FreeListed(t, c);
    }
    forall i, j | 0 <= i < j < |FreeList(t)| ensures FreeList(t)[i] < FreeList(t)[j] {
      FreeAscending(t, i, j);
    }
  }

  lemma NoneFree(t: Links)
    requires forall x :: 2 <= x < |t| ==> t[x] != 0
    ensures FreeList(t) == []
  {
  }

  /** fat_alloc_cluster takes the head of the list. */
  lemma {:induction false} FreeTaken(t: Links, c: nat, u: Links)
    requires IsCluster(t, c) && t[c] == 0 && forall x :: 2 <= x < c ==> t[x] != 0
    requires |u| == |t| && u[c] != 0 && forall x :: 2 <= x < |t| && x != c ==> (t[x] == 0 <==> u[x] == 0)
    ensures FreeList(t) != [] && FreeList(t)[0] == c && FreeList(u) == FreeList(t)[1..]
  {
    var n := |t| - 1;
    if c == n {
      NoneFree(t[..n]);
      NoneFree(u[..n]);
    } else {
      FreeTaken(t[..n], c, u[..n]);
    }
  }

  // ---- releasing a chain ----

  /** Links lead to entries of the table or to an end. */
  predicate InRange(t: Links) {
    forall c :: 0 <= c < |t| ==> t[c] < |t| || IsEoc(t[c])
  }

  /** How many entries are not free. */
  function Used(t: Links): nat {
    if t == [] then 0 else Used(t[..|t| - 1]) + if t[|t| - 1] == 0 then 0 else 1
  }

  lemma {:induction false} UsedFree(t: Links, c: nat)
    requires c < |t|
    ensures Used(t[c := 0]) == Used(t) - if t[c] == 0 then 0 else 1
  {
    var n := |t| - 1;
    if c == n {
      assert t[c := 0][..n] == t[..n];
    } else {
      assert t[c := 0][..n] == t[..n][c := 0];
      UsedFree(t[..n], c);
    }
  }

  /** fat_free_chain's loop goes on at this value. */
  predicate Follows(c: nat) { 2 <= c && !IsEoc(c) }

  /** The table after releasing from c on: it ends on any table, as every step but the last frees an entry. */
  function Freed(t: Links, c: nat): (u: Links)
    requires InRange(t) && (Follows(c) ==> c < |t|)
    ensures |u| == |t|
    decreases Used(t), if Follows(c) then 1 else 0
  {
    if !Follows(c) then t
    else
      UsedFree(t, c);
      Freed(t[c := 0], t[c])
  }

  /** Releasing a chain frees exactly its clusters. */
  lemma {:induction false} FreedChain(t: Links, c: nat, cs: seq<nat>)
    requires InRange(t) && Chain(t, c, cs) && |t| < EOC_MIN
    ensures Follows(c) && c < |t|
    ensures forall x :: 0 <= x < |t| ==> Freed(t, c)[x] == if x in cs then 0 else t[x]
    decreases |cs|
  {
    ChainUsed(t, c, cs, 0);
    var u := t[c := 0];
    UsedFree(t, c);
    if |cs| == 1 {
      assert !Follows(t[c]);
    } else {
      var rest := cs[1..];
      assert t[cs[0]] == cs[1];
      forall i | 0 <= i < |rest| ensures u[rest[i]] == t[rest[i]] {
        assert rest[i] == cs[i + 1];
      }
      forall i | 0 <= i < |rest| - 1 ensures u[rest[i]] == rest[i + 1] {
        assert t[cs[i + 1]] == cs[i + 2];
      }
      assert rest[|rest| - 1] == cs[|cs| - 1];
      assert Chain(u, cs[1], rest);
      FreedChain(u, cs[1], rest);
      assert cs == [c] + rest;
    }
  }

  /** Other chains survive the release of one. */
  lemma FreedOthers(t: Links, c: nat, cs: seq<nat>, d: nat, ds: seq<nat>)
    requires InRange(t) && Chain(t, c, cs) && |t| < EOC_MIN && Chain(t, d, ds) && Apart(cs, ds)
    ensures Follows(c) && c < |t| && Chain(Freed(t, c), d, ds)
  {
    FreedChain(t, c, cs);
    forall i | 0 <= i < |ds| ensures Freed(t, c)[ds[i]] == t[ds[i]] {
      assert ds[i] in ds;
    }
    ChainFrame(t, Freed(t, c), d, ds);
  }

  /** The k-th cluster met from c on. */
  function Met(t: Links, c: nat, k: nat): nat
    requires InRange(t)
  {
    if k == 0 then c
    else
      var p := Met(t, c, k - 1);
      if Follows(p) && p < |t| then t[p] else 0
  }

  /** On a cyclic table, too, everything that is freed was met on the way from c. */
  lemma {:induction false} FreedMet(t: Links, u: Links, c0: nat, c: nat, k: nat, x: nat)
    requires InRange(t) && InRange(u) && |u| == |t| && (Follows(c) ==> c < |t|) && x < |t|
    requires c == 0 || c == Met(t, c0, k)
    requires forall y :: 0 <= y < |t| ==> u[y] == t[y] || u[y] == 0
    requires Freed(u, c)[x] != u[x]
    ensures exists j :: Met(t, c0, j) == x
    decreases Used(u), if Follows(c) then 1 else 0
  {
    if Follows(c) {
      UsedFree(u, c);
      if x == c {
        assert Met(t, c0, k) == x;
      } else {
        assert Met(t, c0, k + 1) == t[c];
        FreedMet(t, u[c := 0], c0, u[c], k + 1, x);
      }
    }
  }

  // ---- fat_alloc_cluster and fat_free_chain ----

  lemma TableOnlySame(g: Geom, d: Disk)
    requires g.Valid() && |d| == g.sectors
    ensures TableOnly(g, d, d)
  {
  }

  lemma FreedStep(t: Links, c: nat)
    requires InRange(t) && Follows(c) && c < |t|
    ensures InRange(t[c := 0]) && (Follows(t[c]) ==> t[c] < |t|) && Freed(t, c) == Freed(t[c := 0], t[c])
  {
    UsedFree(t, c);
  }

  /** The first free cluster, marked as an end of chain. */
  method AllocCluster(f: Fat) returns (rc: Status, c: nat)
    requires f.Valid()
    modifies f
    ensures f.Valid()
    ensures rc == ENOSPC <==> forall x :: 2 <= x < f.g.Entries() ==> Lows(old(f.View()))[x] != 0
    ensures rc == ENOSPC ==> f.View() == old(f.View())
    ensures rc == Ok ==>
      && 2 <= c < f.g.Entries() && Lows(old(f.View()))[c] == 0 && (forall x :: 2 <= x < c ==> Lows(old(f.View()))[x] != 0)
      && f.View() == old(f.View())[c := Kept(old(f.View())[c], EOC)]
      && Lows(f.View()) == Lows(old(f.View()))[c := EOC]
    ensures TableOnly(f.g, old(f.disk), f.disk)
  {
    hide Raw, TableOnly, Mirrored;
    ghost var v := f.View();
    ghost var d0 := f.disk;
    TableOnlySame(f.g, d0);
    c := 2;
    while c < f.g.clusters + 2
      invariant 2 <= c <= f.g.Entries() && f.Valid() && f.View() == v
      invariant forall x :: 2 <= x < c ==> Lows(v)[x] != 0
      invariant TableOnly(f.g, d0, f.disk)
    {
      ghost var d1 := f.disk;
      var value := f.Get(c);
      TableOnlyTrans(f.g, d0, d1, f.disk);
      assert Lows(v)[c] == value;
      if value == 0 {
        ghost var d2 := f.disk;
        f.Set(c, EOC);
        TableOnlyTrans(f.g, d0, d2, f.disk);
        LowsSet(v, c, EOC);
        return Ok, c;
      }
      c := c + 1;
    }
    return ENOSPC, 0;
  }

  method FreeChain(f: Fat, cluster: nat)
    requires f.Valid() && InRange(Lows(f.View())) && (Follows(cluster) ==> cluster < f.g.Entries())
    modifies f
    ensures f.Valid() && Lows(f.View()) == Freed(Lows(old(f.View())), cluster)
    ensures TableOnly(f.g, old(f.disk), f.disk)
  {
    hide Raw, TableOnly, Mirrored, Freed, InRange;
    ghost var goal := Freed(Lows(f.View()), cluster);
    ghost var d0 := f.disk;
    TableOnlySame(f.g, d0);
    var c: nat := cluster;
    while 2 <= c && !IsEoc(c)
      invariant f.Valid() && InRange(Lows(f.View())) && (Follows(c) ==> c < f.g.Entries())
      invariant Freed(Lows(f.View()), c) == goal
      invariant TableOnly(f.g, d0, f.disk)
      decreases Used(Lows(f.View())), if Follows(c) then 1 else 0
    {
      ghost var v, d1 := f.View(), f.disk;
      var next := f.Get(c);
      TableOnlyTrans(f.g, d0, d1, f.disk);
      ghost var d2 := f.disk;
      f.Set(c, 0);
      TableOnlyTrans(f.g, d0, d2, f.disk);
      FreedStep(Lows(v), c);
      LowsSet(v, c, 0);
      UsedFree(Lows(v), c);
      c := next;
    }
    FreedDone(Lows(f.View()), c);
  }

  lemma FreedDone(t: Links, c: nat)
    requires InRange(t) && !Follows(c)
    ensures Freed(t, c) == t
  {
  }
}
