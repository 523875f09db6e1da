/** vfat_read and vfat_write: file bytes over a cluster chain. */
module FatFile {
  import opened Bytes
  import opened Arith
  import opened Options
  import opened FatCache
  import opened FatChains

  /** First sector of cluster c (CLUSTER_TO_SECTOR). */
  function ClusterSector(g: Geom, c: nat): nat
    requires 2 <= c
  {
    g.data + (c - 2) * g.spc
  }

  lemma ClusterIn(g: Geom, c: nat)
    requires g.Valid() && 2 <= c < g.Entries()
    ensures g.data <= ClusterSector(g, c) && ClusterSector(g, c) + g.spc <= g.sectors
  {
    MulSucc(c - 2, g.spc);
    MulLe(c - 1, g.clusters, g.spc);
  }

  lemma ClustersApart(g: Geom, c: nat, d: nat)
    requires 2 <= c && 2 <= d && c != d
    ensures ClusterSector(g, c) + g.spc <= ClusterSector(g, d) || ClusterSector(g, d) + g.spc <= ClusterSector(g, c)
  {
    if c < d {
      MulSucc(c - 2, g.spc);
      MulLe(c - 1, d - 2, g.spc);
    } else {
      MulSucc(d - 2, g.spc);
      MulLe(d - 1, c - 2, g.spc);
    }
  }

  /** bytes_per_cluster. */
  function Span(g: Geom): nat { g.spc * SECTOR }

  /** Byte k of cluster c. */
  function ClusterByte(g: Geom, d: Disk, c: nat, k: nat): Byte
    requires g.Valid() && |d| == g.sectors && 2 <= c < g.Entries() && k < Span(g)
  {
    ClusterIn(g, c);
    d[ClusterSector(g, c) + k / SECTOR][k % SECTOR]
  }

  predicate InClusters(g: Geom, cs: seq<nat>) {
    forall i :: 0 <= i < |cs| ==> 2 <= cs[i] < g.Entries()
  }

  /** Byte pos of the file whose clusters are cs. */
  function FileByte(g: Geom, d: Disk, cs: seq<nat>, pos: nat): Byte
    requires g.Valid() && |d| == g.sectors && InClusters(g, cs) && pos < Times(|cs|, Span(g))
  {
    QuotRest(pos, Span(g), |cs|);
    ClusterByte(g, d, cs[Quot(pos, Span(g))], Rest(pos, Span(g)))
  }

  /** Only sectors of cluster c differ. */
  predicate OnlyCluster(g: Geom, d: Disk, e: Disk, c: nat)
    requires g.Valid() && 2 <= c < g.Entries()
  {
    |e| == |d| && forall q :: 0 <= q < |d| && !(ClusterSector(g, c) <= q < ClusterSector(g, c) + g.spc) ==> e[q] == d[q]
  }

  /** In cluster c, src stands from byte o on; its other bytes are as before. */
  predicate ClusterPut(g: Geom, d: Disk, e: Disk, c: nat, o: nat, src: seq<Byte>)
    requires g.Valid() && |d| == g.sectors == |e| && 2 <= c < g.Entries() && o + |src| <= Span(g)
  {
    forall k :: 0 <= k < Span(g) ==>
      ClusterByte(g, e, c, k) == if o <= k < o + |src| then src[k - o] else ClusterByte(g, d, c, k)
  }

  /** What that means for the file. */
  lemma FilePut(g: Geom, d: Disk, e: Disk, cs: seq<nat>, i: nat, o: nat, src: seq<Byte>, pos: nat)
    requires g.Valid() && |d| == g.sectors == |e| && InClusters(g, cs) && Distinct(cs) && i < |cs|
    requires o + |src| <= Span(g) && pos < Times(|cs|, Span(g))
    requires OnlyCluster(g, d, e, cs[i]) && ClusterPut(g, d, e, cs[i], o, src)
    ensures var at := Times(i, Span(g)) + o;
            FileByte(g, e, cs, pos) == if at <= pos < at + |src| then src[pos - at] else FileByte(g, d, cs, pos)
  {
    hide ClusterByte, OnlyCluster, Times, Quot, Rest, Span, Geom.Valid;
    var b := Span(g);
    QuotRest(pos, b, |cs|);
    var j, k := Quot(pos, b), Rest(pos, b);
    BlockIs(i, o, |src|, j, k, b);
    if j != i {
      assert cs[i] != cs[j];
      ClusterSame(g, d, e, cs[i], cs[j], k);
    }
  }

  lemma ClusterSame(g: Geom, d: Disk, e: Disk, c: nat, x: nat, k: nat)
    requires g.Valid() && |d| == g.sectors == |e| && 2 <= c < g.Entries() && 2 <= x < g.Entries() && x != c && k < Span(g)
    requires OnlyCluster(g, d, e, c)
    ensures ClusterByte(g, e, x, k) == ClusterByte(g, d, x, k)
  {
    ClustersApart(g, c, x);
    ClusterIn(g, x);
  }

  // ---- one cluster ----

  /** Overwriting |piece| bytes of sector s of a cluster. */
  lemma SectorPut(g: Geom, d: Disk, c: nat, s: nat, o: nat, piece: seq<Byte>, k: nat)
    requires g.Valid() && |d| == g.sectors && 2 <= c < g.Entries() && s < g.spc && o + |piece| <= SECTOR && k < Span(g)
    ensures ClusterSector(g, c) + s < |d|
    ensures var e := d[ClusterSector(g, c) + s := Splice(d[ClusterSector(g, c) + s], o, piece)];
            var at := s * SECTOR + o;
            ClusterByte(g, e, c, k) == if at <= k < at + |piece| then piece[k - at] else ClusterByte(g, d, c, k)
  {
    ClusterIn(g, c);
  }

  function Min(a: nat, b: nat): nat { if a < b then a else b }

  /** Where the sector loop stands at sector s: what it has moved so far. */
  function Moved(n: nat, skip: nat, s: nat): nat {
    if s * SECTOR <= skip then 0 else Min(n, s * SECTOR - skip)
  }

  lemma PutMore(g: Geom, d: Disk, m: Disk, c: nat, skip: nat, src: seq<Byte>, total: nat, done: nat, s: nat, o: nat, piece: seq<Byte>)
    requires g.Valid() && |d| == g.sectors == |m| && 2 <= c < g.Entries() && s < g.spc && o + |piece| <= SECTOR
    requires total <= done && done + |piece| <= |src| && piece == src[done..done + |piece|]
    requires skip + (done - total) == s * SECTOR + o && skip + (done - total) + |piece| <= Span(g)
    requires OnlyCluster(g, d, m, c) && ClusterPut(g, d, m, c, skip, src[total..done])
    ensures ClusterSector(g, c) + s < |m|
    ensures var e := m[ClusterSector(g, c) + s := Splice(m[ClusterSector(g, c) + s], o, piece)];
            OnlyCluster(g, d, e, c) && ClusterPut(g, d, e, c, skip, src[total..done + |piece|])
  {
    ClusterIn(g, c);
    var e := m[ClusterSector(g, c) + s := Splice(m[ClusterSector(g, c) + s], o, piece)];
    var b := src[total..done + |piece|];
    forall k | 0 <= k < Span(g)
      ensures ClusterByte(g, e, c, k) == if skip <= k < skip + |b| then b[k - skip] else ClusterByte(g, d, c, k)
    {
      SectorPut(g, m, c, s, o, piece, k);
      hide ClusterByte, Splice;
      var a := src[total..done];
      assert ClusterByte(g, m, c, k) == if skip <= k < skip + |a| then a[k - skip] else ClusterByte(g, d, c, k);
    }
  }

  /** The sector loop of vfat_write. */
  method WriteCluster(f: Fat, c: nat, skip: nat, src: seq<Byte>, total: nat) returns (done: nat)
    requires f.Valid() && 2 <= c < f.g.Entries() && skip < Span(f.g) && total < |src|
    modifies f`disk
    ensures f.Valid() && f.View() == old(f.View())
    ensures done == total + Min(|src| - total, Span(f.g) - skip)
    ensures OnlyCluster(f.g, old(f.disk), f.disk, c) && ClusterPut(f.g, old(f.disk), f.disk, c, skip, src[total..done])
  {
    hide ClusterByte, Splice, Geom.Valid;
    ghost var d0 := f.disk;
    ShapeOf(f);
    ClusterIn(f.g, c);
    done := total;
    var s := skip / SECTOR;
    assert src[total..total] == [];
    while s < f.g.spc && done < |src|
      invariant skip / SECTOR <= s <= f.g.spc && f.Valid() && f.View() == old(f.View())
      invariant total <= done <= |src| && done - total == Moved(|src| - total, skip, s)
      invariant OnlyCluster(f.g, d0, f.disk, c) && ClusterPut(f.g, d0, f.disk, c, skip, src[total..done])
    {
      var start := if s == skip / SECTOR then skip % SECTOR else 0;
      var avail := SECTOR - start;
      if |src| - done < avail {
        avail := |src| - done;
      }
      var q := ClusterSector(f.g, c) + s;
      PutMore(f.g, d0, f.disk, c, skip, src, total, done, s, start, src[done..done + avail]);
      var buf := Splice(f.disk[q], start, src[done..done + avail]);
      f.WriteData(q, buf);
      done := done + avail;
      s := s + 1;
    }
  }

  lemma ShapeOf(f: Fat)
    requires f.Valid()
    ensures f.g.Valid() && |f.disk| == f.g.sectors
  {
  }

  /** The sector loop of vfat_read. */
  method ReadCluster(f: Fat, c: nat, skip: nat, n: nat) returns (out: seq<Byte>)
    requires f.Valid() && 2 <= c < f.g.Entries() && skip < Span(f.g)
    ensures |out| == Min(n, Span(f.g) - skip)
    ensures forall k :: 0 <= k < |out| ==> out[k] == ClusterByte(f.g, f.disk, c, skip + k)
  {
    hide Geom.Valid;
    ShapeOf(f);
    ClusterIn(f.g, c);
    out := [];
    var s := skip / SECTOR;
    while s < f.g.spc && |out| < n
      invariant skip / SECTOR <= s <= f.g.spc
      invariant |out| <= n && |out| == Moved(n, skip, s)
      invariant forall k :: 0 <= k < |out| ==> out[k] == ClusterByte(f.g, f.disk, c, skip + k)
    {
      var buf := f.disk[ClusterSector(f.g, c) + s];
      var start := if s == skip / SECTOR then skip % SECTOR else 0;
      var avail := SECTOR - start;
      if n - |out| < avail {
        avail := n - |out|;
      }
      ghost var o := |out|;
      out := out + buf[start..start + avail];
      forall k | o <= k < |out| ensures out[k] == ClusterByte(f.g, f.disk, c, skip + k) {
        assert (skip + k) / SECTOR == s && (skip + k) % SECTOR == start + (k - o);
      }
      s := s + 1;
    }
  }

  // ---- a growing chain ----

  /** The clusters added are the lowest free ones, in order; the others are still free. */
  ghost predicate Took(t: Links, cs: seq<nat>, u: Links, ds: seq<nat>) {
    && |cs| <= |ds| <= |cs| + |FreeList(t)|
    && ds == cs + FreeList(t)[..|ds| - |cs|]
    && FreeList(u) == FreeList(t)[|ds| - |cs|..]
  }

  lemma TookOne(t: Links, cs: seq<nat>, u: Links, ds: seq<nat>, n: nat, w: Links)
    requires Took(t, cs, u, ds) && FreeList(u) != [] && FreeList(u)[0] == n && FreeList(w) == FreeList(u)[1..]
    ensures Took(t, cs, w, ds + [n])
  {
    var k, f := |ds| - |cs|, FreeList(t);
    assert f[k] == f[k..][0];
    assert f[..k + 1] == f[..k] + [n];
  }

  /** The chain cs became ds: new clusters, free before, behind the old ones; no other entry changed, and every
      chain that was apart from cs is still a chain, apart from ds. */
  ghost predicate Extends(t: Links, cs: seq<nat>, u: Links, ds: seq<nat>) {
    && |u| == |t| && |cs| <= |ds| && ds[..|cs|] == cs && Took(t, cs, u, ds)
    && (forall x :: 0 <= x < |t| && x !in ds ==> u[x] == t[x])
    && (forall i :: |cs| <= i < |ds| ==> IsCluster(t, ds[i]) && t[ds[i]] == 0)
    && (ds != [] ==> Chain(u, ds[0], ds))
    && (forall d, es :: Chain(t, d, es) && Apart(cs, es) ==> Chain(u, d, es) && Apart(ds, es))
  }

  lemma ExtendsNone(t: Links, cs: seq<nat>)
    requires cs != [] ==> Chain(t, cs[0], cs)
    ensures Extends(t, cs, t, cs)
  {
    assert cs[..|cs|] == cs;
  }

  /** The table after fat_alloc_cluster found n and fat_set linked it behind the last cluster, if any. */
  function Linked(u: Links, ds: seq<nat>, n: nat): Links
    requires n < |u| && forall i :: 0 <= i < |ds| ==> ds[i] < |u|
  {
    if ds == [] then u[n := EOC] else u[n := EOC][ds[|ds| - 1] := n]
  }

  lemma TookLinked(t: Links, cs: seq<nat>, u: Links, ds: seq<nat>, n: nat)
    requires Took(t, cs, u, ds) && IsCluster(u, n) && u[n] == 0 && (forall x :: 2 <= x < n ==> u[x] != 0) && |u| < EOC_MIN
    requires ds != [] ==> Chain(u, ds[0], ds)
    ensures forall i :: 0 <= i < |ds| ==> ds[i] < |u|
    ensures Took(t, cs, Linked(u, ds, n), ds + [n])
  {
    hide FreeList;
    if ds != [] {
      ChainUsed(u, ds[0], ds, |ds| - 1);
    }
    var w := Linked(u, ds, n);
    FreeTaken(u, n, w);
    TookOne(t, cs, u, ds, n, w);
  }

  lemma ChainsLinked(u: Links, ds: seq<nat>, n: nat)
    requires (ds != [] ==> Chain(u, ds[0], ds)) && IsCluster(u, n) && u[n] == 0 && |u| < EOC_MIN
    ensures n !in ds && (forall i :: 0 <= i < |ds| ==> ds[i] < |u|)
    ensures Chain(Linked(u, ds, n), (ds + [n])[0], ds + [n])
    ensures forall d, es :: Chain(u, d, es) && Apart(ds, es) ==> Chain(Linked(u, ds, n), d, es) && Apart(ds + [n], es)
  {
    if ds == [] {
      ChainFirst(u, n);
      assert ds + [n] == [n];
    } else {
      ChainExtend(u, ds[0], ds, n);
    }
  }

  lemma ExtendsOne(t: Links, cs: seq<nat>, u: Links, ds: seq<nat>, n: nat)
    requires Extends(t, cs, u, ds) && IsCluster(u, n) && u[n] == 0 && (forall x :: 2 <= x < n ==> u[x] != 0) && |u| < EOC_MIN
    ensures forall i :: 0 <= i < |ds| ==> ds[i] < |u|
    ensures n !in ds && Extends(t, cs, Linked(u, ds, n), ds + [n])
  {
    hide FreeList, Took, Chain, Apart;
    ChainsLinked(u, ds, n);
    TookLinked(t, cs, u, ds, n);
    var w, es := Linked(u, ds, n), ds + [n];
    assert es[..|cs|] == ds[..|cs|];
    forall x | 0 <= x < |t| && x !in es ensures w[x] == t[x] {
      assert x != n && x !in ds;
      assert ds != [] ==> ds[|ds| - 1] in ds;
    }
    assert u[n] == t[n];
    forall i | |cs| <= i < |es| ensures IsCluster(t, es[i]) && t[es[i]] == 0 {
    }
  }

  // ---- the bytes of a growing file ----

  /** q lies in one of the clusters. */
  predicate InSome(g: Geom, ds: seq<nat>, q: nat) {
    exists i :: 0 <= i < |ds| && 2 <= ds[i] && ClusterSector(g, ds[i]) <= q < ClusterSector(g, ds[i]) + g.spc
  }

  /** Nothing of the data area outside the clusters changed. */
  ghost predicate OnlyIn(g: Geom, d: Disk, e: Disk, ds: seq<nat>) {
    |e| == |d| && forall q :: g.data <= q < |d| && !InSome(g, ds, q) ==> e[q] == d[q]
  }

  /** After `total` bytes of src have been written at off: they stand there, and every other byte, also of the
      clusters added, is what its cluster held before. */
  ghost predicate Written(g: Geom, d: Disk, off: nat, src: seq<Byte>, total: nat, e: Disk, ds: seq<nat>)
    requires g.Valid() && |d| == g.sectors == |e| && InClusters(g, ds) && total <= |src|
  {
    && (forall pos :: 0 <= pos < Times(|ds|, Span(g)) ==> WrittenAt(g, d, off, src, total, e, ds, pos))
    && (0 < total ==> off + total <= Times(|ds|, Span(g)))
  }

  ghost predicate WrittenAt(g: Geom, d: Disk, off: nat, src: seq<Byte>, total: nat, e: Disk, ds: seq<nat>, pos: nat)
    requires g.Valid() && |d| == g.sectors == |e| && InClusters(g, ds) && total <= |src|
    requires pos < Times(|ds|, Span(g))
  {
    if off <= pos < off + total then FileByte(g, e, ds, pos) == src[pos - off]
    else FileByte(g, e, ds, pos) == FileByte(g, d, ds, pos)
  }

  /** A byte is that of its cluster, wherever the list of clusters goes on. */
  lemma FileBytePrefix(g: Geom, d: Disk, e: Disk, cs: seq<nat>, ds: seq<nat>, pos: nat)
    requires g.Valid() && |d| == g.sectors == |e| && InClusters(g, cs) && InClusters(g, ds)
    requires |cs| <= |ds| && ds[..|cs|] == cs && pos < Times(|cs|, Span(g))
    requires forall q :: g.data <= q < |d| ==> e[q] == d[q]
    ensures pos < Times(|ds|, Span(g)) && FileByte(g, e, ds, pos) == FileByte(g, d, cs, pos)
  {
    TimesLe(|cs|, |ds|, Span(g));
    QuotRest(pos, Span(g), |cs|);
    var j := Quot(pos, Span(g));
    assert ds[j] == ds[..|cs|][j] == cs[j];
    ClusterIn(g, cs[j]);
    hide Times, Quot, Rest;
  }

  /** Linking a new cluster changes no byte. */
  lemma WrittenLinked(g: Geom, d: Disk, off: nat, src: seq<Byte>, total: nat, e: Disk, ds: seq<nat>, h: Disk, n: nat)
    requires g.Valid() && |d| == g.sectors == |e| == |h| && InClusters(g, ds) && total <= |src|
    requires Written(g, d, off, src, total, e, ds) && 2 <= n < g.Entries() && n !in ds && OnlyIn(g, d, e, ds)
    requires forall q :: g.data <= q < |d| ==> h[q] == e[q]
    ensures InClusters(g, ds + [n])
    ensures Written(g, d, off, src, total, h, ds + [n])
  {
    var es := ds + [n];
    TimesLe(|ds|, |es|, Span(g));
    hide Times, Span, FileByte, OnlyIn;
    forall pos | 0 <= pos < Times(|es|, Span(g)) ensures WrittenAt(g, d, off, src, total, h, es, pos) {
      if pos < Times(|ds|, Span(g)) {
        assert es[..|ds|] == ds;
        FileBytePrefix(g, e, h, ds, es, pos);
        FileBytePrefix(g, d, d, ds, es, pos);
        assert WrittenAt(g, d, off, src, total, e, ds, pos);
      } else {
        NewClusterByte(g, d, e, h, ds, n, pos);
      }
    }
  }

  /** A cluster that was not part of the file holds what it held. */
  lemma NewClusterByte(g: Geom, d: Disk, e: Disk, h: Disk, ds: seq<nat>, n: nat, pos: nat)
    requires g.Valid() && |d| == g.sectors == |e| == |h| && InClusters(g, ds) && 2 <= n < g.Entries() && n !in ds && OnlyIn(g, d, e, ds)
    requires forall q :: g.data <= q < |d| ==> h[q] == e[q]
    requires Times(|ds|, Span(g)) <= pos < Times(|ds| + 1, Span(g))
    ensures FileByte(g, h, ds + [n], pos) == FileByte(g, d, ds + [n], pos)
  {
    var b, es := Span(g), ds + [n];
    TimesNext(|ds|, b);
    QuotIs(pos, b, |ds|, pos - Times(|ds|, b));
    QuotRest(pos, b, |es|);
    assert es[|ds|] == n;
    ClusterIn(g, n);
    var q := ClusterSector(g, n) + Rest(pos, b) / SECTOR;
    NotInSome(g, ds, n, q);
  }

  lemma NotInSome(g: Geom, ds: seq<nat>, n: nat, q: nat)
    requires 2 <= n && n !in ds && ClusterSector(g, n) <= q < ClusterSector(g, n) + g.spc
    ensures !InSome(g, ds, q)
  {
    forall i | 0 <= i < |ds| && 2 <= ds[i] ensures !(ClusterSector(g, ds[i]) <= q < ClusterSector(g, ds[i]) + g.spc) {
      assert ds[i] in ds;
      ClustersApart(g, ds[i], n);
    }
  }

  /** Writing into cluster ds[i] what comes next. */
  lemma WrittenMore(g: Geom, d: Disk, off: nat, src: seq<Byte>, total: nat, e: Disk, ds: seq<nat>, h: Disk, i: nat, skip: nat, done: nat)
    requires g.Valid() && |d| == g.sectors == |e| == |h| && InClusters(g, ds) && Distinct(ds)
    requires total <= done <= |src| && i < |ds| && off + total == Times(i, Span(g)) + skip && skip + (done - total) <= Span(g)
    requires Written(g, d, off, src, total, e, ds)
    requires OnlyCluster(g, e, h, ds[i]) && ClusterPut(g, e, h, ds[i], skip, src[total..done])
    ensures Written(g, d, off, src, done, h, ds)
  {
    TimesNext(i, Span(g));
    TimesLe(i + 1, |ds|, Span(g));
    hide Times, Span, FileByte, OnlyCluster, ClusterPut, Geom.Valid;
    var b := src[total..done];
    forall pos | 0 <= pos < Times(|ds|, Span(g)) ensures WrittenAt(g, d, off, src, done, h, ds, pos) {
      FilePut(g, e, h, ds, i, skip, b, pos);
      assert WrittenAt(g, d, off, src, total, e, ds, pos);
    }
  }

  // ---- vfat_write ----

  /** The fields of a file's vnode that the driver uses. */
  class FatVnode {
    const isDir: bool
    const deSec: nat      // where its directory entry is; 0, 0: none
    const deOff: nat
    var cluster: nat      // VNODE_CLUSTER; below 2: no cluster yet
    var size: nat

    constructor (dir: bool, sec: nat, off: nat, c: nat, n: nat)
      ensures isDir == dir && deSec == sec && deOff == off && cluster == c && size == n
    {
      isDir, deSec, deOff, cluster, size := dir, sec, off, c, n;
    }
  }

  datatype Ret = Count(n: nat) | NoSpace | IsDirectory

  // ---- how far a write gets, from the table before it ----

  /** All clusters the file can have: its own and the free ones. */
  function Have(t: Links, cs: seq<nat>): nat { |cs| + |FreeList(t)| }

  /** How many a write of n bytes at off asks for; also n == 0 goes to the cluster of off. */
  function Need(g: Geom, off: nat, n: nat): nat { Quot(if n == 0 then off else off + n - 1, Span(g)) + 1 }

  /** The clusters afterwards: as many as needed or there are, the lowest free ones behind the file's own. */
  function Grown(g: Geom, t: Links, cs: seq<nat>, off: nat, n: nat): (ds: seq<nat>)
    ensures |cs| <= |ds| && ds[..|cs|] == cs
  {
    var k := Need(g, off, n) - |cs|;
    cs + if k <= 0 then [] else if k <= |FreeList(t)| then FreeList(t)[..k] else FreeList(t)
  }

  /** The result: ENOSPC when off itself is out of reach, else the bytes up to the end of the last cluster to be had. */
  function Outcome(g: Geom, t: Links, cs: seq<nat>, off: nat, n: nat): Ret {
    var room := Times(Have(t, cs), Span(g)) - off;
    if room <= 0 then NoSpace else if room < n then Count(room) else Count(n)
  }

  /** A count is full if and only if there are the clusters for it; it is 0 only if 0 was asked for; it comes with
      a chain that reaches off. */
  lemma OutcomeIs(g: Geom, t: Links, cs: seq<nat>, off: nat, n: nat)
    requires 0 < Span(g)
    ensures var r := Outcome(g, t, cs, off, n);
            && (r == Count(n) <==> Need(g, off, n) <= Have(t, cs))
            && (r == NoSpace <==> Have(t, cs) < Need(g, off, 0))
            && (r.Count? && r.n < n ==> off + r.n == Times(Have(t, cs), Span(g)))
            && |Grown(g, t, cs, off, n)| == (if Need(g, off, n) <= |cs| then |cs| else Min(Need(g, off, n), Have(t, cs)))
            && (r.Count? ==> r.n <= n && (0 < n ==> 0 < r.n) && off + r.n <= Times(|Grown(g, t, cs, off, n)|, Span(g)))
            && (r.Count? ==> off < Times(|Grown(g, t, cs, off, n)|, Span(g)))
  {
    var b, have, last := Span(g), Have(t, cs), if n == 0 then off else off + n - 1;
    QuotWhere(last, b);
    QuotWhere(off, b);
    TimesNext(Quot(last, b), b);
    TimesNext(Quot(off, b), b);
    TimesOrder(have, Quot(last, b) + 1, b);
    TimesOrder(have, Quot(off, b) + 1, b);
    TimesOrder(|cs|, Quot(last, b) + 1, b);
    hide Times, Span, Quot, Rest, FreeList;
    if have <= Quot(last, b) {
      TimesLe(have, Quot(last, b), b);
    }
    if have <= Quot(off, b) {
      TimesLe(have, Quot(off, b), b);
    }
  }

  /** That many clusters of spc sectors reach the last byte, and one less does not. */
  lemma NeedIsLeast(g: Geom, off: nat, n: nat)
    requires 0 < g.spc
    ensures var last := if n == 0 then off else off + n - 1; var k := Need(g, off, n);
            0 < k && (k - 1) * (g.spc * 512) <= last < k * (g.spc * 512)
  {
    var last := if n == 0 then off else off + n - 1;
    QuotWhere(last, Span(g));
    TimesNext(Quot(last, Span(g)), Span(g));
  }

  /** Where a write stands: t, d are the table and the disk it started from, cs the clusters then, ds those now. */
  ghost predicate Growing(g: Geom, t: Links, d: Disk, cs: seq<nat>, u: Links, e: Disk, ds: seq<nat>, off: nat, src: seq<Byte>, total: nat) {
    && g.Valid() && |d| == g.sectors == |e| && |t| == g.Entries() && total <= |src|
    && InClusters(g, cs) && InClusters(g, ds)
    && Extends(t, cs, u, ds)
    && Written(g, d, off, src, total, e, ds)
    && OnlyIn(g, d, e, ds)
  }

  lemma GrowingLinked(g: Geom, t: Links, d: Disk, cs: seq<nat>, u: Links, e: Disk, ds: seq<nat>, off: nat, src: seq<Byte>, total: nat, h: Disk, n: nat)
    requires Growing(g, t, d, cs, u, e, ds, off, src, total) && IsCluster(u, n) && u[n] == 0 && forall x :: 2 <= x < n ==> u[x] != 0
    requires |h| == |e| && forall q :: g.data <= q < |e| ==> h[q] == e[q]
    ensures forall i :: 0 <= i < |ds| ==> ds[i] < |u|
    ensures n !in ds && Growing(g, t, d, cs, Linked(u, ds, n), h, ds + [n], off, src, total)
  {
    hide Written, Extends;
    assert |u| == |t| by { ExtendsSize(t, cs, u, ds); }
    ExtendsSize(t, cs, u, ds);
    ExtendsOne(t, cs, u, ds, n);
    WrittenLinked(g, d, off, src, total, e, ds, h, n);
    forall q | g.data <= q < |d| && !InSome(g, ds + [n], q) ensures h[q] == d[q] {
      InSomeMore(g, ds, n, q);
    }
  }

  lemma ExtendsSize(t: Links, cs: seq<nat>, u: Links, ds: seq<nat>)
    requires Extends(t, cs, u, ds)
    ensures |u| == |t| && |cs| <= |ds| && Distinct(ds) && (ds != [] ==> Chain(u, ds[0], ds))
  {
  }

  lemma InSomeMore(g: Geom, ds: seq<nat>, n: nat, q: nat)
    ensures InSome(g, ds, q) ==> InSome(g, ds + [n], q)
  {
    if i :| 0 <= i < |ds| && 2 <= ds[i] && ClusterSector(g, ds[i]) <= q < ClusterSector(g, ds[i]) + g.spc {
      assert (ds + [n])[i] == ds[i];
    }
  }

  lemma GrowingTable(g: Geom, t: Links, d: Disk, cs: seq<nat>, u: Links, e: Disk, ds: seq<nat>, off: nat, src: seq<Byte>, total: nat, h: Disk)
    requires Growing(g, t, d, cs, u, e, ds, off, src, total)
    requires |h| == |e| && forall q :: g.data <= q < |e| ==> h[q] == e[q]
    ensures Growing(g, t, d, cs, u, h, ds, off, src, total)
  {
    hide Extends, Span, Times;
    forall pos | 0 <= pos < Times(|ds|, Span(g)) ensures WrittenAt(g, d, off, src, total, h, ds, pos) {
      assert ds[..|ds|] == ds;
      FileBytePrefix(g, e, h, ds, ds, pos);
      assert WrittenAt(g, d, off, src, total, e, ds, pos);
    }
  }

  /** fat_alloc_cluster, and fat_set of the last cluster's link if there is one. */
  method Extend(f: Fat, prev: nat, ghost ds: seq<nat>, ghost t: Links, ghost d: Disk, ghost cs: seq<nat>, ghost off: nat, ghost src: seq<Byte>, ghost total: nat)
    returns (rc: Status, n: nat)
    requires f.Valid() && Growing(f.g, t, d, cs, Lows(f.View()), f.disk, ds, off, src, total)
    requires if ds == [] then prev < 2 else prev == ds[|ds| - 1]
    modifies f
    ensures f.Valid()
    ensures rc == Ok ==> Growing(f.g, t, d, cs, Lows(f.View()), f.disk, ds + [n], off, src, total) && 2 <= n < f.g.Entries()
    ensures rc == ENOSPC ==> Growing(f.g, t, d, cs, Lows(f.View()), f.disk, ds, off, src, total)
    ensures rc == ENOSPC ==> |ds| == Have(t, cs)
    ensures rc == Ok || rc == ENOSPC
  {
    hide Growing, Raw, Chain, Extends, Mirrored, TableOnly, Kept, InClusters, Distinct, Apart, Lows, Geom.Valid;
    ShapeOf(f);
    GrowingParts(f.g, t, d, cs, Lows(f.View()), f.disk, ds, off, src, total);
    ghost var u, e := Lows(f.View()), f.disk;
    rc, n := AllocCluster(f);
    TableData(f.g, e, f.disk);
    if rc == ENOSPC {
      GrowingTable(f.g, t, d, cs, u, e, ds, off, src, total, f.disk);
      AllTaken(f.g, t, d, cs, u, e, ds, off, src, total);
      return;
    }
    ghost var e1 := f.disk;
    if 2 <= prev {
      ghost var v := f.View();
      SmallCluster(f.g, n);
      LastIn(f.g, ds);
      f.Set(prev, n);
      TableData(f.g, e1, f.disk);
      LowsSet(v, prev, n);
    }
    assert Lows(f.View()) == Linked(u, ds, n) by { GrowingIn(f.g, t, d, cs, u, e, ds, off, src, total); }
    GrowingLinked(f.g, t, d, cs, u, e, ds, off, src, total, f.disk, n);
  }

  lemma AllTaken(g: Geom, t: Links, d: Disk, cs: seq<nat>, u: Links, e: Disk, ds: seq<nat>, off: nat, src: seq<Byte>, total: nat)
    requires Growing(g, t, d, cs, u, e, ds, off, src, total) && forall x :: 2 <= x < g.Entries() ==> u[x] != 0
    ensures |ds| == Have(t, cs)
  {
    NoneFree(u);
  }

  /** The chain so far: the file's clusters, then the lowest that were free. */
  lemma GrowingTook(g: Geom, t: Links, d: Disk, cs: seq<nat>, u: Links, e: Disk, ds: seq<nat>, off: nat, src: seq<Byte>, total: nat)
    requires Growing(g, t, d, cs, u, e, ds, off, src, total)
    ensures |cs| <= |ds| <= Have(t, cs) && ds == cs + FreeList(t)[..|ds| - |cs|]
  {
  }

  lemma SmallCluster(g: Geom, n: nat)
    requires g.Valid() && n < g.Entries()
    ensures n % LOW == n
  {
  }

  lemma LastIn(g: Geom, ds: seq<nat>)
    requires InClusters(g, ds)
    ensures ds != [] ==> 2 <= ds[|ds| - 1] < g.Entries()
  {
  }

  lemma GrowingIn(g: Geom, t: Links, d: Disk, cs: seq<nat>, u: Links, e: Disk, ds: seq<nat>, off: nat, src: seq<Byte>, total: nat)
    requires Growing(g, t, d, cs, u, e, ds, off, src, total)
    ensures forall i :: 0 <= i < |ds| ==> ds[i] < |u|
  {
  }

  lemma TableData(g: Geom, d: Disk, e: Disk)
    requires TableOnly(g, d, e)
    ensures |e| == |d| && forall q :: g.data <= q < |d| ==> e[q] == d[q]
  {
  }

  lemma GrowingParts(g: Geom, t: Links, d: Disk, cs: seq<nat>, u: Links, e: Disk, ds: seq<nat>, off: nat, src: seq<Byte>, total: nat)
    requires Growing(g, t, d, cs, u, e, ds, off, src, total)
    ensures g.Valid() && |u| == |t| == g.Entries() && InClusters(g, ds) && |e| == g.sectors == |d| && |cs| <= |ds|
    ensures Distinct(ds) && (ds != [] ==> Chain(u, ds[0], ds))
  {
  }

  /** What fat_get finds at the i-th cluster of a chain. */
  lemma NextIs(u: Links, ds: seq<nat>, i: nat)
    requires ds != [] && Chain(u, ds[0], ds) && i < |ds| && |u| < EOC_MIN
    ensures ds[i] < |u|
    ensures if i + 1 < |ds| then u[ds[i]] == ds[i + 1] && 2 <= ds[i + 1] && !IsEoc(u[ds[i]]) else IsEoc(u[ds[i]])
  {
    ChainUsed(u, ds[0], ds, i);
  }

  lemma SmallTable(g: Geom)
    requires g.Valid()
    ensures 2 <= g.Entries() < EOC_MIN && 0 < Span(g)
  {
  }

  /** The navigation loop of vfat_write: follows the chain to the cluster of off, extending it where it ends. */
  method Seek(f: Fat, cluster0: nat, off: nat, ghost ds0: seq<nat>, ghost t: Links, ghost d: Disk, ghost cs: seq<nat>, ghost src: seq<Byte>)
    returns (rc: Status, cluster: nat, skip: nat, ghost ds: seq<nat>, ghost i: nat)
    requires f.Valid() && Growing(f.g, t, d, cs, Lows(f.View()), f.disk, ds0, off, src, 0) && ds0 != [] && cluster0 == ds0[0]
    modifies f
    ensures f.Valid() && Growing(f.g, t, d, cs, Lows(f.View()), f.disk, ds, off, src, 0) && ds != [] && ds[0] == ds0[0]
    ensures rc == Ok ==> i < |ds| && cluster == ds[i] && skip < Span(f.g) && off == Times(i, Span(f.g)) + skip
    ensures rc == Ok ==> |ds0| <= |ds| && (|ds| == |ds0| || |ds| == i + 1)
    ensures rc == ENOSPC ==> |ds| == Have(t, cs) && Times(|ds|, Span(f.g)) <= off
    ensures rc == Ok || rc == ENOSPC
  {
    hide Growing, Raw, Chain, Extends, TableOnly, Kept, InClusters, Times, Lows, Geom.Valid, Geom.Entries, Mirrored, Span;
    ShapeOf(f);
    SmallTable(f.g);
    rc, cluster, skip, ds, i := Ok, cluster0, off, ds0, 0;
    TimesNext(0, Span(f.g));
    while Span(f.g) <= skip
      invariant f.Valid() && Growing(f.g, t, d, cs, Lows(f.View()), f.disk, ds, off, src, 0)
      invariant rc == Ok && i < |ds| && cluster == ds[i] && ds[0] == ds0[0] && off == Times(i, Span(f.g)) + skip
      invariant |ds0| <= |ds| && (|ds| == |ds0| || |ds| == i + 1)
      decreases skip
    {
      TimesNext(i, Span(f.g));
      ghost var u, e := Lows(f.View()), f.disk;
      GrowingParts(f.g, t, d, cs, u, e, ds, off, src, 0);
      NextIs(u, ds, i);
      var next := GetLow(f, cluster);
      TableData(f.g, e, f.disk);
      GrowingTable(f.g, t, d, cs, u, e, ds, off, src, 0, f.disk);
      if IsEoc(next) {
        var n;
        rc, n := Extend(f, cluster, ds, t, d, cs, off, src, 0);
        if rc != Ok {
          return;
        }
        ds := ds + [n];
        next := n;
      }
      cluster := next;
      i := i + 1;
      skip := skip - Span(f.g);
    }
  }

  /** fat_get, seen through the 28-bit table. */
  method GetLow(f: Fat, c: nat) returns (v: nat)
    requires f.Valid() && c < f.g.Entries()
    modifies f
    ensures f.Valid() && Lows(f.View()) == Lows(old(f.View())) && v == Lows(f.View())[c]
    ensures TableOnly(f.g, old(f.disk), f.disk)
  {
    v := f.Get(c);
  }

  /** The data loop: clusters are filled one after the other, new ones linked at the end. */
  method WriteLoop(f: Fat, src: seq<Byte>, off: nat, cluster0: nat, skip0: nat, ghost ds0: seq<nat>, ghost i0: nat,
                   ghost t: Links, ghost d: Disk, ghost cs: seq<nat>)
    returns (total: nat, ghost ds: seq<nat>, ghost i: nat)
    requires f.Valid() && Growing(f.g, t, d, cs, Lows(f.View()), f.disk, ds0, off, src, 0)
    requires i0 < |ds0| && cluster0 == ds0[i0] && skip0 < Span(f.g) && off == Times(i0, Span(f.g)) + skip0
    modifies f
    ensures f.Valid() && total <= |src| && Growing(f.g, t, d, cs, Lows(f.View()), f.disk, ds, off, src, total)
    ensures ds != [] && ds[0] == ds0[0] && |ds0| <= |ds|
    ensures total < |src| ==> 0 < total && |ds| == Have(t, cs) && off + total == Times(|ds|, Span(f.g))
    ensures total == |src| ==> (|ds| == |ds0| || |ds| == i) && UpTo(f.g, off, total, i0, i) && i <= |ds|
  {
    hide Growing, Raw, Chain, Extends, TableOnly, Kept, InClusters, Times, Lows, Geom.Valid, Geom.Entries, Mirrored, Span, OnlyCluster, ClusterPut;
    ShapeOf(f);
    SmallTable(f.g);
    ds, i, total := ds0, i0, 0;
    var cluster: nat, skip: nat, prev: nat := cluster0, skip0, 0;
    while total < |src|
      invariant f.Valid() && total <= |src| && Growing(f.g, t, d, cs, Lows(f.View()), f.disk, ds, off, src, total)
      invariant i <= |ds| && ds != [] && ds[0] == ds0[0] && skip < Span(f.g)
      invariant if i < |ds| then cluster == ds[i] else IsEoc(cluster) && prev == ds[|ds| - 1] && skip == 0
      invariant total < |src| ==> off + total == Times(i, Span(f.g)) + skip
      invariant |ds0| <= |ds| && (|ds| == |ds0| || |ds| == i) && UpTo(f.g, off, total, i0, i)
      decreases |src| - total
    {
      GrowingParts(f.g, t, d, cs, Lows(f.View()), f.disk, ds, off, src, total);
      if i < |ds| {
        NextIs(Lows(f.View()), ds, i);
        NotEnd(f.g, ds, i);
      }
      if cluster < 2 || IsEoc(cluster) {
        assert i == |ds|;
        var rc, n := Extend(f, prev, ds, t, d, cs, off, src, total);
        if rc != Ok {
          return;
        }
        ds := ds + [n];
        cluster := n;
        skip := 0;
        GrowingParts(f.g, t, d, cs, Lows(f.View()), f.disk, ds, off, src, total);
        NotEnd(f.g, ds, i);
      }
      ghost var u, e, was := Lows(f.View()), f.disk, total;
      total := WriteCluster(f, cluster, skip, src, total);
      GrowingMore(f.g, t, d, cs, u, e, ds, off, src, was, f.disk, i, skip, total);
      ghost var e1 := f.disk;
      prev := cluster;
      NextIs(u, ds, i);
      GrowingParts(f.g, t, d, cs, u, f.disk, ds, off, src, total);
      cluster := GetLow(f, cluster);
      TableData(f.g, e1, f.disk);
      GrowingTable(f.g, t, d, cs, u, e1, ds, off, src, total, f.disk);
      TimesNext(i, Span(f.g));
      i := i + 1;
      skip := 0;
    }
  }

  /** The loop has filled clusters i0 to i - 1 of the file, the last of them at least in part. */
  predicate UpTo(g: Geom, off: nat, total: nat, i0: nat, i: nat) {
    if total == 0 then i == i0
    else i0 < i && Times(i - 1, Span(g)) < off + total <= Times(i, Span(g))
  }

  lemma NotEnd(g: Geom, ds: seq<nat>, i: nat)
    requires g.Valid() && InClusters(g, ds) && i < |ds|
    ensures 2 <= ds[i] < g.Entries() && !IsEoc(ds[i])
  {
  }

  lemma GrowingMore(g: Geom, t: Links, d: Disk, cs: seq<nat>, u: Links, e: Disk, ds: seq<nat>, off: nat, src: seq<Byte>, total: nat,
                    h: Disk, i: nat, skip: nat, done: nat)
    requires Growing(g, t, d, cs, u, e, ds, off, src, total) && |h| == |e|
    requires total <= done <= |src| && i < |ds| && off + total == Times(i, Span(g)) + skip && skip + (done - total) <= Span(g)
    requires 2 <= ds[i] < g.Entries() && OnlyCluster(g, e, h, ds[i]) && ClusterPut(g, e, h, ds[i], skip, src[total..done])
    ensures Growing(g, t, d, cs, u, h, ds, off, src, done)
  {
    GrowingParts(g, t, d, cs, u, e, ds, off, src, total);
    hide Extends, Written, ClusterPut, Times, Span;
    WrittenMore(g, d, off, src, total, e, ds, h, i, skip, done);
  }

  // ---- the directory entry of the file ----

  /** DIRENT_POS_SEC and _OFF both zero mean that there is none. */
  predicate HasEntry(sec: nat, o: nat) { 0 < sec || 0 < o }

  /** first_cluster_hi and _lo of the entry at byte o. */
  function EntryFirst(s: Sector, o: nat, c: nat): Sector
    requires o + 32 <= SECTOR
  {
    PutU16(PutU16(s, o + 20, c / 0x1_0000 % 0x1_0000), o + 26, c % 0x1_0000)
  }

  function EntrySize(s: Sector, o: nat, n: U32): Sector
    requires o + 32 <= SECTOR
  {
    PutU32(s, o + 28, n)
  }

  /** What the two stores do to the bytes of the entry's sector. */
  lemma EntryFirstIs(s: Sector, o: nat, c: nat)
    requires o + 32 <= SECTOR && c < 0x1_0000_0000
    ensures var t := EntryFirst(s, o, c);
            && U16At(t, o + 20) == c / 0x1_0000 && U16At(t, o + 26) == c % 0x1_0000 && U32At(t, o + 28) == U32At(s, o + 28)
            && forall k :: 0 <= k < SECTOR && !(o + 20 <= k < o + 22) && !(o + 26 <= k < o + 28) ==> t[k] == s[k]
  {
    var m := PutU16(s, o + 20, c / 0x1_0000 % 0x1_0000);
    PutGet16(s, o + 20, c / 0x1_0000 % 0x1_0000, o + 20);
    PutGet16(m, o + 26, c % 0x1_0000, o + 26);
    PutGet16(m, o + 26, c % 0x1_0000, o + 20);
  }

  lemma EntrySizeIs(s: Sector, o: nat, n: U32)
    requires o + 32 <= SECTOR
    ensures var t := EntrySize(s, o, n);
            && U32At(t, o + 28) == n && U16At(t, o + 20) == U16At(s, o + 20) && U16At(t, o + 26) == U16At(s, o + 26)
            && forall k :: 0 <= k < SECTOR && !(o + 28 <= k < o + 32) ==> t[k] == s[k]
  {
    PutGet32(s, o + 28, n, o + 28);
  }

  /** Of the sector s only the entry at byte o changed, to t: its first cluster and its size, where there is a new one. */
  ghost predicate EntryStored(s: Sector, t: Sector, o: nat, first: Option<nat>, size: Option<nat>)
    requires o + 32 <= SECTOR
  {
    && U16At(t, o + 20) == (if first.Some? then first.value / 0x1_0000 else U16At(s, o + 20))
    && U16At(t, o + 26) == (if first.Some? then first.value % 0x1_0000 else U16At(s, o + 26))
    && U32At(t, o + 28) == (if size.Some? then size.value else U32At(s, o + 28))
    && forall k :: 0 <= k < SECTOR && !(o + 20 <= k < o + 22) && !(o + 26 <= k < o + 32) ==> t[k] == s[k]
  }

  lemma EntryDone(s: Sector, m: Sector, t: Sector, o: nat, first: Option<nat>, size: Option<nat>)
    requires o + 32 <= SECTOR && (first.Some? ==> first.value < WORD) && (size.Some? ==> size.value < WORD)
    requires m == (if first.Some? then EntryFirst(s, o, first.value) else s) && t == (if size.Some? then EntrySize(m, o, size.value) else m)
    ensures EntryStored(s, t, o, first, size)
  {
    if first.Some? {
      EntryFirstIs(s, o, first.value);
    }
    if size.Some? {
      EntrySizeIs(m, o, size.value);
    }
    hide EntryFirst, EntrySize;
  }

  /** The entry lies in a data sector that is neither part of the file nor of a free cluster. */
  ghost predicate EntryOk(g: Geom, t: Links, cs: seq<nat>, sec: nat, o: nat) {
    HasEntry(sec, o) ==>
      && o + 32 <= SECTOR && g.data <= sec < g.sectors
      && !InSome(g, cs, sec)
      && forall c: nat :: IsCluster(t, c) && t[c] == 0 ==> !InSome(g, [c], sec)
  }

  /** Writing the file's clusters leaves the entry alone. */
  lemma EntryStays(g: Geom, t: Links, d: Disk, cs: seq<nat>, u: Links, e: Disk, ds: seq<nat>, off: nat, src: seq<Byte>, total: nat, sec: nat, o: nat)
    requires Growing(g, t, d, cs, u, e, ds, off, src, total) && EntryOk(g, t, cs, sec, o) && HasEntry(sec, o)
    ensures o + 32 <= SECTOR && g.data <= sec < |d| == |e| && e[sec] == d[sec]
  {
    EntryOutside(g, t, cs, u, ds, sec, o);
    hide InSome;
  }

  lemma EntryOutside(g: Geom, t: Links, cs: seq<nat>, u: Links, ds: seq<nat>, sec: nat, o: nat)
    requires EntryOk(g, t, cs, sec, o) && HasEntry(sec, o) && Extends(t, cs, u, ds)
    ensures !InSome(g, ds, sec)
  {
    hide Took;
    forall i | 0 <= i < |ds| && 2 <= ds[i] ensures !(ClusterSector(g, ds[i]) <= sec < ClusterSector(g, ds[i]) + g.spc) {
      var c := ds[i];
      if i < |cs| {
        assert c == ds[..|cs|][i] == cs[i];
      } else {
        assert [c][0] == c && !InSome(g, [c], sec);
      }
    }
  }

  /** A byte depends on its file's clusters alone. */
  lemma FileByteSame(g: Geom, d: Disk, e: Disk, ds: seq<nat>, pos: nat)
    requires g.Valid() && |d| == g.sectors == |e| && InClusters(g, ds) && pos < Times(|ds|, Span(g))
    requires forall q :: 0 <= q < |d| && InSome(g, ds, q) ==> e[q] == d[q]
    ensures FileByte(g, e, ds, pos) == FileByte(g, d, ds, pos)
  {
    QuotRest(pos, Span(g), |ds|);
    var c, k := ds[Quot(pos, Span(g))], Rest(pos, Span(g));
    ClusterIn(g, c);
    assert InSome(g, ds, ClusterSector(g, c) + k / SECTOR);
  }

  /** What a write did, in the terms of the volume before it: sec is the sector of the directory entry. */
  ghost predicate FileWritten(g: Geom, t: Links, d: Disk, cs: seq<nat>, u: Links, e: Disk, ds: seq<nat>, off: nat, src: seq<Byte>, total: nat, sec: nat) {
    && g.Valid() && |d| == g.sectors == |e| && total <= |src|
    && InClusters(g, cs) && InClusters(g, ds)
    && Extends(t, cs, u, ds)
    && Written(g, d, off, src, total, e, ds)
    && forall q :: g.data <= q < |d| && !InSome(g, ds, q) && q != sec ==> e[q] == d[q]
  }

  /** The entry's sector does not matter to the file's bytes. */
  lemma EntryApart(g: Geom, t: Links, d: Disk, d1: Disk, cs: seq<nat>, u: Links, e: Disk, h: Disk, ds: seq<nat>, off: nat, src: seq<Byte>, total: nat,
                   sec: nat, o: nat)
    requires Growing(g, t, d1, cs, u, e, ds, off, src, total) && EntryOk(g, t, cs, sec, o)
    requires |d| == |d1| == |h| && (forall q :: g.data <= q < |d| && q != sec ==> d1[q] == d[q] && h[q] == e[q])
    requires !HasEntry(sec, o) ==> forall q :: g.data <= q < |d| ==> d1[q] == d[q] && h[q] == e[q]
    ensures FileWritten(g, t, d, cs, u, h, ds, off, src, total, sec)
  {
    if HasEntry(sec, o) {
      EntryOutside(g, t, cs, u, ds, sec, o);
    }
    hide Extends, Times, Span, FileByte, Written, InSome, EntryOk;
    InSomeData(g, ds);
    WrittenSame(g, d1, d, off, src, total, e, h, ds);
  }

  /** Sectors outside the file's clusters do not matter. */
  lemma WrittenSame(g: Geom, d: Disk, d': Disk, off: nat, src: seq<Byte>, total: nat, e: Disk, e': Disk, ds: seq<nat>)
    requires g.Valid() && |d| == |d'| == g.sectors == |e| == |e'| && InClusters(g, ds) && total <= |src|
    requires forall q :: 0 <= q < |d| && InSome(g, ds, q) ==> d[q] == d'[q] && e[q] == e'[q]
    requires Written(g, d, off, src, total, e, ds)
    ensures Written(g, d', off, src, total, e', ds)
  {
    hide Times, Span, FileByte, InSome;
    forall pos | 0 <= pos < Times(|ds|, Span(g)) ensures WrittenAt(g, d', off, src, total, e', ds, pos) {
      assert WrittenAt(g, d, off, src, total, e, ds, pos);
      FileByteSame(g, e, e', ds, pos);
      FileByteSame(g, d, d', ds, pos);
    }
  }

  lemma InSomeData(g: Geom, ds: seq<nat>)
    requires g.Valid() && InClusters(g, ds)
    ensures forall q :: InSome(g, ds, q) ==> g.data <= q
  {
  }

  lemma GrowingStart(g: Geom, t: Links, d: Disk, cs: seq<nat>, off: nat, src: seq<Byte>)
    requires g.Valid() && |d| == g.sectors && |t| == g.Entries() && InClusters(g, cs) && (cs != [] ==> Chain(t, cs[0], cs))
    ensures Growing(g, t, d, cs, t, d, cs, off, src, 0)
  {
    ExtendsNone(t, cs);
  }

  /** The first cluster of a file that had none; the base of what follows has the entry already updated. */
  lemma GrowingEntry(g: Geom, t: Links, d: Disk, u: Links, e: Disk, ds: seq<nat>, off: nat, src: seq<Byte>, sec: nat, x: Sector)
    requires Growing(g, t, d, [], u, e, ds, off, src, 0) && sec < |d|
    ensures Growing(g, t, d[sec := x], [], u, e[sec := x], ds, off, src, 0)
  {
    hide Extends, Times, Span;
    var d', e' := d[sec := x], e[sec := x];
    forall pos | 0 <= pos < Times(|ds|, Span(g)) ensures WrittenAt(g, d', off, src, 0, e', ds, pos) {
      assert WrittenAt(g, d, off, src, 0, e, ds, pos);
      PutBoth(g, d, e, ds, sec, x, pos);
    }
  }

  /** The same sector stored on two disks. */
  lemma PutBoth(g: Geom, d: Disk, e: Disk, ds: seq<nat>, sec: nat, x: Sector, pos: nat)
    requires g.Valid() && |d| == g.sectors == |e| && InClusters(g, ds) && pos < Times(|ds|, Span(g)) && sec < |d|
    requires FileByte(g, e, ds, pos) == FileByte(g, d, ds, pos)
    ensures FileByte(g, e[sec := x], ds, pos) == FileByte(g, d[sec := x], ds, pos)
  {
    QuotRest(pos, Span(g), |ds|);
    ClusterIn(g, ds[Quot(pos, Span(g))]);
    hide Times, Quot, Rest;
  }

  method Write(f: Fat, vn: FatVnode, src: seq<Byte>, off: nat, ghost cs: seq<nat>) returns (ret: Ret, ghost ds: seq<nat>)
    requires f.Valid() && InClusters(f.g, cs)
    requires if vn.cluster < 2 then cs == [] else Chain(Lows(f.View()), vn.cluster, cs)
    requires EntryOk(f.g, Lows(f.View()), cs, vn.deSec, vn.deOff)
    modifies f, vn
    ensures f.Valid()
    ensures vn.isDir ==> ret == IsDirectory && f.disk == old(f.disk) && f.View() == old(f.View())
    ensures !vn.isDir ==>
      var total := if ret.Count? then ret.n else 0;
      && ret == Outcome(f.g, Lows(old(f.View())), cs, off, |src|)
      && ds == Grown(f.g, Lows(old(f.View())), cs, off, |src|)
      && (ret == Count(|src|) <==> Need(f.g, off, |src|) <= Have(Lows(old(f.View())), cs))
      && (ret.Count? ==> off < Times(|ds|, Span(f.g)) && (0 < |src| ==> 0 < ret.n))
      && FileWritten(f.g, Lows(old(f.View())), old(f.disk), cs, Lows(f.View()), f.disk, ds, off, src, total, vn.deSec)
      && (if ds == [] then vn.cluster == old(vn.cluster) else vn.cluster == ds[0])
      && vn.size == (if ret.Count? && old(vn.size) < (off + ret.n) % WORD then (off + ret.n) % WORD else old(vn.size))
      && (ret.Count? ==> !f.dirty)
      && (0 < vn.deSec || 0 < vn.deOff ==>
            && vn.deSec < |f.disk| == |old(f.disk)| && vn.deOff + 32 <= SECTOR
            && EntryStored(old(f.disk)[vn.deSec], f.disk[vn.deSec], vn.deOff, if old(vn.cluster) < 2 && ds != [] then Some(ds[0]) else None,
                           if vn.size != old(vn.size) then Some(vn.size) else None))
  {
    hide Growing, FileWritten, Raw, Chain, Extends, TableOnly, Kept, InClusters, Times, Lows, Geom.Valid, Geom.Entries, Mirrored, Span, InSome,
         EntryOk, EntryFirst, EntrySize, EntryStored, Outcome, Grown, Need, Have;
    ds := cs;
    if vn.isDir {
      return IsDirectory, ds;
    }
    ghost var t, d0 := Lows(f.View()), f.disk;
    ghost var d1, first: Option<nat> := d0, None;
    ShapeOf(f);
    SmallTable(f.g);
    OutcomeIs(f.g, t, cs, off, |src|);
    if HasEntry(vn.deSec, vn.deOff) {
      EntryBounds(f.g, t, cs, vn.deSec, vn.deOff);
    }
    HeadIs(t, vn.cluster, cs);
    GrowingStart(f.g, t, d0, cs, off, src);
    var cluster := vn.cluster;
    if cluster < 2 {
      var rc, n;
      rc, n, d1 := FirstCluster(f, vn, t, d0, off, src);
      if rc != Ok {
        EntryApart(f.g, t, d0, d0, cs, Lows(f.View()), f.disk, f.disk, ds, off, src, 0, vn.deSec, vn.deOff);
        if HasEntry(vn.deSec, vn.deOff) {
          EntryStays(f.g, t, d0, cs, Lows(f.View()), f.disk, ds, off, src, 0, vn.deSec, vn.deOff);
          EntryDone(d0[vn.deSec], d0[vn.deSec], f.disk[vn.deSec], vn.deOff, None, None);
        }
        TimesNext(0, Span(f.g));
        OutOfReach(f.g, t, d0, cs, Lows(f.View()), f.disk, ds, off, src);
        return NoSpace, ds;
      }
      cluster := n;
      ds := [n];
      first := Some(n);
    }
    ret, ds := WriteFrom(f, vn, src, off, cluster, ds, first, t, d0, d1, cs);
  }

  /** The rest of vfat_write, from the first cluster on. */
  method WriteFrom(f: Fat, vn: FatVnode, src: seq<Byte>, off: nat, cluster0: nat, ghost ds0: seq<nat>, ghost first: Option<nat>,
                   ghost t: Links, ghost d0: Disk, ghost d1: Disk, ghost cs: seq<nat>)
    returns (ret: Ret, ghost ds: seq<nat>)
    requires f.Valid() && Growing(f.g, t, d1, cs, Lows(f.View()), f.disk, ds0, off, src, 0) && ds0 != [] && cluster0 == ds0[0]
    requires |ds0| == (if cs == [] then 1 else |cs|)
    requires EntryOk(f.g, t, cs, vn.deSec, vn.deOff) && (first.Some? ==> first.value < WORD)
    requires |d0| == |d1| && forall q :: 0 <= q < |d0| && (q != vn.deSec || !HasEntry(vn.deSec, vn.deOff)) ==> d1[q] == d0[q]
    requires HasEntry(vn.deSec, vn.deOff) ==>
      && vn.deOff + 32 <= SECTOR && vn.deSec < |d0|
      && d1[vn.deSec] == if first.Some? then EntryFirst(d0[vn.deSec], vn.deOff, first.value) else d0[vn.deSec]
    modifies f, vn`size
    ensures f.Valid() && ds != [] && ds[0] == ds0[0]
    ensures ret == Outcome(f.g, t, cs, off, |src|) && ds == Grown(f.g, t, cs, off, |src|)
    ensures FileWritten(f.g, t, d0, cs, Lows(f.View()), f.disk, ds, off, src, if ret.Count? then ret.n else 0, vn.deSec)
    ensures vn.size == (if ret.Count? && old(vn.size) < (off + ret.n) % WORD then (off + ret.n) % WORD else old(vn.size))
    ensures ret.Count? ==> !f.dirty
    ensures HasEntry(vn.deSec, vn.deOff) ==>
      && vn.deSec < |f.disk| == |d0|
      && EntryStored(d0[vn.deSec], f.disk[vn.deSec], vn.deOff, first, if vn.size != old(vn.size) then Some(vn.size) else None)
  {
    hide Growing, FileWritten, Raw, Chain, Extends, TableOnly, Kept, InClusters, Times, Lows, Geom.Valid, Geom.Entries, Mirrored, Span, InSome,
         EntryOk, EntryFirst, EntrySize, EntryStored, Outcome, Grown, Need, Have;
    ghost var i, n0 := 0, |ds0|;
    ShapeOf(f);
    GrowingParts(f.g, t, d1, cs, Lows(f.View()), f.disk, ds0, off, src, 0);
    var rc, cluster, skip;
    rc, cluster, skip, ds, i := Seek(f, cluster0, off, ds0, t, d1, cs, src);
    if rc != Ok {
      OutOfReach(f.g, t, d1, cs, Lows(f.View()), f.disk, ds, off, src);
      EntryApart(f.g, t, d0, d1, cs, Lows(f.View()), f.disk, f.disk, ds, off, src, 0, vn.deSec, vn.deOff);
      if HasEntry(vn.deSec, vn.deOff) {
        EntryStays(f.g, t, d1, cs, Lows(f.View()), f.disk, ds, off, src, 0, vn.deSec, vn.deOff);
        EntryDone(d0[vn.deSec], d1[vn.deSec], f.disk[vn.deSec], vn.deOff, first, None);
      }
      return NoSpace, ds;
    }
    var total;
    ghost var i0, n1, k := i, |ds|, 0;
    total, ds, k := WriteLoop(f, src, off, cluster, skip, ds, i, t, d1, cs);
    WrittenTo(f.g, t, d1, cs, Lows(f.View()), f.disk, ds, off, src, total, n0, n1, i0, skip, k);
    FinishWrite(f, vn, off, total, t, d0, d1, cs, ds, src);
    if HasEntry(vn.deSec, vn.deOff) {
      EntryDone(d0[vn.deSec], d1[vn.deSec], f.disk[vn.deSec], vn.deOff, first, if vn.size != old(vn.size) then Some(vn.size) else None);
    }
    ret := Count(total);
  }

  /** The chain is as long as it can be and does not reach off. */
  lemma OutOfReach(g: Geom, t: Links, d: Disk, cs: seq<nat>, u: Links, e: Disk, ds: seq<nat>, off: nat, src: seq<Byte>)
    requires Growing(g, t, d, cs, u, e, ds, off, src, 0) && |ds| == Have(t, cs) && Times(|ds|, Span(g)) <= off
    ensures Outcome(g, t, cs, off, |src|) == NoSpace && ds == Grown(g, t, cs, off, |src|)
  {
    SmallTable(g);
    GrowingTook(g, t, d, cs, u, e, ds, off, src, 0);
    NeedMore(g, off, |src|, |ds|);
    hide Growing, Times, Span, Need, FreeList;
    AllOf(t, cs, ds);
  }

  lemma AllOf(t: Links, cs: seq<nat>, ds: seq<nat>)
    requires |cs| <= |ds| == Have(t, cs) && ds == cs + FreeList(t)[..|ds| - |cs|]
    ensures ds == cs + FreeList(t)
  {
    hide FreeList;
    assert FreeList(t)[..|FreeList(t)|] == FreeList(t);
  }

  lemma NeedMore(g: Geom, off: nat, n: nat, k: nat)
    requires 0 < Span(g) && Times(k, Span(g)) <= if n == 0 then off else off + n - 1
    ensures k < Need(g, off, n)
  {
    var b, last := Span(g), if n == 0 then off else off + n - 1;
    QuotWhere(last, b);
    TimesNext(Quot(last, b), b);
    hide Times, Quot, Span;
    if Quot(last, b) + 1 <= k {
      TimesLe(Quot(last, b) + 1, k, b);
    }
  }

  /** The last cluster filled is the last one needed. */
  lemma NeedIs(g: Geom, off: nat, n: nat, i: nat)
    requires 0 < Span(g)
    requires var last := if n == 0 then off else off + n - 1; Times(i, Span(g)) <= last < Times(i + 1, Span(g))
    ensures Need(g, off, n) == i + 1
  {
    var last := if n == 0 then off else off + n - 1;
    TimesNext(i, Span(g));
    QuotIs(last, Span(g), i, last - Times(i, Span(g)));
  }

  lemma WrittenTo(g: Geom, t: Links, d: Disk, cs: seq<nat>, u: Links, e: Disk, ds: seq<nat>, off: nat, src: seq<Byte>, total: nat,
                  n0: nat, n1: nat, i0: nat, skip: nat, i: nat)
    requires Growing(g, t, d, cs, u, e, ds, off, src, total)
    requires n0 == (if cs == [] then 1 else |cs|) && n0 <= n1 <= |ds| && (n1 == n0 || n1 == i0 + 1)
    requires i0 < n1 && skip < Span(g) && off == Times(i0, Span(g)) + skip
    requires total < |src| ==> 0 < total && |ds| == Have(t, cs) && off + total == Times(|ds|, Span(g))
    requires total == |src| ==> (|ds| == n1 || |ds| == i) && UpTo(g, off, total, i0, i) && i <= |ds|
    ensures Outcome(g, t, cs, off, |src|) == Count(total) && ds == Grown(g, t, cs, off, |src|)
  {
    SmallTable(g);
    GrowingTook(g, t, d, cs, u, e, ds, off, src, total);
    GrowingTotal(g, t, d, cs, u, e, ds, off, src, total);
    hide Growing, Times, Span, FreeList, Need, Grown, Outcome, UpTo;
    if total < |src| {
      NeedMore(g, off, |src|, |ds|);
      OutcomeCut(g, t, cs, off, |src|, total);
      GrownIs(g, t, cs, off, |src|, ds);
    } else {
      OutcomeFull(g, t, cs, off, |src|, i0, skip, i, n1, |ds|);
      GrownIs(g, t, cs, off, |src|, ds);
    }
  }

  lemma OutcomeCut(g: Geom, t: Links, cs: seq<nat>, off: nat, n: nat, total: nat)
    requires 0 < total < n && off + total == Times(Have(t, cs), Span(g))
    ensures Outcome(g, t, cs, off, n) == Count(total)
  {
    hide Times, Span, FreeList;
  }

  lemma OutcomeFull(g: Geom, t: Links, cs: seq<nat>, off: nat, n: nat, i0: nat, skip: nat, i: nat, n1: nat, len: nat)
    requires i0 < n1 <= len && skip < Span(g) && off == Times(i0, Span(g)) + skip && UpTo(g, off, n, i0, i) && i <= len <= Have(t, cs)
    ensures Outcome(g, t, cs, off, n) == Count(n)
    ensures Need(g, off, n) == if n == 0 then i0 + 1 else i
  {
    TimesNext(i0, Span(g));
    var j := if n == 0 then i0 else i - 1;
    NeedIs(g, off, n, j);
    TimesLe(j + 1, Have(t, cs), Span(g));
    hide Times, Span, FreeList, Need;
  }

  lemma GrownIs(g: Geom, t: Links, cs: seq<nat>, off: nat, n: nat, ds: seq<nat>)
    requires |cs| <= |ds| <= Have(t, cs) && ds == cs + FreeList(t)[..|ds| - |cs|]
    requires if Need(g, off, n) <= |cs| then |ds| == |cs| else if Have(t, cs) < Need(g, off, n) then |ds| == Have(t, cs) else |ds| == Need(g, off, n)
    ensures ds == Grown(g, t, cs, off, n)
  {
    hide FreeList, Need;
    assert FreeList(t)[..0] == [] && FreeList(t)[..|FreeList(t)|] == FreeList(t);
  }

  /** The end of vfat_write: the size, in the vnode and in the entry, and the flush. */
  method FinishWrite(f: Fat, vn: FatVnode, off: nat, total: nat, ghost t: Links, ghost d0: Disk, ghost d1: Disk, ghost cs: seq<nat>, ghost ds: seq<nat>, ghost src: seq<Byte>)
    requires f.Valid() && Growing(f.g, t, d1, cs, Lows(f.View()), f.disk, ds, off, src, total)
    requires EntryOk(f.g, t, cs, vn.deSec, vn.deOff)
    requires |d0| == |d1| && forall q :: 0 <= q < |d0| && (q != vn.deSec || !HasEntry(vn.deSec, vn.deOff)) ==> d1[q] == d0[q]
    modifies f`disk, f`dirty, vn`size
    ensures f.Valid() && f.View() == old(f.View()) && !f.dirty
    ensures FileWritten(f.g, t, d0, cs, Lows(f.View()), f.disk, ds, off, src, total, vn.deSec)
    ensures vn.size == if old(vn.size) < (off + total) % WORD then (off + total) % WORD else old(vn.size)
    ensures HasEntry(vn.deSec, vn.deOff) ==>
      && vn.deOff + 32 <= SECTOR && vn.deSec < |d1| == |f.disk|
      && f.disk[vn.deSec] == if vn.size != old(vn.size) then EntrySize(d1[vn.deSec], vn.deOff, vn.size) else d1[vn.deSec]
  {
    hide Growing, FileWritten, Raw, TableOnly, Lows, Geom.Valid, Mirrored, EntryOk, EntrySize;
    ShapeOf(f);
    GrowingParts(f.g, t, d1, cs, Lows(f.View()), f.disk, ds, off, src, total);
    GrowingTotal(f.g, t, d1, cs, Lows(f.View()), f.disk, ds, off, src, total);
    ghost var e1 := f.disk;
    if HasEntry(vn.deSec, vn.deOff) {
      EntryStays(f.g, t, d1, cs, Lows(f.View()), f.disk, ds, off, src, total, vn.deSec, vn.deOff);
    }
    if vn.size < (off + total) % WORD {
      vn.size := (off + total) % WORD;
      if HasEntry(vn.deSec, vn.deOff) {
        EntryBounds(f.g, t, cs, vn.deSec, vn.deOff);
        f.WriteData(vn.deSec, EntrySize(f.disk[vn.deSec], vn.deOff, vn.size));
      }
    }
    ghost var e2 := f.disk;
    f.Flush();
    TableData(f.g, e2, f.disk);
    EntryApart(f.g, t, d0, d1, cs, Lows(f.View()), e1, f.disk, ds, off, src, total, vn.deSec, vn.deOff);
  }

  lemma GrowingTotal(g: Geom, t: Links, d: Disk, cs: seq<nat>, u: Links, e: Disk, ds: seq<nat>, off: nat, src: seq<Byte>, total: nat)
    requires Growing(g, t, d, cs, u, e, ds, off, src, total)
    ensures total <= |src|
  {
  }

  /** The first part of vfat_write: a file without clusters gets one, noted in its directory entry. */
  method FirstCluster(f: Fat, vn: FatVnode, ghost t: Links, ghost d: Disk, ghost off: nat, ghost src: seq<Byte>)
    returns (rc: Status, n: nat, ghost d1: Disk)
    requires f.Valid() && Growing(f.g, t, d, [], Lows(f.View()), f.disk, [], off, src, 0)
    requires EntryOk(f.g, t, [], vn.deSec, vn.deOff)
    modifies f, vn`cluster
    ensures f.Valid() && |d1| == |d| && forall q :: 0 <= q < |d| && (q != vn.deSec || !HasEntry(vn.deSec, vn.deOff)) ==> d1[q] == d[q]
    ensures rc == Ok ==> Growing(f.g, t, d1, [], Lows(f.View()), f.disk, [n], off, src, 0) && vn.cluster == n < WORD
    ensures rc == Ok && HasEntry(vn.deSec, vn.deOff) ==>
      vn.deOff + 32 <= SECTOR && vn.deSec < |d| && d1[vn.deSec] == EntryFirst(d[vn.deSec], vn.deOff, n)
    ensures rc == ENOSPC ==> d1 == d && Growing(f.g, t, d, [], Lows(f.View()), f.disk, [], off, src, 0) && vn.cluster == old(vn.cluster)
    ensures rc == ENOSPC ==> Have(t, []) == 0
    ensures rc == Ok || rc == ENOSPC
  {
    hide Growing, Raw, Chain, Extends, TableOnly, Kept, Lows, Geom.Valid, Geom.Entries, Mirrored, EntryOk, EntryFirst;
    d1 := d;
    rc, n := Extend(f, 0, [], t, d, [], off, src, 0);
    if rc == Ok {
      assert [] + [n] == [n];
      vn.cluster := n;
      NoteSmall(f.g, n);
      GrowingParts(f.g, t, d, [], Lows(f.View()), f.disk, [n], off, src, 0);
      if HasEntry(vn.deSec, vn.deOff) {
        EntryBounds(f.g, t, [], vn.deSec, vn.deOff);
        ShapeOf(f);
        var entry := EntryFirst(f.disk[vn.deSec], vn.deOff, n);
        GrowingEntry(f.g, t, d, Lows(f.View()), f.disk, [n], off, src, vn.deSec, entry);
        EntryStays(f.g, t, d, [], Lows(f.View()), f.disk, [n], off, src, 0, vn.deSec, vn.deOff);
        d1 := d[vn.deSec := entry];
        f.WriteData(vn.deSec, entry);
      }
    }
  }

  lemma NoteSmall(g: Geom, n: nat)
    requires g.Valid() && n < g.Entries()
    ensures n < WORD
  {
  }

  lemma HeadIs(t: Links, c: nat, cs: seq<nat>)
    requires if c < 2 then cs == [] else Chain(t, c, cs)
    ensures 2 <= c ==> cs != [] && cs[0] == c && Chain(t, cs[0], cs)
  {
  }

  lemma EntryBounds(g: Geom, t: Links, cs: seq<nat>, sec: nat, o: nat)
    requires EntryOk(g, t, cs, sec, o) && HasEntry(sec, o)
    ensures o + 32 <= SECTOR && g.data <= sec < g.sectors
  {
  }

  // ---- vfat_read ----

  /** out are the bytes of the file from off on: as many as asked for, unless the chain ends before. */
  predicate Delivered(g: Geom, d: Disk, cs: seq<nat>, off: nat, m: nat, out: seq<Byte>)
    requires g.Valid() && |d| == g.sectors && InClusters(g, cs)
  {
    && |out| <= m && (|out| < m ==> Times(|cs|, Span(g)) <= off + |out|)
    && (0 < |out| ==> off + |out| <= Times(|cs|, Span(g)))
    && forall k :: 0 <= k < |out| ==> ByteIs(g, d, cs, off + k, out[k])
  }

  predicate ByteIs(g: Geom, d: Disk, cs: seq<nat>, pos: nat, b: Byte)
    requires g.Valid() && |d| == g.sectors && InClusters(g, cs)
  {
    pos < Times(|cs|, Span(g)) && FileByte(g, d, cs, pos) == b
  }

  /** Bytes of one cluster are bytes of the file. */
  lemma ByteOfCluster(g: Geom, d: Disk, cs: seq<nat>, i: nat, k: nat)
    requires g.Valid() && |d| == g.sectors && InClusters(g, cs) && i < |cs| && k < Span(g)
    ensures ByteIs(g, d, cs, Times(i, Span(g)) + k, ClusterByte(g, d, cs[i], k))
  {
    TimesNext(i, Span(g));
    TimesLe(i + 1, |cs|, Span(g));
    QuotIs(Times(i, Span(g)) + k, Span(g), i, k);
    hide Times, Span, Quot, Rest, ClusterByte;
  }

  /** vfat_read asks for the bytes up to the size, unless off + n exceeds 32 bits: then nothing is cut. */
  method Read(f: Fat, vn: FatVnode, off: U32, n: U32, ghost cs: seq<nat>) returns (ret: Ret, out: seq<Byte>)
    requires f.Valid() && InClusters(f.g, cs)
    requires if vn.cluster < 2 then cs == [] && (off < Span(f.g) || vn.size <= off || IsEoc(Lows(f.View())[vn.cluster]))
             else Chain(Lows(f.View()), vn.cluster, cs)
    modifies f
    ensures f.Valid() && f.View() == old(f.View()) && TableOnly(f.g, old(f.disk), f.disk)
    ensures vn.isDir ==> ret == IsDirectory && out == []
    ensures !vn.isDir ==> ret == Count(|out|) && Delivered(f.g, f.disk, cs, off,
      if vn.size <= off then 0 else if 0x1_0000_0000 <= off + n || n < vn.size - off then n else vn.size - off, out)
  {
    hide Raw, Chain, TableOnly, InClusters, Times, Lows, Geom.Valid, Geom.Entries, Mirrored, Span, ClusterByte, FileByte;
    ShapeOf(f);
    TableOnlySame(f.g, f.disk);
    SmallTable(f.g);
    TimesNext(0, Span(f.g));
    out := [];
    if vn.isDir {
      return IsDirectory, [];
    }
    if vn.size <= off {
      return Count(0), [];
    }
    ghost var u, d0 := Lows(f.View()), f.disk;
    HeadIs(u, vn.cluster, cs);
    var m := if vn.size < (off + n) % WORD then vn.size - off else n;
    var cluster, skip := vn.cluster, off;
    ghost var i := 0;
    while Span(f.g) <= skip
      invariant f.Valid() && f.View() == old(f.View()) && TableOnly(f.g, d0, f.disk)
      invariant 0 <= i && 0 <= skip && off == Times(i, Span(f.g)) + skip
      invariant if cs == [] then i == 0 && cluster == vn.cluster < 2 else i < |cs| && cluster == cs[i]
      decreases skip
    {
      if cs != [] {
        NextIs(u, cs, i);
      }
      TimesNext(i, Span(f.g));
      ghost var d1 := f.disk;
      var next := GetSame(f, cluster);
      TableOnlyTrans(f.g, d0, d1, f.disk);
      if IsEoc(next) {
        if cs != [] {
          EndOfChain(f.g, cs, i, off, skip);
        }
        return Count(0), [];
      }
      cluster := next;
      i := i + 1;
      skip := skip - Span(f.g);
    }
    ghost var d2 := f.disk;
    out := ReadLoop(f, off, m, cluster, skip, cs, i);
    TableOnlyTrans(f.g, d0, d2, f.disk);
    ret := Count(|out|);
  }

  lemma EndOfChain(g: Geom, cs: seq<nat>, i: nat, off: nat, skip: nat)
    requires i + 1 == |cs| && off == Times(i, Span(g)) + skip && Span(g) <= skip
    ensures Times(|cs|, Span(g)) <= off
  {
    TimesNext(i, Span(g));
  }

  method GetSame(f: Fat, c: nat) returns (v: nat)
    requires f.Valid() && c < |Lows(f.View())|
    modifies f
    ensures f.Valid() && f.View() == old(f.View()) && v == Lows(f.View())[c]
    ensures TableOnly(f.g, old(f.disk), f.disk)
  {
    v := f.Get(c);
  }

  method ReadLoop(f: Fat, off: nat, m: nat, cluster0: nat, skip0: nat, ghost cs: seq<nat>, ghost i0: nat) returns (out: seq<Byte>)
    requires f.Valid() && InClusters(f.g, cs)
    requires if cs == [] then i0 == 0 && cluster0 < 2 else i0 < |cs| && cluster0 == cs[i0] && Chain(Lows(f.View()), cs[0], cs)
    requires skip0 < Span(f.g) && off == Times(i0, Span(f.g)) + skip0
    modifies f
    ensures f.Valid() && f.View() == old(f.View()) && TableOnly(f.g, old(f.disk), f.disk)
    ensures Delivered(f.g, f.disk, cs, off, m, out)
  {
    hide Raw, Chain, TableOnly, InClusters, Times, Lows, Geom.Valid, Geom.Entries, Mirrored, Span, ClusterByte, FileByte, Delivered;
    ShapeOf(f);
    TableOnlySame(f.g, f.disk);
    SmallTable(f.g);
    ghost var u, d0 := Lows(f.View()), f.disk;
    var cluster: nat, skip: nat := cluster0, skip0;
    ghost var i: nat := i0;
    out := [];
    DeliveredNone(f.g, f.disk, cs, off, m, i0, skip0);
    while |out| < m && 2 <= cluster && !IsEoc(cluster)
      invariant f.Valid() && f.View() == old(f.View()) && TableOnly(f.g, d0, f.disk)
      invariant i <= |cs| && skip < Span(f.g) && |out| <= m
      invariant if i < |cs| then cluster == cs[i] else cluster < 2 || (IsEoc(cluster) && skip == 0)
      invariant |out| < m ==> off + |out| == Times(i, Span(f.g)) + skip
      invariant Reading(f.g, f.disk, cs, off, m, out)
      decreases m - |out|
    {
      AtCluster(f.g, cs, i, cluster);
      ghost var was, d1 := out, f.disk;
      var piece := ReadCluster(f, cluster, skip, m - |out|);
      ReadingMore(f.g, f.disk, cs, off, m, out, i, skip, piece);
      out := out + piece;
      NextIs(u, cs, i);
      cluster := GetSame(f, cluster);
      TableData(f.g, d1, f.disk);
      ReadingSame(f.g, d1, f.disk, cs, off, m, out);
      TableOnlyTrans(f.g, d0, d1, f.disk);
      TimesNext(i, Span(f.g));
      i := i + 1;
      skip := 0;
    }
    if i < |cs| {
      NotEnd(f.g, cs, i);
    }
    ReadingDone(f.g, f.disk, cs, off, m, out, i, skip);
  }

  /** Delivered, but perhaps not all yet. */
  predicate Reading(g: Geom, d: Disk, cs: seq<nat>, off: nat, m: nat, out: seq<Byte>)
  {
    && g.Valid() && |d| == g.sectors && InClusters(g, cs) && |out| <= m
    && (0 < |out| ==> off + |out| <= Times(|cs|, Span(g)))
    && forall k :: 0 <= k < |out| ==> ByteIs(g, d, cs, off + k, out[k])
  }

  lemma DeliveredNone(g: Geom, d: Disk, cs: seq<nat>, off: nat, m: nat, i: nat, skip: nat)
    requires g.Valid() && |d| == g.sectors && InClusters(g, cs)
    ensures Reading(g, d, cs, off, m, [])
  {
  }

  lemma AtCluster(g: Geom, cs: seq<nat>, i: nat, cluster: nat)
    requires g.Valid() && InClusters(g, cs) && i <= |cs| && (if i < |cs| then cluster == cs[i] else IsEoc(cluster)) && !IsEoc(cluster)
    ensures i < |cs| && 2 <= cluster < g.Entries()
  {
  }

  lemma ReadingMore(g: Geom, d: Disk, cs: seq<nat>, off: nat, m: nat, out: seq<Byte>, i: nat, skip: nat, piece: seq<Byte>)
    requires Reading(g, d, cs, off, m, out) && i < |cs| && |out| < m && skip < Span(g)
    requires off + |out| == Times(i, Span(g)) + skip && |piece| == Min(m - |out|, Span(g) - skip)
    requires 2 <= cs[i] < g.Entries() && forall k :: 0 <= k < |piece| ==> piece[k] == ClusterByte(g, d, cs[i], skip + k)
    ensures Reading(g, d, cs, off, m, out + piece)
  {
    TimesNext(i, Span(g));
    TimesLe(i + 1, |cs|, Span(g));
    hide Times, Span, ClusterByte, ByteIs;
    var all := out + piece;
    forall k | 0 <= k < |all| ensures ByteIs(g, d, cs, off + k, all[k]) {
      if |out| <= k {
        ByteOfCluster(g, d, cs, i, skip + (k - |out|));
      }
    }
  }

  lemma ReadingSame(g: Geom, d: Disk, e: Disk, cs: seq<nat>, off: nat, m: nat, out: seq<Byte>)
    requires Reading(g, d, cs, off, m, out) && |e| == |d| && forall q :: g.data <= q < |d| ==> e[q] == d[q]
    ensures Reading(g, e, cs, off, m, out)
  {
    hide Times, Span, FileByte;
    InSomeData(g, cs);
    forall k | 0 <= k < |out| ensures ByteIs(g, e, cs, off + k, out[k]) {
      assert ByteIs(g, d, cs, off + k, out[k]);
      FileByteSame(g, d, e, cs, off + k);
    }
  }

  lemma ReadingDone(g: Geom, d: Disk, cs: seq<nat>, off: nat, m: nat, out: seq<Byte>, i: nat, skip: nat)
    requires Reading(g, d, cs, off, m, out) && (|out| < m ==> i >= |cs| && off + |out| == Times(i, Span(g)) + skip)
    ensures Delivered(g, d, cs, off, m, out)
  {
    if |out| < m {
      TimesLe(|cs|, i, Span(g));
    }
  }

  // ---- what a reader sees after a writer ----

  /** After a write, reading any part of what was written gives back exactly those bytes. */
  lemma WriteThenRead(g: Geom, t: Links, d: Disk, cs: seq<nat>, u: Links, e: Disk, ds: seq<nat>, off: nat, src: seq<Byte>, total: nat, sec: nat,
                      a: nat, m: nat, out: seq<Byte>)
    requires FileWritten(g, t, d, cs, u, e, ds, off, src, total, sec)
    requires a + m <= total && Delivered(g, e, ds, off + a, m, out)
    ensures out == src[a..a + m]
  {
    hide Times, Span, FileByte, Extends;
    assert |out| == m;
    forall k | 0 <= k < |out| ensures out[k] == src[a..a + m][k] {
      assert ByteIs(g, e, ds, off + a + k, out[k]);
      assert WrittenAt(g, d, off, src, total, e, ds, off + a + k);
    }
  }

  /** A file of `size` bytes is written at off behind its end: reading what lies between gives zeros if and only if
      the clusters that the table before held ready for it held zeros there, since nothing clears them. */
  lemma GapReads(g: Geom, t: Links, d: Disk, cs: seq<nat>, u: Links, e: Disk, off: nat, src: seq<Byte>, total: nat, sec: nat, size: nat, out: seq<Byte>)
    requires Need(g, off, 0) <= Have(t, cs) && size <= off
    requires FileWritten(g, t, d, cs, u, e, Grown(g, t, cs, off, |src|), off, src, total, sec)
    requires Delivered(g, e, Grown(g, t, cs, off, |src|), size, off - size, out)
    ensures off <= Times(|Grown(g, t, cs, off, |src|)|, Span(g))
    ensures |out| == off - size
    ensures (forall k :: 0 <= k < |out| ==> out[k] == 0) <==>
            (forall pos :: size <= pos < off ==> FileByte(g, d, Grown(g, t, cs, off, |src|), pos) == 0)
  {
    SmallTable(g);
    OutcomeIs(g, t, cs, off, |src|);
    var ds := Grown(g, t, cs, off, |src|);
    hide Times, Span, FileByte, FileWritten, Grown, Need, Outcome, Delivered;
    GapLength(g, e, ds, size, off - size, out);
    if forall k :: 0 <= k < |out| ==> out[k] == 0 {
      forall pos | size <= pos < off ensures FileByte(g, d, ds, pos) == 0 {
        GapByte(g, t, d, cs, u, e, ds, off, src, total, sec, size, out, pos - size);
      }
    }
    if forall pos :: size <= pos < off ==> FileByte(g, d, ds, pos) == 0 {
      forall k | 0 <= k < |out| ensures out[k] == 0 {
        GapByte(g, t, d, cs, u, e, ds, off, src, total, sec, size, out, k);
      }
    }
  }

  lemma GapLength(g: Geom, e: Disk, ds: seq<nat>, size: nat, m: nat, out: seq<Byte>)
    requires g.Valid() && |e| == g.sectors && InClusters(g, ds) && Delivered(g, e, ds, size, m, out) && size + m < Times(|ds|, Span(g))
    ensures |out| == m
  {
  }

  lemma GapByte(g: Geom, t: Links, d: Disk, cs: seq<nat>, u: Links, e: Disk, ds: seq<nat>, off: nat, src: seq<Byte>, total: nat, sec: nat,
                size: nat, out: seq<Byte>, k: nat)
    requires FileWritten(g, t, d, cs, u, e, ds, off, src, total, sec) && size + k < off < Times(|ds|, Span(g))
    requires Delivered(g, e, ds, size, off - size, out) && k < |out|
    ensures out[k] == FileByte(g, d, ds, size + k)
  {
    hide Times, Span, FileByte, Extends;
    assert ByteIs(g, e, ds, size + k, out[k]);
    assert WrittenAt(g, d, off, src, total, e, ds, size + k);
  }

  /** Bytes of the file as it was keep their place. */
  lemma OldBytes(g: Geom, t: Links, d: Disk, cs: seq<nat>, u: Links, e: Disk, ds: seq<nat>, off: nat, src: seq<Byte>, total: nat, sec: nat, pos: nat)
    requires FileWritten(g, t, d, cs, u, e, ds, off, src, total, sec) && pos < Times(|cs|, Span(g)) && !(off <= pos < off + total)
    ensures pos < Times(|ds|, Span(g)) && FileByte(g, e, ds, pos) == FileByte(g, d, cs, pos)
  {
    hide Times, Span, FileByte;
    FileBytePrefix(g, d, d, cs, ds, pos);
    assert WrittenAt(g, d, off, src, total, e, ds, pos);
  }

  /** Every other chain is still a chain, apart from the written one, and every byte of it is the same. */
  lemma OthersUntouched(g: Geom, t: Links, d: Disk, cs: seq<nat>, u: Links, e: Disk, ds: seq<nat>, off: nat, src: seq<Byte>, total: nat, sec: nat,
                        c: nat, es: seq<nat>, pos: nat)
    requires FileWritten(g, t, d, cs, u, e, ds, off, src, total, sec) && |t| == g.Entries()
    requires Chain(t, c, es) && Apart(cs, es) && !InSome(g, es, sec) && pos < Times(|es|, Span(g))
    ensures Chain(u, c, es) && Apart(ds, es) && InClusters(g, es)
    ensures FileByte(g, e, es, pos) == FileByte(g, d, es, pos)
  {
    hide Times, Span, FileByte, Written;
    forall q | InSome(g, es, q) ensures g.data <= q && !InSome(g, ds, q) {
      InSomeData(g, es);
      ApartSectors(g, ds, es, q);
    }
    FileByteSame(g, d, e, es, pos);
  }

  lemma ApartSectors(g: Geom, ds: seq<nat>, es: seq<nat>, q: nat)
    requires Apart(ds, es) && InSome(g, es, q)
    ensures !InSome(g, ds, q)
  {
    var j :| 0 <= j < |es| && 2 <= es[j] && ClusterSector(g, es[j]) <= q < ClusterSector(g, es[j]) + g.spc;
    forall i | 0 <= i < |ds| && 2 <= ds[i] ensures !(ClusterSector(g, ds[i]) <= q < ClusterSector(g, ds[i]) + g.spc) {
      assert ds[i] in ds && es[j] in es;
      ClustersApart(g, ds[i], es[j]);
    }
  }
}
