/** The FAT32 format in bytes: where the entries of the tables and the bytes of the files stand. */
module FatLayout {
  import opened Bytes
  import opened Arith
  import opened FatCache
  import opened FatChains
  import opened FatFile

  /** Entry c is word c % 128 of sector c / 128 of each copy of the table. */
  lemma EntryStands(g: Geom, d: Disk, f: nat, c: nat)
    requires g.Valid() && |d| == g.sectors && f < g.copies && c < g.clusters + 2
    ensures var q := g.start + f * g.size + c / 128;
            q < |d| && OnDisk(g, d, f, c) == U32At(d[q], c % 128 * 4)
  {
    InTable(g, f, c / 128);
  }

  /** The driver sees the first copy, with the sector in the cache instead of that on disk. */
  lemma CachedStands(g: Geom, d: Disk, cached: int, cache: Sector, c: nat)
    requires g.Valid() && |d| == g.sectors && c < g.clusters + 2
    ensures Raw(g, d, cached, cache, c) == if c / 128 == cached then U32At(cache, c % 128 * 4) else OnDisk(g, d, 0, c)
  {
    InTable(g, 0, c / 128);
  }

  /** 28 bits of an entry are the link, the others stay; a link from 0x0FFF_FFF8 on ends the chain. */
  lemma LinkIs(v: seq<U32>, c: nat, x: nat)
    requires c < |v|
    ensures Lows(v)[c] == v[c] % 0x1000_0000 && (IsEoc(Lows(v)[c]) <==> 0x0FFF_FFF8 <= v[c] % 0x1000_0000)
    ensures Kept(v[c], x) % 0x1000_0000 == x % 0x1000_0000 && Kept(v[c], x) / 0x1000_0000 == v[c] / 0x1000_0000
  {
    KeptBits(v[c], x);
  }

  /** A cluster taken for a file ends its chain, and the cluster that was last leads to it. */
  lemma TakenLinks(u: Links, ds: seq<nat>, n: nat, x: nat)
    requires n < |u| && x < |u| && n !in ds && forall i :: 0 <= i < |ds| ==> ds[i] < |u|
    ensures Linked(u, ds, n)[x] == if x == n then 0x0FFF_FFFF else if ds != [] && x == ds[|ds| - 1] then n else u[x]
  {
  }

  /** A cluster is spc sectors of 512 bytes; cluster 2 is the first of the data area. */
  lemma ClusterStands(g: Geom, c: nat)
    requires 2 <= c
    ensures Span(g) == g.spc * 512 && ClusterSector(g, c) == g.data + (c - 2) * g.spc
  {
  }

  /** Byte b of sector s of the file's cluster i. */
  lemma FileByteStands(g: Geom, d: Disk, cs: seq<nat>, i: nat, s: nat, b: nat)
    requires g.Valid() && |d| == g.sectors && InClusters(g, cs) && i < |cs| && s < g.spc && b < 512
    ensures var pos, q := Times(i, Span(g)) + s * 512 + b, ClusterSector(g, cs[i]) + s;
            pos < Times(|cs|, Span(g)) && q < |d| && FileByte(g, d, cs, pos) == d[q][b]
  {
    var k := s * 512 + b;
    assert 0 <= k < Span(g);
    TimesLe(i + 1, |cs|, Span(g));
    TimesNext(i, Span(g));
    QuotIs(Times(i, Span(g)) + k, Span(g), i, k);
    ClusterIn(g, cs[i]);
    DivUnique(k, 512, s, b);
  }
}
