/** The FAT32 driver's one-sector write-back cache over the mirrored allocation tables. */
module FatCache {
  import opened Bytes

  const SECTOR := 512
  const PER_SEC := 128            // table entries in a sector
  const LOW := 0x1000_0000        // an entry's low 28 bits count, the top 4 are kept
  const EOC := 0x0FFF_FFFF
  const EOC_MIN := 0x0FFF_FFF8

  type Sector = s: seq<Byte> | |s| == 512 witness seq(512, _ => 0)
  type Disk = seq<Sector>

  datatype Status = Ok | ENOSPC

  /** FAT_EOC of a 28-bit value. */
  predicate IsEoc(v: nat) { EOC_MIN <= v }

  /** The fields of vfat_sb_t that do not change after the mount. */
  datatype Geom = Geom(start: nat, size: nat, copies: nat, data: nat, spc: nat, clusters: nat, sectors: nat) {
    /** The copies of the table follow each other before the data area; the table covers all clusters. */
    predicate Valid() {
      && 1 <= copies && 1 <= spc
      && start + copies * size <= data
      && data + clusters * spc <= sectors
      && clusters + 2 <= size * PER_SEC
      && clusters + 2 < EOC_MIN - 1
    }

    function Entries(): nat { clusters + 2 }

    /** Sector k of copy f of the table. */
    function TableSector(f: nat, k: nat): nat { start + f * size + k }
  }

  /** The table the driver works on: the first copy on disk with the cached sector laid over it. */
  function Raw(g: Geom, d: Disk, cached: int, cache: Sector, c: nat): U32
    requires g.Valid() && |d| == g.sectors && c < g.Entries()
  {
    InTable(g, 0, c / PER_SEC);
    if c / PER_SEC == cached then U32At(cache, c % PER_SEC * 4) else U32At(d[g.start + c / PER_SEC], c % PER_SEC * 4)
  }

  lemma InTable(g: Geom, f: nat, k: nat)
    requires g.Valid() && f < g.copies && k < g.size
    ensures g.TableSector(f, k) < g.data <= g.sectors
  {
    assert f * g.size + g.size == (f + 1) * g.size <= g.copies * g.size;
  }

  lemma CopiesApart(g: Geom, f: nat, k: nat, f': nat, k': nat)
    requires k < g.size && k' < g.size
    ensures g.TableSector(f, k) == g.TableSector(f', k') <==> f == f' && k == k'
  {
    if f < f' {
      assert f * g.size + g.size == (f + 1) * g.size <= f' * g.size;
    } else if f' < f {
      assert f' * g.size + g.size == (f' + 1) * g.size <= f * g.size;
    }
  }

  /** All copies of sector k are the same. */
  predicate Mirrored(g: Geom, d: Disk, k: nat)
    requires g.Valid() && |d| == g.sectors && k < g.size
  {
    forall f :: 0 <= f < g.copies ==> CopyAt(g, d, f, k) == CopyAt(g, d, 0, k)
  }

  function CopyAt(g: Geom, d: Disk, f: nat, k: nat): Sector
    requires g.Valid() && |d| == g.sectors && f < g.copies && k < g.size
  {
    InTable(g, f, k);
    d[g.TableSector(f, k)]
  }

  /** From d to e all copies of sector k became t, and nothing else changed. */
  predicate Spread(g: Geom, d: Disk, e: Disk, k: nat, t: Sector, n: nat)
    requires g.Valid() && |d| == g.sectors && k < g.size && n <= g.copies
  {
    && |e| == |d|
    && (forall f :: 0 <= f < n ==> CopyAt(g, e, f, k) == t)
    && (forall q :: 0 <= q < |d| && !OneOf(g, q, k, n) ==> e[q] == d[q])
  }

  /** q is sector k of one of the first n copies. */
  predicate OneOf(g: Geom, q: nat, k: nat, n: nat) {
    exists f :: 0 <= f < n && g.TableSector(f, k) == q
  }

  /** Mirrored sectors stayed mirrored, and nothing from the data area on changed. */
  ghost predicate TableOnly(g: Geom, d: Disk, e: Disk) {
    && g.Valid() && |d| == g.sectors == |e|
    && (forall j :: 0 <= j < g.size && Mirrored(g, d, j) ==> Mirrored(g, e, j))
    && (forall q :: g.data <= q < |d| ==> e[q] == d[q])
  }

  lemma TableOnlyTrans(g: Geom, d: Disk, e: Disk, h: Disk)
    requires TableOnly(g, d, e) && TableOnly(g, e, h)
    ensures TableOnly(g, d, h)
  {
    hide Mirrored;
  }

  class Fat {
    const g: Geom
    var disk: Disk
    var cache: Sector
    var cached: int       // which table sector is cached; -1: none
    var dirty: bool

    predicate Valid()
      reads this
    {
      && g.Valid() && |disk| == g.sectors && -1 <= cached < g.size
      && (dirty ==> 0 <= cached)
      && (0 <= cached && !dirty ==> cache == CopyAt(g, disk, 0, cached))
    }

    /** FAT1 with the cached sector overlaid, as a sequence of raw entries. */
    ghost function View(): (v: seq<U32>)
      requires Valid()
      reads this
      ensures |v| == g.Entries()
    {
      seq(g.Entries(), c requires 0 <= c < g.Entries() reads this requires Valid() => Raw(g, disk, cached, cache, c))
    }

    constructor Mount(geom: Geom, d: Disk)
      requires geom.Valid() && |d| == geom.sectors
      ensures Valid() && g == geom && disk == d && !dirty && cached == -1
    {
      g, disk, cache, cached, dirty := geom, d, seq(512, _ => 0), -1, false;
    }

    /** The loop that writes the cached sector to every copy. */
    method WriteBack()
      requires Valid() && 0 <= cached
      modifies this`disk
      ensures Valid() && Spread(g, old(disk), disk, cached, cache, g.copies)
      ensures View() == old(View()) && CopyAt(g, disk, 0, cached) == cache
    {
      var f := 0;
      while f < g.copies
        invariant 0 <= f <= g.copies && Spread(g, old(disk), disk, cached, cache, f)
      {
        InTable(g, f, cached);
        ghost var d := disk;
        disk := disk[g.TableSector(f, cached) := cache];
        SpreadMore(g, old(disk), d, disk, cached, cache, f);
        f := f + 1;
      }
      SpreadView(g, old(disk), disk, cached, cache);
      assert View() == old(View());
    }

    /** fat_cache_load. */
    method Load(k: nat)
      requires Valid() && k < g.size
      modifies this
      ensures Valid() && cached == k && View() == old(View())
      ensures TableOnly(g, old(disk), disk)
    {
      if cached == k {
        return;
      }
      ghost var d0 := disk;
      if dirty && cached != -1 {
        WriteBack();
        SpreadKeeps(g, d0, disk, cached, cache);
        dirty := false;
      }
      InTable(g, 0, k);
      ghost var v := View();
      ghost var c0, k0 := cache, cached;
      cache := disk[g.start + k];
      cached := k;
      forall c | 0 <= c < g.Entries() ensures Raw(g, disk, cached, cache, c) == Raw(g, disk, k0, c0, c) {
        InTable(g, 0, c / PER_SEC);
      }
      assert View() == v;
    }

    /** A sector of the data area is written: no copy of the table changes. */
    method WriteData(q: nat, t: Sector)
      requires Valid() && g.data <= q < |disk|
      modifies this`disk
      ensures Valid() && disk == old(disk)[q := t] && View() == old(View())
    {
      ghost var v, d0 := View(), disk;
      disk := disk[q := t];
      assert 0 <= cached ==> CopyAt(g, disk, 0, cached) == CopyAt(g, d0, 0, cached) by {
        if 0 <= cached {
          InTable(g, 0, cached);
        }
      }
      forall c | 0 <= c < g.Entries() ensures Raw(g, disk, cached, cache, c) == Raw(g, d0, cached, cache, c) {
        InTable(g, 0, c / PER_SEC);
      }
      assert View() == v;
    }

    /** fat_get. */
    method Get(cluster: nat) returns (value: nat)
      requires Valid() && cluster < g.Entries()
      modifies this
      ensures Valid() && View() == old(View()) && value == View()[cluster] % LOW
      ensures TableOnly(g, old(disk), disk)
    {
      InTable(g, 0, cluster / PER_SEC);
      Load(cluster * 4 / SECTOR);
      value := U32At(cache, cluster * 4 % SECTOR) % LOW;
    }

    /** fat_set: the top four bits stay. */
    method Set(cluster: nat, value: nat)
      requires Valid() && cluster < g.Entries()
      modifies this
      ensures Valid() && View() == old(View())[cluster := Kept(old(View())[cluster], value)]
      ensures TableOnly(g, old(disk), disk)
    {
      hide U32At, PutU32, Kept;
      ghost var v := View();
      InTable(g, 0, cluster / PER_SEC);
      Load(cluster * 4 / SECTOR);
      assert v[cluster] == Raw(g, disk, cached, cache, cluster);
      var o := cluster * 4 % SECTOR;
      var was := U32At(cache, o);
      ghost var c0 := cache;
      cache := PutU32(cache, o, Kept(was, value));
      dirty := true;
      RawAfter(g, disk, cached, c0, cluster, Kept(was, value));
      assert View() == v[cluster := Kept(v[cluster], value)];
    }

    /** fat_flush: afterwards the disk is the table, in all copies that agreed. */
    method Flush()
      requires Valid()
      modifies this`disk, this`dirty
      ensures Valid() && !dirty && View() == old(View())
      ensures TableOnly(g, old(disk), disk)
      ensures forall c :: 0 <= c < g.Entries() ==> OnDisk(g, disk, 0, c) == View()[c]
    {
      if dirty && cached != -1 {
        ghost var d0 := disk;
        WriteBack();
        SpreadKeeps(g, d0, disk, cached, cache);
        dirty := false;
      }
      forall c | 0 <= c < g.Entries() ensures OnDisk(g, disk, 0, c) == View()[c] {
        InTable(g, 0, c / PER_SEC);
      }
    }
  }

  /** Changing an entry of the cached sector changes that entry of the table alone. */
  lemma RawAfter(g: Geom, d: Disk, cached: int, cache: Sector, cluster: nat, x: U32)
    requires g.Valid() && |d| == g.sectors && cluster < g.Entries() && cached == cluster / PER_SEC
    ensures forall c :: 0 <= c < g.Entries() ==>
      Raw(g, d, cached, PutU32(cache, cluster % PER_SEC * 4, x), c) == if c == cluster then x else Raw(g, d, cached, cache, c)
  {
    hide U32At, PutU32;
    forall c | 0 <= c < g.Entries()
      ensures Raw(g, d, cached, PutU32(cache, cluster % PER_SEC * 4, x), c) == if c == cluster then x else Raw(g, d, cached, cache, c)
    {
      PutGet32(cache, cluster % PER_SEC * 4, x, c % PER_SEC * 4);
    }
  }

  /** (old & 0xF0000000) | (value & 0x0FFFFFFF). */
  function Kept(was: U32, value: nat): U32 {
    was / LOW * LOW + value % LOW
  }

  lemma KeptBits(was: U32, value: nat)
    ensures Kept(was, value) % LOW == value % LOW && Kept(was, value) / LOW == was / LOW
  {
  }

  /** Entry c in copy f on disk. */
  function OnDisk(g: Geom, d: Disk, f: nat, c: nat): U32
    requires g.Valid() && |d| == g.sectors && f < g.copies && c < g.Entries()
  {
    U32At(CopyAt(g, d, f, c / PER_SEC), c % PER_SEC * 4)
  }

  /** With mirrored copies, a flushed table reads the same from every copy. */
  lemma FlushedEverywhere(g: Geom, d: Disk, v: seq<U32>, f: nat, c: nat)
    requires g.Valid() && |d| == g.sectors && |v| == g.Entries() && f < g.copies && c < g.Entries()
    requires forall x :: 0 <= x < g.Entries() ==> OnDisk(g, d, 0, x) == v[x]
    requires forall j :: 0 <= j < g.size ==> Mirrored(g, d, j)
    ensures OnDisk(g, d, f, c) == v[c]
  {
    assert Mirrored(g, d, c / PER_SEC);
  }

  lemma SpreadMore(g: Geom, d: Disk, m: Disk, e: Disk, k: nat, t: Sector, n: nat)
    requires g.Valid() && |d| == g.sectors && k < g.size && n < g.copies && Spread(g, d, m, k, t, n)
    requires g.TableSector(n, k) < |m| && e == m[g.TableSector(n, k) := t]
    ensures Spread(g, d, e, k, t, n + 1)
  {
    forall f | 0 <= f < n + 1 ensures CopyAt(g, e, f, k) == t {
      InTable(g, f, k);
      CopiesApart(g, f, k, n, k);
      if f < n {
        assert CopyAt(g, m, f, k) == t;
      }
    }
    forall q | 0 <= q < |d| && !OneOf(g, q, k, n + 1) ensures e[q] == d[q] {
      OneOfMore(g, q, k, n);
    }
  }

  lemma OneOfMore(g: Geom, q: nat, k: nat, n: nat)
    ensures OneOf(g, q, k, n) ==> OneOf(g, q, k, n + 1)
  {
    if f: nat :| f < n && g.TableSector(f, k) == q {
      assert f < n + 1;
    }
  }

  /** Writing the cached sector back moves no entry of the view. */
  lemma SpreadView(g: Geom, d: Disk, e: Disk, k: nat, t: Sector)
    requires g.Valid() && |d| == g.sectors && k < g.size && Spread(g, d, e, k, t, g.copies)
    ensures CopyAt(g, e, 0, k) == t
    ensures forall c :: 0 <= c < g.Entries() ==> Raw(g, e, k, t, c) == Raw(g, d, k, t, c)
  {
    forall c | 0 <= c < g.Entries() ensures Raw(g, e, k, t, c) == Raw(g, d, k, t, c) {
      InTable(g, 0, c / PER_SEC);
      if c / PER_SEC != k && OneOf(g, g.start + c / PER_SEC, k, g.copies) {
        var f :| 0 <= f < g.copies && g.TableSector(f, k) == g.start + c / PER_SEC;
        CopiesApart(g, f, k, 0, c / PER_SEC);
        assert false;
      }
    }
  }

  /** It keeps mirrored sectors mirrored, and touches nothing from the data area on. */
  lemma SpreadKeeps(g: Geom, d: Disk, e: Disk, k: nat, t: Sector)
    requires g.Valid() && |d| == g.sectors && k < g.size && Spread(g, d, e, k, t, g.copies)
    ensures forall j :: 0 <= j < g.size && Mirrored(g, d, j) ==> Mirrored(g, e, j)
    ensures forall q :: g.data <= q < |d| ==> e[q] == d[q]
  {
    forall j, f | 0 <= j < g.size && j != k && 0 <= f < g.copies ensures CopyAt(g, e, f, j) == CopyAt(g, d, f, j) {
      InTable(g, f, j);
      if OneOf(g, g.TableSector(f, j), k, g.copies) {
        var h :| 0 <= h < g.copies && g.TableSector(h, k) == g.TableSector(f, j);
        CopiesApart(g, h, k, f, j);
        assert false;
      }
    }
    forall j | 0 <= j < g.size && Mirrored(g, d, j) ensures Mirrored(g, e, j) {
      if j != k {
        forall f | 0 <= f < g.copies ensures CopyAt(g, e, f, j) == CopyAt(g, e, 0, j) {
          assert CopyAt(g, d, f, j) == CopyAt(g, d, 0, j);
        }
      }
    }
    forall q | g.data <= q < |d| ensures e[q] == d[q] {
      if OneOf(g, q, k, g.copies) {
        var h :| 0 <= h < g.copies && g.TableSector(h, k) == q;
        InTable(g, h, k);
        assert false;
      }
    }
  }
}
