/** On-disk layout of a UFS volume: sectors, cylinder-group bytes, inodes, indirect blocks. */
module UfsFormat {
  import opened Bytes

  const SECTOR := 512
  const FRAGS := 8          // sectors (fragments) of a block
  const BLOCK := 4096
  const PTRS := 1024        // block pointers in an indirect block
  const PTRS_SEC := 128     // block pointers in one sector of it
  const NDIRECT := 12
  const SB_SECTOR := 16
  const CG_SECTOR := 32
  const ROOT_INO := 2

  type Sector = s: seq<Byte> | |s| == 512 witness seq(512, _ => 0)
  type Page = s: seq<Byte> | |s| == 4096 witness seq(4096, _ => 0)
  type Disk = seq<Sector>

  function ZeroSector(): Sector { seq(512, _ => 0) }

  /** The mount-time parameters of ufs_priv_t that never change. */
  datatype Geom = Geom(itable: nat, data: nat, dsize: nat, inodes: nat, freeOff: nat, iusedOff: nat, sectors: nat) {

    function Blocks(): nat { dsize / FRAGS }

    /** The regions of the volume follow each other and fit the device. */
    predicate Valid() {
      && 100 <= iusedOff
      && iusedOff + (inodes + 7) / 8 <= freeOff
      && CG_SECTOR + (freeOff + Blocks() + 511) / SECTOR <= itable
      && itable + (inodes + 3) / 4 <= data
      && data + dsize <= sectors < WORD
      && ROOT_INO < inodes < WORD
    }

    /** First fragment of data block n. */
    function Frag(n: nat): nat { data + n * FRAGS }

    predicate IsBlock(v: int) {
      data <= v && (v - data) % FRAGS == 0 && (v - data) / FRAGS < Blocks()
    }

    function BlockNo(v: int): nat
      requires data <= v
    {
      (v - data) / FRAGS
    }
  }

  // ---- cylinder-group bytes (the two bitmaps) ----

  predicate CgIn(d: Disk, off: nat) { CG_SECTOR + off / SECTOR < |d| }

  function CgByte(d: Disk, off: nat): Byte
    requires CgIn(d, off)
  {
    d[CG_SECTOR + off / SECTOR][off % SECTOR]
  }

  function SetCgByte(d: Disk, off: nat, v: Byte): (e: Disk)
    requires CgIn(d, off)
    ensures |e| == |d|
  {
    var q := CG_SECTOR + off / SECTOR;
    d[q := d[q][off % SECTOR := v]]
  }

  lemma CgByteSet(d: Disk, off: nat, v: Byte, o: nat)
    requires CgIn(d, off) && CgIn(d, o)
    ensures CgByte(SetCgByte(d, off, v), o) == if o == off then v else CgByte(d, o)
  {
  }

  /** The free-map byte of block n: 0xFF when all eight fragments are free. */
  function MapByte(g: Geom, d: Disk, n: nat): Byte
    requires g.Valid() && |d| == g.sectors && n < g.Blocks()
  {
    CgByte(d, g.freeOff + n)
  }

  predicate IsFree(g: Geom, d: Disk, n: nat)
    requires g.Valid() && |d| == g.sectors && n < g.Blocks()
  {
    MapByte(g, d, n) == 0xFF
  }

  /** How many of the first n blocks are free. */
  function CountFree(g: Geom, d: Disk, n: nat): nat
    requires g.Valid() && |d| == g.sectors && n <= g.Blocks()
  {
    if n == 0 then 0 else CountFree(g, d, n - 1) + if IsFree(g, d, n - 1) then 1 else 0
  }

  lemma {:induction false} CountFreeSame(g: Geom, d: Disk, e: Disk, n: nat)
    requires g.Valid() && |d| == g.sectors && |e| == g.sectors && n <= g.Blocks()
    requires forall m :: 0 <= m < n ==> (IsFree(g, d, m) <==> IsFree(g, e, m))
    ensures CountFree(g, d, n) == CountFree(g, e, n)
  {
    if n > 0 {
      CountFreeSame(g, d, e, n - 1);
    }
  }

  /** Changing one block's free state changes the count by one. */
  lemma {:induction false} CountFreeStep(g: Geom, d: Disk, e: Disk, k: nat, n: nat)
    requires g.Valid() && |d| == g.sectors && |e| == g.sectors && k < n <= g.Blocks()
    requires forall m :: 0 <= m < g.Blocks() && m != k ==> (IsFree(g, d, m) <==> IsFree(g, e, m))
    requires IsFree(g, d, k) && !IsFree(g, e, k)
    ensures CountFree(g, d, n) == CountFree(g, e, n) + 1
  {
    if n == k + 1 {
      CountFreeSame(g, d, e, k);
    } else {
      CountFreeStep(g, d, e, k, n - 1);
    }
  }

  // ---- the inode bitmap ----

  /** Bit k of b, as `b & (1 << k)` tests it. */
  predicate Bit(b: nat, k: nat) {
    if k == 0 then b % 2 == 1 else Bit(b / 2, k - 1)
  }

  /** `b | (1 << k)` or `b & ~(1 << k)`. */
  function WithBit(b: nat, k: nat, on: bool): nat {
    if k == 0 then b / 2 * 2 + (if on then 1 else 0) else WithBit(b / 2, k - 1, on) * 2 + b % 2
  }

  function Two(n: nat): nat {
    if n == 0 then 1 else 2 * Two(n - 1)
  }

  lemma {:induction false} WithBitRange(b: nat, k: nat, on: bool, n: nat)
    requires k < n && b < Two(n)
    ensures WithBit(b, k, on) < Two(n)
  {
    if k > 0 {
      WithBitRange(b / 2, k - 1, on, n - 1);
    }
  }

  lemma {:induction false} BitSet(b: nat, k: nat, on: bool, j: nat)
    ensures Bit(WithBit(b, k, on), j) == if j == k then on else Bit(b, j)
  {
    if k > 0 && j > 0 {
      BitSet(b / 2, k - 1, on, j - 1);
    }
  }

  function ByteWithBit(b: Byte, k: nat, on: bool): Byte
    requires k < 8
  {
    assert Two(8) == 2 * Two(7) && Two(7) == 2 * Two(6) && Two(6) == 2 * Two(5) && Two(5) == 2 * Two(4);
    WithBitRange(b, k, on, 8);
    WithBit(b, k, on)
  }

  predicate InoUsed(g: Geom, d: Disk, ino: nat)
    requires g.Valid() && |d| == g.sectors && ino < g.inodes
  {
    Bit(CgByte(d, g.iusedOff + ino / 8), ino % 8)
  }

  function SetUsed(g: Geom, d: Disk, ino: nat, on: bool): Disk
    requires g.Valid() && |d| == g.sectors && ino < g.inodes
  {
    var o := g.iusedOff + ino / 8;
    SetCgByte(d, o, ByteWithBit(CgByte(d, o), ino % 8, on))
  }

  /** Marking one inode leaves the marks of all others, the free map, the inodes and the data alone. */
  lemma SetUsedFrame(g: Geom, d: Disk, ino: nat, on: bool)
    requires g.Valid() && |d| == g.sectors && ino < g.inodes
    ensures var e := SetUsed(g, d, ino, on);
            && |e| == |d|
            && (forall j :: 0 <= j < g.inodes ==> InoUsed(g, e, j) == if j == ino then on else InoUsed(g, d, j))
            && (forall n :: 0 <= n < g.Blocks() ==> MapByte(g, e, n) == MapByte(g, d, n))
            && (forall q :: g.itable <= q < |d| ==> d[q] == e[q])
  {
    hide CgByte, SetCgByte;
    var o := g.iusedOff + ino / 8;
    var e := SetUsed(g, d, ino, on);
    forall j | 0 <= j < g.inodes
      ensures InoUsed(g, e, j) == if j == ino then on else InoUsed(g, d, j)
    {
      CgByteSet(d, o, ByteWithBit(CgByte(d, o), ino % 8, on), g.iusedOff + j / 8);
      BitSet(CgByte(d, o), ino % 8, on, j % 8);
    }
    forall n | 0 <= n < g.Blocks() ensures MapByte(g, e, n) == MapByte(g, d, n) {
      CgByteSet(d, o, ByteWithBit(CgByte(d, o), ino % 8, on), g.freeOff + n);
    }
    SetCgByteHigh(g, d, o, ByteWithBit(CgByte(d, o), ino % 8, on));
  }

  lemma SetCgByteHigh(g: Geom, d: Disk, o: nat, v: Byte)
    requires g.Valid() && |d| == g.sectors && o < g.freeOff + g.Blocks()
    ensures forall q :: g.itable <= q < |d| ==> d[q] == SetCgByte(d, o, v)[q]
  {
  }

  /** Which inodes are in use, by the inode bitmap; those below the root are reserved, whatever their bits. */
  function Marks(g: Geom, d: Disk): (m: seq<bool>)
    requires g.Valid() && |d| == g.sectors
    ensures |m| == g.inodes
    ensures forall i :: 0 <= i < g.inodes ==> m[i] == (ROOT_INO <= i && InoUsed(g, d, i))
  {
    seq(g.inodes, i requires 0 <= i < g.inodes => ROOT_INO <= i && InoUsed(g, d, i))
  }

  /** How many inodes are neither reserved nor in use. */
  function Unused(marks: seq<bool>): (n: nat)
    ensures n <= |marks|
  {
    if |marks| <= ROOT_INO then 0 else Unused(marks[..|marks| - 1]) + if marks[|marks| - 1] then 0 else 1
  }

  lemma {:induction false} UnusedPut(marks: seq<bool>, i: nat, on: bool)
    requires i < |marks|
    ensures Unused(marks[i := on]) == if i < ROOT_INO then Unused(marks)
                                      else Unused(marks) - (if marks[i] then 0 else 1) + (if on then 0 else 1)
  {
    var n := |marks| - 1;
    if i == n {
      assert marks[i := on][..n] == marks[..n];
    } else {
      assert marks[i := on][..n] == marks[..n][i := on];
      UnusedPut(marks[..n], i, on);
    }
  }

  /** The bitmap depends on the cylinder-group sectors alone. */
  lemma MarksSame(g: Geom, d: Disk, e: Disk)
    requires g.Valid() && |d| == g.sectors == |e|
    requires forall q :: 0 <= q < g.itable ==> d[q] == e[q]
    ensures Marks(g, e) == Marks(g, d)
  {
    hide Bit;
    forall i | 0 <= i < g.inodes ensures InoUsed(g, e, i) == InoUsed(g, d, i) {
      assert d[CG_SECTOR + (g.iusedOff + i / 8) / SECTOR] == e[CG_SECTOR + (g.iusedOff + i / 8) / SECTOR];
    }
  }

  /** Nor does it overlap the free map. */
  lemma MarksOfByte(g: Geom, d: Disk, off: nat, v: Byte)
    requires g.Valid() && |d| == g.sectors && g.freeOff <= off < g.freeOff + g.Blocks()
    ensures CgIn(d, off) && Marks(g, SetCgByte(d, off, v)) == Marks(g, d)
  {
    hide Bit;
    forall i | 0 <= i < g.inodes ensures InoUsed(g, SetCgByte(d, off, v), i) == InoUsed(g, d, i) {
      CgByteSet(d, off, v, g.iusedOff + i / 8);
    }
  }

  // ---- free counts in the superblock and the cylinder group ----

  /** ufs_sync_super: four words, none of them inside a bitmap. */
  function SyncedSuper(g: Geom, d: Disk, nb: U32, ni: U32): (e: Disk)
    requires g.Valid() && |d| == g.sectors
    ensures |e| == |d|
  {
    var e1 := d[SB_SECTOR := PutU32(PutU32(d[SB_SECTOR], 196, nb), 200, ni)];
    e1[CG_SECTOR := PutU32(PutU32(e1[CG_SECTOR], 28, nb), 32, ni)]
  }

  lemma SyncedFrame(g: Geom, d: Disk, nb: U32, ni: U32)
    requires g.Valid() && |d| == g.sectors
    ensures var e := SyncedSuper(g, d, nb, ni);
            && (forall j :: 0 <= j < g.inodes ==> InoUsed(g, e, j) == InoUsed(g, d, j))
            && (forall n :: 0 <= n < g.Blocks() ==> MapByte(g, e, n) == MapByte(g, d, n))
            && (forall q :: g.itable <= q < |d| ==> d[q] == e[q])
            && U32At(e[SB_SECTOR], 196) == U32At(e[CG_SECTOR], 28) == nb
            && U32At(e[SB_SECTOR], 200) == U32At(e[CG_SECTOR], 32) == ni
  {
    hide Bit;
    var e := SyncedSuper(g, d, nb, ni);
    forall o | 100 <= o && CgIn(d, o) ensures CgByte(e, o) == CgByte(d, o) {
    }
    PutGet32(d[SB_SECTOR], 196, nb, 196);
    PutGet32(PutU32(d[SB_SECTOR], 196, nb), 200, ni, 196);
    PutGet32(PutU32(d[SB_SECTOR], 196, nb), 200, ni, 200);
    PutGet32(d[CG_SECTOR], 28, nb, 28);
    PutGet32(PutU32(d[CG_SECTOR], 28, nb), 32, ni, 28);
    PutGet32(PutU32(d[CG_SECTOR], 28, nb), 32, ni, 32);
  }

  // ---- inodes ----

  type Inode = s: seq<Byte> | |s| == 128 witness seq(128, _ => 0)

  function ZeroInode(): Inode { seq(128, _ => 0) }

  function Mode(i: Inode): U16 { U16At(i, 0) }
  function Nlink(i: Inode): U16 { U16At(i, 2) }
  function SizeLo(i: Inode): U32 { U32At(i, 8) }
  function SizeHi(i: Inode): U32 { U32At(i, 12) }
  function Size(i: Inode): nat { SizeLo(i) + WORD * SizeHi(i) }

  function SetNlink(i: Inode, v: U16): Inode { PutU16(i, 2, v) }
  function SetSize(i: Inode, v: U32): Inode { PutU32(PutU32(i, 8, v), 12, 0) }

  predicate IsDir(i: Inode) { Mode(i) / 0x1000 == 4 }
  predicate IsSymlink(i: Inode) { Mode(i) / 0x1000 == 10 }

  /** i_direct[0..11], i_ib[0], i_ib[1] are words 0..13 of one array at byte 40. */
  function TopPtr(i: Inode, k: nat): U32
    requires k < 14
  {
    U32At(i, 40 + 4 * k)
  }

  function SetTopPtr(i: Inode, k: nat, v: U32): Inode
    requires k < 14
  {
    PutU32(i, 40 + 4 * k, v)
  }

  lemma SetSizeFields(i: Inode, v: U32)
    ensures var c := SetSize(i, v);
            && Size(c) == v && Mode(c) == Mode(i) && Nlink(c) == Nlink(i)
            && forall k :: 0 <= k < 14 ==> TopPtr(c, k) == TopPtr(i, k)
  {
    var m := PutU32(i, 8, v);
    PutGet32(i, 8, v, 8);
    PutGet32(m, 12, 0, 8);
    PutGet32(m, 12, 0, 12);
    forall k | 0 <= k < 14 ensures TopPtr(SetSize(i, v), k) == TopPtr(i, k) {
      PutGet32(i, 8, v, 40 + 4 * k);
      PutGet32(m, 12, 0, 40 + 4 * k);
    }
  }

  lemma SetNlinkFields(i: Inode, v: U16)
    ensures var c := SetNlink(i, v);
            && Nlink(c) == v && Mode(c) == Mode(i) && Size(c) == Size(i)
            && forall k :: 0 <= k < 14 ==> TopPtr(c, k) == TopPtr(i, k)
  {
    PutGet16(i, 2, v, 2);
  }

  function InodeAt(g: Geom, d: Disk, ino: nat): Inode
    requires g.Valid() && |d| == g.sectors && ino < g.inodes
  {
    d[g.itable + ino / 4][ino % 4 * 128..ino % 4 * 128 + 128]
  }

  function PutInode(g: Geom, d: Disk, ino: nat, i: Inode): (e: Disk)
    requires g.Valid() && |d| == g.sectors && ino < g.inodes
    ensures |e| == |d|
  {
    var q := g.itable + ino / 4;
    d[q := Splice(d[q], ino % 4 * 128, i)]
  }

  lemma InodePut(g: Geom, d: Disk, ino: nat, i: Inode, j: nat)
    requires g.Valid() && |d| == g.sectors && ino < g.inodes && j < g.inodes
    ensures InodeAt(g, PutInode(g, d, ino, i), j) == if j == ino then i else InodeAt(g, d, j)
  {
    var e := PutInode(g, d, ino, i);
    if j == ino {
      assert InodeAt(g, e, j) == i;
    } else if j / 4 == ino / 4 {
      assert j % 4 != ino % 4;
      assert InodeAt(g, e, j) == InodeAt(g, d, j);
    }
  }

  lemma TableSame(g: Geom, d: Disk, e: Disk)
    requires g.Valid() && |d| == g.sectors == |e|
    requires forall q :: g.itable <= q < g.data ==> d[q] == e[q]
    ensures Table(g, d) == Table(g, e)
  {
    forall i | 0 <= i < g.inodes ensures InodeAt(g, d, i) == InodeAt(g, e, i) {
      assert d[g.itable + i / 4] == e[g.itable + i / 4];
    }
  }

  /** The inode table as a sequence. */
  function Table(g: Geom, d: Disk): (t: seq<Inode>)
    requires g.Valid() && |d| == g.sectors
    ensures |t| == g.inodes
    ensures forall i :: 0 <= i < g.inodes ==> t[i] == InodeAt(g, d, i)
  {
    seq(g.inodes, i requires 0 <= i < g.inodes => InodeAt(g, d, i))
  }

  lemma TablePut(g: Geom, d: Disk, ino: nat, i: Inode)
    requires g.Valid() && |d| == g.sectors && ino < g.inodes
    ensures Table(g, PutInode(g, d, ino, i)) == Table(g, d)[ino := i]
  {
    forall j | 0 <= j < g.inodes
      ensures Table(g, PutInode(g, d, ino, i))[j] == Table(g, d)[ino := i][j]
    {
      InodePut(g, d, ino, i, j);
    }
  }

  // ---- indirect blocks ----

  /** Pointer k of the indirect block at fragment p (0: none, also when there is no block). */
  function Entry(d: Disk, p: nat, k: nat): U32 {
    if p != 0 && k < PTRS && p + k / PTRS_SEC < |d| then U32At(d[p + k / PTRS_SEC], 4 * (k % PTRS_SEC)) else 0
  }

  function SetEntry(d: Disk, p: nat, k: nat, v: U32): (e: Disk)
    requires k < PTRS && p + k / PTRS_SEC < |d|
    ensures |e| == |d|
  {
    var q := p + k / PTRS_SEC;
    d[q := PutU32(d[q], 4 * (k % PTRS_SEC), v)]
  }

  lemma EntrySet(d: Disk, p: nat, k: nat, v: U32, q: nat, j: nat)
    requires p != 0 && k < PTRS && p + FRAGS <= |d|
    requires q == p || q + FRAGS <= p || p + FRAGS <= q
    ensures Entry(SetEntry(d, p, k, v), q, j) == if q == p && j == k then v else Entry(d, q, j)
  {
    if j < PTRS && q != 0 && q + j / PTRS_SEC < |d| && q + j / PTRS_SEC == p + k / PTRS_SEC {
      assert q == p;
      PutGet32(d[p + k / PTRS_SEC], 4 * (k % PTRS_SEC), v, 4 * (j % PTRS_SEC));
    }
  }

  /** All eight sectors of the block at p are zero after ufs_zero_block. */
  function ZeroBlock(d: Disk, p: nat): (e: Disk)
    requires p + FRAGS <= |d|
    ensures |e| == |d|
    ensures forall q :: 0 <= q < |d| ==> e[q] == if p <= q < p + FRAGS then ZeroSector() else d[q]
  {
    d[..p] + seq(FRAGS, _ => ZeroSector()) + d[p + FRAGS..]
  }
}
