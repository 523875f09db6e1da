/** UFS file contents: ufs_read and ufs_write over the block layer. */
module UfsFiles {
  import opened Options
  import opened Bytes
  import Arith
  import opened UfsFormat
  import opened UfsTree
  import opened UfsBlocks

  /** What a C entry point returns: a byte count, or a negative errno. */
  datatype Ret = Count(n: nat) | Err(e: Status)

  /** An in-memory vnode_t. */
  class Vnode {
    const ino: nat
    const isDir: bool
    var size: U32

    constructor (i: nat, dir: bool, n: U32)
      ensures ino == i && isDir == dir && size == n
    {
      ino, isDir, size := i, dir, n;
    }
  }

  /** The byte of a file at pos, or None in a hole. */
  function ByteAt(tab: seq<Inode>, d: Disk, ino: nat, pos: nat): Option<Byte> {
    var v := Val(tab, d, DataSlot(ino, pos / BLOCK));
    if v == 0 || |d| < v + FRAGS then None else Some(d[v + pos % BLOCK / SECTOR][pos % SECTOR])
  }

  /** Position reached k bytes after off, in 32-bit arithmetic. */
  function Wrap(k: nat): U32
    requires k < 2 * WORD
  {
    if k < WORD then k else k - WORD
  }

  /** How many bytes after off position q lies, in 32-bit arithmetic. */
  function Idx(off: U32, q: U32): U32 {
    if off <= q then q - off else q - off + WORD
  }

  // ---- what an operation on one file does to the volume ----

  /** Like Grows, except that data blocks of file ino may be overwritten and get new owners;
      newly taken blocks are owned, except those in lost. */
  ghost predicate FileGrows(g: Geom, d: Disk, own: map<nat, Slot>, e: Disk, own': map<nat, Slot>, ino: nat, lost: iset<nat>) {
    && g.Valid() && |d| == g.sectors == |e|
    && (forall v :: v in own ==> v in own' && own'[v] == own[v])
    && (forall v :: v in own' && v !in own ==> own'[v].ino == ino && g.IsBlock(v) && IsFree(g, d, g.BlockNo(v)))
    && (forall n :: 0 <= n < g.Blocks() && IsFree(g, e, n) ==> IsFree(g, d, n))
    && (forall n :: 0 <= n < g.Blocks() && IsFree(g, d, n) && !IsFree(g, e, n) ==> g.Frag(n) in own' || g.Frag(n) in lost)
    && (forall v :: Plain(g, d, own, v) && (v in own ==> own[v].ino != ino) ==> SameBlock(d, e, v))
  }

  lemma FileGrowsRefl(g: Geom, d: Disk, own: map<nat, Slot>, ino: nat)
    requires g.Valid() && |d| == g.sectors
    ensures FileGrows(g, d, own, d, own, ino, iset{})
  {
  }

  lemma FileGrowsTrans(g: Geom, d: Disk, own: map<nat, Slot>, e: Disk, own': map<nat, Slot>, h: Disk, own'': map<nat, Slot>, ino: nat, lost: iset<nat>)
    requires FileGrows(g, d, own, e, own', ino, iset{}) && FileGrows(g, e, own', h, own'', ino, lost)
    ensures FileGrows(g, d, own, h, own'', ino, lost)
  {
    forall v | Plain(g, d, own, v) && (v in own ==> own[v].ino != ino) ensures SameBlock(d, h, v) {
      assert Plain(g, e, own', v);
    }
  }

  /** Every byte of every other file is untouched. */
  ghost predicate OthersSame(tab: seq<Inode>, d: Disk, tab': seq<Inode>, e: Disk, ino: nat) {
    forall i, pos :: i != ino ==> ByteAt(tab', e, i, pos) == ByteAt(tab, d, i, pos)
  }

  lemma OtherBytes(g: Geom, tab: seq<Inode>, d: Disk, own: map<nat, Slot>, tab': seq<Inode>, e: Disk, own': map<nat, Slot>, ino: nat, lost: iset<nat>)
    requires Good(g, tab, d, own) && Good(g, tab', e, own')
    requires FileGrows(g, d, own, e, own', ino, lost)
    ensures OthersSame(tab, d, tab', e, ino)
  {
    forall i, pos | i != ino ensures ByteAt(tab', e, i, pos) == ByteAt(tab, d, i, pos) {
      OtherByte(g, tab, d, own, tab', e, own', ino, i, pos, lost);
    }
  }

  lemma OtherByte(g: Geom, tab: seq<Inode>, d: Disk, own: map<nat, Slot>, tab': seq<Inode>, e: Disk, own': map<nat, Slot>, ino: nat, i: nat, pos: nat, lost: iset<nat>)
    requires Good(g, tab, d, own) && Good(g, tab', e, own')
    requires FileGrows(g, d, own, e, own', ino, lost) && i != ino
    ensures ByteAt(tab', e, i, pos) == ByteAt(tab, d, i, pos)
  {
    hide Good, FileGrows, Val, DataSlot;
    DataSlotPlain(i, pos / BLOCK);
    OtherSlot(g, tab, d, own, tab', e, own', ino, DataSlot(i, pos / BLOCK), lost);
    ByteSame(tab, d, tab', e, i, pos);
  }

  lemma DataSlotPlain(i: nat, l: nat)
    ensures !IsMeta(DataSlot(i, l)) && DataSlot(i, l).ino == i
  {
  }

  /** A byte is determined by the pointer of its block and that block's sectors. */
  lemma ByteSame(tab: seq<Inode>, d: Disk, tab': seq<Inode>, e: Disk, i: nat, pos: nat)
    requires |d| == |e|
    requires var s := DataSlot(i, pos / BLOCK);
             Val(tab', e, s) == Val(tab, d, s) && (Val(tab, d, s) != 0 ==> SameBlock(d, e, Val(tab, d, s)))
    ensures ByteAt(tab', e, i, pos) == ByteAt(tab, d, i, pos)
  {
    hide Val, DataSlot;
  }

  lemma OtherSlot(g: Geom, tab: seq<Inode>, d: Disk, own: map<nat, Slot>, tab': seq<Inode>, e: Disk, own': map<nat, Slot>, ino: nat, s: Slot, lost: iset<nat>)
    requires Good(g, tab, d, own) && Good(g, tab', e, own')
    requires FileGrows(g, d, own, e, own', ino, lost) && s.ino != ino
    ensures Val(tab', e, s) == Val(tab, d, s)
    ensures |d| == |e|
    ensures !IsMeta(s) && Val(tab, d, s) != 0 ==> SameBlock(d, e, Val(tab, d, s))
  {
    hide Val, SameBlock, IsFree;
    var v, w := Val(tab, d, s), Val(tab', e, s);
    if v != 0 {
      assert v in own && own[v] == s && Owned(g, tab, d, own, v) && Owned(g, tab', e, own', v);
      if !IsMeta(s) {
        assert Plain(g, d, own, v);
      }
    }
    if w != 0 {
      assert w in own' && own'[w] == s;
      assert Owned(g, tab, d, own, w);
    }
  }

  // ---- the bytes of the written file ----

  /** Block l holds one of the first n positions from off on. */
  predicate Reached(off: U32, n: nat, l: nat)
    requires n < WORD
  {
    exists k: nat :: k < n && InBlockAt(off, k, l)
  }

  predicate InBlockAt(off: U32, k: nat, l: nat)
    requires k < WORD
  {
    Wrap(off + k) / BLOCK == l
  }

  /** b is what a write of src at off leaves where a stood, `done` bytes of src having been written:
      holes of the blocks written to read as zero, everything else stays. */
  ghost predicate Overwritten(a: Option<Byte>, b: Option<Byte>, off: U32, src: seq<Byte>, done: nat, q: U32)
    requires done <= |src| < WORD
  {
    if Idx(off, q) < done then b == Some(src[Idx(off, q)])
    else b == if a == None && Reached(off, done, q / BLOCK) then Some(0) else a
  }

  ghost predicate Wrote(tab: seq<Inode>, d: Disk, tab': seq<Inode>, e: Disk, ino: nat, off: U32, src: seq<Byte>, done: nat)
    requires done <= |src| < WORD
  {
    forall q: U32 :: Overwritten(ByteAt(tab, d, ino, q), ByteAt(tab', e, ino, q), off, src, done, q)
  }

  /** Position q lies in the chunk of `avail` bytes that starts at pos. */
  predicate InChunk(pos: U32, avail: nat, q: U32) {
    q / BLOCK == pos / BLOCK && q % BLOCK / SECTOR == pos % BLOCK / SECTOR
    && pos % SECTOR <= q % SECTOR < pos % SECTOR + avail
  }

  lemma SectorIndex(q: U32)
    ensures q / SECTOR == FRAGS * (q / BLOCK) + q % BLOCK / SECTOR
  {
  }

  lemma ChunkRange(pos: U32, avail: nat, q: U32)
    requires pos % SECTOR + avail <= SECTOR
    ensures InChunk(pos, avail, q) <==> pos <= q < pos + avail
    ensures InChunk(pos, avail, q) ==> q % SECTOR - pos % SECTOR == q - pos
  {
    SectorIndex(pos);
    SectorIndex(q);
    var a, b := pos / BLOCK, q / BLOCK;
    var m, n := pos % BLOCK / SECTOR, q % BLOCK / SECTOR;
    assert 0 <= m < FRAGS && 0 <= n < FRAGS;
    assert (a == b && m == n) <==> pos / SECTOR == q / SECTOR;
    assert pos == SECTOR * (pos / SECTOR) + pos % SECTOR && q == SECTOR * (q / SECTOR) + q % SECTOR;
  }

  lemma ChunkIdx(off: U32, done: nat, avail: nat, q: U32)
    requires done + avail <= WORD && done < WORD
    requires var pos := Wrap(off + done); pos % SECTOR + avail <= SECTOR
    ensures var pos := Wrap(off + done);
            && (InChunk(pos, avail, q) <==> done <= Idx(off, q) < done + avail)
            && (InChunk(pos, avail, q) ==> Idx(off, q) - done == q % SECTOR - pos % SECTOR)
  {
    ChunkRange(Wrap(off + done), avail, q);
  }

  // ---- making sure a logical block exists ----

  /** A byte stays, except that a hole of logical block l turns into a zero if there was room. */
  predicate Kept(a: Option<Byte>, b: Option<Byte>, pos: nat, l: nat, ok: bool) {
    b == if ok && pos / BLOCK == l && a == None then Some(0) else a
  }

  ghost predicate Filled(tab: seq<Inode>, d: Disk, tab': seq<Inode>, e: Disk, ino: nat, l: nat, ok: bool) {
    forall pos: nat :: Kept(ByteAt(tab, d, ino, pos), ByteAt(tab', e, ino, pos), pos, l, ok)
  }

  /** Growing file ino by a zeroed data block f at logical block l, and indirect blocks. */
  lemma FilledBy(g: Geom, tab: seq<Inode>, d: Disk, own: map<nat, Slot>, tab': seq<Inode>, e: Disk, own': map<nat, Slot>, ino: nat, l: nat, f: nat)
    requires Good(g, tab, d, own) && Good(g, tab', e, own')
    requires Grows(g, d, own, e, own', iset{f}) && NewOwners(own, own', ino, DataSlot(ino, l), f)
    requires f !in own && (f in own' ==> own'[f] == DataSlot(ino, l)) && Val(tab, d, DataSlot(ino, l)) == 0
    requires forall q :: f <= q < f + FRAGS && q < |e| ==> e[q] == ZeroSector()
    ensures Filled(tab, d, tab', e, ino, l, f in own')
  {
    hide Good, Grows, NewOwners, ByteAt, DataSlot, Kept;
    forall pos: nat ensures Kept(ByteAt(tab, d, ino, pos), ByteAt(tab', e, ino, pos), pos, l, f in own') {
      FilledAt(g, tab, d, own, tab', e, own', ino, l, f, pos);
    }
  }

  lemma FilledAt(g: Geom, tab: seq<Inode>, d: Disk, own: map<nat, Slot>, tab': seq<Inode>, e: Disk, own': map<nat, Slot>, ino: nat, l: nat, f: nat, pos: nat)
    requires Good(g, tab, d, own) && Good(g, tab', e, own')
    requires Grows(g, d, own, e, own', iset{f}) && NewOwners(own, own', ino, DataSlot(ino, l), f)
    requires f !in own && (f in own' ==> own'[f] == DataSlot(ino, l)) && Val(tab, d, DataSlot(ino, l)) == 0
    requires forall q :: f <= q < f + FRAGS && q < |e| ==> e[q] == ZeroSector()
    ensures Kept(ByteAt(tab, d, ino, pos), ByteAt(tab', e, ino, pos), pos, l, f in own')
  {
    var s, b := DataSlot(ino, pos / BLOCK), pos / BLOCK;
    FilledSlot(g, tab, d, own, tab', e, own', ino, l, f, b);
    hide Val, Good, Grows, NewOwners, DataSlot;
    if b != l {
      ByteSame(tab, d, tab', e, ino, pos);
    }
  }

  lemma FilledSlot(g: Geom, tab: seq<Inode>, d: Disk, own: map<nat, Slot>, tab': seq<Inode>, e: Disk, own': map<nat, Slot>, ino: nat, l: nat, f: nat, b: nat)
    requires Good(g, tab, d, own) && Good(g, tab', e, own')
    requires Grows(g, d, own, e, own', iset{f}) && NewOwners(own, own', ino, DataSlot(ino, l), f)
    requires f !in own && (f in own' ==> own'[f] == DataSlot(ino, l)) && Val(tab, d, DataSlot(ino, l)) == 0
    ensures |d| == |e|
    ensures var s := DataSlot(ino, b); var v := Val(tab, d, s);
            if b == l then v == 0 && (f in own' ==> Val(tab', e, s) == f && f + FRAGS <= |e|) && (f !in own' ==> Val(tab', e, s) == 0)
            else Val(tab', e, s) == v && (v != 0 ==> SameBlock(d, e, v))
  {
    if b != l && DataSlot(ino, b) == DataSlot(ino, l) {
      DataSlotInjective(ino, b, ino, l);
    }
    DataSlotPlain(ino, b);
    hide DataSlot, SameBlock, IsFree;
    var s := DataSlot(ino, b);
    var v := Val(tab, d, s);
    assert f in own' ==> Owned(g, tab', e, own', f);
    if v != 0 {
      assert v in own && Owned(g, tab, d, own, v) && Owned(g, tab', e, own', v);
      assert Plain(g, d, own, v);
    }
    assert Val(tab', e, s) in own ==> Owned(g, tab, d, own, Val(tab', e, s));
  }

  /** New owners stand on the way to slot s; without room for its data block they are indirect blocks. */
  ghost predicate NewOn(own: map<nat, Slot>, own': map<nat, Slot>, s: Slot, ok: bool) {
    forall v :: v in own' && v !in own ==> OnPath(own'[v], s) && (!ok ==> IsMeta(own'[v]) && own'[v].Top?)
  }

  lemma NewOnIs(own: map<nat, Slot>, own': map<nat, Slot>, ino: nat, s: Slot, f: nat, ok: bool)
    requires NewOwners(own, own', ino, s, f) && (ok || (f !in own' && NewTops(own, own')))
    ensures NewOn(own, own', s, ok)
  {
  }

  /** The alloc-on-demand step of ufs_write: phys becomes the block of the logical index. */
  method EnsureBlock(u: Ufs, inode: Inode, logical: nat, ghost ino: nat) returns (rc: Status, inode': Inode, phys: U32)
    requires u.Valid() && ino < u.g.inodes && u.tab[ino] == inode && !IsSymlink(inode)
    requires logical < MAX_LOGICAL
    modifies u`disk, u`buf, u`freeBlocks, u`tab, u`own
    ensures u.Valid() && u.tab == old(u.tab)[ino := inode'] && SameFields(inode, inode')
    ensures Table(u.g, u.disk) == Table(u.g, old(u.disk))
    ensures rc == Ok || rc == ENOSPC
    ensures rc == Ok ==> phys != 0 && phys == Val(u.tab, u.disk, DataSlot(ino, logical))
    ensures rc == ENOSPC ==> forall n :: 0 <= n < u.g.Blocks() ==> !IsFree(u.g, u.disk, n)
    ensures FileGrows(u.g, old(u.disk), old(u.own), u.disk, u.own, ino, if rc == Ok || logical < NDIRECT then iset{} else iset{phys})
    ensures Filled(old(u.tab), old(u.disk), u.tab, u.disk, ino, logical, rc == Ok)
    ensures rc == ENOSPC ==> Val(u.tab, u.disk, DataSlot(ino, logical)) == 0
    ensures NewOn(old(u.own), u.own, DataSlot(ino, logical), rc == Ok)
    ensures u.freeBlocks <= old(u.freeBlocks) <= u.freeBlocks + if rc == Ok then 3 else 2
    ensures Val(old(u.tab), old(u.disk), DataSlot(ino, logical)) != 0 ==> rc == Ok && u.freeBlocks == old(u.freeBlocks)
  {
    hide Vol, Good, Grows, FileGrows, Filled, Val, Loose, Fresh, EmptyBlock, Geom.Valid, NewOwners, IsFree, DataSlot,
         OnPath;
    VolShape(u.g, u.tab, u.disk, u.own, u.freeBlocks);
    VolGood(u.g, u.tab, u.disk, u.own, u.freeBlocks);
    inode' := inode;
    rc, phys := u.BlockMap(inode, logical, ino);
    if phys == 0 {
      NoChange(u.g, u.tab, u.disk, u.own, ino, logical, iset{}, false);
      rc, phys := u.AllocZeroed();
      if rc == Ok {
        ghost var mid := u.disk;
        FreshTable(u.g, old(u.disk), mid, phys);
        rc, inode' := u.BlockSet(inode, logical, phys, ino);
        VolGood(u.g, u.tab, u.disk, u.own, u.freeBlocks);
        Allocated(u.g, old(u.tab), old(u.disk), u.own, mid, u.tab, u.disk, old(u.own), ino, logical, phys);
        SetOutcome(u.g, u.tab, u.disk, u.own, ino, logical, phys);
        NewOnIs(old(u.own), u.own, ino, DataSlot(ino, logical), phys, rc == Ok);
      } else {
        NoChange(u.g, u.tab, u.disk, u.own, ino, logical, iset{phys}, false);
      }
    } else {
      NoChange(u.g, u.tab, u.disk, u.own, ino, logical, iset{}, true);
    }
  }

  lemma SetOutcome(g: Geom, tab: seq<Inode>, d: Disk, own: map<nat, Slot>, ino: nat, l: nat, f: nat)
    requires Good(g, tab, d, own)
    ensures f != 0 && Val(tab, d, DataSlot(ino, l)) == f ==> f in own
    ensures Loose(g, tab, d, own, f) ==> f !in own
  {
  }

  lemma NoChange(g: Geom, tab: seq<Inode>, d: Disk, own: map<nat, Slot>, ino: nat, l: nat, lost: iset<nat>, ok: bool)
    requires Good(g, tab, d, own) && (ok ==> Val(tab, d, DataSlot(ino, l)) != 0)
    ensures FileGrows(g, d, own, d, own, ino, lost) && Filled(tab, d, tab, d, ino, l, ok)
  {
    hide Val, DataSlot;
    if ok {
      InRange(g, tab, d, own, DataSlot(ino, l));
    }
  }

  /** Allocation of block f followed by ufs_block_set, seen as one step. */
  lemma Allocated(g: Geom, tab: seq<Inode>, d: Disk, own': map<nat, Slot>, m: Disk, tab': seq<Inode>, e: Disk, own: map<nat, Slot>,
                  ino: nat, l: nat, f: nat)
    requires Good(g, tab, d, own) && Good(g, tab', e, own')
    requires Fresh(g, d, m, f) && f !in own && Loose(g, tab, m, own, f)
    requires Grows(g, m, own, e, own', iset{}) && NewOwners(own, own', ino, DataSlot(ino, l), f)
    requires f != 0 && Val(tab, d, DataSlot(ino, l)) == 0
    requires Loose(g, tab', e, own', f) || Val(tab', e, DataSlot(ino, l)) == f
    ensures FileGrows(g, d, own, e, own', ino, if f in own' then iset{} else iset{f})
    ensures Filled(tab, d, tab', e, ino, l, f in own')
  {
    assert f in own' ==> own'[f] == DataSlot(ino, l);
    hide Good, Fresh, Val, IsFree, FileGrows, Grows, Filled, Geom.Valid, Geom.IsBlock, DataSlot;
    DataSlotPlain(ino, l);
    AllocGrows(g, d, m, e, own, own', f);
    FreshZero(g, tab, d, m, own, e, own', f);
    FilledBy(g, tab, d, own, tab', e, own', ino, l, f);
    GrowsFile(g, tab', d, own, e, own', ino, DataSlot(ino, l), f);
  }

  lemma AllocGrows(g: Geom, d: Disk, m: Disk, e: Disk, own: map<nat, Slot>, own': map<nat, Slot>, f: nat)
    requires Fresh(g, d, m, f) && f !in own
    requires Grows(g, m, own, e, own', iset{}) && (f in own' ==> !IsMeta(own'[f]))
    ensures Grows(g, d, own, e, own', iset{f})
    ensures g.IsBlock(f) && IsFree(g, d, g.BlockNo(f))
  {
    FreshGrows(g, d, own, m, f);
    hide Fresh;
    forall v | Plain(g, d, own, v) ensures SameBlock(d, e, v) {
      assert Plain(g, m, own, v);
    }
  }

  lemma FreshZero(g: Geom, tab: seq<Inode>, d: Disk, m: Disk, own: map<nat, Slot>, e: Disk, own': map<nat, Slot>, f: nat)
    requires Fresh(g, d, m, f) && Loose(g, tab, m, own, f)
    requires Grows(g, m, own, e, own', iset{})
    ensures forall q :: f <= q < f + FRAGS && q < |e| ==> e[q] == ZeroSector()
  {
    assert Plain(g, m, own, f);
  }

  lemma GrowsFile(g: Geom, tab': seq<Inode>, d: Disk, own: map<nat, Slot>, e: Disk, own': map<nat, Slot>, ino: nat, s: Slot, f: nat)
    requires Grows(g, d, own, e, own', iset{f}) && NewOwners(own, own', ino, s, f) && s.ino == ino
    requires g.IsBlock(f) && IsFree(g, d, g.BlockNo(f))
    ensures FileGrows(g, d, own, e, own', ino, if f in own' then iset{} else iset{f})
  {
  }

  // ---- one sector of a write ----

  /** Bytes of file ino change only inside the chunk at pos, where chunk now stands. */
  predicate Chunked(a: Option<Byte>, b: Option<Byte>, pos: U32, chunk: seq<Byte>, q: U32)
    requires pos % SECTOR + |chunk| <= SECTOR
  {
    b == if InChunk(pos, |chunk|, q) then Some(chunk[q % SECTOR - pos % SECTOR]) else a
  }

  ghost predicate ChunkWritten(tab: seq<Inode>, d: Disk, e: Disk, ino: nat, pos: U32, chunk: seq<Byte>)
    requires pos % SECTOR + |chunk| <= SECTOR
  {
    forall q: U32 :: Chunked(ByteAt(tab, d, ino, q), ByteAt(tab, e, ino, q), pos, chunk, q)
  }

  /** The disk after overwriting |chunk| bytes of sector q from byte o on. */
  function PutChunk(d: Disk, q: nat, o: nat, chunk: seq<Byte>): (e: Disk)
    requires q < |d| && o + |chunk| <= SECTOR
    ensures |e| == |d|
  {
    d[q := Splice(d[q], o, chunk)]
  }

  lemma ChunkStep(g: Geom, tab: seq<Inode>, d: Disk, own: map<nat, Slot>, free: nat, ino: nat, pos: U32, chunk: seq<Byte>)
    requires Vol(g, tab, d, own, free)
    requires pos % SECTOR + |chunk| <= SECTOR
    requires Val(tab, d, DataSlot(ino, pos / BLOCK)) != 0
    ensures Val(tab, d, DataSlot(ino, pos / BLOCK)) + FRAGS <= |d|
    ensures var e := PutChunk(d, Val(tab, d, DataSlot(ino, pos / BLOCK)) + pos % BLOCK / SECTOR, pos % SECTOR, chunk);
            && Vol(g, tab, e, own, free) && Table(g, e) == Table(g, d) && Marks(g, e) == Marks(g, d)
            && FileGrows(g, d, own, e, own, ino, iset{})
            && ChunkWritten(tab, d, e, ino, pos, chunk)
  {
    hide Vol, Good, Val, DataSlot, FileGrows, ByteAt, Chunked, IsMeta;
    var s := DataSlot(ino, pos / BLOCK);
    DataSlotPlain(ino, pos / BLOCK);
    var v := Val(tab, d, s);
    VolGood(g, tab, d, own, free);
    InRange(g, tab, d, own, s);
    var e := PutChunk(d, v + pos % BLOCK / SECTOR, pos % SECTOR, chunk);
    ChunkVol(g, tab, d, own, free, s, e);
    forall q: U32 ensures Chunked(ByteAt(tab, d, ino, q), ByteAt(tab, e, ino, q), pos, chunk, q) {
      ChunkKept(g, tab, d, own, free, ino, pos, chunk, e, q);
    }
  }

  /** Changing one data block of file s.ino. */
  lemma ChunkVol(g: Geom, tab: seq<Inode>, d: Disk, own: map<nat, Slot>, free: nat, s: Slot, e: Disk)
    requires Vol(g, tab, d, own, free) && !IsMeta(s) && Val(tab, d, s) != 0 && |e| == |d|
    requires forall q :: 0 <= q < |d| && !(Val(tab, d, s) <= q < Val(tab, d, s) + FRAGS) ==> d[q] == e[q]
    ensures Vol(g, tab, e, own, free) && Table(g, e) == Table(g, d) && Marks(g, e) == Marks(g, d)
    ensures forall t :: Val(tab, d, t) == Val(tab, e, t)
    ensures FileGrows(g, d, own, e, own, s.ino, iset{})
  {
    var v := Val(tab, d, s);
    assert v in own && own[v] == s && Owned(g, tab, d, own, v);
    WriteStep(g, tab, d, e, own, v);
    MarksData(g, d, e);
    hide MapByte, Val, Good;
    CountFreeSame(g, d, e, g.Blocks());
    forall w | Plain(g, d, own, w) && (w in own ==> own[w].ino != s.ino) ensures SameBlock(d, e, w) {
      BlocksApart(g, v, w);
    }
  }

  lemma ChunkKept(g: Geom, tab: seq<Inode>, d: Disk, own: map<nat, Slot>, free: nat, ino: nat, pos: U32, chunk: seq<Byte>, e: Disk, q: U32)
    requires Vol(g, tab, d, own, free) && pos % SECTOR + |chunk| <= SECTOR
    requires var v := Val(tab, d, DataSlot(ino, pos / BLOCK));
             v != 0 && v + FRAGS <= |d| && e == PutChunk(d, v + pos % BLOCK / SECTOR, pos % SECTOR, chunk)
    requires forall t :: Val(tab, d, t) == Val(tab, e, t)
    ensures Chunked(ByteAt(tab, d, ino, q), ByteAt(tab, e, ino, q), pos, chunk, q)
  {
    hide Vol, Val, DataSlot, InChunk, PutChunk, Geom.Valid;
    var v, w := Val(tab, d, DataSlot(ino, pos / BLOCK)), Val(tab, d, DataSlot(ino, q / BLOCK));
    FileBlocksApart(g, tab, d, own, free, ino, pos / BLOCK, q / BLOCK);
    if w != 0 && w + FRAGS <= |d| {
      ChunkByte(d, v, w, pos, chunk, q);
    }
    if q / BLOCK != pos / BLOCK {
      ChunkOff(pos, |chunk|, q);
    }
  }

  lemma ChunkOff(pos: U32, n: nat, q: U32)
    requires q / BLOCK != pos / BLOCK
    ensures !InChunk(pos, n, q)
  {
  }

  /** Different logical blocks of a file do not overlap. */
  lemma FileBlocksApart(g: Geom, tab: seq<Inode>, d: Disk, own: map<nat, Slot>, free: nat, ino: nat, l: nat, m: nat)
    requires Vol(g, tab, d, own, free)
    ensures var v, w := Val(tab, d, DataSlot(ino, l)), Val(tab, d, DataSlot(ino, m));
            l != m && v != 0 && w != 0 ==> v + FRAGS <= w || w + FRAGS <= v
  {
    if l == m || Val(tab, d, DataSlot(ino, l)) == 0 || Val(tab, d, DataSlot(ino, m)) == 0 {
      return;
    }
    var s, t := DataSlot(ino, l), DataSlot(ino, m);
    if s == t {
      DataSlotInjective(ino, l, ino, m);
    }
    Disjoint(g, tab, d, own, s, t);
    Disjoint(g, tab, d, own, t, s);
    hide Vol, Val, IsFree;
    BlocksApart(g, Val(tab, d, s), Val(tab, d, t));
  }

  lemma ChunkByte(d: Disk, v: nat, w: nat, pos: U32, chunk: seq<Byte>, q: U32)
    requires pos % SECTOR + |chunk| <= SECTOR && v + FRAGS <= |d| && w + FRAGS <= |d|
    requires if q / BLOCK == pos / BLOCK then v == w else v + FRAGS <= w || w + FRAGS <= v
    ensures var e := PutChunk(d, v + pos % BLOCK / SECTOR, pos % SECTOR, chunk);
            var o := w + q % BLOCK / SECTOR;
            && o < |d|
            && e[o][q % SECTOR] == if InChunk(pos, |chunk|, q) then chunk[q % SECTOR - pos % SECTOR] else d[o][q % SECTOR]
  {
    assert 0 <= q % BLOCK / SECTOR < FRAGS && 0 <= pos % BLOCK / SECTOR < FRAGS;
  }

  // ---- ufs_write ----

  /** The blocks reached by one more chunk, which lies in one sector. */
  lemma ReachedMore(off: U32, done: nat, avail: nat, l: nat)
    requires 0 < avail && done + avail < WORD && Wrap(off + done) % SECTOR + avail <= SECTOR
    ensures Reached(off, done + avail, l) <==> Reached(off, done, l) || l == Wrap(off + done) / BLOCK
  {
    var here := Wrap(off + done) / BLOCK;
    forall k: nat | done <= k < done + avail ensures InBlockAt(off, k, here) {
      ChunkBlock(off, done, avail, k);
    }
    hide InBlockAt;
    if Reached(off, done + avail, l) {
      var k: nat :| k < done + avail && InBlockAt(off, k, l);
      OneBlock(off, k, l, here);
    }
    assert done < done + avail && InBlockAt(off, done, here);
  }

  lemma ChunkBlock(off: U32, done: nat, avail: nat, k: nat)
    requires done + avail < WORD && Wrap(off + done) % SECTOR + avail <= SECTOR && done <= k < done + avail
    ensures InBlockAt(off, k, Wrap(off + done) / BLOCK)
  {
    IdxWrap(off, k);
    ChunkIdx(off, done, avail, Wrap(off + k));
  }

  lemma OneBlock(off: U32, k: nat, l: nat, m: nat)
    requires k < WORD && InBlockAt(off, k, l)
    ensures InBlockAt(off, k, m) <==> l == m
  {
  }

  /** One turn of the write loop. */
  lemma WroteStep(tab: seq<Inode>, d: Disk, tab1: seq<Inode>, d1: Disk, tab2: seq<Inode>, d2: Disk, e: Disk,
                  ino: nat, off: U32, src: seq<Byte>, done: nat, avail: nat)
    requires 0 < avail && done + avail <= |src| < WORD
    requires var pos := Wrap(off + done); pos % SECTOR + avail <= SECTOR
    requires Wrote(tab, d, tab1, d1, ino, off, src, done)
    requires Filled(tab1, d1, tab2, d2, ino, Wrap(off + done) / BLOCK, true)
    requires ChunkWritten(tab2, d2, e, ino, Wrap(off + done), src[done..done + avail])
    ensures Wrote(tab, d, tab2, e, ino, off, src, done + avail)
  {
    var pos := Wrap(off + done);
    forall q: U32 ensures Overwritten(ByteAt(tab, d, ino, q), ByteAt(tab2, e, ino, q), off, src, done + avail, q) {
      hide ByteAt, InChunk, Wrap, Idx, Reached;
      ChunkIdx(off, done, avail, q);
      ReachedMore(off, done, avail, q / BLOCK);
      assert Overwritten(ByteAt(tab, d, ino, q), ByteAt(tab1, d1, ino, q), off, src, done, q);
      assert Kept(ByteAt(tab1, d1, ino, q), ByteAt(tab2, d2, ino, q), q, pos / BLOCK, true);
      assert Chunked(ByteAt(tab2, d2, ino, q), ByteAt(tab2, e, ino, q), pos, src[done..done + avail], q);
    }
  }

  /** The pointer in the inode itself through which a slot is reached. */
  function RootOf(s: Slot): (r: Slot)
    ensures r.Top? && r.ino == s.ino
  {
    match s
    case Top(_, _) => s
    case Ind(i, _) => Top(i, 12)
    case Outer(i, _) => Top(i, 13)
    case Inner(i, _, _) => Top(i, 13)
  }

  /** That pointer is there. */
  predicate Rooted(tab: seq<Inode>, s: Slot) {
    TopVal(tab, s.ino, RootOf(s).k) != 0
  }

  /** Slots under the same pointer have the same value; without it there is none. */
  lemma RootedVal(tab: seq<Inode>, tab': seq<Inode>, d: Disk, s: Slot)
    ensures !Rooted(tab, s) ==> Val(tab, d, s) == 0
    ensures Val(tab', d, RootOf(s)) == Val(tab, d, RootOf(s)) ==> Val(tab', d, s) == Val(tab, d, s)
    ensures Rooted(tab, s) <==> Val(tab, d, RootOf(s)) != 0
  {
  }

  /** An in-flight inode copy is dropped: the pointers that only it held are gone, the rest stands. */
  lemma Revert(g: Geom, tab: seq<Inode>, d: Disk, own: map<nat, Slot>, free: nat, i: Inode, ino: nat, e: Disk, own': map<nat, Slot>) returns (kept: map<nat, Slot>)
    requires Good(g, tab, d, own) && ino < g.inodes
    requires Vol(g, tab[ino := i], e, own', free)
    requires forall v :: v in own ==> v in own' && own'[v] == own[v]
    requires IsSymlink(i) == IsSymlink(tab[ino])
    ensures Vol(g, tab, e, kept, free)
    ensures forall v :: v in own ==> v in kept && kept[v] == own[v]
    ensures forall v :: v in kept ==> v in own' && kept[v] == own'[v]
    ensures forall s :: Val(tab, e, s) == if Rooted(tab, s) then Val(tab[ino := i], e, s) else 0
    ensures forall v :: v in kept <==> v in own' && Rooted(tab, own'[v])
  {
    var tab' := tab[ino := i];
    forall s ensures Val(tab, e, s) == if Rooted(tab, s) then Val(tab', e, s) else 0 {
      RevertVal(g, tab, d, own, i, ino, e, own', s);
    }
    hide Val, Rooted;
    forall v | v in own' && Val(tab, e, own'[v]) == v ensures !IsFree(g, e, g.BlockNo(v)) {
      assert Owned(g, tab', e, own', v);
    }
    kept := Cleared(g, tab', e, own', tab, e);
    forall v ensures v in kept <==> v in own' && Rooted(tab, own'[v]) {
      assert v in own' ==> Owned(g, tab', e, own', v);
    }
    forall v | v in own ensures v in kept && kept[v] == own[v] {
      RevertKeeps(g, tab, d, own, i, ino, e, own', v);
    }
  }

  lemma RevertVal(g: Geom, tab: seq<Inode>, d: Disk, own: map<nat, Slot>, i: Inode, ino: nat, e: Disk, own': map<nat, Slot>, s: Slot)
    requires Good(g, tab, d, own) && ino < g.inodes && Good(g, tab[ino := i], e, own')
    requires forall v :: v in own ==> v in own' && own'[v] == own[v]
    ensures Val(tab, e, s) == if Rooted(tab, s) then Val(tab[ino := i], e, s) else 0
  {
    var r := RootOf(s);
    RootedVal(tab, tab[ino := i], e, s);
    if r.k < 14 {
      RevertTop(g, tab, d, own, i, ino, e, own', r.ino, r.k);
    }
  }

  lemma RevertTop(g: Geom, tab: seq<Inode>, d: Disk, own: map<nat, Slot>, i: Inode, ino: nat, e: Disk, own': map<nat, Slot>, j: nat, k: nat)
    requires Good(g, tab, d, own) && ino < g.inodes && k < 14
    requires Good(g, tab[ino := i], e, own')
    requires forall v :: v in own ==> v in own' && own'[v] == own[v]
    ensures TopVal(tab, j, k) == TopVal(tab[ino := i], j, k) || TopVal(tab, j, k) == 0
  {
    var v := TopVal(tab, j, k);
    assert v == Val(tab, d, Top(j, k));
    if v != 0 {
      assert v in own && own[v] == Top(j, k);
      assert Owned(g, tab[ino := i], e, own', v);
      assert Val(tab[ino := i], e, Top(j, k)) == v;
    }
  }

  /** An old pointer is still standing in the old inode. */
  lemma RevertKeeps(g: Geom, tab: seq<Inode>, d: Disk, own: map<nat, Slot>, i: Inode, ino: nat, e: Disk, own': map<nat, Slot>, v: nat)
    requires Good(g, tab, d, own) && ino < g.inodes && v in own
    requires Good(g, tab[ino := i], e, own')
    requires forall w :: w in own ==> w in own' && own'[w] == own[w]
    ensures Val(tab, e, own[v]) == v
    decreases if own[v].Inner? then 2 else if own[v].Top? then 0 else 1
  {
    var s := own[v];
    assert Owned(g, tab, d, own, v) && Owned(g, tab[ino := i], e, own', v);
    if !s.Top? {
      var p := Val(tab, d, Parent(s));
      assert p != 0;
      assert p in own && own[p] == Parent(s);
      RevertKeeps(g, tab, d, own, i, ino, e, own', p);
      assert Owned(g, tab[ino := i], e, own', p);
    }
  }

  /** A write of all of src: its bytes stand at off.. (32-bit positions), the rest of the file and
      every other file stand as before, no block is lost, and the size grows as needed. */
  ghost predicate WriteDone(g: Geom, tab: seq<Inode>, d: Disk, own: map<nat, Slot>,
                            tab': seq<Inode>, e: Disk, own': map<nat, Slot>, ino: nat, off: U32, src: seq<Byte>)
    requires ino < |tab| && |src| < WORD
  {
    && FileGrows(g, d, own, e, own', ino, iset{})
    && OthersSame(tab, d, tab', e, ino)
    && Wrote(tab, d, tab', e, ino, off, src, |src|)
    && |tab'| == |tab| && (forall i :: 0 <= i < |tab| && i != ino ==> tab'[i] == tab[i])
    && Mode(tab'[ino]) == Mode(tab[ino]) && Nlink(tab'[ino]) == Nlink(tab[ino])
    && var end := Wrap(off + |src|);
       Size(tab'[ino]) == if Size(tab[ino]) < end then end else Size(tab[ino])
  }

  /** Slot s is a block of the file holding one of the first `done` bytes from off on, or on the way to one. */
  ghost predicate LedTo(s: Slot, ino: nat, off: U32, done: nat)
    requires done < WORD
  {
    exists l: nat :: Reached(off, done, l) && OnPath(s, DataSlot(ino, l))
  }

  /** All new owners are. */
  ghost predicate AllLed(own: map<nat, Slot>, own': map<nat, Slot>, ino: nat, off: U32, done: nat)
    requires done < WORD
  {
    forall v :: v in own' && v !in own ==> LedTo(own'[v], ino, off, done)
  }

  /** Or they are indirect blocks on the way to the next byte, new in the inode itself. */
  ghost predicate HeldLed(own: map<nat, Slot>, held: map<nat, Slot>, ino: nat, off: U32, done: nat)
    requires done < WORD
  {
    forall v :: v in held && v !in own ==>
      LedTo(held[v], ino, off, done) || (IsMeta(held[v]) && held[v].Top? && OnPath(held[v], DataSlot(ino, Wrap(off + done) / BLOCK)))
  }

  lemma LedMore(own: map<nat, Slot>, own1: map<nat, Slot>, own2: map<nat, Slot>, ino: nat, off: U32, done: nat, avail: nat)
    requires 0 < avail && done + avail < WORD && Wrap(off + done) % SECTOR + avail <= SECTOR
    requires AllLed(own, own1, ino, off, done) && NewOn(own1, own2, DataSlot(ino, Wrap(off + done) / BLOCK), true)
    requires forall v :: v in own1 ==> v in own2 && own2[v] == own1[v]
    ensures AllLed(own, own2, ino, off, done + avail)
  {
    hide Wrap, DataSlot, OnPath, Reached;
    var here := Wrap(off + done) / BLOCK;
    ReachedMore(off, done, avail, here);
    forall v | v in own2 && v !in own ensures LedTo(own2[v], ino, off, done + avail) {
      if v in own1 {
        var l: nat :| Reached(off, done, l) && OnPath(own1[v], DataSlot(ino, l));
        ReachedMore(off, done, avail, l);
      }
    }
  }

  lemma LedShort(own: map<nat, Slot>, own1: map<nat, Slot>, own2: map<nat, Slot>, ino: nat, off: U32, done: nat)
    requires done < WORD && AllLed(own, own1, ino, off, done) && NewOn(own1, own2, DataSlot(ino, Wrap(off + done) / BLOCK), false)
    requires forall v :: v in own1 ==> v in own2 && own2[v] == own1[v]
    ensures HeldLed(own, own2, ino, off, done)
  {
    hide LedTo, OnPath, Wrap, DataSlot;
  }

  /** A byte after a write that ran out of space: as in Overwritten where the inode has a pointer that leads
      there, else a hole. */
  ghost predicate Partial(rooted: bool, a: Option<Byte>, b: Option<Byte>, off: U32, src: seq<Byte>, done: nat, q: U32)
    requires done <= |src| < WORD
  {
    if rooted then Overwritten(a, b, off, src, done, q) else a == b == None
  }

  /** The inode copy i that a short write throws away: it leads to all `done` bytes but not to the next one.
      held are the owners that go with it; those it shares with the inode on disk are kept, the others lost.
      spare holds at most one more lost block, taken for the next byte when its indirect block could not be had. */
  ghost predicate Dropped(g: Geom, tab: seq<Inode>, d: Disk, own: map<nat, Slot>, e: Disk, kept: map<nat, Slot>, ino: nat,
                          off: U32, src: seq<Byte>, done: nat, i: Inode, held: map<nat, Slot>, spare: iset<nat>)
    requires done <= |src| < WORD
  {
    && ino < |tab| && SameFields(tab[ino], i)
    && Good(g, tab[ino := i], e, held)
    && FileGrows(g, d, own, e, held, ino, spare)
    && Wrote(tab, d, tab[ino := i], e, ino, off, src, done)
    && HeldLed(own, held, ino, off, done)
    && Val(tab[ino := i], e, DataSlot(ino, Wrap(off + done) / BLOCK)) == 0
    && (Wrap(off + done) / BLOCK < NDIRECT ==> spare == iset{}) && (forall v, w :: v in spare && w in spare ==> v == w)
    && (forall v :: v in kept <==> v in held && Rooted(tab, held[v]))
    && (forall v :: v in kept ==> kept[v] == held[v])
  }

  /** A write that ran out of space after `done` bytes: no inode changed, so exactly the bytes that some pointer
      of the old inode leads to are in the file, and exactly the blocks under the others are lost. */
  ghost predicate WriteShort(g: Geom, tab: seq<Inode>, d: Disk, own: map<nat, Slot>,
                             e: Disk, own': map<nat, Slot>, ino: nat, off: U32, src: seq<Byte>, done: nat)
    requires done <= |src| < WORD
  {
    && FileGrows(g, d, own, e, own', ino, iset v: nat | v !in own')
    && OthersSame(tab, d, tab, e, ino)
    && (forall q: U32 ::
          Partial(Rooted(tab, DataSlot(ino, q / BLOCK)), ByteAt(tab, d, ino, q), ByteAt(tab, e, ino, q), off, src, done, q))
    && (forall n :: 0 <= n < g.Blocks() ==> !IsFree(g, e, n))
    && exists i, held, spare :: Dropped(g, tab, d, own, e, own', ino, off, src, done, i, held, spare)
  }

  /** A reported byte is in the file if and only if the pointer of the inode that leads to its block was there
      before the call; the other reported bytes are holes. */
  lemma ShortReported(g: Geom, tab: seq<Inode>, d: Disk, own: map<nat, Slot>, e: Disk, own': map<nat, Slot>, ino: nat,
                      off: U32, src: seq<Byte>, done: nat, q: U32)
    requires done <= |src| < WORD && WriteShort(g, tab, d, own, e, own', ino, off, src, done) && Idx(off, q) < done
    ensures ByteAt(tab, e, ino, q) == Some(src[Idx(off, q)]) <==> Rooted(tab, DataSlot(ino, q / BLOCK))
    ensures !Rooted(tab, DataSlot(ino, q / BLOCK)) ==> ByteAt(tab, d, ino, q) == ByteAt(tab, e, ino, q) == None
  {
    hide FileGrows, OthersSame, Rooted, ByteAt, IsFree, DataSlot, Dropped;
    assert Partial(Rooted(tab, DataSlot(ino, q / BLOCK)), ByteAt(tab, d, ino, q), ByteAt(tab, e, ino, q), off, src, done, q);
  }

  /** The size of file and vnode stay, so a reader sees such a byte if and only if it also lies below the old size. */
  lemma ShortRead(g: Geom, tab: seq<Inode>, d: Disk, own: map<nat, Slot>, e: Disk, own': map<nat, Slot>, ino: nat,
                  off: U32, src: seq<Byte>, done: nat, q: U32, size: U32)
    requires done <= |src| < WORD && WriteShort(g, tab, d, own, e, own', ino, off, src, done) && Idx(off, q) < done
    ensures ReadSpec(tab, e, ino, q, Clamp(size, q, 1)) ==
      if q < size && Rooted(tab, DataSlot(ino, q / BLOCK)) then [src[Idx(off, q)]] else []
  {
    hide WriteShort, Rooted, ByteAt, DataSlot;
    ShortReported(g, tab, d, own, e, own', ino, off, src, done, q);
    if q < size {
      ReadEnd(tab, e, ino, Wrap(q + 1));
    }
  }

  /** Slots that were empty, are led to by what was written, and hang under a pointer that the inode has. */
  ghost predicate KeptSlot(tab: seq<Inode>, d: Disk, ino: nat, off: U32, done: nat, s: Slot)
    requires done < WORD
  {
    LedTo(s, ino, off, done) && Rooted(tab, s) && Val(tab, d, s) == 0
  }

  /** All blocks that were free are taken. Kept of them are exactly those that such slots name now; the rest is lost. */
  lemma ShortLost(g: Geom, tab: seq<Inode>, d: Disk, own: map<nat, Slot>, e: Disk, own': map<nat, Slot>, ino: nat,
                  off: U32, src: seq<Byte>, done: nat, n: nat)
    requires Good(g, tab, d, own) && Good(g, tab, e, own')
    requires done <= |src| < WORD && WriteShort(g, tab, d, own, e, own', ino, off, src, done)
    requires n < g.Blocks() && IsFree(g, d, n)
    ensures !IsFree(g, e, n)
    ensures g.Frag(n) !in own' <==> !exists s :: KeptSlot(tab, d, ino, off, done, s) && Val(tab, e, s) == g.Frag(n)
  {
    hide OthersSame, Rooted, ByteAt, DataSlot, Wrote, Val, Good, LedTo, OnPath, FileGrows, IsFree, SameFields, Wrap;
    BlockOf(g, tab, d, own, n);
    SizesOf(g, tab, e, own');
    assert !IsFree(g, e, n);
    var v := g.Frag(n);
    if v in own' {
      var i, held, spare :| Dropped(g, tab, d, own, e, own', ino, off, src, done, i, held, spare);
      var s := own'[v];
      assert held[v] == s && Rooted(tab, s);
      OwnedIs(g, tab, e, own', v);
      FileGrowsOwn(g, d, own, e, held, ino, spare);
      WasEmpty(g, tab, d, own, tab[ino := i], e, held, v);
      TopRooted(tab, d, s);
      assert KeptSlot(tab, d, ino, off, done, s);
    } else if s :| KeptSlot(tab, d, ino, off, done, s) && Val(tab, e, s) == v {
      OwnerThere(g, tab, e, own', s);
      assert false;
    }
  }

  /** Each such slot does name a block, one that was free. */
  lemma ShortKept(g: Geom, tab: seq<Inode>, d: Disk, own: map<nat, Slot>, e: Disk, own': map<nat, Slot>, ino: nat,
                  off: U32, src: seq<Byte>, done: nat, s: Slot)
    requires Good(g, tab, d, own) && Good(g, tab, e, own')
    requires done <= |src| < WORD && WriteShort(g, tab, d, own, e, own', ino, off, src, done)
    requires KeptSlot(tab, d, ino, off, done, s)
    ensures var v := Val(tab, e, s); g.IsBlock(v) && IsFree(g, d, g.BlockNo(v)) && v in own' && own'[v] == s
  {
    hide Good, OthersSame, Rooted, Val, OnPath, DataSlot, Reached, FileGrows, Partial, Dropped, IsFree, ByteAt;
    var l: nat :| Reached(off, done, l) && OnPath(s, DataSlot(ino, l));
    SameRoot(tab, s, DataSlot(ino, l));
    LedMapped(g, tab, d, own, e, own', ino, off, src, done, l);
    PathVal(tab, e, s, DataSlot(ino, l));
    OwnerThere(g, tab, e, own', s);
    NewWasFree(g, tab, d, own, e, own', ino, (iset v: nat | v !in own'), s);
  }

  /** A block that got one of the bytes is there, if the inode has the pointer to it. */
  lemma LedMapped(g: Geom, tab: seq<Inode>, d: Disk, own: map<nat, Slot>, e: Disk, own': map<nat, Slot>, ino: nat,
                  off: U32, src: seq<Byte>, done: nat, l: nat)
    requires done <= |src| < WORD && WriteShort(g, tab, d, own, e, own', ino, off, src, done)
    requires Reached(off, done, l) && Rooted(tab, DataSlot(ino, l))
    ensures Val(tab, e, DataSlot(ino, l)) != 0
  {
    hide OthersSame, FileGrows, Dropped, Rooted, DataSlot, Val;
    var k: nat :| k < done && InBlockAt(off, k, l);
    var q: U32 := Wrap(off + k);
    IdxWrap(off, k);
    assert Partial(Rooted(tab, DataSlot(ino, q / BLOCK)), ByteAt(tab, d, ino, q), ByteAt(tab, e, ino, q), off, src, done, q);
  }

  lemma BlockOf(g: Geom, tab: seq<Inode>, d: Disk, own: map<nat, Slot>, n: nat)
    requires Good(g, tab, d, own) && n < g.Blocks() && IsFree(g, d, n)
    ensures g.Frag(n) !in own && g.Frag(n) != 0
  {
    assert g.BlockNo(g.Frag(n)) == n;
    assert g.Frag(n) in own ==> Owned(g, tab, d, own, g.Frag(n));
    hide IsFree, Val;
  }

  lemma SizesOf(g: Geom, tab: seq<Inode>, d: Disk, own: map<nat, Slot>)
    requires Good(g, tab, d, own)
    ensures g.Valid() && |d| == g.sectors
  {
  }

  lemma OwnedIs(g: Geom, tab: seq<Inode>, d: Disk, own: map<nat, Slot>, v: nat)
    requires Good(g, tab, d, own) && v in own
    ensures Val(tab, d, own[v]) == v && v != 0
  {
    assert Owned(g, tab, d, own, v);
  }

  lemma OwnerThere(g: Geom, tab: seq<Inode>, d: Disk, own: map<nat, Slot>, s: Slot)
    requires Good(g, tab, d, own) && Val(tab, d, s) != 0
    ensures Val(tab, d, s) in own && own[Val(tab, d, s)] == s
  {
  }

  /** A new owner's slot was empty. */
  lemma WasEmpty(g: Geom, tab: seq<Inode>, d: Disk, own: map<nat, Slot>, tab': seq<Inode>, e: Disk, held: map<nat, Slot>, v: nat)
    requires Good(g, tab, d, own) && Good(g, tab', e, held) && v in held && v !in own
    requires forall w :: w in own ==> w in held && held[w] == own[w]
    ensures Val(tab, d, held[v]) == 0
  {
    var s := held[v];
    var w := Val(tab, d, s);
    OwnedIs(g, tab', e, held, v);
    if w != 0 {
      OwnerThere(g, tab, d, own, s);
      OwnedIs(g, tab', e, held, w);
    }
  }

  lemma TopRooted(tab: seq<Inode>, d: Disk, s: Slot)
    ensures s.Top? && Val(tab, d, s) == 0 ==> !Rooted(tab, s)
  {
  }

  lemma SameRoot(tab: seq<Inode>, s: Slot, t: Slot)
    requires OnPath(s, t)
    ensures Rooted(tab, s) <==> Rooted(tab, t)
  {
  }

  lemma PathVal(tab: seq<Inode>, d: Disk, s: Slot, t: Slot)
    requires OnPath(s, t) && Val(tab, d, t) != 0
    ensures Val(tab, d, s) != 0
  {
  }

  lemma NewWasFree(g: Geom, tab: seq<Inode>, d: Disk, own: map<nat, Slot>, e: Disk, own': map<nat, Slot>, ino: nat, lost: iset<nat>, s: Slot)
    requires Good(g, tab, d, own) && FileGrows(g, d, own, e, own', ino, lost) && Val(tab, d, s) == 0
    requires var v := Val(tab, e, s); v != 0 && v in own' && own'[v] == s
    ensures var v := Val(tab, e, s); g.IsBlock(v) && IsFree(g, d, g.BlockNo(v))
  {
    var v := Val(tab, e, s);
    if v in own {
      OwnedIs(g, tab, d, own, v);
    }
  }

  lemma FileGrowsOwn(g: Geom, d: Disk, own: map<nat, Slot>, e: Disk, own': map<nat, Slot>, ino: nat, lost: iset<nat>)
    requires FileGrows(g, d, own, e, own', ino, lost)
    ensures forall v :: v in own ==> v in own' && own'[v] == own[v]
  {
  }

  /** Forgetting new owners turns their blocks into lost ones. */
  lemma FileGrowsLess(g: Geom, d: Disk, own: map<nat, Slot>, e: Disk, own': map<nat, Slot>, kept: map<nat, Slot>, ino: nat, lost: iset<nat>)
    requires FileGrows(g, d, own, e, own', ino, lost)
    requires forall v :: v in own ==> v in kept && kept[v] == own[v]
    requires forall v :: v in kept ==> v in own' && kept[v] == own'[v]
    ensures FileGrows(g, d, own, e, kept, ino, iset v: nat | v !in kept)
  {
    hide IsFree, SameBlock, Geom.Valid;
  }

  lemma ShortStep(g: Geom, tab: seq<Inode>, d: Disk, own: map<nat, Slot>, free: nat, i: Inode, ino: nat, e: Disk, own': map<nat, Slot>,
                  off: U32, src: seq<Byte>, done: nat, lost: iset<nat>) returns (kept: map<nat, Slot>)
    requires Good(g, tab, d, own) && ino < g.inodes && ino < |tab| && SameFields(tab[ino], i) && done <= |src| < WORD
    requires IsSymlink(i) == IsSymlink(tab[ino])
    requires Val(tab[ino := i], e, DataSlot(ino, Wrap(off + done) / BLOCK)) == 0
    requires HeldLed(own, own', ino, off, done)
    requires (Wrap(off + done) / BLOCK < NDIRECT ==> lost == iset{}) && forall v, w :: v in lost && w in lost ==> v == w
    requires Vol(g, tab[ino := i], e, own', free)
    requires FileGrows(g, d, own, e, own', ino, lost)
    requires Wrote(tab, d, tab[ino := i], e, ino, off, src, done)
    requires forall n :: 0 <= n < g.Blocks() ==> !IsFree(g, e, n)
    ensures Vol(g, tab, e, kept, free)
    ensures WriteShort(g, tab, d, own, e, kept, ino, off, src, done)
  {
    hide Vol, Good, Val, Wrote, OthersSame, ByteAt, IsFree, DataSlot, FileGrows, Partial, Overwritten, IsSymlink, SameFields, Rooted, Wrap, HeldLed;
    VolShape(g, tab[ino := i], e, own', free);
    FileGrowsOwn(g, d, own, e, own', ino, lost);
    kept := Revert(g, tab, d, own, free, i, ino, e, own');
    VolGood(g, tab, e, kept, free);
    var gone := iset v: nat | v !in kept;
    FileGrowsLess(g, d, own, e, own', kept, ino, lost);
    OtherBytes(g, tab, d, own, tab, e, kept, ino, gone);
    forall q: U32
      ensures Partial(Rooted(tab, DataSlot(ino, q / BLOCK)), ByteAt(tab, d, ino, q), ByteAt(tab, e, ino, q), off, src, done, q)
    {
      PartialAt(tab, d, tab[ino := i], e, ino, off, src, done, q);
    }
    VolGood(g, tab[ino := i], e, own', free);
    assert Dropped(g, tab, d, own, e, kept, ino, off, src, done, i, own', lost);
  }

  lemma PartialAt(tab: seq<Inode>, d: Disk, tab': seq<Inode>, e: Disk, ino: nat, off: U32, src: seq<Byte>, done: nat, q: U32)
    requires done <= |src| < WORD
    requires forall s :: Val(tab, e, s) == if Rooted(tab, s) then Val(tab', e, s) else 0
    requires Wrote(tab, d, tab', e, ino, off, src, done)
    ensures Partial(Rooted(tab, DataSlot(ino, q / BLOCK)), ByteAt(tab, d, ino, q), ByteAt(tab, e, ino, q), off, src, done, q)
  {
    RootedVal(tab, tab, d, DataSlot(ino, q / BLOCK));
    hide Val, DataSlot, Overwritten, Rooted;
    assert Overwritten(ByteAt(tab, d, ino, q), ByteAt(tab', e, ino, q), off, src, done, q);
  }

  lemma WroteNothing(tab: seq<Inode>, d: Disk, ino: nat, off: U32, src: seq<Byte>)
    requires |src| < WORD
    ensures Wrote(tab, d, tab, d, ino, off, src, 0)
  {
  }

  lemma WroteFill(tab: seq<Inode>, d: Disk, tab1: seq<Inode>, d1: Disk, tab2: seq<Inode>, d2: Disk, ino: nat, off: U32, src: seq<Byte>, done: nat)
    requires done < |src| < WORD
    requires Wrote(tab, d, tab1, d1, ino, off, src, done)
    requires Filled(tab1, d1, tab2, d2, ino, Wrap(off + done) / BLOCK, false)
    ensures Wrote(tab, d, tab2, d2, ino, off, src, done)
  {
    hide ByteAt, Wrap, Idx, Reached;
    forall q: U32 ensures Overwritten(ByteAt(tab, d, ino, q), ByteAt(tab2, d2, ino, q), off, src, done, q) {
      assert Overwritten(ByteAt(tab, d, ino, q), ByteAt(tab1, d1, ino, q), off, src, done, q);
      assert Kept(ByteAt(tab1, d1, ino, q), ByteAt(tab2, d2, ino, q), q, Wrap(off + done) / BLOCK, false);
    }
  }

  lemma WroteFields(tab: seq<Inode>, d: Disk, tab1: seq<Inode>, e: Disk, i: Inode, ino: nat, off: U32, src: seq<Byte>)
    requires ino < |tab1| && |src| < WORD
    requires Wrote(tab, d, tab1, e, ino, off, src, |src|)
    requires forall s :: Val(tab1[ino := i], e, s) == Val(tab1, e, s)
    ensures Wrote(tab, d, tab1[ino := i], e, ino, off, src, |src|)
  {
    hide Val, DataSlot, Overwritten;
    forall q: U32 ensures Overwritten(ByteAt(tab, d, ino, q), ByteAt(tab1[ino := i], e, ino, q), off, src, |src|, q) {
      assert ByteAt(tab1[ino := i], e, ino, q) == ByteAt(tab1, e, ino, q);
      assert Overwritten(ByteAt(tab, d, ino, q), ByteAt(tab1, e, ino, q), off, src, |src|, q);
    }
  }

  /** Every 32-bit offset lies inside the double-indirect range. */
  lemma OffsetInRange(pos: U32)
    ensures pos / BLOCK < MAX_LOGICAL
  {
  }

  lemma WrapStep(off: U32, done: nat, avail: nat)
    requires done + avail < WORD
    ensures (Wrap(off + done) + avail) % WORD == Wrap(off + done + avail)
  {
  }

  /** The sector write of ufs_write: read-modify-write unless the whole sector is replaced. */
  method WriteChunk(u: Ufs, phys: nat, pos: U32, chunk: seq<Byte>)
    requires pos % SECTOR + |chunk| <= SECTOR
    requires phys + FRAGS <= |u.disk|
    modifies u`disk, u`buf
    ensures u.disk == PutChunk(old(u.disk), phys + pos % BLOCK / SECTOR, pos % SECTOR, chunk)
  {
    var q := phys + pos % BLOCK / SECTOR;
    var o := pos % SECTOR;
    if o != 0 || |chunk| < SECTOR {
      u.ReadSector(q);
      u.buf := Splice(u.buf, o, chunk);
    } else {
      u.buf := chunk;
    }
    u.WriteSector(q);
    assert u.disk[q] == PutChunk(old(u.disk), q, o, chunk)[q];
  }

  /** Where the write loop stands after `done` bytes; inode is the working copy. */
  ghost predicate Writing(g: Geom, tab0: seq<Inode>, d0: Disk, own0: map<nat, Slot>, tab: seq<Inode>, d: Disk, own: map<nat, Slot>,
                          ino: nat, inode: Inode, off: U32, src: seq<Byte>, done: nat)
    requires ino < |tab0| && |src| < WORD
  {
    && Good(g, tab0, d0, own0) && done <= |src|
    && Shape(g, tab, d)
    && tab == tab0[ino := inode] && Table(g, d) == tab0
    && SameFields(tab0[ino], inode) && !IsSymlink(inode)
    && FileGrows(g, d0, own0, d, own, ino, iset{})
    && Wrote(tab0, d0, tab, d, ino, off, src, done)
    && AllLed(own0, own, ino, off, done)
  }

  method WriteTurn(u: Ufs, inode: Inode, src: seq<Byte>, off: U32, done: nat, pos: U32,
                   ghost ino: nat, ghost tab0: seq<Inode>, ghost d0: Disk, ghost own0: map<nat, Slot>)
    returns (rc: Status, inode': Inode, avail: nat)
    requires u.Valid() && ino < |tab0| && done < |src| < WORD && pos == Wrap(off + done)
    requires Writing(u.g, tab0, d0, own0, u.tab, u.disk, u.own, ino, inode, off, src, done)
    modifies u`disk, u`buf, u`freeBlocks, u`tab, u`own
    ensures u.Valid()
    ensures rc == Ok ==>
      && 0 < avail <= |src| - done
      && Writing(u.g, tab0, d0, own0, u.tab, u.disk, u.own, ino, inode', off, src, done + avail)
    ensures u.freeBlocks <= old(u.freeBlocks) <= u.freeBlocks + if rc == Ok then 3 else 2
    ensures rc != Ok ==> u.freeBlocks == 0
    ensures Val(old(u.tab), old(u.disk), DataSlot(ino, pos / BLOCK)) != 0 ==> rc == Ok && u.freeBlocks == old(u.freeBlocks)
    ensures rc != Ok ==>
      && rc == ENOSPC && u.tab == tab0 == Table(u.g, u.disk)
      && WriteShort(u.g, tab0, d0, own0, u.disk, u.own, ino, off, src, done)
  {
    hide Vol, Good, Val, FileGrows, Wrote, WriteShort, Filled, Writing, Geom.Valid, DataSlot, Wrap, IsFree, IsSymlink, SameFields,
         AllLed, HeldLed, NewOn;
    ghost var tab1, d1, own1 := u.tab, u.disk, u.own;
    WritingParts(u.g, tab0, d0, own0, u.tab, u.disk, u.own, ino, inode, off, src, done);
    var phys;
    OffsetInRange(pos);
    rc, inode', phys := EnsureBlock(u, inode, pos / BLOCK, ino);
    SameFieldsTrans(tab0[ino], inode, inode');
    assert u.tab == tab0[ino := inode'];
    ghost var lost: iset<nat> := if rc == Ok || pos / BLOCK < NDIRECT then iset{} else iset{phys};
    FileGrowsTrans(u.g, d0, own0, d1, own1, u.disk, u.own, ino, lost);
    FileGrowsOwn(u.g, d1, own1, u.disk, u.own, ino, lost);
    avail := 0;
    if rc != Ok {
      NoneFree(u.g, u.tab, u.disk, u.own, u.freeBlocks);
      LedShort(own0, own1, u.own, ino, off, done);
      WroteFill(tab0, d0, tab1, d1, u.tab, u.disk, ino, off, src, done);
      u.own := ShortStep(u.g, tab0, d0, own0, u.freeBlocks, inode', ino, u.disk, u.own, off, src, done, lost);
      u.tab := tab0;
    } else {
      avail := SECTOR - pos % SECTOR;
      if |src| - done < avail {
        avail := |src| - done;
      }
      LedMore(own0, own1, u.own, ino, off, done, avail);
      PutTurn(u, inode', src, off, done, avail, pos, phys, ino, tab0, d0, own0, tab1, d1);
    }
  }

  lemma WritingParts(g: Geom, tab0: seq<Inode>, d0: Disk, own0: map<nat, Slot>, tab: seq<Inode>, d: Disk, own: map<nat, Slot>,
                     ino: nat, inode: Inode, off: U32, src: seq<Byte>, done: nat)
    requires ino < |tab0| && |src| < WORD
    requires Writing(g, tab0, d0, own0, tab, d, own, ino, inode, off, src, done)
    ensures Good(g, tab0, d0, own0) && |tab| == |tab0| == g.inodes
    ensures tab == tab0[ino := inode] && Table(g, d) == tab0
    ensures SameFields(tab0[ino], inode) && !IsSymlink(inode)
    ensures FileGrows(g, d0, own0, d, own, ino, iset{})
    ensures Wrote(tab0, d0, tab, d, ino, off, src, done) && AllLed(own0, own, ino, off, done)
  {
  }

  lemma NoneFree(g: Geom, tab: seq<Inode>, d: Disk, own: map<nat, Slot>, free: nat)
    requires Vol(g, tab, d, own, free) && forall n :: 0 <= n < g.Blocks() ==> !IsFree(g, d, n)
    ensures free == 0
  {
    NoneCounted(g, d, g.Blocks());
  }

  lemma {:induction false} NoneCounted(g: Geom, d: Disk, n: nat)
    requires g.Valid() && |d| == g.sectors && n <= g.Blocks() && forall m :: 0 <= m < n ==> !IsFree(g, d, m)
    ensures CountFree(g, d, n) == 0
  {
    if n != 0 {
      NoneCounted(g, d, n - 1);
    }
  }

  /** The second half of a turn: the chunk goes to its sector. */
  method PutTurn(u: Ufs, inode: Inode, src: seq<Byte>, off: U32, done: nat, avail: nat, pos: U32, phys: U32,
                 ghost ino: nat, ghost tab0: seq<Inode>, ghost d0: Disk, ghost own0: map<nat, Slot>, ghost tab1: seq<Inode>, ghost d1: Disk)
    requires u.Valid() && ino < |tab0| && 0 < avail && done + avail <= |src| < WORD && pos == Wrap(off + done)
    requires pos % SECTOR + avail <= SECTOR
    requires Good(u.g, tab0, d0, own0) && u.tab == tab0[ino := inode] && Table(u.g, u.disk) == tab0
    requires SameFields(tab0[ino], inode) && !IsSymlink(inode)
    requires phys != 0 && phys == Val(u.tab, u.disk, DataSlot(ino, pos / BLOCK))
    requires FileGrows(u.g, d0, own0, u.disk, u.own, ino, iset{})
    requires Wrote(tab0, d0, tab1, d1, ino, off, src, done)
    requires Filled(tab1, d1, u.tab, u.disk, ino, pos / BLOCK, true) && AllLed(own0, u.own, ino, off, done + avail)
    modifies u`disk, u`buf
    ensures u.Valid()
    ensures Writing(u.g, tab0, d0, own0, u.tab, u.disk, u.own, ino, inode, off, src, done + avail)
  {
    hide Vol, Good, Val, FileGrows, Wrote, Filled, ChunkWritten, PutChunk, Geom.Valid, DataSlot, Wrap, IsFree, IsSymlink, SameFields, AllLed;
    ghost var d2 := u.disk;
    ChunkStep(u.g, u.tab, u.disk, u.own, u.freeBlocks, ino, pos, src[done..done + avail]);
    WriteChunk(u, phys, pos, src[done..done + avail]);
    FileGrowsTrans(u.g, d0, own0, d2, u.own, u.disk, u.own, ino, iset{});
    WroteStep(tab0, d0, tab1, d1, u.tab, d2, u.disk, ino, off, src, done, avail);
    VolShape(u.g, u.tab, u.disk, u.own, u.freeBlocks);
  }

  lemma SameFieldsTrans(a: Inode, b: Inode, c: Inode)
    requires SameFields(a, b) && SameFields(b, c)
    ensures SameFields(a, c) && IsSymlink(c) == IsSymlink(b) == IsSymlink(a)
  {
  }

  /** The end of ufs_write: the size may grow, the inode and the free counts go to disk. */
  method Commit(u: Ufs, vn: Vnode, inode: Inode, end: U32, ghost tab0: seq<Inode>, ghost d0: Disk, ghost own0: map<nat, Slot>, off: U32, src: seq<Byte>)
    requires u.Valid() && vn.ino < |tab0| && |src| < WORD && end == Wrap(off + |src|)
    requires Writing(u.g, tab0, d0, own0, u.tab, u.disk, u.own, vn.ino, inode, off, src, |src|)
    modifies u`disk, u`buf, u`freeBlocks, u`tab, u`own, vn`size
    ensures u.Steady()
    ensures WriteDone(u.g, tab0, d0, own0, u.tab, u.disk, u.own, vn.ino, off, src)
    ensures vn.size == if Size(tab0[vn.ino]) < end then end else old(vn.size)
    ensures u.freeBlocks == old(u.freeBlocks)
  {
    hide Vol, Good, Val, FileGrows, Wrote, Geom.Valid, DataSlot, Wrap, IsFree, OthersSame, Quiet;
    var i := inode;
    if Size(inode) < end {
      i := SetSize(inode, end);
      SetSizeFields(inode, end);
      FieldsStep(u.g, u.tab, u.disk, u.own, u.freeBlocks, vn.ino, i);
      WroteFields(tab0, d0, u.tab, u.disk, i, vn.ino, off, src);
      u.tab := u.tab[vn.ino := i];
      vn.size := end;
    }
    ghost var d1, free1 := u.disk, u.freeBlocks;
    assert Vol(u.g, u.tab, d1, u.own, free1);
    u.WriteInode(vn.ino, i);
    ghost var d2 := u.disk;
    u.SyncSuper();
    QuietTrans(u.g, d1, d2, u.disk);
    WroteLow(u.g, tab0, d0, own0, u.tab, d1, u.own, u.freeBlocks, u.disk, vn.ino, off, src);
  }

  /** Writing below the data area changes no byte of any file. */
  lemma QuietByte(g: Geom, tab: seq<Inode>, d: Disk, own: map<nat, Slot>, e: Disk, i: nat, pos: nat)
    requires Good(g, tab, e, own) && Quiet(g, d, e)
    requires forall s :: Val(tab, d, s) == Val(tab, e, s)
    ensures ByteAt(tab, e, i, pos) == ByteAt(tab, d, i, pos)
  {
    hide Val, DataSlot, IsFree, MapByte;
    var v := Val(tab, e, DataSlot(i, pos / BLOCK));
    if v != 0 {
      assert Owned(g, tab, e, own, v);
    }
  }

  lemma QuietGrows(g: Geom, d0: Disk, own0: map<nat, Slot>, d: Disk, own: map<nat, Slot>, e: Disk, ino: nat, lost: iset<nat>)
    requires FileGrows(g, d0, own0, d, own, ino, lost) && Quiet(g, d, e)
    ensures FileGrows(g, d0, own0, e, own, ino, lost)
  {
    hide MapByte, Geom.Valid;
    forall v | Plain(g, d0, own0, v) && (v in own0 ==> own0[v].ino != ino) ensures SameBlock(d0, e, v) {
      assert SameBlock(d0, d, v);
    }
  }

  lemma WroteLow(g: Geom, tab0: seq<Inode>, d0: Disk, own0: map<nat, Slot>, tab: seq<Inode>, d: Disk, own: map<nat, Slot>, free: nat, e: Disk,
                 ino: nat, off: U32, src: seq<Byte>)
    requires Good(g, tab0, d0, own0) && Vol(g, tab, d, own, free) && Vol(g, tab, e, own, free) && |src| < WORD
    requires Quiet(g, d, e)
    requires FileGrows(g, d0, own0, d, own, ino, iset{}) && Wrote(tab0, d0, tab, d, ino, off, src, |src|)
    ensures FileGrows(g, d0, own0, e, own, ino, iset{}) && Wrote(tab0, d0, tab, e, ino, off, src, |src|)
    ensures OthersSame(tab0, d0, tab, e, ino)
  {
    hide Vol, Good, Quiet, FileGrows, Overwritten, ByteAt, OthersSame, Val;
    LowStep(g, tab, d, e, own, free);
    VolGood(g, tab, e, own, free);
    QuietGrows(g, d0, own0, d, own, e, ino, iset{});
    OtherBytes(g, tab0, d0, own0, tab, e, own, ino, iset{});
    forall q: U32 ensures Overwritten(ByteAt(tab0, d0, ino, q), ByteAt(tab, e, ino, q), off, src, |src|, q) {
      QuietByte(g, tab, d, own, e, ino, q);
      assert Overwritten(ByteAt(tab0, d0, ino, q), ByteAt(tab, d, ino, q), off, src, |src|, q);
    }
  }

  /** How many blocks n bytes from off on lie in. */
  function Touched(off: U32, n: nat): nat {
    if n == 0 then 0 else (off % BLOCK + n + BLOCK - 1) / BLOCK
  }

  /** The next byte lies in a block touched already, or in one more. */
  lemma TouchedMore(off: U32, done: nat, avail: nat)
    requires 0 < avail && done + avail < WORD
    ensures Touched(off, done) <= Touched(off, done + avail)
    ensures (0 < done && Wrap(off + done) / BLOCK == Wrap(off + (done - 1)) / BLOCK) || Touched(off, done) < Touched(off, done + avail)
  {
    var o := off % BLOCK;
    if 0 < done && (o + done) % BLOCK != 0 {
      assert (off + done) / BLOCK == (off + done - 1) / BLOCK;
    }
  }

  /** Every written byte has a block. */
  lemma WrittenMapped(tab0: seq<Inode>, d0: Disk, tab: seq<Inode>, d: Disk, ino: nat, off: U32, src: seq<Byte>, done: nat)
    requires 0 < done <= |src| < WORD && Wrote(tab0, d0, tab, d, ino, off, src, done)
    ensures Val(tab, d, DataSlot(ino, Wrap(off + (done - 1)) / BLOCK)) != 0
  {
    hide Val, DataSlot;
    var q := Wrap(off + (done - 1));
    IdxWrap(off, done - 1);
    assert Overwritten(ByteAt(tab0, d0, ino, q), ByteAt(tab, d, ino, q), off, src, done, q);
  }

  /** ufs_write. Three free blocks for every block touched always suffice: data, inner and outer indirect. */
  method Write(u: Ufs, vn: Vnode, src: seq<Byte>, off: U32) returns (ret: Ret)
    requires u.Steady() && vn.ino < u.g.inodes && |src| < WORD
    requires !vn.isDir ==> !IsSymlink(u.tab[vn.ino])
    modifies u`disk, u`buf, u`freeBlocks, u`tab, u`own, vn
    ensures u.Steady()
    ensures vn.isDir ==> ret == Err(EISDIR) && u.disk == old(u.disk) && u.own == old(u.own) && vn.size == old(vn.size)
    ensures !vn.isDir && ret == Count(|src|) ==>
      && WriteDone(u.g, old(u.tab), old(u.disk), old(u.own), u.tab, u.disk, u.own, vn.ino, off, src)
      && vn.size == if Size(old(u.tab)[vn.ino]) < Wrap(off + |src|) then Wrap(off + |src|) else old(vn.size)
    ensures !vn.isDir && ret != Count(|src|) ==>
      && (ret == Err(ENOSPC) || (ret.Count? && 0 < ret.n < |src|))
      && u.tab == old(u.tab) && vn.size == old(vn.size)
      && WriteShort(u.g, old(u.tab), old(u.disk), old(u.own), u.disk, u.own, vn.ino, off, src, if ret.Count? then ret.n else 0)
    ensures !vn.isDir && 3 * Touched(off, |src|) <= old(u.freeBlocks) ==> ret == Count(|src|)
    ensures u.freeBlocks <= old(u.freeBlocks) <= u.freeBlocks + 3 * Touched(off, |src|)
  {
    hide Vol, WriteDone, WriteShort, Geom.Valid, Wrap, Writing, IsSymlink, Touched, Val, DataSlot, Wrote;
    if vn.isDir {
      return Err(EISDIR);
    }
    ghost var ino, tab0, d0, own0 := vn.ino, u.tab, u.disk, u.own;
    VolShape(u.g, u.tab, u.disk, u.own, u.freeBlocks);
    var inode := u.ReadInode(vn.ino);
    WritingStart(u.g, u.tab, u.disk, u.own, u.freeBlocks, ino, off, src);
    var done, pos := 0, off;
    WrapZero(off);
    TouchedNone(off);
    while done < |src|
      invariant 0 <= done <= |src| && pos == Wrap(off + done)
      invariant u.Valid() && vn.size == old(vn.size)
      invariant Writing(u.g, tab0, d0, own0, u.tab, u.disk, u.own, ino, inode, off, src, done)
      invariant u.freeBlocks <= old(u.freeBlocks) <= u.freeBlocks + 3 * Touched(off, done)
    {
      if 0 < done {
        WritingParts(u.g, tab0, d0, own0, u.tab, u.disk, u.own, ino, inode, off, src, done);
        WrittenMapped(tab0, d0, u.tab, u.disk, ino, off, src, done);
      }
      TouchedMore(off, done, |src| - done);
      var rc, avail;
      rc, inode, avail := WriteTurn(u, inode, src, off, done, pos, ino, tab0, d0, own0);
      if rc == Ok {
        TouchedMore(off, done, avail);
      }
      if rc != Ok {
        return if 0 < done then Count(done) else Err(ENOSPC);
      }
      WrapStep(off, done, avail);
      pos := (pos + avail) % WORD;
      done := done + avail;
    }
    Commit(u, vn, inode, pos, tab0, d0, own0, off, src);
    return Count(|src|);
  }

  lemma TouchedNone(off: U32)
    ensures Touched(off, 0) == 0
  {
  }

  lemma WrapZero(off: U32)
    ensures Wrap(off + 0) == off
  {
  }

  lemma WritingStart(g: Geom, tab: seq<Inode>, d: Disk, own: map<nat, Slot>, free: nat, ino: nat, off: U32, src: seq<Byte>)
    requires Vol(g, tab, d, own, free) && tab == Table(g, d) && ino < g.inodes && !IsSymlink(tab[ino]) && |src| < WORD
    ensures Writing(g, tab, d, own, tab, d, own, ino, tab[ino], off, src, 0)
  {
    hide Good, Val, Wrote, FileGrows;
    VolGood(g, tab, d, own, free);
    VolShape(g, tab, d, own, free);
    WroteNothing(tab, d, ino, off, src);
    FileGrowsRefl(g, d, own, ino);
    assert tab[ino := tab[ino]] == tab;
  }

  // ---- ufs_read ----

  /** Up to n bytes of a file from off on, ending at the first hole. */
  function ReadSpec(tab: seq<Inode>, d: Disk, ino: nat, off: U32, n: nat): seq<Byte>
    decreases n
  {
    if n == 0 || ByteAt(tab, d, ino, off) == None then []
    else [ByteAt(tab, d, ino, off).value] + ReadSpec(tab, d, ino, Wrap(off + 1), n - 1)
  }

  lemma {:induction false} ReadBytes(tab: seq<Inode>, d: Disk, ino: nat, pos: U32, n: nat, t: seq<Byte>)
    requires |t| <= n && pos + |t| <= WORD
    requires forall k :: 0 <= k < |t| ==> ByteAt(tab, d, ino, pos + k) == Some(t[k])
    ensures ReadSpec(tab, d, ino, pos, n) == t + ReadSpec(tab, d, ino, Wrap(pos + |t|), n - |t|)
    decreases |t|
  {
    hide ByteAt;
    if |t| > 0 {
      assert ByteAt(tab, d, ino, pos + 0) == Some(t[0]);
      if |t| == 1 {
        assert t == [t[0]];
      } else {
        forall k | 0 <= k < |t[1..]| ensures ByteAt(tab, d, ino, pos + 1 + k) == Some(t[1..][k]) {
          assert ByteAt(tab, d, ino, pos + (k + 1)) == Some(t[k + 1]);
        }
        ReadBytes(tab, d, ino, pos + 1, n - 1, t[1..]);
        assert t == [t[0]] + t[1..];
      }
    }
  }

  /** A run of bytes inside one sector of an existing block is read as it stands on disk. */
  lemma ReadRun(tab: seq<Inode>, d: Disk, ino: nat, pos: U32, n: nat, avail: nat)
    requires avail <= n && pos % SECTOR + avail <= SECTOR
    requires var v := Val(tab, d, DataSlot(ino, pos / BLOCK)); v != 0 && v + FRAGS <= |d|
    ensures var v := Val(tab, d, DataSlot(ino, pos / BLOCK)); var o := pos % SECTOR;
            ReadSpec(tab, d, ino, pos, n)
            == d[v + pos % BLOCK / SECTOR][o..o + avail] + ReadSpec(tab, d, ino, Wrap(pos + avail), n - avail)
  {
    hide Val, DataSlot, ReadSpec, Wrap;
    var o := pos % SECTOR;
    var t := d[Val(tab, d, DataSlot(ino, pos / BLOCK)) + pos % BLOCK / SECTOR][o..o + avail];
    forall k | 0 <= k < avail ensures ByteAt(tab, d, ino, pos + k) == Some(t[k]) {
      InSector(pos, k);
    }
    SectorEnd(pos, avail);
    ReadBytes(tab, d, ino, pos, n, t);
  }

  lemma InSector(pos: U32, k: nat)
    requires pos % SECTOR + k < SECTOR
    ensures (pos + k) % SECTOR == pos % SECTOR + k
    ensures (pos + k) / BLOCK == pos / BLOCK && (pos + k) % BLOCK / SECTOR == pos % BLOCK / SECTOR
  {
    var a := pos % BLOCK / SECTOR;
    assert pos % BLOCK == SECTOR * a + pos % SECTOR;
    var r := SECTOR * a + (pos % SECTOR + k);
    Arith.DivUnique(pos + k, BLOCK, pos / BLOCK, r);
    Arith.DivUnique(r, SECTOR, a, pos % SECTOR + k);
    assert (pos + k) % BLOCK == r;
  }

  lemma SectorEnd(pos: U32, k: nat)
    requires pos % SECTOR + k <= SECTOR
    ensures pos + k <= WORD
  {
  }

  /** How much ufs_read asks for: cut at the vnode's size; off + n is a 32-bit sum. */
  function Clamp(size: U32, off: U32, n: U32): U32 {
    if size <= off then 0
    else if (off + n) % WORD > size then size - off
    else n
  }

  /** The bytes from off on, up to n of them or to the first hole. */
  lemma {:induction false} ReadSpecIs(tab: seq<Inode>, d: Disk, ino: nat, off: U32, n: nat)
    requires n < WORD
    ensures var out := ReadSpec(tab, d, ino, off, n);
      && |out| <= n
      && (forall k :: 0 <= k < |out| ==> ByteAt(tab, d, ino, Wrap(off + k)) == Some(out[k]))
      && (|out| < n ==> ByteAt(tab, d, ino, Wrap(off + |out|)) == None)
    decreases n
  {
    hide ByteAt;
    var out := ReadSpec(tab, d, ino, off, n);
    if out != [] {
      var rest := ReadSpec(tab, d, ino, Wrap(off + 1), n - 1);
      ReadSpecIs(tab, d, ino, Wrap(off + 1), n - 1);
      forall k | 0 <= k < |out| ensures ByteAt(tab, d, ino, Wrap(off + k)) == Some(out[k]) {
        if 0 < k {
          WrapTwice(off, k - 1);
          assert out[k] == rest[k - 1];
        }
      }
      WrapTwice(off, |rest|);
    }
  }

  lemma WrapTwice(off: U32, k: nat)
    requires k + 1 < WORD
    ensures Wrap(Wrap(off + 1) + k) == Wrap(off + (k + 1))
  {
  }

  method Read(u: Ufs, vn: Vnode, off: U32, n: U32) returns (ret: Ret, out: seq<Byte>)
    requires u.Steady() && vn.ino < u.g.inodes
    requires !vn.isDir ==> !IsSymlink(u.tab[vn.ino])
    modifies u`buf
    ensures u.Steady()
    ensures vn.isDir ==> ret == Err(EISDIR) && out == []
    ensures !vn.isDir ==>
      ret == Count(|out|) && out == ReadSpec(u.tab, u.disk, vn.ino, off, Clamp(vn.size, off, n))
    ensures !vn.isDir ==>
      var m := if vn.size <= off then 0
               else if off + n < 0x1_0000_0000 then (if n < vn.size - off then n else vn.size - off)
               else n;
      && |out| <= m
      && (forall k :: 0 <= k < |out| ==> ByteAt(u.tab, u.disk, vn.ino, Wrap(off + k)) == Some(out[k]))
      && (|out| < m ==> ByteAt(u.tab, u.disk, vn.ino, Wrap(off + |out|)) == None)
  {
    hide Vol, Good, Geom.Valid, ReadSpec, Wrap, Table, InodeAt, IsSymlink, ByteAt;
    out := [];
    ReadSpecIs(u.tab, u.disk, vn.ino, off, Clamp(vn.size, off, n));
    ReadEnd(u.tab, u.disk, vn.ino, off);
    if vn.isDir {
      return Err(EISDIR), [];
    }
    if vn.size <= off {
      return Count(0), [];
    }
    ghost var t, d, ino := u.tab, u.disk, vn.ino;
    VolShape(u.g, u.tab, u.disk, u.own, u.freeBlocks);
    var m := if (off + n) % WORD > vn.size then vn.size - off else n;
    var inode := u.ReadInode(vn.ino);
    var remaining := m;
    var pos: U32 := off;
    while 0 < remaining
      invariant 0 <= remaining <= m && u.Valid()
      invariant out + ReadSpec(t, d, ino, pos, remaining) == ReadSpec(t, d, ino, off, m)
    {
      var hole, chunk := ReadTurn(u, inode, vn.ino, pos, remaining);
      if hole {
        break;
      }
      Assoc(out, chunk, ReadSpec(t, d, ino, (pos + |chunk|) % WORD, remaining - |chunk|));
      out := out + chunk;
      pos := (pos + |chunk|) % WORD;
      remaining := remaining - |chunk|;
    }
    ReadEnd(t, d, ino, pos);
    ret := Count(|out|);
  }

  /** One turn of the read loop: a hole ends it, else a run of one sector is delivered. */
  method ReadTurn(u: Ufs, inode: Inode, ino: nat, pos: U32, remaining: nat) returns (hole: bool, chunk: seq<Byte>)
    requires u.Valid() && ino < u.g.inodes && u.tab[ino] == inode && !IsSymlink(inode) && 0 < remaining
    modifies u`buf
    ensures hole ==> ReadSpec(u.tab, u.disk, ino, pos, remaining) == []
    ensures !hole ==>
      && 0 < |chunk| <= remaining && |chunk| <= SECTOR
      && ReadSpec(u.tab, u.disk, ino, pos, remaining)
         == chunk + ReadSpec(u.tab, u.disk, ino, (pos + |chunk|) % WORD, remaining - |chunk|)
  {
    hide Vol, Good, Val, DataSlot, Geom.Valid, ByteAt, ReadSpec, Wrap, TopPtr;
    VolGood(u.g, u.tab, u.disk, u.own, u.freeBlocks);
    OffsetInRange(pos);
    var rc, phys := u.BlockMap(inode, pos / BLOCK, ino);
    if phys == 0 {
      ReadHole(u.tab, u.disk, ino, pos, remaining);
      return true, [];
    }
    InRange(u.g, u.tab, u.disk, u.own, DataSlot(ino, pos / BLOCK));
    u.ReadSector(phys + pos % BLOCK / SECTOR);
    var o := pos % SECTOR;
    var avail := SECTOR - o;
    if remaining < avail {
      avail := remaining;
    }
    ReadRun(u.tab, u.disk, ino, pos, remaining, avail);
    WrapMod(pos, avail);
    return false, u.buf[o..o + avail];
  }

  lemma Assoc(a: seq<Byte>, b: seq<Byte>, c: seq<Byte>)
    ensures a + (b + c) == a + b + c
  {
  }

  lemma ReadHole(tab: seq<Inode>, d: Disk, ino: nat, pos: U32, n: nat)
    requires Val(tab, d, DataSlot(ino, pos / BLOCK)) == 0
    ensures ReadSpec(tab, d, ino, pos, n) == []
  {
  }

  lemma ReadEnd(tab: seq<Inode>, d: Disk, ino: nat, pos: U32)
    ensures ReadSpec(tab, d, ino, pos, 0) == []
  {
  }

  lemma WrapMod(pos: U32, avail: nat)
    requires avail < WORD
    ensures (pos + avail) % WORD == Wrap(pos + avail)
  {
  }

  // ---- what a reader sees after a writer ----

  /** Reading any part of what was written gives back the written bytes. */
  lemma {:induction false} ReadBack(tab: seq<Inode>, d: Disk, tab': seq<Inode>, e: Disk, ino: nat, off: U32, src: seq<Byte>, i: nat, m: nat)
    requires |src| < WORD && i + m <= |src|
    requires Wrote(tab, d, tab', e, ino, off, src, |src|)
    ensures ReadSpec(tab', e, ino, Wrap(off + i), m) == src[i..i + m]
    decreases m
  {
    hide ByteAt;
    if m == 0 {
      assert src[i..i] == [];
    } else {
      var q := Wrap(off + i);
      assert Overwritten(ByteAt(tab, d, ino, q), ByteAt(tab', e, ino, q), off, src, |src|, q);
      IdxWrap(off, i);
      WrapNext(off, i);
      assert ByteAt(tab', e, ino, q) == Some(src[i]);
      ReadBack(tab, d, tab', e, ino, off, src, i + 1, m - 1);
      assert src[i..i + m] == [src[i]] + src[i + 1..i + m];
    }
  }

  lemma IdxWrap(off: U32, i: nat)
    requires i < WORD
    ensures Idx(off, Wrap(off + i)) == i
  {
  }

  lemma WrapNext(off: U32, i: nat)
    requires i + 1 < WORD
    ensures Wrap(Wrap(off + i) + 1) == Wrap(off + (i + 1))
  {
  }

  /** Bytes that do not change read the same. */
  lemma {:induction false} ReadSame(tab: seq<Inode>, d: Disk, tab': seq<Inode>, e: Disk, ino: nat, off: U32, n: nat)
    requires forall pos: nat :: ByteAt(tab', e, ino, pos) == ByteAt(tab, d, ino, pos)
    ensures ReadSpec(tab', e, ino, off, n) == ReadSpec(tab, d, ino, off, n)
    decreases n
  {
    if n != 0 {
      hide ByteAt;
      ReadSame(tab, d, tab', e, ino, Wrap(off + 1), n - 1);
    }
  }

  /** The file-system law: after a complete write, ufs_read through a vnode of the new size returns any
      requested part of the written range exactly, and reads of every other file are unchanged. */
  lemma WriteThenRead(g: Geom, tab: seq<Inode>, d: Disk, own: map<nat, Slot>, tab': seq<Inode>, e: Disk, own': map<nat, Slot>,
                      ino: nat, off: U32, src: seq<Byte>, i: nat, m: nat)
    requires ino < |tab| && |src| < WORD && i + m <= |src|
    requires WriteDone(g, tab, d, own, tab', e, own', ino, off, src)
    ensures ReadSpec(tab', e, ino, Wrap(off + i), m) == src[i..i + m]
    ensures off + |src| < WORD && Size(tab'[ino]) < WORD ==>
      ReadSpec(tab', e, ino, off + i, Clamp(Size(tab'[ino]), off + i, m)) == src[i..i + m]
    ensures forall j: nat, p: U32, n: nat :: j != ino ==> ReadSpec(tab', e, j, p, n) == ReadSpec(tab, d, j, p, n)
  {
    hide ByteAt, FileGrows, Wrote, ReadSpec;
    ReadBack(tab, d, tab', e, ino, off, src, i, m);
    if off + |src| < WORD && Size(tab'[ino]) < WORD && m == 0 {
      assert Clamp(Size(tab'[ino]), off + i, m) == 0;
    }
    forall j: nat, p: U32, n: nat | j != ino ensures ReadSpec(tab', e, j, p, n) == ReadSpec(tab, d, j, p, n) {
      ReadSame(tab, d, tab', e, j, p, n);
    }
  }
}
