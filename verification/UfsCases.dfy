/** Particular runs from an empty volume: each reaches one of the states the other contracts single out. */
module UfsCases {
  import opened Options
  import opened Bytes
  import opened UfsFormat
  import opened UfsTree
  import opened UfsBlocks
  import opened UfsFiles
  import opened UfsTruncate
  import opened UfsDirent
  import opened UfsDirs
  import opened UfsLinks
  import opened UfsOps
  import opened UfsMkdir
  import opened UfsSound
  import opened UfsFresh

  /** Two data blocks, eight inodes. */
  function Tiny(): (g: Geom)
    ensures g.Valid() && g.Blocks() == 2 && g.inodes == 8
  {
    Geom(33, 40, 16, 8, 104, 100, 56)
  }

  /** A hundred data blocks. */
  function Small(): (g: Geom)
    ensures g.Valid() && g.Blocks() == 100 && g.inodes == 64
  {
    Geom(33, 64, 800, 64, 108, 100, 864)
  }

  /** 300000 data blocks and 65600 inodes: more than mkufs makes, but the driver takes any geometry. */
  function Large(): (g: Geom)
    ensures g.Valid() && g.Blocks() == 300000 && g.inodes == 65600
  {
    Geom(640, 17100, 2400000, 65600, 8400, 100, 2500000)
  }

  // ---- a file on a new volume ----

  lemma NotFull(g: Geom, tab: seq<Inode>, d: Disk, own: map<nat, Slot>, free: nat)
    requires Vol(g, tab, d, own, free) && 0 < free
    ensures !FullDisk(g, d)
  {
    if FullDisk(g, d) {
      NoneFree(g, tab, d, own, free);
    }
  }

  lemma {:induction false} FewUnused(marks: seq<bool>)
    requires forall j :: ROOT_INO < j < |marks| ==> marks[j]
    ensures Unused(marks) <= 3
  {
    if 3 < |marks| {
      FewUnused(marks[..|marks| - 1]);
    }
  }

  lemma SomeLeft(marks: seq<bool>)
    requires 3 < Unused(marks)
    ensures !AllUsed(marks)
  {
    if AllUsed(marks) {
      FewUnused(marks);
    }
  }

  /** One regular file, named "f", on an otherwise empty volume; creating it took no block. */
  method OneFile(g: Geom) returns (u: Ufs, root: Vnode, file: Vnode)
    requires g.Valid() && 0 < g.Blocks() && 7 < g.inodes
    ensures fresh(u) && fresh(root) && fresh(file) && u.g == g && FsOk(u) && DirVnode(u, root) && UsedVnode(u, file)
    ensures root.ino == ROOT_INO && !file.isDir && 0 < file.ino != ROOT_INO && file.size == 0 && file.ino < |u.tab|
    ensures NoPtrs(u.tab[file.ino]) && Nlink(u.tab[file.ino]) == 1 && Size(u.tab[file.ino]) == 0 && u.freeBlocks == g.Blocks() - 1
    ensures Size(u.tab[ROOT_INO]) <= 2 * BLOCK && 3 < Unused(u.marks)
    ensures Listing(Dir(u.tab, u.disk, ROOT_INO)) == Dots(ROOT_INO, ROOT_INO) + multiset{Dirent([0x66], file.ino)}
  {
    hide Vol, Good, TreeOk, Unused, Dir, Listing, Dots, AnyRoom, Mode, Nlink, Size, NewFile, NoPtrs, AllUsed, NoLeak, Table, Marks, Unique, NoName,
         BytesKept, NothingLost, Listings, IsDir, IsReg;
    u, root := EmptyVolume(g, 0x1FF);
    ghost var tab0, d0, own0, marks0 := u.tab, u.disk, u.own, u.marks;
    OneUsed(u.marks, ROOT_INO);
    assert MinRec(|Cut([0x66])|) == 12;
    var rc, ino := Create(u, root, [0x66], 0x1A4);
    SomeLeft(marks0);
    assert rc == Ok;
    NewFileIs(0x1A4);
    UnusedPut(marks0, ino, true);
    VolShape(u.g, u.tab, u.disk, u.own, u.freeBlocks);
    DirByMode(tab0[ROOT_INO], u.tab[ROOT_INO]);
    GainedUnique(g, tab0, d0, own0, marks0, u.tab, u.disk, u.own, u.marks, ROOT_INO, Dirent([0x66], ino));
    file := new Vnode(ino, false, 0);
  }

  // ---- a short write ----

  lemma {:induction false} TwoFree(g: Geom, d: Disk, i: nat, j: nat, n: nat)
    requires g.Valid() && |d| == g.sectors && i < j < n <= g.Blocks() && IsFree(g, d, i) && IsFree(g, d, j)
    ensures 2 <= CountFree(g, d, n)
    decreases n
  {
    hide IsFree;
    if j < n - 1 {
      TwoFree(g, d, i, j, n - 1);
    } else {
      OneFree(g, d, i, j);
    }
  }

  lemma {:induction false} OneFree(g: Geom, d: Disk, i: nat, n: nat)
    requires g.Valid() && |d| == g.sectors && i < n <= g.Blocks() && IsFree(g, d, i)
    ensures 1 <= CountFree(g, d, n)
    decreases n
  {
    hide IsFree;
    if i < n - 1 {
      OneFree(g, d, i, n - 1);
    }
  }

  /** A file without blocks owns none. */
  lemma NoneOwned(g: Geom, tab: seq<Inode>, d: Disk, own: map<nat, Slot>, ino: nat, v: nat)
    requires Good(g, tab, d, own) && ino < |tab| && NoPtrs(tab[ino]) && v in own
    ensures own[v].ino != ino
  {
    assert Owned(g, tab, d, own, v);
    if own[v].ino == ino {
      NoSlots(tab, d, ino, own[v]);
    }
  }

  /** Where a byte of a file without blocks came to stand there was a free block. */
  lemma CameFromFree(g: Geom, tab: seq<Inode>, d: Disk, own: map<nat, Slot>, tab': seq<Inode>, e: Disk, own': map<nat, Slot>,
                     ino: nat, lost: iset<nat>, l: nat)
    requires Good(g, tab, d, own) && Good(g, tab', e, own') && FileGrows(g, d, own, e, own', ino, lost)
    requires ino < |tab| && NoPtrs(tab[ino]) && Val(tab', e, DataSlot(ino, l)) != 0
    ensures var v := Val(tab', e, DataSlot(ino, l));
      v in own' && own'[v] == DataSlot(ino, l) && g.IsBlock(v) && IsFree(g, d, g.BlockNo(v)) && v == g.Frag(g.BlockNo(v))
  {
    hide NoPtrs, DataSlot, IsFree, Val;
    DataSlotPlain(ino, l);
    var v := Val(tab', e, DataSlot(ino, l));
    assert v in own' && Owned(g, tab', e, own', v);
    if v in own {
      NoneOwned(g, tab, d, own, ino, v);
    }
  }

  /** Two blocks do not fit where one is free. */
  lemma TwoBlocksTaken(g: Geom, tab: seq<Inode>, d: Disk, own: map<nat, Slot>, tab': seq<Inode>, e: Disk, own': map<nat, Slot>, ino: nat, src: seq<Byte>)
    requires Good(g, tab, d, own) && Good(g, tab', e, own') && ino < |tab| && NoPtrs(tab[ino]) && |src| == 2 * BLOCK
    requires WriteDone(g, tab, d, own, tab', e, own', ino, 0, src)
    ensures 2 <= CountFree(g, d, g.Blocks())
  {
    GoodShape(g, tab, d, own);
    hide NoPtrs, Good, FileGrows, IsFree, OthersSame;
    assert Overwritten(ByteAt(tab, d, ino, 0), ByteAt(tab', e, ino, 0), 0, src, |src|, 0);
    assert Overwritten(ByteAt(tab, d, ino, BLOCK), ByteAt(tab', e, ino, BLOCK), 0, src, |src|, BLOCK);
    CameFromFree(g, tab, d, own, tab', e, own', ino, iset{}, 0);
    CameFromFree(g, tab, d, own, tab', e, own', ino, iset{}, 1);
    var a, b := g.BlockNo(Val(tab', e, DataSlot(ino, 0))), g.BlockNo(Val(tab', e, DataSlot(ino, 1)));
    if a < b {
      TwoFree(g, d, a, b, g.Blocks());
    } else {
      TwoFree(g, d, b, a, g.Blocks());
    }
  }

  lemma SomeFree(g: Geom, d: Disk, n: nat) returns (k: nat)
    requires g.Valid() && |d| == g.sectors && n <= g.Blocks() && 0 < CountFree(g, d, n)
    ensures k < n && IsFree(g, d, k)
  {
    if IsFree(g, d, n - 1) {
      k := n - 1;
    } else {
      k := SomeFree(g, d, n - 1);
    }
  }

  /** Writing two blocks to an empty file where one block is free: one is reported, none is in the file, one is lost. */
  lemma OneBlockShort(g: Geom, tab: seq<Inode>, d: Disk, own: map<nat, Slot>, e: Disk, own': map<nat, Slot>, ino: nat, src: seq<Byte>, done: nat)
    requires Good(g, tab, d, own) && CountFree(g, d, g.Blocks()) == 1 && ino < |tab| && NoPtrs(tab[ino])
    requires |src| == 2 * BLOCK && done < |src| && WriteShort(g, tab, d, own, e, own', ino, 0, src, done)
    ensures done == BLOCK && (forall q: U32 :: ByteAt(tab, e, ino, q) == None)
    ensures exists n :: 0 <= n < g.Blocks() && !IsFree(g, e, n) && g.Frag(n) !in own'
  {
    GoodShape(g, tab, d, own);
    hide NoPtrs, Good, FileGrows, IsFree, OthersSame, CountFree, Wrote, HeldLed, SameFields;
    forall q: U32 ensures ByteAt(tab, e, ino, q) == None && !Rooted(tab, DataSlot(ino, q / BLOCK)) {
      NotRooted(tab, ino, q / BLOCK);
      assert Partial(Rooted(tab, DataSlot(ino, q / BLOCK)), ByteAt(tab, d, ino, q), ByteAt(tab, e, ino, q), 0, src, done, q);
    }
    var i, held, spare :| Dropped(g, tab, d, own, e, own', ino, 0, src, done, i, held, spare);
    var n := SomeFree(g, d, g.Blocks());
    assert !IsFree(g, e, n);
    HeldOne(g, tab, d, own, tab[ino := i], e, held, ino, src, done, n);
    assert g.Frag(n) in own' ==> Rooted(tab, held[g.Frag(n)]);
    NothingRooted(tab, ino, held[g.Frag(n)]);
    assert !IsFree(g, e, n) && g.Frag(n) !in own';
  }

  lemma NotRooted(tab: seq<Inode>, ino: nat, l: nat)
    requires ino < |tab| && NoPtrs(tab[ino])
    ensures !Rooted(tab, DataSlot(ino, l))
  {
    DataSlotPlain(ino, l);
    NothingRooted(tab, ino, DataSlot(ino, l));
  }

  lemma NothingRooted(tab: seq<Inode>, ino: nat, s: Slot)
    requires ino < |tab| && NoPtrs(tab[ino]) && s.ino == ino
    ensures !Rooted(tab, s)
  {
    NoSlots(tab, [], ino, RootOf(s));
  }

  /** The dropped copy held the one free block, for the first block of the file. */
  lemma HeldOne(g: Geom, tab: seq<Inode>, d: Disk, own: map<nat, Slot>, tab': seq<Inode>, e: Disk, held: map<nat, Slot>,
                ino: nat, src: seq<Byte>, done: nat, n: nat)
    requires Good(g, tab, d, own) && Good(g, tab', e, held) && ino < |tab| && NoPtrs(tab[ino]) && |src| == 2 * BLOCK && done < |src|
    requires FileGrows(g, d, own, e, held, ino, iset{}) && Wrote(tab, d, tab', e, ino, 0, src, done) && HeldLed(own, held, ino, 0, done)
    requires Val(tab', e, DataSlot(ino, Wrap(0 + done) / BLOCK)) == 0
    requires n < g.Blocks() && IsFree(g, d, n) && !IsFree(g, e, n)
    ensures done == BLOCK && g.Frag(n) in held && held[g.Frag(n)].ino == ino
  {
    hide NoPtrs, IsFree, Val, Good, Overwritten, DataSlot, LedTo, OnPath, SameBlock;
    var v := g.Frag(n);
    assert v in held;
    FreeUnowned(g, tab, d, own, n);
    assert held[v].ino == ino;
    if done == 0 {
      FirstOnly(held[v], ino);
    } else {
      NextMissing(tab, d, tab', e, ino, src, done);
    }
  }

  /** The first missing byte begins a block. */
  lemma NextMissing(tab: seq<Inode>, d: Disk, tab': seq<Inode>, e: Disk, ino: nat, src: seq<Byte>, done: nat)
    requires 0 < done < |src| == 2 * BLOCK && Wrote(tab, d, tab', e, ino, 0, src, done)
    requires Val(tab', e, DataSlot(ino, Wrap(0 + done) / BLOCK)) == 0
    ensures done == BLOCK
  {
    WrittenMapped(tab, d, tab', e, ino, 0, src, done);
    hide Val, DataSlot, Wrote;
  }

  lemma FreeUnowned(g: Geom, tab: seq<Inode>, d: Disk, own: map<nat, Slot>, n: nat)
    requires Good(g, tab, d, own) && n < g.Blocks() && IsFree(g, d, n)
    ensures g.Frag(n) !in own
  {
    hide IsFree, Val;
    assert g.BlockNo(g.Frag(n)) == n;
    assert g.Frag(n) in own ==> Owned(g, tab, d, own, g.Frag(n));
  }

  /** No indirect block is on the way to the first block. */
  lemma FirstOnly(s: Slot, ino: nat)
    ensures !(LedTo(s, ino, 0, 0) || (IsMeta(s) && OnPath(s, DataSlot(ino, Wrap(0 + 0) / BLOCK))))
  {
  }

  method ShortWrite() returns (u: Ufs, file: Vnode, ret: Ret)
    ensures FsOk(u) && ret == Count(BLOCK) && file.ino < |u.tab| && Size(u.tab[file.ino]) == 0 && file.size == 0
    ensures forall q: U32 :: ByteAt(u.tab, u.disk, file.ino, q) == None
    ensures u.g.Valid() && |u.disk| == u.g.sectors && exists n :: 0 <= n < u.g.Blocks() && !IsFree(u.g, u.disk, n) && u.g.Frag(n) !in u.own
  {
    hide Vol, Good, TreeOk, Unused, Dir, Listing, Dots, Mode, Nlink, Size, NoPtrs, Table, Marks, BytesKept, NothingLost, Listings, IsDir, IsReg,
         WriteDone, WriteShort, CountFree, Tiny, IsFree;
    var root;
    u, root, file := OneFile(Tiny());
    ghost var tab0, d0, own0 := u.tab, u.disk, u.own;
    VolGood(u.g, u.tab, u.disk, u.own, u.freeBlocks);
    VolCounted(u.g, u.tab, u.disk, u.own, u.freeBlocks);
    var src := seq(2 * BLOCK, _ => 1);
    ret := WriteFile(u, file, src, 0);
    VolGood(u.g, u.tab, u.disk, u.own, u.freeBlocks);
    VolShape(u.g, u.tab, u.disk, u.own, u.freeBlocks);
    if ret == Count(|src|) {
      TwoBlocksTaken(u.g, tab0, d0, own0, u.tab, u.disk, u.own, file.ino, src);
      assert false;
    }
    OneBlockShort(u.g, tab0, d0, own0, u.disk, u.own, file.ino, src, if ret.Count? then ret.n else 0);
  }

  // ---- a stale pointer ----

  lemma MappedByte(tab: seq<Inode>, d: Disk, ino: nat, l: nat)
    requires ByteAt(tab, d, ino, l * BLOCK) != None
    ensures Val(tab, d, DataSlot(ino, l)) != 0
  {
    assert l * BLOCK / BLOCK == l;
  }

  lemma StaleThere(tab: seq<Inode>, d: Disk, tab': seq<Inode>, e: Disk, ino: nat, src: seq<Byte>)
    requires |src| == 14 * BLOCK && Wrote(tab, d, tab', e, ino, 0, src, |src|)
    ensures !NoStale(tab', e, ino, KeepBlocks(13 * BLOCK))
  {
    hide ByteAt, Val, DataSlot, Stale;
    assert Overwritten(ByteAt(tab, d, ino, 13 * BLOCK), ByteAt(tab', e, ino, 13 * BLOCK), 0, src, |src|, 13 * BLOCK);
    MappedByte(tab', e, ino, 13);
    KeepIs(13 * BLOCK);
    StaleMeans(ino, 13, 13);
    DataSlotPlain(ino, 13);
    assert Stale(DataSlot(ino, 13), 13);
  }

  /** A file of 14 blocks cut to 13: the pointer to the last one stays behind, and the volume is not sound any more. */
  method StalePointer() returns (u: Ufs, file: Vnode)
    ensures !FsOk(u) && file.size == 13 * BLOCK
  {
    hide Vol, Good, TreeOk, Unused, Dir, Listing, Dots, Mode, Nlink, Size, NoPtrs, Table, Marks, BytesKept, NothingLost, Listings, IsDir, IsReg,
         WriteShort, CountFree, Small, FileGrows, OthersSame, KeepBlocks, ByteAt, NoStale, Overwritten;
    var root;
    u, root, file := OneFile(Small());
    var src := seq(14 * BLOCK, _ => 1);
    assert Touched(0, |src|) == 14;
    ghost var tab0, d0 := u.tab, u.disk;
    var ret := WriteFile(u, file, src, 0);
    StaleThere(tab0, d0, u.tab, u.disk, file.ino, src);
    DirByMode(tab0[file.ino], u.tab[file.ino]);
    var rc := TruncateFile(u, file, 13 * BLOCK);
  }

  // ---- reading past the end ----

  /** ufs_read of 4 GiB - 1 bytes from byte 1 of a file of 5: the sum wraps, nothing is cut, and what is read goes on
      to the end of the block. */
  method ReadPastEnd() returns (u: Ufs, file: Vnode, out: seq<Byte>)
    ensures FsOk(u) && file.size == 5 && |out| == 4095
  {
    hide Vol, Good, TreeOk, Unused, Dir, Listing, Dots, Mode, Nlink, Size, NoPtrs, Table, Marks, BytesKept, NothingLost, Listings, IsDir, IsReg,
         WriteShort, CountFree, Small, FileGrows, OthersSame, ByteAt, Overwritten;
    var root, ret;
    u, root, file := OneFile(Small());
    var src := [1, 1, 1, 1, 1];
    assert Touched(0, 5) == 1;
    ghost var tab0, d0 := u.tab, u.disk;
    ret := WriteFile(u, file, src, 0);
    DirByMode(tab0[file.ino], u.tab[file.ino]);
    RegNoSymlink(u.tab[file.ino]);
    ret, out := Read(u, file, 1, 0xFFFF_FFFF);
    OneBlock(tab0, d0, u.tab, u.disk, file.ino, src);
    EndOfBlock(u.tab, u.disk, file.ino, out);
  }

  lemma EndOfBlock(tab: seq<Inode>, d: Disk, ino: nat, out: seq<Byte>)
    requires forall q: U32 :: ByteAt(tab, d, ino, q) == None <==> BLOCK <= q
    requires |out| <= 0xFFFF_FFFF && (forall k :: 0 <= k < |out| ==> ByteAt(tab, d, ino, Wrap(1 + k)) == Some(out[k]))
    requires |out| < 0xFFFF_FFFF ==> ByteAt(tab, d, ino, Wrap(1 + |out|)) == None
    ensures |out| == 4095
  {
    hide ByteAt;
    var n := |out|;
    if 4095 < n {
      SeesByte(tab, d, ino, out, 4095);
    }
    HoleFrom(tab, d, ino, if n < 4095 then 1 + n else 4096);
  }

  lemma HoleFrom(tab: seq<Inode>, d: Disk, ino: nat, q: U32)
    requires forall q: U32 :: ByteAt(tab, d, ino, q) == None <==> BLOCK <= q
    ensures ByteAt(tab, d, ino, q) == None <==> 4096 <= q
    ensures Wrap(q) == q
  {
  }

  lemma SeesByte(tab: seq<Inode>, d: Disk, ino: nat, out: seq<Byte>, k: nat)
    requires k < |out| <= 0xFFFF_FFFF && (forall j :: 0 <= j < |out| ==> ByteAt(tab, d, ino, Wrap(1 + j)) == Some(out[j]))
    ensures ByteAt(tab, d, ino, Wrap(1 + k)) != None
  {
    hide ByteAt, Wrap;
    assert ByteAt(tab, d, ino, Wrap(1 + k)) == Some(out[k]);
  }

  /** Five bytes written at the start of a file without blocks make all bytes of its first block, and no others. */
  lemma OneBlock(tab: seq<Inode>, d: Disk, tab': seq<Inode>, e: Disk, ino: nat, src: seq<Byte>)
    requires |src| == 5 && Wrote(tab, d, tab', e, ino, 0, src, 5) && ino < |tab| && NoPtrs(tab[ino])
    ensures forall q: U32 :: ByteAt(tab', e, ino, q) == None <==> BLOCK <= q
  {
    hide NoPtrs, Overwritten;
    forall q: U32 ensures ByteAt(tab', e, ino, q) == None <==> BLOCK <= q {
      NotRooted(tab, ino, q / BLOCK);
      RootedVal(tab, tab, d, DataSlot(ino, q / BLOCK));
      OneBlockAt(tab, d, tab', e, ino, src, q);
    }
  }

  lemma OneBlockAt(tab: seq<Inode>, d: Disk, tab': seq<Inode>, e: Disk, ino: nat, src: seq<Byte>, q: U32)
    requires |src| == 5 && Wrote(tab, d, tab', e, ino, 0, src, 5) && ByteAt(tab, d, ino, q) == None
    ensures ByteAt(tab', e, ino, q) == None <==> BLOCK <= q
  {
    hide ByteAt;
    assert Overwritten(ByteAt(tab, d, ino, q), ByteAt(tab', e, ino, q), 0, src, 5, q);
    assert InBlockAt(0, 0, 0);
    assert Reached(0, 5, q / BLOCK) <==> q / BLOCK == 0;
  }

  // ---- a length near 4 GiB ----

  /** A file with a byte in it is made 4 GiB - 1 long and then cut to 4 GiB - 4095: ufs_truncate frees everything
      in it, though the byte lies before the new end. */
  method CutAtWrap() returns (u: Ufs, file: Vnode, before: seq<Byte>, after: seq<Byte>)
    ensures FsOk(u) && file.size == 0xFFFF_F001 && file.ino < |u.tab| && Size(u.tab[file.ino]) == 0xFFFF_F001
    ensures before == [1] && after == [] && ByteAt(u.tab, u.disk, file.ino, 0) == None
  {
    hide Vol, Good, TreeOk, Unused, Dir, Listing, Dots, Mode, Nlink, Size, NoPtrs, Table, Marks, BytesKept, NothingLost, Listings, IsDir, IsReg,
         WriteShort, CountFree, Small, FileGrows, OthersSame, KeepBlocks, ByteAt, NoStale, Overwritten;
    var root, ret, rc;
    u, root, file := OneFile(Small());
    assert Touched(0, 1) == 1;
    ghost var tab0, d0 := u.tab, u.disk;
    ret := WriteFile(u, file, [1], 0);
    WroteByte(tab0, d0, u.tab, u.disk, file.ino);
    DirByMode(tab0[file.ino], u.tab[file.ino]);
    ghost var tab1 := u.tab;
    rc := TruncateFile(u, file, 0xFFFF_FFFF);
    DirByMode(tab1[file.ino], u.tab[file.ino]);
    before := FirstByte(u, file);
    KeepBlocksWraps();
    ghost var tab2 := u.tab;
    ShortNeverStale(u.tab, u.disk, file.ino, 0);
    rc := TruncateFile(u, file, 0xFFFF_F001);
    DirByMode(tab2[file.ino], u.tab[file.ino]);
    after := FirstByte(u, file);
  }

  /** What ufs_read gives at the start of a file. */
  method FirstByte(u: Ufs, file: Vnode) returns (out: seq<Byte>)
    requires FsOk(u) && UsedVnode(u, file) && !file.isDir && 0 < file.size
    modifies u`buf
    ensures FsOk(u) && out == match ByteAt(u.tab, u.disk, file.ino, 0) case Some(b) => [b] case None => []
  {
    hide Vol, Good, TreeOk, Unused, IsReg, Table, Marks, ByteAt;
    RegNoSymlink(u.tab[file.ino]);
    ReadEnd(u.tab, u.disk, file.ino, Wrap(0 + 1));
    var ret;
    ret, out := Read(u, file, 0, 1);
  }

  lemma WroteByte(tab: seq<Inode>, d: Disk, tab': seq<Inode>, e: Disk, ino: nat)
    requires Wrote(tab, d, tab', e, ino, 0, [1], 1)
    ensures ByteAt(tab', e, ino, 0) == Some(1)
  {
    hide ByteAt;
    assert Overwritten(ByteAt(tab, d, ino, 0), ByteAt(tab', e, ino, 0), 0, [1], 1, 0);
  }

  // ---- 65535 links ----

  /** Different numbers give different names, none of them "." or "..". */
  function NthName(k: nat): (n: Name)
    requires k < 0x1_0000
    ensures |n| == 3 && Cut(n) == n && !IsDots(n)
  {
    [0x80 + k % 64, 0x80 + k / 64 % 64, 0x80 + k / 4096]
  }

  lemma NthNames(j: nat, k: nat)
    requires j < 0x1_0000 && k < 0x1_0000 && NthName(j) == NthName(k)
    ensures j == k
  {
    assert NthName(j)[0] == NthName(k)[0] && NthName(j)[1] == NthName(k)[1] && NthName(j)[2] == NthName(k)[2];
    assert j / 64 / 64 == j / 4096 && k / 64 / 64 == k / 4096;
  }

  /** The names from the k-th on are not listed yet. */
  ghost predicate Coming(ents: multiset<Dirent>, k: nat) {
    forall e: Dirent, j: nat :: e in ents && k <= j < 0x1_0000 ==> e.name != NthName(j)
  }

  lemma ComingNext(ents: multiset<Dirent>, k: nat, i: U32)
    requires k < 0x1_0000 && Coming(ents, k)
    ensures NoName(ents, NthName(k)) && Coming(ents + multiset{Dirent(NthName(k), i)}, k + 1)
  {
    hide NthName;
    forall e: Dirent, j: nat | e in ents + multiset{Dirent(NthName(k), i)} && k + 1 <= j < 0x1_0000 ensures e.name != NthName(j) {
      if e !in ents && e.name == NthName(j) {
        NthNames(k, j);
      }
    }
  }

  /** After k more links to the file in the root directory. */
  ghost predicate Linked(u: Ufs, root: Vnode, file: Vnode, k: nat)
    reads u, root, file
  {
    && u.g == Large() && FsOk(u) && UsedVnode(u, file) && !file.isDir && 0 < file.ino
    && root.ino == ROOT_INO < |u.marks| && ROOT_INO < |u.tab| && u.marks[ROOT_INO] && IsDir(u.tab[ROOT_INO])
    && Nlink(u.tab[file.ino]) == k + 1 && Size(u.tab[ROOT_INO]) <= BLOCK * (k + 2) && 299999 <= u.freeBlocks + 3 * k
    && Coming(Listing(Dir(u.tab, u.disk, ROOT_INO)), k)
  }

  method OneLink(u: Ufs, root: Vnode, file: Vnode, k: nat)
    requires k < 0xFFFE && u.Valid() && Linked(u, root, file, k)
    modifies u, root
    ensures Linked(u, root, file, k + 1)
  {
    hide Vol, Good, TreeOk, Unused, Dir, Listing, Mode, Nlink, Size, Table, Marks, BytesKept, NothingLost, Listings, IsDir, IsReg,
         FullDisk, NoName, Unique, Coming, NthName, Large;
    ghost var tab0, d0, own0, marks0 := u.tab, u.disk, u.own, u.marks;
    ComingNext(Listing(Dir(tab0, d0, ROOT_INO)), k, file.ino);
    var rc := Link(u, root, NthName(k), file);
    if rc == ENOSPC {
      NotFull(u.g, u.tab, u.disk, u.own, u.freeBlocks);
      assert false;
    }
    assert rc == Ok;
    DirByMode(tab0[ROOT_INO], u.tab[ROOT_INO]);
    DirByMode(tab0[file.ino], u.tab[file.ino]);
    GainedUnique(u.g, tab0, d0, own0, marks0, u.tab, u.disk, u.own, u.marks, ROOT_INO, Dirent(NthName(k), file.ino));
  }

  /** A file with 65535 names, on a sound volume. */
  method FullLinks() returns (u: Ufs, root: Vnode, file: Vnode)
    ensures fresh(u) && fresh(root) && fresh(file) && Linked(u, root, file, 0xFFFE)
  {
    hide Vol, Good, TreeOk, Dir, Listing, Mode, Nlink, Size, Table, Marks, IsDir, IsReg, NoPtrs, Large, Dots, Unused, Coming;
    u, root, file := OneFile(Large());
    OneFileComing(file.ino);
    var k := 0;
    while k < 0xFFFE
      invariant 0 <= k <= 0xFFFE && fresh(u) && fresh(root) && fresh(file) && Linked(u, root, file, k)
    {
      OneLink(u, root, file, k);
      k := k + 1;
    }
  }

  lemma OneFileComing(i: U32)
    ensures Coming(Dots(ROOT_INO, ROOT_INO) + multiset{Dirent([0x66], i)}, 0)
  {
  }

  /** One link more, and the count is 0: ufs_link reports success, and the volume is not sound any more. */
  method TooManyLinks() returns (u: Ufs, file: Vnode, rc: Status)
    ensures rc == Ok && file.ino < |u.tab| && Nlink(u.tab[file.ino]) == 0 && !FsOk(u)
  {
    hide Vol, Good, TreeOk, Dir, Listing, Mode, Nlink, Size, Table, Marks, IsDir, IsReg, Coming, NthName, FullDisk, NoName, Unique, Large, Unused;
    var root;
    u, root, file := FullLinks();
    ComingNext(Listing(Dir(u.tab, u.disk, ROOT_INO)), 0xFFFE, file.ino);
    rc := Link(u, root, NthName(0xFFFE), file);
    if rc == ENOSPC {
      NotFull(u.g, u.tab, u.disk, u.own, u.freeBlocks);
      assert false;
    }
  }

  // ---- 65535 links of a directory ----

  /** After k directories were made in the root directory. */
  ghost predicate Parented(u: Ufs, root: Vnode, k: nat)
    reads u, root
  {
    && u.g == Large() && FsOk(u) && root.ino == ROOT_INO < |u.marks| && ROOT_INO < |u.tab| && u.marks[ROOT_INO] && IsDir(u.tab[ROOT_INO])
    && Nlink(u.tab[ROOT_INO]) == k + 2 && Size(u.tab[ROOT_INO]) <= BLOCK * (k + 1) && 299999 <= u.freeBlocks + 4 * k
    && Unused(u.marks) + k == 65597
  }

  method OneDirectory(u: Ufs, root: Vnode, k: nat) returns (rc: Status)
    requires k <= 0xFFFD && u.Valid() && Parented(u, root, k)
    modifies u, root
    ensures rc == Ok && (if k < 0xFFFD then Parented(u, root, k + 1) else ROOT_INO < |u.tab| && Nlink(u.tab[ROOT_INO]) == 0 && !FsOk(u))
  {
    hide Vol, Good, TreeOk, Unused, Dir, Listing, Mode, Nlink, Size, Table, Marks, BytesKept, NothingLost, Listings, IsDir, IsReg,
         FullDisk, AllUsed, NoName, Unique, NthName, Large, Unchanged, Orphaned, IsDots;
    ghost var tab0, d0, marks0 := u.tab, u.disk, u.marks;
    var ino;
    rc, ino := Mkdir(u, root, NthName(k), 0x1FF);
    if rc == ENOSPC {
      NotFull(u.g, u.tab, u.disk, u.own, u.freeBlocks);
      StillUnused(tab0, d0, marks0, u.tab, u.disk, u.marks, ROOT_INO, ino);
      SomeLeft(u.marks);
      assert false;
    }
    UnusedPut(marks0, ino, true);
    DirByMode(tab0[ROOT_INO], u.tab[ROOT_INO]);
  }

  lemma StillUnused(tab: seq<Inode>, d: Disk, marks: seq<bool>, tab': seq<Inode>, e: Disk, marks': seq<bool>, k: nat, n: U32)
    requires Unchanged(tab, d, marks, tab', e, marks', k) || Orphaned(tab, d, marks, tab', e, marks', k, n)
    ensures Unused(marks) <= Unused(marks') + 1
  {
    hide Unused, Listings, BytesKept, Dots;
    if n < |marks| {
      UnusedPut(marks, n, true);
    }
  }

  /** 65534 directories in one: ufs_mkdir reports success, and the parent's link count is 0. */
  method TooManyDirectories() returns (u: Ufs, root: Vnode, rc: Status)
    ensures rc == Ok && ROOT_INO < |u.tab| && Nlink(u.tab[ROOT_INO]) == 0 && !FsOk(u)
  {
    hide Vol, Good, TreeOk, Dir, Mode, Nlink, Size, Table, Marks, IsDir, IsReg, NoPtrs, Large, Dots, Unused, Listing, AnyRoom;
    u, root := EmptyVolume(Large(), 0x1FF);
    OneUsed(u.marks, ROOT_INO);
    var k := 0;
    while k < 0xFFFD
      invariant 0 <= k <= 0xFFFD && fresh(u) && fresh(root) && Parented(u, root, k)
    {
      rc := OneDirectory(u, root, k);
      k := k + 1;
    }
    rc := OneDirectory(u, root, k);
  }

  // ---- a name twice ----

  /** Creating "f" where it is listed already succeeds, and the directory is not a map any more. */
  method CreatedTwice() returns (u: Ufs, root: Vnode, rc: Status)
    ensures rc == Ok && FsOk(u) && !Unique(Listing(Dir(u.tab, u.disk, ROOT_INO)))
  {
    hide Vol, Good, TreeOk, Unused, Dir, Listing, Mode, Nlink, Size, Table, Marks, BytesKept, NothingLost, Listings, IsDir, IsReg,
         FullDisk, AllUsed, Small, NoPtrs, Dots, Unique, NoName;
    var file, ino;
    u, root, file := OneFile(Small());
    OneFileUnique(file.ino);
    ghost var tab0, d0, marks0 := u.tab, u.disk, u.marks;
    rc, ino := Create(u, root, [0x66], 0x1A4);
    if rc != Ok {
      NotFull(u.g, u.tab, u.disk, u.own, u.freeBlocks);
      StillUnused(tab0, d0, marks0, u.tab, u.disk, u.marks, ROOT_INO, 0);
      SomeLeft(marks0);
      assert false;
    }
  }

  lemma OneFileUnique(i: U32)
    ensures var ents := Dots(ROOT_INO, ROOT_INO) + multiset{Dirent([0x66], i)}; Unique(ents) && !NoName(ents, [0x66])
  {
  }
}
