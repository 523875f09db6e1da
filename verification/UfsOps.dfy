/** ufs_create, ufs_link and ufs_unlink, and the invariant of the whole volume that every operation keeps. */
module UfsOps {
  import opened Bytes
  import opened UfsFormat
  import opened UfsTree
  import opened UfsBlocks
  import opened UfsFiles
  import opened UfsReclaim
  import opened UfsTruncate
  import opened UfsDirent
  import opened UfsDirs
  import opened UfsLinks

  // ---- the invariant ----

  predicate NoPtrs(i: Inode) {
    forall k :: 0 <= k < 14 ==> TopPtr(i, k) == 0
  }

  /** An inode in use is a regular file or a sound directory; one that is not owns nothing. */
  ghost predicate InodeOk(tab: seq<Inode>, d: Disk, marks: seq<bool>, i: nat)
    requires i < |tab| == |marks|
  {
    if marks[i] then IsReg(tab[i]) || DirOk(tab, d, i) else NoPtrs(tab[i])
  }

  ghost predicate InodesOk(tab: seq<Inode>, d: Disk, marks: seq<bool>) {
    |tab| == |marks| && forall i :: 0 <= i < |tab| ==> InodeOk(tab, d, marks, i)
  }

  function ListingAt(tab: seq<Inode>, d: Disk, marks: seq<bool>, i: nat): multiset<Dirent>
    requires i < |tab| == |marks|
  {
    if marks[i] && IsDir(tab[i]) then Listing(Dir(tab, d, i)) else multiset{}
  }

  /** What every inode lists. */
  function Listings(tab: seq<Inode>, d: Disk, marks: seq<bool>): (ls: Lists)
    requires |tab| == |marks|
    ensures |ls| == |tab| && forall i :: 0 <= i < |tab| ==> ls[i] == ListingAt(tab, d, marks, i)
  {
    seq(|tab|, i requires 0 <= i < |tab| => ListingAt(tab, d, marks, i))
  }

  /** Every inode is sound and every link count fits the names. (Block ownership is u.Steady().) */
  ghost predicate TreeOk(tab: seq<Inode>, d: Disk, marks: seq<bool>) {
    InodesOk(tab, d, marks) && LinksOk(tab, marks, Listings(tab, d, marks))
  }

  /** The invariant of the whole volume; both cached counts are those of the bitmaps. */
  ghost predicate FsOk(u: Ufs)
    reads u
  {
    u.Steady() && TreeOk(u.tab, u.disk, u.marks) && u.freeInodes == Unused(u.marks)
  }

  /** Every byte of every file outside `touched` is the same. */
  ghost predicate BytesKept(tab: seq<Inode>, d: Disk, tab': seq<Inode>, e: Disk, touched: set<nat>) {
    forall i: nat, pos: nat :: i !in touched ==> ByteAt(tab', e, i, pos) == ByteAt(tab, d, i, pos)
  }

  /** No block was lost: allocated blocks that nobody owns were so before. */
  ghost predicate NothingLost(g: Geom, tab: seq<Inode>, d: Disk, own: map<nat, Slot>, tab': seq<Inode>, e: Disk, own': map<nat, Slot>) {
    forall lost :: NoLeak(g, tab, d, own, lost) ==> NoLeak(g, tab', e, own', lost)
  }

  lemma NothingLostTrans(g: Geom, tab: seq<Inode>, d: Disk, own: map<nat, Slot>, tab': seq<Inode>, e: Disk, own': map<nat, Slot>,
                         tab'': seq<Inode>, h: Disk, own'': map<nat, Slot>)
    requires NothingLost(g, tab, d, own, tab', e, own') && NothingLost(g, tab', e, own', tab'', h, own'')
    ensures NothingLost(g, tab, d, own, tab'', h, own'')
  {
    hide NoLeak;
  }

  lemma GrowsNothingLost(g: Geom, tab: seq<Inode>, d: Disk, own: map<nat, Slot>, tab': seq<Inode>, e: Disk, own': map<nat, Slot>, ino: nat)
    requires Good(g, tab, d, own) && Good(g, tab', e, own') && FileGrows(g, d, own, e, own', ino, iset{})
    ensures NothingLost(g, tab, d, own, tab', e, own')
  {
    hide Val, IsFree;
  }

  lemma QuietNothingLost(g: Geom, tab: seq<Inode>, d: Disk, own: map<nat, Slot>, tab': seq<Inode>, e: Disk)
    requires Good(g, tab, d, own) && Good(g, tab', e, own) && Quiet(g, d, e)
    ensures NothingLost(g, tab, d, own, tab', e, own)
  {
    hide Val, MapByte;
  }

  // ---- steps ----

  /** Everything about one inode stayed, as far as directories are concerned. */
  lemma InodeKept(tab: seq<Inode>, d: Disk, tab': seq<Inode>, e: Disk, marks: seq<bool>, marks': seq<bool>, i: nat)
    requires i < |tab| == |marks| == |tab'| == |marks'| && marks'[i] == marks[i]
    requires Mode(tab'[i]) == Mode(tab[i]) && (!marks[i] ==> NoPtrs(tab[i]) ==> NoPtrs(tab'[i]))
    requires DirOk(tab, d, i) ==> DirOk(tab', e, i)
    requires Dir(tab', e, i) == Dir(tab, d, i)
    ensures InodeOk(tab, d, marks, i) ==> InodeOk(tab', e, marks', i)
    ensures ListingAt(tab', e, marks', i) == ListingAt(tab, d, marks, i)
  {
    hide Mode, Listing, DirOk, Dir, TopPtr;
  }

  /** A step below the data area that keeps kinds, sizes and pointers of all inodes. */
  lemma QuietTree(g: Geom, tab: seq<Inode>, d: Disk, tab': seq<Inode>, e: Disk, own: map<nat, Slot>, free: nat, marks: seq<bool>)
    requires Vol(g, tab', e, own, free) && Quiet(g, d, e) && InodesOk(tab, d, marks) && |tab'| == |tab|
    requires forall s :: Val(tab', e, s) == Val(tab, d, s)
    requires forall i :: 0 <= i < |tab| ==> Mode(tab'[i]) == Mode(tab[i]) && Size(tab'[i]) == Size(tab[i])
    requires forall i :: 0 <= i < |tab| ==> NoPtrs(tab[i]) ==> NoPtrs(tab'[i])
    ensures InodesOk(tab', e, marks) && Listings(tab', e, marks) == Listings(tab, d, marks)
    ensures BytesKept(tab, d, tab', e, {})
  {
    hide Vol, Quiet, Val, InodeOk, ListingAt, Mode, Size, ByteAt, Dir, DirOk, NoPtrs;
    forall i | 0 <= i < |tab|
      ensures InodeOk(tab', e, marks, i) && ListingAt(tab', e, marks, i) == ListingAt(tab, d, marks, i)
    {
      QuietDir(g, tab, d, tab', e, own, free, i);
      InodeKept(tab, d, tab', e, marks, marks, i);
    }
    assert Listings(tab', e, marks) == Listings(tab, d, marks);
    QuietBytes(g, tab, d, tab', e, own, free);
  }

  lemma QuietBytes(g: Geom, tab: seq<Inode>, d: Disk, tab': seq<Inode>, e: Disk, own: map<nat, Slot>, free: nat)
    requires Vol(g, tab', e, own, free) && Quiet(g, d, e)
    requires forall s :: Val(tab', e, s) == Val(tab, d, s)
    ensures BytesKept(tab, d, tab', e, {})
  {
    hide Val, Quiet, DataSlot, IsFree, Geom.Valid;
    forall i: nat, pos: nat ensures ByteAt(tab', e, i, pos) == ByteAt(tab, d, i, pos) {
      var v := Val(tab', e, DataSlot(i, pos / BLOCK));
      assert v != 0 ==> Owned(g, tab', e, own, v);
      QuietAt(g, d, e, v);
    }
  }

  lemma QuietAt(g: Geom, d: Disk, e: Disk, v: nat)
    requires Quiet(g, d, e)
    ensures |d| == |e|
    ensures g.IsBlock(v) ==> SameBlock(d, e, v)
  {
  }

  /** A step that grew or rewrote file ino alone leaves all other inodes as they were. */
  lemma GrowsTree(g: Geom, tab: seq<Inode>, d: Disk, own: map<nat, Slot>, tab': seq<Inode>, e: Disk, own': map<nat, Slot>,
                  ino: nat, lost: iset<nat>, marks: seq<bool>)
    requires Good(g, tab, d, own) && Good(g, tab', e, own') && FileGrows(g, d, own, e, own', ino, lost)
    requires InodesOk(tab, d, marks) && ino < |tab| == |tab'|
    requires forall j :: 0 <= j < |tab| && j != ino ==> tab'[j] == tab[j]
    ensures forall i :: 0 <= i < |tab| && i != ino ==>
      InodeOk(tab', e, marks, i) && ListingAt(tab', e, marks, i) == ListingAt(tab, d, marks, i)
    ensures BytesKept(tab, d, tab', e, {ino})
  {
    hide Good, FileGrows, Val, InodeOk, ListingAt, Mode, Size, ByteAt, Dir, DirOk, NoPtrs;
    forall i | 0 <= i < |tab| && i != ino
      ensures InodeOk(tab', e, marks, i) && ListingAt(tab', e, marks, i) == ListingAt(tab, d, marks, i)
    {
      OtherDir(g, tab, d, own, tab', e, own', ino, lost, i);
      InodeKept(tab, d, tab', e, marks, marks, i);
    }
    OtherBytes(g, tab, d, own, tab', e, own', ino, lost);
  }

  lemma AddedTree(g: Geom, tab: seq<Inode>, d: Disk, own: map<nat, Slot>, tab': seq<Inode>, e: Disk, own': map<nat, Slot>,
                  ino: nat, ent: Dirent, marks: seq<bool>)
    requires Good(g, tab, d, own) && Good(g, tab', e, own') && InodesOk(tab, d, marks)
    requires ino < |tab| && marks[ino] && IsDir(tab[ino]) && Added(g, tab, d, own, tab', e, own', ino, ent)
    ensures InodesOk(tab', e, marks) && Listings(tab', e, marks) == Plus(Listings(tab, d, marks), ino, ent)
    ensures BytesKept(tab, d, tab', e, {ino}) && NothingLost(g, tab, d, own, tab', e, own')
  {
    hide Good, FileGrows, Listing, Mode, ByteAt, DirOk, NothingLost, BytesKept;
    GrowsTree(g, tab, d, own, tab', e, own', ino, iset{}, marks);
    GrowsNothingLost(g, tab, d, own, tab', e, own', ino);
    assert ListingAt(tab', e, marks, ino) == ListingAt(tab, d, marks, ino) + multiset{ent};
    hide ListingAt;
    assert Listings(tab', e, marks) == Plus(Listings(tab, d, marks), ino, ent);
  }

  lemma NotAddedTree(g: Geom, tab: seq<Inode>, d: Disk, own: map<nat, Slot>, tab': seq<Inode>, e: Disk, own': map<nat, Slot>,
                     ino: nat, need: nat, marks: seq<bool>)
    requires Good(g, tab, d, own) && Good(g, tab', e, own') && InodesOk(tab, d, marks)
    requires ino < |tab| && marks[ino] && IsDir(tab[ino]) && NotAdded(g, tab, d, own, tab', e, own', ino, need)
    ensures tab' == tab && InodesOk(tab, e, marks) && Listings(tab, e, marks) == Listings(tab, d, marks)
    ensures BytesKept(tab, d, tab, e, {ino})
    ensures forall n :: 0 <= n < g.Blocks() ==> !IsFree(g, e, n)
  {
    hide Good, FileGrows, Listing, Mode, ByteAt, DirOk, BytesKept, IsFree;
    GrowsTree(g, tab, d, own, tab, e, own', ino, (iset v: nat | v !in own'), marks);
    assert ListingAt(tab, e, marks, ino) == ListingAt(tab, d, marks, ino);
    hide ListingAt;
    assert Listings(tab, e, marks) == Listings(tab, d, marks);
  }

  lemma RemovedTree(g: Geom, tab: seq<Inode>, d: Disk, own: map<nat, Slot>, e: Disk, ino: nat, ent: Dirent, marks: seq<bool>)
    requires Good(g, tab, d, own) && Good(g, tab, e, own) && InodesOk(tab, d, marks)
    requires ino < |tab| && marks[ino] && IsDir(tab[ino]) && Removed(g, tab, d, own, e, ino, ent)
    ensures InodesOk(tab, e, marks) && Listings(tab, d, marks) == Plus(Listings(tab, e, marks), ino, ent)
    ensures BytesKept(tab, d, tab, e, {ino}) && NothingLost(g, tab, d, own, tab, e, own)
  {
    hide Good, FileGrows, Listing, Mode, ByteAt, DirOk, NothingLost, BytesKept, AnyRoom;
    GrowsTree(g, tab, d, own, tab, e, own, ino, iset{}, marks);
    GrowsNothingLost(g, tab, d, own, tab, e, own, ino);
    assert ListingAt(tab, d, marks, ino) == ListingAt(tab, e, marks, ino) + multiset{ent};
    hide ListingAt;
    assert Listings(tab, d, marks) == Plus(Listings(tab, e, marks), ino, ent);
  }

  /** Writing a new regular file's inode where an unused one stood. */
  lemma FreshTree(g: Geom, tab: seq<Inode>, d: Disk, e: Disk, own: map<nat, Slot>, free: nat, marks: seq<bool>, ino: nat, i: Inode)
    requires ino < |tab| && InodesOk(tab, d, marks) && !marks[ino] && IsReg(i) && NoPtrs(i)
    requires Vol(g, tab[ino := i], e, own, free) && Quiet(g, d, e)
    requires forall s :: Val(tab[ino := i], e, s) == Val(tab, d, s)
    ensures InodesOk(tab[ino := i], e, marks[ino := true])
    ensures Listings(tab[ino := i], e, marks[ino := true]) == Listings(tab, d, marks)
    ensures InodesOk(tab[ino := i], e, marks)
    ensures Listings(tab[ino := i], e, marks) == Listings(tab, d, marks)
    ensures BytesKept(tab, d, tab[ino := i], e, {})
  {
    hide Vol, Quiet, Val, Mode, Size, ByteAt, Dir, DirOk, NoPtrs, Listing, Geom.Valid;
    var tab', marks' := tab[ino := i], marks[ino := true];
    DirNotReg(i);
    forall j | 0 <= j < |tab| && j != ino
      ensures InodeOk(tab', e, marks', j) && ListingAt(tab', e, marks', j) == ListingAt(tab, d, marks, j)
      ensures InodeOk(tab', e, marks, j) && ListingAt(tab', e, marks, j) == ListingAt(tab, d, marks, j)
    {
      QuietDir(g, tab, d, tab', e, own, free, j);
      InodeKept(tab, d, tab', e, marks, marks', j);
      InodeKept(tab, d, tab', e, marks, marks, j);
    }
    assert InodeOk(tab, d, marks, ino);
    assert ListingAt(tab', e, marks', ino) == ListingAt(tab', e, marks, ino) == multiset{} == ListingAt(tab, d, marks, ino);
    hide ListingAt;
    assert Listings(tab', e, marks') == Listings(tab, d, marks);
    assert Listings(tab', e, marks) == Listings(tab, d, marks);
    QuietBytes(g, tab, d, tab', e, own, free);
  }

  /** The inode bitmap and the free counts are not what directories are made of. */
  lemma SameTree(g: Geom, tab: seq<Inode>, d: Disk, e: Disk, own: map<nat, Slot>, free: nat, marks: seq<bool>)
    requires Vol(g, tab, d, own, free) && Vol(g, tab, e, own, free) && Quiet(g, d, e) && InodesOk(tab, d, marks)
    ensures InodesOk(tab, e, marks) && Listings(tab, e, marks) == Listings(tab, d, marks)
    ensures BytesKept(tab, d, tab, e, {}) && NothingLost(g, tab, d, own, tab, e, own)
  {
    hide Vol, Quiet, Val, InodesOk, BytesKept, NothingLost, Geom.Valid;
    LowStep(g, tab, d, e, own, free);
    QuietTree(g, tab, d, tab, e, own, free, marks);
    VolGood(g, tab, d, own, free);
    VolGood(g, tab, e, own, free);
    QuietNothingLost(g, tab, d, own, tab, e);
  }

  /** Replacing an inode by one that owns the same blocks: tab follows. */
  method PutBack(u: Ufs, ino: nat, i: Inode)
    requires u.Steady() && ino < u.g.inodes
    requires Vol(u.g, u.tab[ino := i], u.disk, u.own, u.freeBlocks)
    requires forall s :: Val(u.tab[ino := i], u.disk, s) == Val(u.tab, u.disk, s)
    modifies u`disk, u`buf, u`tab
    ensures u.Steady() && u.tab == old(u.tab)[ino := i] && Quiet(u.g, old(u.disk), u.disk)
    ensures forall s :: Val(u.tab, u.disk, s) == Val(old(u.tab), old(u.disk), s)
  {
    hide Vol, Good, Val, Geom.Valid, Quiet, IsFree;
    VolShape(u.g, u.tab, u.disk, u.own, u.freeBlocks);
    ghost var d1, tab2 := u.disk, u.tab[ino := i];
    u.WriteInode(ino, i);
    LowStep(u.g, tab2, d1, u.disk, u.own, u.freeBlocks);
    u.tab := tab2;
  }

  /** ufs_write_inode after changing i_nlink. */
  method StoreLinks(u: Ufs, ino: nat, i: Inode, n: U16)
    requires u.Steady() && ino < u.g.inodes && ino < |u.tab| && InodesOk(u.tab, u.disk, u.marks)
    requires SetNlink(i, n) == SetNlink(u.tab[ino], n)
    modifies u`disk, u`buf, u`tab
    ensures u.Steady() && u.tab == old(u.tab)[ino := SetNlink(i, n)]
    ensures InodesOk(u.tab, u.disk, u.marks) && Listings(u.tab, u.disk, u.marks) == Listings(old(u.tab), old(u.disk), u.marks)
    ensures BytesKept(old(u.tab), old(u.disk), u.tab, u.disk, {})
    ensures NothingLost(u.g, old(u.tab), old(u.disk), u.own, u.tab, u.disk, u.own)
    ensures Nlink(u.tab[ino]) == n && Mode(u.tab[ino]) == Mode(old(u.tab)[ino])
  {
    hide Vol, Good, Val, Geom.Valid, Quiet, IsFree, InodesOk, BytesKept, NothingLost, TopPtr, Size, Mode, Nlink, SetNlink;
    VolShape(u.g, u.tab, u.disk, u.own, u.freeBlocks);
    VolGood(u.g, u.tab, u.disk, u.own, u.freeBlocks);
    SetNlinkFields(u.tab[ino], n);
    FieldsStep(u.g, u.tab, u.disk, u.own, u.freeBlocks, ino, SetNlink(i, n));
    ghost var d0, tab0 := u.disk, u.tab;
    PutBack(u, ino, SetNlink(i, n));
    VolGood(u.g, u.tab, u.disk, u.own, u.freeBlocks);
    QuietTree(u.g, tab0, d0, u.tab, u.disk, u.own, u.freeBlocks, u.marks);
    QuietNothingLost(u.g, tab0, d0, u.own, u.tab, u.disk);
  }

  lemma BytesKeptTrans(tab: seq<Inode>, d: Disk, tab': seq<Inode>, e: Disk, tab'': seq<Inode>, h: Disk, s: set<nat>)
    requires BytesKept(tab, d, tab', e, s) && BytesKept(tab', e, tab'', h, s)
    ensures BytesKept(tab, d, tab'', h, s)
  {
    hide ByteAt;
  }

  /** No inode is left. */
  predicate AllUsed(marks: seq<bool>) {
    forall j :: ROOT_INO < j < |marks| ==> marks[j]
  }

  /** No block is left. */
  ghost predicate FullDisk(g: Geom, d: Disk) {
    g.Valid() && |d| == g.sectors && forall n :: 0 <= n < g.Blocks() ==> !IsFree(g, d, n)
  }

  lemma QuietFull(g: Geom, d: Disk, e: Disk)
    requires FullDisk(g, d) && Quiet(g, d, e)
    ensures FullDisk(g, e)
  {
    forall n | 0 <= n < g.Blocks() ensures !IsFree(g, e, n) {
      assert !IsFree(g, d, n);
    }
  }

  lemma BytesKeptLess(tab: seq<Inode>, d: Disk, tab': seq<Inode>, e: Disk, s: set<nat>, t: set<nat>)
    requires BytesKept(tab, d, tab', e, s) && s <= t
    ensures BytesKept(tab, d, tab', e, t)
  {
    hide ByteAt;
  }

  /** An inode without pointers is replaced by another. */
  lemma FreshStep(g: Geom, tab: seq<Inode>, d: Disk, own: map<nat, Slot>, free: nat, ino: nat, i: Inode)
    requires Vol(g, tab, d, own, free) && ino < g.inodes && NoPtrs(tab[ino]) && NoPtrs(i)
    ensures Vol(g, tab[ino := i], d, own, free)
    ensures forall s :: Val(tab[ino := i], d, s) == Val(tab, d, s)
  {
    var tab' := tab[ino := i];
    forall s ensures Val(tab', d, s) == Val(tab, d, s) {
      assert forall k: nat :: TopVal(tab', s.ino, k) == TopVal(tab, s.ino, k);
    }
    hide Val, MapByte, NoPtrs;
    forall v | v in own ensures Owned(g, tab', d, own, v) {
      assert Owned(g, tab, d, own, v);
    }
  }

  // ---- ufs_create ----

  /** S_IFREG | (mode & 0777), one link, no blocks. */
  function NewFile(mode: nat): Inode {
    PutU16(PutU16(ZeroInode(), 0, 0x8000 + mode % 512), 2, 1)
  }

  lemma NewFileIs(mode: nat)
    ensures IsReg(NewFile(mode)) && NoPtrs(NewFile(mode)) && Nlink(NewFile(mode)) == 1 && Size(NewFile(mode)) == 0
  {
    var m: Inode := PutU16(ZeroInode(), 0, 0x8000 + mode % 512);
    PutGet16(ZeroInode(), 0, 0x8000 + mode % 512, 0);
    PutGet16(m, 2, 1, 0);
    PutGet16(m, 2, 1, 2);
  }

  /** A vnode of a directory in use, below 4 GiB. */
  ghost predicate DirVnode(u: Ufs, dir: Vnode)
    reads u
  {
    && dir.ino < u.g.inodes && dir.ino < |u.marks| && dir.ino < |u.tab| && u.marks[dir.ino]
    && IsDir(u.tab[dir.ino]) && Size(u.tab[dir.ino]) + BLOCK < WORD
  }

  lemma DirOfTree(tab: seq<Inode>, d: Disk, marks: seq<bool>, i: nat)
    requires InodesOk(tab, d, marks) && i < |tab| && marks[i] && IsDir(tab[i])
    ensures DirOk(tab, d, i)
  {
    assert InodeOk(tab, d, marks, i);
    DirNotReg(tab[i]);
  }

  /** The first half of ufs_create: an inode in use, not yet named. */
  method NewInode(u: Ufs, mode: nat) returns (rc: Status, ino: U32)
    requires FsOk(u)
    modifies u`disk, u`buf, u`tab, u`marks, u`freeInodes
    ensures u.Steady() && (rc == Ok || rc == ENOSPC) && u.freeInodes == Unused(u.marks)
    ensures rc == ENOSPC ==>
      && AllUsed(u.marks)
      && u.tab == old(u.tab) && u.disk == old(u.disk) && u.marks == old(u.marks)
    ensures rc == Ok ==>
      && ROOT_INO < ino < |old(u.marks)| == |old(u.tab)| == u.g.inodes
      && !old(u.marks)[ino] && u.marks == old(u.marks)[ino := true]
      && u.tab == old(u.tab)[ino := NewFile(mode)]
      && InodesOk(u.tab, u.disk, u.marks) && InodesOk(u.tab, u.disk, old(u.marks))
      && Listings(u.tab, u.disk, u.marks) == Listings(old(u.tab), old(u.disk), old(u.marks))
      && Listings(u.tab, u.disk, old(u.marks)) == Listings(old(u.tab), old(u.disk), old(u.marks))
      && BytesKept(old(u.tab), old(u.disk), u.tab, u.disk, {})
      && NothingLost(u.g, old(u.tab), old(u.disk), u.own, u.tab, u.disk, u.own)
      && forall j :: 0 <= j < |u.tab| && j != ino ==> Dir(u.tab, u.disk, j) == Dir(old(u.tab), old(u.disk), j)
  {
    hide Unused, Vol, Good, Val, Geom.Valid, Quiet, IsFree, InodesOk, BytesKept, NothingLost, LinksOk, NoPtrs, NewFile, Table, Marks, Dir, Mode, Size;
    ghost var tab0, d0, marks0 := u.tab, u.disk, u.marks;
    VolShape(u.g, u.tab, u.disk, u.own, u.freeBlocks);
    VolGood(u.g, u.tab, u.disk, u.own, u.freeBlocks);
    InodesBelow(u.g);
    var n;
    rc, n := u.AllocInode();
    ino := 0;
    if rc == Ok {
      ino := n;
      ghost var d1 := u.disk;
      UnusedPut(marks0, n, true);
      SameTree(u.g, tab0, d0, d1, u.own, u.freeBlocks, marks0);
      UnusedEmpty(tab0, d1, marks0, n);
      LowStep(u.g, tab0, d0, d1, u.own, u.freeBlocks);
      NewFileIs(mode);
      FreshStep(u.g, u.tab, u.disk, u.own, u.freeBlocks, n, NewFile(mode));
      PutBack(u, n, NewFile(mode));
      FreshTree(u.g, tab0, d1, u.disk, u.own, u.freeBlocks, marks0, n, NewFile(mode));
      QuietTrans(u.g, d0, d1, u.disk);
      forall j | 0 <= j < |u.tab| && j != n ensures Dir(u.tab, u.disk, j) == Dir(tab0, d0, j) {
        QuietDir(u.g, tab0, d0, u.tab, u.disk, u.own, u.freeBlocks, j);
      }
      BytesKeptTrans(tab0, d0, tab0, d1, u.tab, u.disk, {});
      VolGood(u.g, u.tab, u.disk, u.own, u.freeBlocks);
      QuietNothingLost(u.g, tab0, d0, u.own, u.tab, u.disk);
    }
  }

  lemma InodesBelow(g: Geom)
    requires g.Valid()
    ensures g.inodes < WORD
  {
  }

  lemma UnusedEmpty(tab: seq<Inode>, d: Disk, marks: seq<bool>, i: nat)
    requires InodesOk(tab, d, marks) && i < |tab| && !marks[i]
    ensures NoPtrs(tab[i])
  {
    assert InodeOk(tab, d, marks, i);
  }

  method Create(u: Ufs, dir: Vnode, name: Name, mode: nat) returns (rc: Status, ino: U32)
    requires FsOk(u) && DirVnode(u, dir)
    modifies u, dir
    ensures FsOk(u) && (rc == Ok || rc == ENOSPC)
    ensures rc == Ok ==>
      && ROOT_INO < ino < |old(u.marks)| == |u.tab| && !old(u.marks)[ino] && u.marks == old(u.marks)[ino := true]
      && u.tab[ino] == NewFile(mode)
      && Gained(u.g, old(u.tab), old(u.disk), old(u.own), old(u.marks), u.tab, u.disk, u.own, u.marks, dir.ino, Dirent(Cut(name), ino))
    ensures rc == ENOSPC ==>
      && Unchanged(old(u.tab), old(u.disk), old(u.marks), u.tab, u.disk, u.marks, dir.ino)
      && (AllUsed(u.marks) || FullDisk(u.g, u.disk))
    ensures DirGrown(old(u.tab), u.tab, dir.ino) && u.freeBlocks <= old(u.freeBlocks) <= u.freeBlocks + 3
    ensures AnyRoom(Dir(old(u.tab), old(u.disk), dir.ino), MinRec(|Cut(name)|)) ==>
      u.own == old(u.own) && u.freeBlocks == old(u.freeBlocks) && (rc == ENOSPC ==> AllUsed(u.marks))
    ensures rc == Ok && Unique(Listing(Dir(old(u.tab), old(u.disk), dir.ino))) ==>
      (Unique(Listing(Dir(u.tab, u.disk, dir.ino))) <==> NoName(Listing(Dir(old(u.tab), old(u.disk), dir.ino)), Cut(name)))
  {
    hide Unused, Vol, Good, Val, Geom.Valid, Quiet, IsFree, InodesOk, BytesKept, NothingLost, LinksOk, NewFile, Table, Marks,
         Added, NotAdded, AnyRoom, Size, Mode, DirOk, Cut, MinRec, Nlink, Plus, FullDisk, AllUsed, Dir, Listing, NoName, Unique, IsDir,
         Gained, Unchanged, Added, NotAdded;
    ghost var tab0, d0, own0, marks0, ls0 := u.tab, u.disk, u.own, u.marks, Listings(u.tab, u.disk, u.marks);
    VolShape(u.g, u.tab, u.disk, u.own, u.freeBlocks);
    VolGood(u.g, u.tab, u.disk, u.own, u.freeBlocks);
    rc, ino := NewInode(u, mode);
    if rc != Ok {
      BytesSame(tab0, d0, {dir.ino});
      UnchangedIs(tab0, d0, marks0, tab0, d0, dir.ino);
      return;
    }
    rc := NameFile(u, dir, name, mode, ino, tab0, d0, marks0);
    if rc == Ok {
      ghost var e := Dirent(Cut(name), ino);
      DirByMode(tab0[dir.ino], u.tab[dir.ino]);
      GainedUnique(u.g, tab0, d0, own0, marks0, u.tab, u.disk, u.own, u.marks, dir.ino, e);
    }
  }

  /** The second half of ufs_create: the new inode gets its name, or goes out of use again. */
  method NameFile(u: Ufs, dir: Vnode, name: Name, mode: nat, ino: U32, ghost tab0: seq<Inode>, ghost d0: Disk, ghost marks0: seq<bool>) returns (rc: Status)
    requires u.Steady() && u.freeInodes == Unused(u.marks) && TreeOk(tab0, d0, marks0) && Good(u.g, tab0, d0, u.own) && DirVnode(u, dir)
    requires dir.ino < |tab0| == |u.tab| == |marks0| == u.g.inodes && marks0[dir.ino] && u.tab[dir.ino] == tab0[dir.ino]
    requires ROOT_INO < ino < |tab0| && ino != dir.ino && !marks0[ino] && u.marks == marks0[ino := true] && u.tab == tab0[ino := NewFile(mode)]
    requires InodesOk(u.tab, u.disk, u.marks) && InodesOk(u.tab, u.disk, marks0) && Listings(tab0, d0, marks0)[ino] == multiset{}
    requires Listings(u.tab, u.disk, u.marks) == Listings(tab0, d0, marks0) == Listings(u.tab, u.disk, marks0)
    requires BytesKept(tab0, d0, u.tab, u.disk, {}) && NothingLost(u.g, tab0, d0, u.own, u.tab, u.disk, u.own)
    modifies u, dir
    ensures FsOk(u) && (rc == Ok || rc == ENOSPC)
    ensures rc == Ok ==>
      && ino < |u.tab| && u.marks == marks0[ino := true] && u.tab[ino] == NewFile(mode)
      && Gained(u.g, tab0, d0, old(u.own), marks0, u.tab, u.disk, u.own, u.marks, dir.ino, Dirent(Cut(name), ino))
    ensures rc == ENOSPC ==> Unchanged(tab0, d0, marks0, u.tab, u.disk, u.marks, dir.ino) && FullDisk(u.g, u.disk)
    ensures DirGrown(tab0, u.tab, dir.ino) && u.freeBlocks <= old(u.freeBlocks) <= u.freeBlocks + 3
    ensures AnyRoom(Dir(old(u.tab), old(u.disk), dir.ino), MinRec(|Cut(name)|)) ==>
      rc == Ok && u.own == old(u.own) && u.freeBlocks == old(u.freeBlocks)
  {
    hide Unused, Vol, Good, Val, Geom.Valid, Quiet, IsFree, InodesOk, BytesKept, NothingLost, LinksOk, NewFile, Table, Marks,
         Added, NotAdded, AnyRoom, Size, Mode, DirOk, Cut, MinRec, Nlink, Plus, FullDisk, Dir, Listing, IsDir, Gained, Unchanged;
    ghost var own0, ls0 := u.own, Listings(tab0, d0, marks0);
    TreeParts(tab0, d0, marks0);
    VolShape(u.g, u.tab, u.disk, u.own, u.freeBlocks);
    InodesBelow(u.g);
    ghost var tab1, d1, marks1 := u.tab, u.disk, u.marks;
    VolGood(u.g, u.tab, u.disk, u.own, u.freeBlocks);
    DirOfTree(u.tab, u.disk, u.marks, dir.ino);
    rc := AddEntry(u, dir, name, ino);
    ghost var d2 := u.disk;
    VolGood(u.g, u.tab, u.disk, u.own, u.freeBlocks);
    if rc != Ok {
      CreateFailed(u.g, tab0, marks0, ls0, tab1, d1, own0, u.tab, u.disk, u.own, dir.ino, ino, MinRec(|Cut(name)|));
      GiveBack(u, ino, marks0);
      BytesLater(tab0, d0, tab1, d1, u.tab, d2, u.disk, dir.ino);
      UnchangedIs(tab0, d0, marks0, u.tab, u.disk, dir.ino);
    } else {
      ghost var e := Dirent(Cut(name), ino);
      AddedTree(u.g, tab1, d1, own0, u.tab, u.disk, u.own, dir.ino, e, marks1);
      AddedInode(u.g, tab1, d1, own0, u.tab, u.disk, u.own, dir.ino, e);
      NothingLostTrans(u.g, tab0, d0, own0, tab1, d1, own0, u.tab, d2, u.own);
      CreatedLinks(u.g, tab0, d0, marks0, tab1, d1, own0, u.tab, d2, u.own, ls0, dir.ino, e, mode);
      u.SyncSuper();
      SameTree(u.g, u.tab, d2, u.disk, u.own, u.freeBlocks, marks1);
      NothingLostTrans(u.g, tab0, d0, own0, u.tab, d2, u.own, u.tab, u.disk, u.own);
      BytesLater(tab0, d0, tab1, d1, u.tab, d2, u.disk, dir.ino);
      GainedIs(u.g, tab0, d0, own0, marks0, u.tab, u.disk, u.own, u.marks, dir.ino, e);
    }
  }

  /** The inode of a file that got no name is free again. */
  method GiveBack(u: Ufs, ino: U32, ghost marks0: seq<bool>)
    requires u.Steady() && u.freeInodes == Unused(u.marks) && ROOT_INO < ino < |marks0| == u.g.inodes && !marks0[ino] && u.marks == marks0[ino := true]
    requires InodesOk(u.tab, u.disk, marks0) && FullDisk(u.g, u.disk)
    modifies u`disk, u`buf, u`freeInodes, u`marks
    ensures u.Steady() && u.marks == marks0 && u.freeInodes == Unused(marks0) && FullDisk(u.g, u.disk)
    ensures InodesOk(u.tab, u.disk, marks0) && Listings(u.tab, u.disk, marks0) == Listings(u.tab, old(u.disk), marks0)
    ensures BytesKept(u.tab, old(u.disk), u.tab, u.disk, {})
  {
    hide Unused, Vol, Good, Quiet, InodesOk, BytesKept, NothingLost, Table, Marks, FullDisk;
    ghost var d0, marks1 := u.disk, u.marks;
    VolShape(u.g, u.tab, u.disk, u.own, u.freeBlocks);
    InodesBelow(u.g);
    UnusedPut(marks1, ino, false);
    var rc := u.FreeInode(ino);
    assert u.marks == marks0;
    SameTree(u.g, u.tab, d0, u.disk, u.own, u.freeBlocks, marks0);
    QuietFull(u.g, d0, u.disk);
  }

  lemma BytesLater(tab0: seq<Inode>, d0: Disk, tab1: seq<Inode>, d1: Disk, tab2: seq<Inode>, d2: Disk, e: Disk, k: nat)
    requires BytesKept(tab0, d0, tab1, d1, {}) && BytesKept(tab1, d1, tab2, d2, {k}) && BytesKept(tab2, d2, tab2, e, {})
    ensures BytesKept(tab0, d0, tab2, e, {k})
  {
    hide ByteAt;
  }

  lemma UnchangedIs(tab: seq<Inode>, d: Disk, marks: seq<bool>, tab': seq<Inode>, e: Disk, k: nat)
    requires |tab| == |marks| == |tab'| && Listings(tab', e, marks) == Listings(tab, d, marks) && BytesKept(tab, d, tab', e, {k})
    ensures Unchanged(tab, d, marks, tab', e, marks, k)
  {
  }

  lemma GainedIs(g: Geom, tab: seq<Inode>, d: Disk, own: map<nat, Slot>, marks: seq<bool>,
                 tab': seq<Inode>, e: Disk, own': map<nat, Slot>, marks': seq<bool>, k: nat, ent: Dirent)
    requires |tab| == |tab'| == |marks| == |marks'| && k < |tab| && ent.ino < |tab|
    requires Listings(tab', e, marks') == Plus(Listings(tab, d, marks), k, ent)
    requires BytesKept(tab, d, tab', e, {k}) && NothingLost(g, tab, d, own, tab', e, own')
    ensures Gained(g, tab, d, own, marks, tab', e, own', marks', k, ent)
  {
  }

  /** A directory's inode after an entry was added: same kind, at most one block more. */
  predicate DirGrown(tab: seq<Inode>, tab': seq<Inode>, k: nat) {
    k < |tab| == |tab'| && Mode(tab'[k]) == Mode(tab[k]) && Size(tab'[k]) <= Size(tab[k]) + BLOCK
  }

  /** What a gained record means for a directory without repeated names. */
  lemma GainedUnique(g: Geom, tab: seq<Inode>, d: Disk, own: map<nat, Slot>, marks: seq<bool>,
                     tab': seq<Inode>, e: Disk, own': map<nat, Slot>, marks': seq<bool>, k: nat, ent: Dirent)
    requires Gained(g, tab, d, own, marks, tab', e, own', marks', k, ent)
    requires marks[k] && marks'[k] && IsDir(tab[k]) && IsDir(tab'[k])
    ensures Listing(Dir(tab', e, k)) == Listing(Dir(tab, d, k)) + multiset{ent}
    ensures Unique(Listing(Dir(tab, d, k))) ==>
      (Unique(Listing(Dir(tab', e, k))) <==> NoName(Listing(Dir(tab, d, k)), ent.name))
  {
    hide BytesKept, NothingLost, Unique, NoName, Listing, Dir, Mode;
    assert Listings(tab', e, marks')[k] == Listings(tab, d, marks)[k] + multiset{ent};
    if Unique(Listing(Dir(tab, d, k))) {
      UniqueAdd(Listing(Dir(tab, d, k)), ent.name, ent.ino);
    }
  }

  lemma BytesSame(tab: seq<Inode>, d: Disk, s: set<nat>)
    ensures BytesKept(tab, d, tab, d, s)
  {
  }

  lemma CreateFailed(g: Geom, tab0: seq<Inode>, marks0: seq<bool>, ls0: Lists, tab1: seq<Inode>, d1: Disk, own1: map<nat, Slot>,
                     tab2: seq<Inode>, d2: Disk, own2: map<nat, Slot>, k: nat, ino: nat, need: nat)
    requires LinksOk(tab0, marks0, ls0) && ino < |tab0| && !marks0[ino] && ls0[ino] == multiset{}
    requires |tab1| == |tab0| && forall j :: 0 <= j < |tab0| && j != ino ==> tab1[j] == tab0[j]
    requires InodesOk(tab1, d1, marks0) && Listings(tab1, d1, marks0) == ls0
    requires Good(g, tab1, d1, own1) && Good(g, tab2, d2, own2)
    requires k < |tab1| && marks0[k] && IsDir(tab1[k]) && NotAdded(g, tab1, d1, own1, tab2, d2, own2, k, need)
    ensures tab2 == tab1 && InodesOk(tab2, d2, marks0) && Listings(tab2, d2, marks0) == ls0
    ensures LinksOk(tab2, marks0, ls0) && FullDisk(g, d2)
    ensures BytesKept(tab1, d1, tab2, d2, {k})
  {
    GoodShape(g, tab2, d2, own2);
    hide Good, InodesOk, LinksOk, BytesKept, NotAdded, Mode, IsFree;
    NotAddedTree(g, tab1, d1, own1, tab2, d2, own2, k, need, marks0);
    FreshUndone(tab0, marks0, ls0, ino, tab1);
  }

  lemma GoodShape(g: Geom, tab: seq<Inode>, d: Disk, own: map<nat, Slot>)
    requires Good(g, tab, d, own)
    ensures Shape(g, tab, d)
  {
  }

  /** An inode taken and given back. */
  lemma FreshUndone(tab: seq<Inode>, marks: seq<bool>, ls: Lists, ino: nat, tab': seq<Inode>)
    requires LinksOk(tab, marks, ls) && ino < |tab| && !marks[ino] && ls[ino] == multiset{}
    requires |tab'| == |tab| && forall j :: 0 <= j < |tab| && j != ino ==> tab'[j] == tab[j]
    ensures LinksOk(tab', marks, ls)
  {
    hide Nlink, Mode, Names, PlainNames, SubDirs, Total, Tally;
    UnusedUnnamed(marks, ls, ino);
    LinksDrop(tab, marks, ls, ino, tab');
    assert marks[ino := false] == marks;
  }

  lemma CreatedLinks(g: Geom, tab0: seq<Inode>, d0: Disk, marks0: seq<bool>, tab1: seq<Inode>, d1: Disk, own1: map<nat, Slot>,
                     tab2: seq<Inode>, d2: Disk, own2: map<nat, Slot>, ls0: Lists, k: nat, e: Dirent, mode: nat)
    requires LinksOk(tab0, marks0, ls0) && k < |tab0| && e.ino < |tab0| && !marks0[e.ino] && marks0[k]
    requires tab1 == tab0[e.ino := NewFile(mode)] && Added(g, tab1, d1, own1, tab2, d2, own2, k, e)
    ensures |tab2| == |tab0| && tab2[e.ino] == NewFile(mode)
    ensures LinksOk(tab2, marks0[e.ino := true], Plus(ls0, k, e))
  {
    hide LinksOk, FileGrows, DirOk, Listing, Mode, Nlink, NewFile;
    AddedInode(g, tab1, d1, own1, tab2, d2, own2, k, e);
    NewFileIs(mode);
    hide IsReg;
    LinksParts(tab0, marks0, ls0);
    LinksCreate(tab0, marks0, ls0, k, e, tab2);
  }

  lemma LinksParts(tab: seq<Inode>, marks: seq<bool>, ls: Lists)
    requires LinksOk(tab, marks, ls)
    ensures |tab| == |marks| == |ls|
  {
  }

  lemma AddedInode(g: Geom, tab: seq<Inode>, d: Disk, own: map<nat, Slot>, tab': seq<Inode>, e: Disk, own': map<nat, Slot>, ino: nat, ent: Dirent)
    requires ino < |tab| && Added(g, tab, d, own, tab', e, own', ino, ent)
    ensures |tab'| == |tab| && SameLinks(tab[ino], tab'[ino])
    ensures forall j :: 0 <= j < |tab| && j != ino ==> tab'[j] == tab[j]
  {
    hide FileGrows, DirOk, Listing, Mode, Nlink;
  }

  // ---- ufs_link ----

  /** Directory records name inodes of the volume. */
  lemma RecordsInRange(tab: seq<Inode>, d: Disk, marks: seq<bool>, i: nat)
    requires TreeOk(tab, d, marks) && i < |tab| && marks[i] && IsDir(tab[i])
    ensures InRangeInos(Listing(Dir(tab, d, i)), |tab|)
    ensures forall e: Dirent :: e in Listing(Dir(tab, d, i)) ==> e.ino < |marks| && marks[e.ino]
  {
    hide Listing, Dir, Mode, Total;
    var ls := Listings(tab, d, marks);
    forall e: Dirent | e in Listing(Dir(tab, d, i)) ensures e.ino < |marks| && marks[e.ino] {
      assert ls[i] == ListingAt(tab, d, marks, i);
      InTotal(ls, i, e);
    }
  }

  lemma SizesSame(tab: seq<Inode>, marks: seq<bool>, ls: Lists, k: nat, e: Dirent, tab1: seq<Inode>, n: nat)
    requires LinksOk(tab, marks, ls) && k < |ls| && e.ino < |tab| && marks[e.ino] && IsReg(tab[e.ino])
    requires |tab1| == |tab| && (forall j :: 0 <= j < |tab| && j != k ==> tab1[j] == tab[j]) && SameLinks(tab[k], tab1[k])
    requires n < 0x1_0000
    ensures var tab2 := tab1[e.ino := SetNlink(tab1[e.ino], n)];
            LinksOk(tab2, marks, Plus(ls, k, e)) <==> n == Nlink(tab[e.ino]) + 1
  {
    SetNlinkFields(tab1[e.ino], n);
    hide Nlink, Mode, LinksOk, Plus, SetNlink;
    LinksParts(tab, marks, ls);
    LinksAdd(tab, marks, ls, k, e, tab1[e.ino := SetNlink(tab1[e.ino], n)]);
  }

  /** The listings gained exactly the record e, and no block was lost. */
  ghost predicate Gained(g: Geom, tab: seq<Inode>, d: Disk, own: map<nat, Slot>, marks: seq<bool>,
                         tab': seq<Inode>, e: Disk, own': map<nat, Slot>, marks': seq<bool>, k: nat, ent: Dirent)
  {
    && |tab| == |tab'| == |marks| == |marks'| && k < |tab| && ent.ino < |tab|
    && Listings(tab', e, marks') == Plus(Listings(tab, d, marks), k, ent)
    && BytesKept(tab, d, tab', e, {k})
    && NothingLost(g, tab, d, own, tab', e, own')
  }

  /** The operation failed: every listing is as before. */
  ghost predicate Unchanged(tab: seq<Inode>, d: Disk, marks: seq<bool>, tab': seq<Inode>, e: Disk, marks': seq<bool>, k: nat)
  {
    && |tab| == |tab'| == |marks| && marks' == marks
    && Listings(tab', e, marks) == Listings(tab, d, marks)
    && BytesKept(tab, d, tab', e, {k})
  }

  method Link(u: Ufs, dir: Vnode, name: Name, target: Vnode) returns (rc: Status)
    requires FsOk(u) && DirVnode(u, dir)
    requires 0 < target.ino < |u.marks| && u.marks[target.ino] && target.ino < |u.tab| && (!target.isDir ==> IsReg(u.tab[target.ino]))
    modifies u, dir
    ensures u.Steady() && rc in {Ok, EPERM, EEXIST, ENOSPC} && u.marks == old(u.marks) && target.ino < |u.tab|
    ensures rc == EPERM <==> target.isDir
    ensures rc == EEXIST <==>
      !target.isDir && |name| <= NAME_MAX && !NoName(Listing(Dir(old(u.tab), old(u.disk), dir.ino)), name)
    ensures rc == Ok ==>
      && target.ino < WORD
      && Gained(u.g, old(u.tab), old(u.disk), old(u.own), u.marks, u.tab, u.disk, u.own, u.marks, dir.ino, Dirent(Cut(name), target.ino))
      && Nlink(u.tab[target.ino]) == (Nlink(old(u.tab)[target.ino]) + 1) % 0x1_0000
    ensures rc != Ok ==> Unchanged(old(u.tab), old(u.disk), u.marks, u.tab, u.disk, u.marks, dir.ino)
    ensures rc == ENOSPC ==> FullDisk(u.g, u.disk)
    ensures FsOk(u) <==> rc != Ok || Nlink(old(u.tab)[target.ino]) < 0xFFFF
    ensures DirGrown(old(u.tab), u.tab, dir.ino) && u.freeBlocks <= old(u.freeBlocks) <= u.freeBlocks + 3
    ensures Mode(u.tab[target.ino]) == Mode(old(u.tab)[target.ino])
    ensures rc == Ok && Unique(Listing(Dir(old(u.tab), old(u.disk), dir.ino))) ==>
      (Unique(Listing(Dir(u.tab, u.disk, dir.ino))) <==> NoName(Listing(Dir(old(u.tab), old(u.disk), dir.ino)), Cut(name)))
  {
    hide Unused, Vol, Good, Val, Geom.Valid, Quiet, IsFree, InodesOk, BytesKept, NothingLost, LinksOk, Table, Marks,
         Added, NotAdded, AnyRoom, Size, Mode, DirOk, Cut, MinRec, Nlink, Plus, FullDisk, Listing, Dir, InRangeInos, NoName, IsReg, IsDir, SetNlink,
         Unique, Gained;
    ghost var tab0, d0, own0 := u.tab, u.disk, u.own;
    VolShape(u.g, u.tab, u.disk, u.own, u.freeBlocks);
    VolGood(u.g, u.tab, u.disk, u.own, u.freeBlocks);
    BytesSame(tab0, d0, {dir.ino});
    if target.isDir {
      return EPERM;
    }
    InodesBelow(u.g);
    DirOfTree(u.tab, u.disk, u.marks, dir.ino);
    RecordsInRange(u.tab, u.disk, u.marks, dir.ino);
    var probe, child;
    rc, probe, child := Lookup(u, dir, name);
    if rc == Ok {
      return EEXIST;
    }
    rc := AddEntry(u, dir, name, target.ino);
    VolGood(u.g, u.tab, u.disk, u.own, u.freeBlocks);
    if rc != Ok {
      NotAddedTree(u.g, tab0, d0, own0, u.tab, u.disk, u.own, dir.ino, MinRec(|Cut(name)|), u.marks);
      FullIs(u.g, u.tab, u.disk, u.own);
      return;
    }
    ghost var tab1 := u.tab;
    AddedInode(u.g, tab0, d0, own0, tab1, u.disk, u.own, dir.ino, Dirent(Cut(name), target.ino));
    FinishLink(u, dir.ino, target.ino, Dirent(Cut(name), target.ino), tab0, d0, own0);
    DirByMode(tab0[dir.ino], u.tab[dir.ino]);
    GainedUnique(u.g, tab0, d0, own0, u.marks, u.tab, u.disk, u.own, u.marks, dir.ino, Dirent(Cut(name), target.ino));
  }

  lemma DirByMode(i: Inode, j: Inode)
    requires Mode(j) == Mode(i)
    ensures IsDir(j) == IsDir(i) && IsReg(j) == IsReg(i)
  {
  }

  /** ufs_link after the record was added. */
  method FinishLink(u: Ufs, ghost k: nat, ino: nat, ghost e: Dirent, ghost tab0: seq<Inode>, ghost d0: Disk, ghost own0: map<nat, Slot>)
    requires u.Steady() && Good(u.g, tab0, d0, own0) && TreeOk(tab0, d0, u.marks) && e.ino == ino
    requires k < |tab0| && u.marks[k] && IsDir(tab0[k]) && Added(u.g, tab0, d0, own0, u.tab, u.disk, u.own, k, e)
    requires ino < |tab0| && u.marks[ino] && IsReg(tab0[ino])
    modifies u`disk, u`buf, u`tab
    ensures u.Steady() && |u.tab| == |tab0| == |u.marks|
    ensures Gained(u.g, tab0, d0, own0, u.marks, u.tab, u.disk, u.own, u.marks, k, e)
    ensures Nlink(u.tab[ino]) == (Nlink(tab0[ino]) + 1) % 0x1_0000
    ensures TreeOk(u.tab, u.disk, u.marks) <==> Nlink(tab0[ino]) < 0xFFFF
    ensures forall j :: 0 <= j < |u.tab| ==> Mode(u.tab[j]) == Mode(old(u.tab)[j]) && Size(u.tab[j]) == Size(old(u.tab)[j])
  {
    hide Vol, Good, Val, Geom.Valid, Quiet, IsFree, InodesOk, BytesKept, NothingLost, LinksOk, Table, Marks,
         Added, Mode, Nlink, Plus, Listing, Dir, IsReg, IsDir, SetNlink, Size;
    ghost var tab1, d1, own1 := u.tab, u.disk, u.own;
    VolShape(u.g, u.tab, u.disk, u.own, u.freeBlocks);
    VolGood(u.g, u.tab, u.disk, u.own, u.freeBlocks);
    TreeParts(tab0, d0, u.marks);
    AddedTree(u.g, tab0, d0, own0, tab1, d1, own1, k, e, u.marks);
    AddedInode(u.g, tab0, d0, own0, tab1, d1, own1, k, e);
    assert Nlink(tab1[ino]) == Nlink(tab0[ino]);
    SetNlinkFields(tab1[ino], (Nlink(tab1[ino]) + 1) % 0x1_0000);
    AddLink(u, ino);
    SizesSame(tab0, u.marks, Listings(tab0, d0, u.marks), k, e, tab1, (Nlink(tab1[ino]) + 1) % 0x1_0000);
    StepsDone(u.g, tab0, d0, own0, tab1, d1, own1, u.tab, u.disk, u.own, {k});
  }

  /** i_nlink++ of the target, and the end of ufs_link. */
  method AddLink(u: Ufs, ino: nat)
    requires u.Steady() && ino < u.g.inodes && InodesOk(u.tab, u.disk, u.marks) && ino < |u.tab|
    modifies u`disk, u`buf, u`tab
    ensures u.Steady() && u.tab == old(u.tab)[ino := SetNlink(old(u.tab)[ino], (Nlink(old(u.tab)[ino]) + 1) % 0x1_0000)]
    ensures Nlink(u.tab[ino]) == (Nlink(old(u.tab)[ino]) + 1) % 0x1_0000
    ensures InodesOk(u.tab, u.disk, u.marks) && Listings(u.tab, u.disk, u.marks) == Listings(old(u.tab), old(u.disk), u.marks)
    ensures BytesKept(old(u.tab), old(u.disk), u.tab, u.disk, {})
    ensures NothingLost(u.g, old(u.tab), old(u.disk), u.own, u.tab, u.disk, u.own)
  {
    hide Vol, Good, Val, Geom.Valid, Quiet, IsFree, InodesOk, BytesKept, NothingLost, Mode, Nlink, SetNlink;
    VolShape(u.g, u.tab, u.disk, u.own, u.freeBlocks);
    var i := u.ReadInode(ino);
    StoreLinks(u, ino, i, (Nlink(i) + 1) % 0x1_0000);
    ghost var d1 := u.disk;
    u.SyncSuper();
    SameTree(u.g, u.tab, d1, u.disk, u.own, u.freeBlocks, u.marks);
    StepsDone(u.g, old(u.tab), old(u.disk), u.own, u.tab, d1, u.own, u.tab, u.disk, u.own, {});
  }

  /** Two steps in a row. */
  lemma StepsDone(g: Geom, tab0: seq<Inode>, d0: Disk, own0: map<nat, Slot>, tab1: seq<Inode>, d1: Disk, own1: map<nat, Slot>,
                  tab2: seq<Inode>, d2: Disk, own2: map<nat, Slot>, s: set<nat>)
    requires BytesKept(tab0, d0, tab1, d1, s) && BytesKept(tab1, d1, tab2, d2, {})
    requires NothingLost(g, tab0, d0, own0, tab1, d1, own1) && NothingLost(g, tab1, d1, own1, tab2, d2, own2)
    ensures BytesKept(tab0, d0, tab2, d2, s) && NothingLost(g, tab0, d0, own0, tab2, d2, own2)
  {
    hide NoLeak, ByteAt;
  }

  lemma FullIs(g: Geom, tab: seq<Inode>, d: Disk, own: map<nat, Slot>)
    requires Good(g, tab, d, own) && forall n :: 0 <= n < g.Blocks() ==> !IsFree(g, d, n)
    ensures FullDisk(g, d)
  {
  }

  // ---- ufs_unlink ----

  /** Freeing a whole file: the inode keeps no pointer, all other inodes are as they were. */
  lemma ReapedTree(g: Geom, tab: seq<Inode>, d: Disk, own: map<nat, Slot>, tab': seq<Inode>, e: Disk, ino: nat, marks: seq<bool>)
    requires Found(g, tab, d, own, ino) && Shrunk(g, tab, d, own, tab', e, ino, 0)
    requires InodesOk(tab, d, marks) && ino < |tab| && IsReg(tab[ino])
    ensures |tab'| == |tab| && InodesOk(tab', e, marks[ino := false])
    ensures Listings(tab', e, marks[ino := false]) == Listings(tab, d, marks)
    ensures BytesKept(tab, d, tab', e, {ino})
    ensures NothingLost(g, tab, d, own, tab', e, Left(own, ino, 0))
  {
    hide Found, DirOk, Dir, Listing, Mode, TopPtr, ByteAt, Left, Val, NoLeak;
    ReapedFields(g, tab, d, own, tab', e, ino);
    ShortNeverStale(tab, d, ino, 0);
    ShrinkGood(g, tab, d, own, tab', e, ino, 0);
    hide Shrunk;
    var marks' := marks[ino := false];
    forall i | 0 <= i < |tab| && i != ino
      ensures InodeOk(tab', e, marks', i) && ListingAt(tab', e, marks', i) == ListingAt(tab, d, marks, i)
    {
      ReapedDir(g, tab, d, own, tab', e, ino, 0, i);
      InodeKept(tab, d, tab', e, marks, marks', i);
    }
    DirNotReg(tab[ino]);
    assert ListingAt(tab', e, marks', ino) == ListingAt(tab, d, marks, ino);
    hide ListingAt;
    assert Listings(tab', e, marks') == Listings(tab, d, marks);
    forall i: nat, pos: nat | i != ino ensures ByteAt(tab', e, i, pos) == ByteAt(tab, d, i, pos) {
      ShrinkBytes(g, tab, d, own, tab', e, ino, 0, i, pos);
    }
  }

  lemma ReapedFields(g: Geom, tab: seq<Inode>, d: Disk, own: map<nat, Slot>, tab': seq<Inode>, e: Disk, ino: nat)
    requires Shrunk(g, tab, d, own, tab', e, ino, 0) && ino < |tab|
    ensures |tab'| == |tab| == g.inodes && NoPtrs(tab'[ino])
    ensures Mode(tab'[ino]) == Mode(tab[ino]) && Nlink(tab'[ino]) == Nlink(tab[ino])
    ensures forall i :: 0 <= i < |tab| && i != ino ==> tab'[i] == tab[i]
  {
  }

  lemma ReapedDir(g: Geom, tab: seq<Inode>, d: Disk, own: map<nat, Slot>, tab': seq<Inode>, e: Disk, ino: nat, keep: nat, j: nat)
    requires Found(g, tab, d, own, ino) && Shrunk(g, tab, d, own, tab', e, ino, keep) && ino < |tab|
    requires j != ino && j < |tab| == |tab'| && tab'[j] == tab[j]
    ensures Dir(tab', e, j) == Dir(tab, d, j)
    ensures DirOk(tab, d, j) ==> DirOk(tab', e, j)
  {
    hide Val, DataSlot, ChunkAt, ChunkOk, Mode, Size, Found, Shrunk;
    forall b: nat
      ensures var s := DataSlot(j, b);
              |d| == |e| && Val(tab', e, s) == Val(tab, d, s) && (Val(tab, d, s) != 0 ==> SameBlock(d, e, Val(tab, d, s)))
    {
      ReapedSlot(g, tab, d, own, tab', e, ino, keep, j, b);
    }
    forall c | 0 <= c < |Dir(tab, d, j)| ensures Dir(tab', e, j)[c] == Dir(tab, d, j)[c] {
      var s := DataSlot(j, c / FRAGS);
      assert |d| == |e| && Val(tab', e, s) == Val(tab, d, s);
      ChunkSame(tab, d, tab', e, j, c);
    }
    assert Dir(tab', e, j) == Dir(tab, d, j);
  }

  lemma ReapedSlot(g: Geom, tab: seq<Inode>, d: Disk, own: map<nat, Slot>, tab': seq<Inode>, e: Disk, ino: nat, keep: nat, j: nat, b: nat)
    requires Found(g, tab, d, own, ino) && Shrunk(g, tab, d, own, tab', e, ino, keep) && ino < |tab| && j != ino
    ensures var s := DataSlot(j, b);
            |d| == |e| && Val(tab', e, s) == Val(tab, d, s) && (Val(tab, d, s) != 0 ==> SameBlock(d, e, Val(tab, d, s)))
  {
    var s := DataSlot(j, b);
    DataSlotPlain(j, b);
    ShrunkVal(g, tab, d, own, tab', e, ino, keep, s);
    var v, r := Val(tab, d, s), TopPtr(tab[ino], 13);
    assert Shape(g, tab', e) && Shape(g, tab, d);
    if v != 0 {
      assert Owned(g, tab, d, own, v);
      if r != 0 {
        assert Val(tab, d, Top(ino, 13)) == r && Owned(g, tab, d, own, r);
        BlocksApart(g, v, r);
      }
    }
  }

  /** Blocks whose pointer belongs to file ino. */
  ghost predicate OwnedBy(own: map<nat, Slot>, v: nat, ino: nat) {
    v in own && own[v].ino == ino
  }

  lemma DoomedAll(own: map<nat, Slot>, ino: nat, v: nat)
    ensures v in Doomed(own, ino, 0) <==> OwnedBy(own, v, ino)
  {
  }

  lemma ReapedMap(g: Geom, tab: seq<Inode>, d: Disk, own: map<nat, Slot>, tab': seq<Inode>, e: Disk, ino: nat)
    requires Shrunk(g, tab, d, own, tab', e, ino, 0)
    ensures forall n :: 0 <= n < g.Blocks() ==> (IsFree(g, e, n) <==> IsFree(g, d, n) || OwnedBy(own, g.Frag(n), ino))
    ensures forall v :: v in Left(own, ino, 0) <==> v in own && !OwnedBy(own, v, ino)
  {
    forall n | 0 <= n < g.Blocks() ensures IsFree(g, e, n) <==> IsFree(g, d, n) || OwnedBy(own, g.Frag(n), ino) {
      DoomedAll(own, ino, g.Frag(n));
      assert MapByte(g, e, n) == if g.Frag(n) in Doomed(own, ino, 0) then 0xFF else MapByte(g, d, n);
    }
    forall v ensures v in Left(own, ino, 0) <==> v in own && !OwnedBy(own, v, ino) {
      DoomedAll(own, ino, v);
    }
  }

  /** Changing the link count in memory shows nowhere else. */
  lemma NlinkTree(g: Geom, tab: seq<Inode>, d: Disk, own: map<nat, Slot>, free: nat, ino: nat, n: U16, marks: seq<bool>)
    requires Vol(g, tab, d, own, free) && ino < g.inodes && InodesOk(tab, d, marks)
    ensures ino < |tab|
    ensures var tab' := tab[ino := SetNlink(tab[ino], n)];
            && Vol(g, tab', d, own, free)
            && InodesOk(tab', d, marks) && Listings(tab', d, marks) == Listings(tab, d, marks)
            && BytesKept(tab, d, tab', d, {}) && NothingLost(g, tab, d, own, tab', d, own)
            && Mode(tab'[ino]) == Mode(tab[ino]) && Nlink(tab'[ino]) == n
  {
    hide Vol, Val, InodesOk, BytesKept, NothingLost, Mode, Nlink, Size, SetNlink, TopPtr, Quiet, Geom.Valid, IsFree;
    VolShape(g, tab, d, own, free);
    SetNlinkFields(tab[ino], n);
    FieldsStep(g, tab, d, own, free, ino, SetNlink(tab[ino], n));
    QuietRefl(g, d);
    QuietTree(g, tab, d, tab[ino := SetNlink(tab[ino], n)], d, own, free, marks);
    VolGood(g, tab, d, own, free);
    VolGood(g, tab[ino := SetNlink(tab[ino], n)], d, own, free);
    QuietNothingLost(g, tab, d, own, tab[ino := SetNlink(tab[ino], n)], d);
  }

  /** Exactly the blocks of file ino came back to the free map. */
  ghost predicate Reclaimed(g: Geom, d: Disk, own: map<nat, Slot>, e: Disk, own': map<nat, Slot>, ino: nat) {
    && g.Valid() && |d| == g.sectors == |e|
    && (forall n :: 0 <= n < g.Blocks() ==> (IsFree(g, e, n) <==> IsFree(g, d, n) || OwnedBy(own, g.Frag(n), ino)))
    && (forall v :: v in own' <==> v in own && !OwnedBy(own, v, ino))
  }

  lemma ReclaimedQuiet(g: Geom, d: Disk, own: map<nat, Slot>, m: Disk, own': map<nat, Slot>, e: Disk, ino: nat)
    requires Reclaimed(g, d, own, m, own', ino) && Quiet(g, m, e)
    ensures Reclaimed(g, d, own, e, own', ino)
  {
    forall n | 0 <= n < g.Blocks() ensures IsFree(g, e, n) <==> IsFree(g, m, n) {
    }
  }

  lemma ReapedAll(g: Geom, tab: seq<Inode>, d: Disk, own: map<nat, Slot>, tab': seq<Inode>, e: Disk, ino: nat)
    requires Shrunk(g, tab, d, own, tab', e, ino, 0)
    ensures Reclaimed(g, d, own, e, Left(own, ino, 0), ino)
  {
    ReapedMap(g, tab, d, own, tab', e, ino);
  }

  lemma MarkedFromRoot(g: Geom, d: Disk, ino: nat)
    requires g.Valid() && |d| == g.sectors && ino < g.inodes && Marks(g, d)[ino]
    ensures ROOT_INO <= ino
  {
  }

  /** The last name is gone: the file's blocks and its inode are freed. */
  method Reap(u: Ufs, ino: nat, i: Inode)
    requires u.Steady() && ino < u.g.inodes && ino < |u.tab| && InodesOk(u.tab, u.disk, u.marks)
    requires IsReg(u.tab[ino]) && i == SetNlink(u.tab[ino], 0)
    requires u.marks[ino] && u.freeInodes == Unused(u.marks)
    modifies u`disk, u`buf, u`scratch, u`freeBlocks, u`tab, u`own, u`marks, u`freeInodes
    ensures u.Steady() && u.marks == old(u.marks)[ino := false]
    ensures |u.tab| == |old(u.tab)| && (forall j :: 0 <= j < |u.tab| && j != ino ==> u.tab[j] == old(u.tab)[j])
    ensures Mode(u.tab[ino]) == Mode(old(u.tab)[ino]) && Nlink(u.tab[ino]) == 0
    ensures InodesOk(u.tab, u.disk, u.marks) && Listings(u.tab, u.disk, u.marks) == Listings(old(u.tab), old(u.disk), old(u.marks))
    ensures BytesKept(old(u.tab), old(u.disk), u.tab, u.disk, {ino})
    ensures NothingLost(u.g, old(u.tab), old(u.disk), old(u.own), u.tab, u.disk, u.own)
    ensures Reclaimed(u.g, old(u.disk), old(u.own), u.disk, u.own, ino)
    ensures u.freeInodes == Unused(u.marks)
  {
    hide Unused, Vol, Good, Val, Geom.Valid, Quiet, IsFree, InodesOk, BytesKept, NothingLost, Mode, Nlink, SetNlink, Shrunk, Found, NoStale, Left, Table, Marks, Reclaimed, Size;
    ghost var tab0, d0, own0, marks0 := u.tab, u.disk, u.own, u.marks;
    VolShape(u.g, u.tab, u.disk, u.own, u.freeBlocks);
    NlinkTree(u.g, u.tab, u.disk, u.own, u.freeBlocks, ino, 0, u.marks);
    ghost var tab1 := tab0[ino := i];
    u.tab := tab1;
    ShrinkTo(u, ino, i, 0, 0);
    ghost var d1 := u.disk;
    ShortNeverStale(tab1, d0, ino, 0);
    ReapedTree(u.g, tab1, d0, own0, u.tab, u.disk, ino, marks0);
    ReapedFields(u.g, tab1, d0, own0, u.tab, u.disk, ino);
    ReapedAll(u.g, tab1, d0, own0, u.tab, u.disk, ino);
    BytesKeptLess(tab0, d0, tab1, d0, {}, {ino});
    BytesKeptTrans(tab0, d0, tab1, d0, u.tab, u.disk, {ino});
    NothingLostTrans(u.g, tab0, d0, own0, tab1, d0, own0, u.tab, u.disk, u.own);
    UnusedPut(marks0, ino, false);
    MarkedFromRoot(u.g, u.disk, ino);
    InodesBelow(u.g);
    var rc := u.FreeInode(ino);
    SameTree(u.g, u.tab, d1, u.disk, u.own, u.freeBlocks, u.marks);
    StepsDone(u.g, tab0, d0, own0, u.tab, d1, u.own, u.tab, u.disk, u.own, {ino});
    ReclaimedQuiet(u.g, d0, own0, d1, u.own, u.disk, ino);
  }

  /** Names and link counts in the middle of ufs_unlink: record e of directory k is gone, nothing else is done yet. */
  ghost predicate Unnamed(tab: seq<Inode>, d: Disk, marks: seq<bool>, k: nat, e: Dirent) {
    && InodesOk(tab, d, marks) && k < |tab| && e.ino < |tab| && marks[k] && IsDir(tab[k])
    && LinksOk(tab, marks, Plus(Listings(tab, d, marks), k, e))
  }

  /** What ufs_unlink does to a regular file whose record e is gone. */
  ghost predicate FileUnlinked(g: Geom, tab: seq<Inode>, d: Disk, own: map<nat, Slot>, marks: seq<bool>,
                               tab': seq<Inode>, e: Disk, own': map<nat, Slot>, marks': seq<bool>, ino: nat)
    requires ino < |tab| == |marks| && ino < |tab'|
  {
    if Nlink(tab[ino]) == 1 then marks' == marks[ino := false] && Reclaimed(g, d, own, e, own', ino)
    else marks' == marks && own' == own && Nlink(tab'[ino]) == Nlink(tab[ino]) - 1
  }

  /** One link of a file goes, and the file with its last one. */
  method DropLink(u: Ufs, child: nat, ghost k: nat, ghost e: Dirent)
    requires u.Steady() && Unnamed(u.tab, u.disk, u.marks, k, e) && child == e.ino && IsReg(u.tab[child])
    requires u.freeInodes == Unused(u.marks)
    modifies u`disk, u`buf, u`scratch, u`freeBlocks, u`tab, u`own, u`marks, u`freeInodes
    ensures FsOk(u)
    ensures |u.tab| == |old(u.tab)| == |u.marks| == |old(u.marks)|
    ensures Listings(u.tab, u.disk, u.marks) == Listings(old(u.tab), old(u.disk), old(u.marks))
    ensures BytesKept(old(u.tab), old(u.disk), u.tab, u.disk, {child})
    ensures NothingLost(u.g, old(u.tab), old(u.disk), old(u.own), u.tab, u.disk, u.own)
    ensures FileUnlinked(u.g, old(u.tab), old(u.disk), old(u.own), old(u.marks), u.tab, u.disk, u.own, u.marks, child)
  {
    hide Unused, Vol, Good, Val, Geom.Valid, Quiet, IsFree, InodesOk, BytesKept, NothingLost, Mode, Nlink, SetNlink, LinksOk, Plus, Reclaimed, IsReg, IsDir;
    ghost var tab0, d0, marks0, ls := u.tab, u.disk, u.marks, Listings(u.tab, u.disk, u.marks);
    VolShape(u.g, u.tab, u.disk, u.own, u.freeBlocks);
    RegListsNothing(tab0, d0, marks0, child);
    LastName(tab0, marks0, ls, k, e);
    var i := u.ReadInode(child);
    i := if 0 < Nlink(i) then SetNlink(i, Nlink(i) - 1) else i;
    SetNlinkFields(tab0[child], Nlink(tab0[child]) - 1);
    SetNlinkTwice(tab0[child], Nlink(i), Nlink(i));
    if Nlink(i) == 0 {
      Reap(u, child, i);
    } else {
      StoreLinks(u, child, i, Nlink(i));
      BytesKeptLess(tab0, d0, u.tab, u.disk, {}, {child});
    }
    LinksRemoved(tab0, marks0, ls, k, e, u.tab, u.marks);
  }

  /** The child's part of ufs_unlink, for a regular file. */
  method UnlinkFile(u: Ufs, child: nat, ghost k: nat, ghost e: Dirent)
    requires u.Steady() && Unnamed(u.tab, u.disk, u.marks, k, e) && child == e.ino && IsReg(u.tab[child])
    requires u.freeInodes == Unused(u.marks)
    modifies u`disk, u`buf, u`scratch, u`freeBlocks, u`tab, u`own, u`marks, u`freeInodes
    ensures FsOk(u)
    ensures |u.tab| == |old(u.tab)| == |u.marks| == |old(u.marks)|
    ensures Listings(u.tab, u.disk, u.marks) == Listings(old(u.tab), old(u.disk), old(u.marks))
    ensures BytesKept(old(u.tab), old(u.disk), u.tab, u.disk, {child})
    ensures NothingLost(u.g, old(u.tab), old(u.disk), old(u.own), u.tab, u.disk, u.own)
    ensures FileUnlinked(u.g, old(u.tab), old(u.disk), old(u.own), old(u.marks), u.tab, u.disk, u.own, u.marks, child)
  {
    hide Unused, Listings, Vol, Good, Val, Geom.Valid, Quiet, IsFree, InodesOk, BytesKept, NothingLost, Mode, Nlink, SetNlink, LinksOk, Plus, Reclaimed, IsReg, IsDir;
    ghost var tab0, d0, own0, marks0 := u.tab, u.disk, u.own, u.marks;
    DropLink(u, child, k, e);
    ghost var d1 := u.disk;
    VolShape(u.g, u.tab, u.disk, u.own, u.freeBlocks);
    u.SyncSuper();
    SameTree(u.g, u.tab, d1, u.disk, u.own, u.freeBlocks, u.marks);
    StepsDone(u.g, tab0, d0, own0, u.tab, d1, u.own, u.tab, u.disk, u.own, {child});
    if Nlink(tab0[child]) == 1 {
      ReclaimedQuiet(u.g, d0, own0, d1, u.own, u.disk, child);
    }
  }

  lemma RegListsNothing(tab: seq<Inode>, d: Disk, marks: seq<bool>, i: nat)
    requires |tab| == |marks| && i < |tab| && IsReg(tab[i])
    ensures Listings(tab, d, marks)[i] == multiset{}
  {
    DirNotReg(tab[i]);
  }

  lemma SetNlinkTwice(i: Inode, n: U16, m: U16)
    ensures SetNlink(SetNlink(i, n), m) == SetNlink(i, m)
  {
    assert SetNlink(SetNlink(i, n), m) == SetNlink(i, m);
  }

  /** A file that was just unnamed has a link to lose. */
  lemma LastName(tab: seq<Inode>, marks: seq<bool>, ls: Lists, k: nat, e: Dirent)
    requires k < |ls| && LinksOk(tab, marks, Plus(ls, k, e)) && e.ino < |tab| && IsReg(tab[e.ino])
    ensures 0 < Nlink(tab[e.ino]) && e.ino < |marks| && marks[e.ino]
  {
    hide Mode, Nlink, Tally, Total;
    PlusCounts(ls, k, e, e.ino);
    assert e in Total(Plus(ls, k, e));
    assert LinkOk(tab, Plus(ls, k, e), e.ino);
  }

  lemma LinksRemoved(tab: seq<Inode>, marks: seq<bool>, ls: Lists, k: nat, e: Dirent, tab': seq<Inode>, marks': seq<bool>)
    requires k < |ls| && LinksOk(tab, marks, Plus(ls, k, e)) && |tab'| == |tab|
    requires e.ino < |tab| && IsReg(tab[e.ino]) && ls[e.ino] == multiset{}
    requires forall i :: 0 <= i < |tab| && i != e.ino ==> tab'[i] == tab[i]
    requires Mode(tab'[e.ino]) == Mode(tab[e.ino]) && Nlink(tab'[e.ino]) == Nlink(tab[e.ino]) - 1
    requires e.ino < |marks| && marks' == if Nlink(tab'[e.ino]) == 0 then marks[e.ino := false] else marks
    ensures LinksOk(tab', marks', ls)
  {
    hide Mode, Nlink, LinksOk, Plus;
    LinksRemove(tab, marks, ls, k, e, tab');
  }

  /** The part of ufs_unlink for an empty directory: parent and child lose a link; it never comes to zero. */
  method UnlinkDir(u: Ufs, k: nat, child: nat, ghost e: Dirent)
    requires u.Steady() && Unnamed(u.tab, u.disk, u.marks, k, e) && child == e.ino && IsDir(u.tab[child]) && !IsDots(e.name)
    requires u.freeInodes == Unused(u.marks)
    modifies u`disk, u`buf, u`tab
    ensures FsOk(u)
    ensures |u.tab| == |old(u.tab)| == |u.marks|
    ensures Listings(u.tab, u.disk, u.marks) == Listings(old(u.tab), old(u.disk), u.marks)
    ensures BytesKept(old(u.tab), old(u.disk), u.tab, u.disk, {})
    ensures NothingLost(u.g, old(u.tab), old(u.disk), u.own, u.tab, u.disk, u.own)
    ensures k < |old(u.tab)| && child < |old(u.tab)|
    ensures Nlink(u.tab[k]) == Nlink(old(u.tab)[k]) - 1 && 0 < Nlink(u.tab[child]) == Nlink(old(u.tab)[child]) - 1
  {
    hide Unused, Vol, Good, Val, Geom.Valid, Quiet, IsFree, InodesOk, BytesKept, NothingLost, Mode, Nlink, SetNlink, LinksOk, Plus, IsReg, IsDir, IsDots;
    ghost var tab0, d0, own0, ls := u.tab, u.disk, u.own, Listings(u.tab, u.disk, u.marks);
    VolShape(u.g, u.tab, u.disk, u.own, u.freeBlocks);
    DirLinksHigh(tab0, u.marks, ls, k, e);
    var i := u.ReadInode(child);
    var parent := u.ReadInode(k);
    if 0 < Nlink(parent) {
      StoreLinks(u, k, parent, Nlink(parent) - 1);
    }
    ghost var tab1, d1 := u.tab, u.disk;
    VolShape(u.g, u.tab, u.disk, u.own, u.freeBlocks);
    SetNlinkTwice(i, Nlink(i) - 1, Nlink(i) - 1);
    SetNlinkFields(i, Nlink(i) - 1);
    StoreLinks(u, child, i, Nlink(i) - 1);
    ghost var d2 := u.disk;
    LinksRemoveDir(tab0, u.marks, ls, k, e, u.tab);
    u.SyncSuper();
    SameTree(u.g, u.tab, d2, u.disk, u.own, u.freeBlocks, u.marks);
    StepsDone(u.g, tab0, d0, own0, tab1, d1, own0, u.tab, d2, own0, {});
    StepsDone(u.g, tab0, d0, own0, u.tab, d2, own0, u.tab, u.disk, own0, {});
  }

  /** After ufs_dir_remove_entry: the record is out of the listing, the inode it names is in use. */
  lemma UnnamedIs(g: Geom, tab: seq<Inode>, d: Disk, own: map<nat, Slot>, e: Disk, marks: seq<bool>, k: nat, ent: Dirent)
    requires Good(g, tab, d, own) && Good(g, tab, e, own) && TreeOk(tab, d, marks)
    requires k < |tab| && marks[k] && IsDir(tab[k]) && Removed(g, tab, d, own, e, k, ent)
    ensures Unnamed(tab, e, marks, k, ent) && marks[ent.ino]
    ensures Listings(tab, d, marks) == Plus(Listings(tab, e, marks), k, ent)
    ensures BytesKept(tab, d, tab, e, {k}) && NothingLost(g, tab, d, own, tab, e, own)
    ensures IsReg(tab[ent.ino]) || IsDir(tab[ent.ino])
  {
    hide Good, InodesOk, BytesKept, NothingLost, Mode, Removed, IsReg, IsDir, Tally;
    RemovedTree(g, tab, d, own, e, k, ent, marks);
    var ls := Listings(tab, e, marks);
    PlusCounts(ls, k, ent, 0);
    assert ent in Total(Plus(ls, k, ent));
  }

  /** Putting a record back where it was taken out: the listings are the old ones, and no block is needed. */
  lemma PutBackTree(g: Geom, tab: seq<Inode>, d: Disk, own: map<nat, Slot>, m: Disk, tab': seq<Inode>, e: Disk, own': map<nat, Slot>,
                    marks: seq<bool>, k: nat, ent: Dirent)
    requires Good(g, tab, m, own) && Good(g, tab', e, own') && TreeOk(tab, d, marks) && tab' == tab
    requires Unnamed(tab, m, marks, k, ent) && Listings(tab, d, marks) == Plus(Listings(tab, m, marks), k, ent)
    requires BytesKept(tab, d, tab, m, {k}) && NothingLost(g, tab, d, own, tab, m, own)
    requires Added(g, tab, m, own, tab', e, own', k, ent)
    ensures TreeOk(tab', e, marks) && Listings(tab', e, marks) == Listings(tab, d, marks)
    ensures BytesKept(tab, d, tab', e, {k}) && NothingLost(g, tab, d, own, tab', e, own')
  {
    hide Good, InodesOk, BytesKept, NothingLost, Mode, Added, IsReg, IsDir, LinksOk, Plus;
    AddedTree(g, tab, m, own, tab', e, own', k, ent, marks);
    BytesKeptTrans(tab, d, tab, m, tab', e, {k});
    NothingLostTrans(g, tab, d, own, tab, m, own, tab', e, own');
  }

  lemma RemovedListed(g: Geom, tab: seq<Inode>, d: Disk, own: map<nat, Slot>, e: Disk, k: nat, ent: Dirent)
    requires k < |tab| && Removed(g, tab, d, own, e, k, ent)
    ensures ent in Listing(Dir(tab, d, k))
  {
    hide FileGrows, DirOk, Listing, AnyRoom, Dir, MinRec, Val;
  }

  lemma RemovedRoom(g: Geom, tab: seq<Inode>, d: Disk, own: map<nat, Slot>, e: Disk, k: nat, ent: Dirent)
    requires k < |tab| && Removed(g, tab, d, own, e, k, ent)
    ensures AnyRoom(Dir(tab, e, k), MinRec(|ent.name|)) && DirOk(tab, e, k)
  {
    hide FileGrows, DirOk, Listing, AnyRoom, Dir, MinRec, Val;
  }

  /** Removing a record takes or returns no block. */
  lemma FileUnlinkedFrom(g: Geom, tab: seq<Inode>, d: Disk, own: map<nat, Slot>, m: Disk, k: nat, ent: Dirent, marks: seq<bool>,
                         tab': seq<Inode>, e: Disk, own': map<nat, Slot>, marks': seq<bool>, ino: nat)
    requires Good(g, tab, d, own) && k < |tab| && Removed(g, tab, d, own, m, k, ent)
    requires ino < |tab| == |marks| && ino < |tab'| && FileUnlinked(g, tab, m, own, marks, tab', e, own', marks', ino)
    ensures FileUnlinked(g, tab, d, own, marks, tab', e, own', marks', ino)
  {
    hide Val, DirOk, Listing, AnyRoom, Nlink;
    forall n | 0 <= n < g.Blocks() ensures IsFree(g, m, n) == IsFree(g, d, n) {
      if g.Frag(n) in own {
        assert Owned(g, tab, d, own, g.Frag(n));
      }
    }
  }

  /** A name that was removed for good: the listings lost exactly the record gone; a regular file lost a link,
      and with the last one its blocks and its inode; a directory listed nothing but dots and keeps both. */
  ghost predicate Unlinked(g: Geom, tab: seq<Inode>, d: Disk, own: map<nat, Slot>, marks: seq<bool>,
                           tab': seq<Inode>, e: Disk, own': map<nat, Slot>, marks': seq<bool>, k: nat, gone: Dirent)
  {
    && |tab| == |tab'| == |marks| == |marks'| && k < |tab| && gone.ino < |tab| && marks[gone.ino]
    && Listings(tab, d, marks) == Plus(Listings(tab', e, marks'), k, gone)
    && BytesKept(tab, d, tab', e, {k, gone.ino})
    && NothingLost(g, tab, d, own, tab', e, own')
    && if IsDir(tab[gone.ino]) then OnlyDots(Listings(tab', e, marks')[gone.ino]) && own' == own && marks' == marks
       else FileUnlinked(g, tab, d, own, marks, tab', e, own', marks', gone.ino)
  }

  /** What the directory named by record e of directory k lists, e itself aside. */
  function Others(ls: Lists, k: nat, e: Dirent): multiset<Dirent>
    requires k < |ls| && e.ino < |ls|
  {
    if e.ino == k then ls[k] - multiset{e} else ls[e.ino]
  }

  lemma OthersAre(ls: Lists, k: nat, e: Dirent)
    requires k < |ls| && e.ino < |ls|
    ensures Others(Plus(ls, k, e), k, e) == ls[e.ino]
  {
  }

  /** A name that stayed, or was put back: same listings, same inodes, same blocks. */
  ghost predicate Restored(g: Geom, tab: seq<Inode>, d: Disk, own: map<nat, Slot>, marks: seq<bool>,
                           tab': seq<Inode>, e: Disk, own': map<nat, Slot>, marks': seq<bool>, k: nat)
  {
    && |tab| == |marks| && tab' == tab && own' == own && marks' == marks
    && Listings(tab', e, marks) == Listings(tab, d, marks)
    && BytesKept(tab, d, tab', e, {k})
    && NothingLost(g, tab, d, own, tab', e, own')
  }

  method Unlink(u: Ufs, dir: Vnode, name: Name) returns (rc: Status, ghost gone: Dirent)
    requires FsOk(u) && DirVnode(u, dir) && !IsDots(Cut(name))
    modifies u, dir
    ensures FsOk(u)
    ensures rc in {Ok, ENOENT, ENOTEMPTY}
    ensures rc == ENOENT <==> NoName(Listing(Dir(old(u.tab), old(u.disk), dir.ino)), Cut(name))
    ensures rc == ENOENT ==> u.disk == old(u.disk)
    ensures rc != ENOENT ==> gone.name == Cut(name) && gone in Listing(Dir(old(u.tab), old(u.disk), dir.ino))
    ensures rc == Ok ==>
      Unlinked(u.g, old(u.tab), old(u.disk), old(u.own), old(u.marks), u.tab, u.disk, u.own, u.marks, dir.ino, gone)
    ensures rc != Ok ==>
      && Restored(u.g, old(u.tab), old(u.disk), old(u.own), old(u.marks), u.tab, u.disk, u.own, u.marks, dir.ino)
      && u.freeBlocks == old(u.freeBlocks)
    ensures rc != ENOENT ==> dir.ino < |old(u.tab)| == |old(u.marks)| && gone.ino < |old(u.tab)|
    ensures rc == ENOTEMPTY <==>
      rc != ENOENT && IsDir(old(u.tab)[gone.ino]) && !OnlyDots(Others(Listings(old(u.tab), old(u.disk), old(u.marks)), dir.ino, gone))
  {
    hide Vol, Good, Val, Geom.Valid, Quiet, IsFree, InodesOk, BytesKept, NothingLost, LinksOk, Table, Marks, OnlyDots, Unnamed, FileUnlinked, Reclaimed, Others, Unused,
         Added, NotAdded, Removed, AnyRoom, Size, Mode, DirOk, Cut, MinRec, Nlink, Plus, Listing, Dir, NoName, IsReg, IsDir, IsDots, TreeOk;
    ghost var tab0, d0, own0, marks0 := u.tab, u.disk, u.own, u.marks;
    TreeParts(tab0, d0, marks0);
    VolGood(u.g, u.tab, u.disk, u.own, u.freeBlocks);
    VolShape(u.g, u.tab, u.disk, u.own, u.freeBlocks);
    DirOfTree(tab0, d0, marks0, dir.ino);
    var child;
    rc, child := RemoveEntry(u, dir, name);
    gone := Dirent(Cut(name), child);
    VolGood(u.g, u.tab, u.disk, u.own, u.freeBlocks);
    VolShape(u.g, u.tab, u.disk, u.own, u.freeBlocks);
    if rc == ENOENT {
      BytesSame(tab0, d0, {dir.ino});
      LostSame(u.g, tab0, d0, own0);
      return;
    }
    ghost var d1 := u.disk;
    RemovedListed(u.g, tab0, d0, own0, d1, dir.ino, gone);
    UnnamedIs(u.g, tab0, d0, own0, d1, marks0, dir.ino, gone);
    UnnamedParts(tab0, d1, marks0, dir.ino, gone);
    var i := u.ReadInode(child);
    BytesKeptLess(tab0, d0, tab0, d1, {dir.ino}, {dir.ino, gone.ino});
    OthersAre(Listings(tab0, d1, marks0), dir.ino, gone);
    if IsDir(i) {
      DotsOf(tab0, d1, marks0, child);
      DirOfTree(tab0, d1, marks0, child);
      var empty := DirIsEmpty(u, child);
      if !empty {
        ghost var own1, free1 := u.own, u.freeBlocks;
        RemovedRoom(u.g, tab0, d0, own0, d1, dir.ino, gone);
        CutTwice(name);
        var rc' := AddEntry(u, dir, name, child);
        VolGood(u.g, u.tab, u.disk, u.own, u.freeBlocks);
        PutBackTree(u.g, tab0, d0, own0, d1, u.tab, u.disk, u.own, marks0, dir.ino, gone);
        return ENOTEMPTY, gone;
      }
      DotsOf(tab0, d1, marks0, child);
      UnlinkDir(u, dir.ino, child, gone);
      DirNotReg(i);
      BytesKeptLess(tab0, d1, u.tab, u.disk, {}, {dir.ino, gone.ino});
    } else {
      UnlinkFile(u, child, dir.ino, gone);
      FileUnlinkedFrom(u.g, tab0, d0, own0, d1, dir.ino, gone, marks0, u.tab, u.disk, u.own, u.marks, child);
      BytesKeptLess(tab0, d1, u.tab, u.disk, {child as nat}, {dir.ino, gone.ino});
    }
    BytesKeptTrans(tab0, d0, tab0, d1, u.tab, u.disk, {dir.ino, gone.ino});
    NothingLostTrans(u.g, tab0, d0, own0, tab0, d1, own0, u.tab, u.disk, u.own);
    rc := Ok;
  }

  lemma TreeParts(tab: seq<Inode>, d: Disk, marks: seq<bool>)
    requires TreeOk(tab, d, marks)
    ensures InodesOk(tab, d, marks) && |tab| == |marks| && LinksOk(tab, marks, Listings(tab, d, marks))
  {
  }

  lemma UnnamedParts(tab: seq<Inode>, d: Disk, marks: seq<bool>, k: nat, e: Dirent)
    requires Unnamed(tab, d, marks, k, e)
    ensures InodesOk(tab, d, marks) && k < |tab| == |marks| && e.ino < |tab|
  {
  }

  lemma LostSame(g: Geom, tab: seq<Inode>, d: Disk, own: map<nat, Slot>)
    ensures NothingLost(g, tab, d, own, tab, d, own)
  {
  }

  lemma CutTwice(name: Name)
    ensures Cut(Cut(name)) == Cut(name)
  {
  }

  lemma DotsOf(tab: seq<Inode>, d: Disk, marks: seq<bool>, i: nat)
    requires i < |tab| == |marks| && marks[i] && IsDir(tab[i])
    ensures Listings(tab, d, marks)[i] == Listing(Dir(tab, d, i))
  {
  }

  // ---- ufs_write and ufs_truncate keep the same invariant ----

  lemma LinksSame(tab: seq<Inode>, marks: seq<bool>, ls: Lists, tab': seq<Inode>)
    requires LinksOk(tab, marks, ls) && |tab'| == |tab| && forall i :: 0 <= i < |tab| ==> SameLinks(tab[i], tab'[i])
    ensures LinksOk(tab', marks, ls)
  {
    hide Nlink, Mode, Tally, Total;
    forall i | 0 <= i < |tab| && marks[i] ensures LinkOk(tab', ls, i) {
      assert LinkOk(tab, ls, i);
      SubDirsSame(tab, tab', marks, ls, i);
    }
  }

  /** What happens inside a regular file in use does not concern the directories. */
  lemma FileTree(tab: seq<Inode>, d: Disk, tab': seq<Inode>, e: Disk, marks: seq<bool>, ino: nat)
    requires TreeOk(tab, d, marks) && ino < |tab| == |tab'| && marks[ino] && IsReg(tab[ino]) && SameLinks(tab[ino], tab'[ino])
    requires forall j :: 0 <= j < |tab| && j != ino ==> tab'[j] == tab[j]
    requires forall j :: 0 <= j < |tab| && j != ino ==> Dir(tab', e, j) == Dir(tab, d, j) && (DirOk(tab, d, j) ==> DirOk(tab', e, j))
    ensures TreeOk(tab', e, marks) && Listings(tab', e, marks) == Listings(tab, d, marks)
  {
    hide Dir, DirOk, Mode, Nlink, Listing, NoPtrs, LinksOk;
    TreeParts(tab, d, marks);
    DirNotReg(tab[ino]);
    forall i | 0 <= i < |tab|
      ensures InodeOk(tab', e, marks, i) && ListingAt(tab', e, marks, i) == ListingAt(tab, d, marks, i)
    {
      if i != ino {
        InodeKept(tab, d, tab', e, marks, marks, i);
      }
    }
    hide ListingAt, InodeOk;
    assert Listings(tab', e, marks) == Listings(tab, d, marks);
    LinksSame(tab, marks, Listings(tab, d, marks), tab');
  }

  /** A write, complete or cut short by lack of space. */
  lemma WriteTree(g: Geom, tab: seq<Inode>, d: Disk, own: map<nat, Slot>, tab': seq<Inode>, e: Disk, own': map<nat, Slot>,
                  ino: nat, off: U32, src: seq<Byte>, done: nat, marks: seq<bool>)
    requires Good(g, tab, d, own) && Good(g, tab', e, own') && TreeOk(tab, d, marks)
    requires ino < |tab| && marks[ino] && IsReg(tab[ino]) && done <= |src| < WORD
    requires WriteDone(g, tab, d, own, tab', e, own', ino, off, src)
      || (tab' == tab && WriteShort(g, tab, d, own, e, own', ino, off, src, done))
    ensures TreeOk(tab', e, marks) && Listings(tab', e, marks) == Listings(tab, d, marks)
    ensures BytesKept(tab, d, tab', e, {ino})
    ensures WriteDone(g, tab, d, own, tab', e, own', ino, off, src) ==> NothingLost(g, tab, d, own, tab', e, own')
  {
    hide Good, FileGrows, Dir, DirOk, Mode, Nlink, Wrote, ByteAt, Partial, TreeOk, NothingLost, IsReg;
    var lost: iset<nat> := if WriteDone(g, tab, d, own, tab', e, own', ino, off, src) then iset{} else iset v: nat | v !in own';
    assert FileGrows(g, d, own, e, own', ino, lost);
    hide WriteDone, WriteShort;
    WriteInodes(g, tab, d, own, tab', e, own', ino, off, src, done);
    forall j | 0 <= j < |tab| && j != ino
      ensures Dir(tab', e, j) == Dir(tab, d, j) && (DirOk(tab, d, j) ==> DirOk(tab', e, j))
    {
      OtherDir(g, tab, d, own, tab', e, own', ino, lost, j);
    }
    FileTree(tab, d, tab', e, marks, ino);
    OtherBytes(g, tab, d, own, tab', e, own', ino, lost);
    if WriteDone(g, tab, d, own, tab', e, own', ino, off, src) {
      GrowsNothingLost(g, tab, d, own, tab', e, own', ino);
    }
  }

  lemma WriteInodes(g: Geom, tab: seq<Inode>, d: Disk, own: map<nat, Slot>, tab': seq<Inode>, e: Disk, own': map<nat, Slot>,
                    ino: nat, off: U32, src: seq<Byte>, done: nat)
    requires ino < |tab| && done <= |src| < WORD
    requires WriteDone(g, tab, d, own, tab', e, own', ino, off, src) || tab' == tab
    ensures |tab'| == |tab| && SameLinks(tab[ino], tab'[ino])
    ensures forall j :: 0 <= j < |tab| && j != ino ==> tab'[j] == tab[j]
  {
    hide FileGrows, Wrote, ByteAt, OthersSame, Mode, Nlink, Size;
  }

  /** A shrink that leaves no stale pointer (a truncation to zero never does). */
  lemma ShrinkTree(g: Geom, tab: seq<Inode>, d: Disk, own: map<nat, Slot>, tab': seq<Inode>, e: Disk, ino: nat, keep: nat, marks: seq<bool>)
    requires Found(g, tab, d, own, ino) && Shrunk(g, tab, d, own, tab', e, ino, keep) && NoStale(tab, d, ino, keep)
    requires TreeOk(tab, d, marks) && ino < |tab| && marks[ino] && IsReg(tab[ino])
    ensures TreeOk(tab', e, marks) && Listings(tab', e, marks) == Listings(tab, d, marks)
    ensures BytesKept(tab, d, tab', e, {ino}) && NothingLost(g, tab, d, own, tab', e, Left(own, ino, keep))
  {
    hide Found, DirOk, Dir, Mode, Nlink, ByteAt, Left, NoLeak, TreeOk, NoStale, TopPtr;
    ShrinkGood(g, tab, d, own, tab', e, ino, keep);
    ShrunkInodes(g, tab, d, own, tab', e, ino, keep);
    hide Shrunk;
    forall j | 0 <= j < |tab| && j != ino
      ensures Dir(tab', e, j) == Dir(tab, d, j) && (DirOk(tab, d, j) ==> DirOk(tab', e, j))
    {
      ReapedDir(g, tab, d, own, tab', e, ino, keep, j);
    }
    FileTree(tab, d, tab', e, marks, ino);
    forall i: nat, pos: nat | i != ino ensures ByteAt(tab', e, i, pos) == ByteAt(tab, d, i, pos) {
      ShrinkBytes(g, tab, d, own, tab', e, ino, keep, i, pos);
    }
  }

  lemma ShrunkInodes(g: Geom, tab: seq<Inode>, d: Disk, own: map<nat, Slot>, tab': seq<Inode>, e: Disk, ino: nat, keep: nat)
    requires Shrunk(g, tab, d, own, tab', e, ino, keep) && ino < |tab|
    ensures |tab'| == |tab| && SameLinks(tab[ino], tab'[ino])
    ensures forall j :: 0 <= j < |tab| && j != ino ==> tab'[j] == tab[j]
  {
  }

  /** Growing a file by truncation changes its size only. */
  lemma ExtendTree(g: Geom, tab: seq<Inode>, d: Disk, own: map<nat, Slot>, free: nat, e: Disk, ino: nat, length: U32, marks: seq<bool>)
    requires ino < |tab| && TreeOk(tab, d, marks) && marks[ino] && IsReg(tab[ino]) && Quiet(g, d, e)
    requires var tab' := tab[ino := SetSize(tab[ino], length)];
             Vol(g, tab', e, own, free) && forall s :: Val(tab', e, s) == Val(tab, d, s)
    ensures var tab' := tab[ino := SetSize(tab[ino], length)];
            TreeOk(tab', e, marks) && Listings(tab', e, marks) == Listings(tab, d, marks) && BytesKept(tab, d, tab', e, {})
  {
    hide Vol, Quiet, Val, DirOk, Dir, Mode, Nlink, ByteAt, TreeOk, SetSize, Size, Geom.Valid;
    var tab' := tab[ino := SetSize(tab[ino], length)];
    SetSizeFields(tab[ino], length);
    forall j | 0 <= j < |tab| && j != ino
      ensures Dir(tab', e, j) == Dir(tab, d, j) && (DirOk(tab, d, j) ==> DirOk(tab', e, j))
    {
      QuietDir(g, tab, d, tab', e, own, free, j);
    }
    FileTree(tab, d, tab', e, marks, ino);
    QuietBytes(g, tab, d, tab', e, own, free);
  }
}
