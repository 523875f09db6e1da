/** ufs_mkdir. */
module UfsMkdir {
  import opened Bytes
  import opened UfsFormat
  import opened UfsTree
  import opened UfsBlocks
  import opened UfsFiles
  import opened UfsDirent
  import opened UfsDirs
  import opened UfsLinks
  import opened UfsOps

  /** S_IFDIR | (mode & 0777), two links, no blocks yet. */
  function BareDir(mode: nat): Inode {
    PutU16(PutU16(ZeroInode(), 0, 0x4000 + mode % 512), 2, 2)
  }

  lemma BareDirIs(mode: nat)
    ensures var i := BareDir(mode);
            IsDir(i) && !IsSymlink(i) && NoPtrs(i) && Nlink(i) == 2 && Size(i) == 0 && NBlocks(i) == 0
  {
    var m: Inode := PutU16(ZeroInode(), 0, 0x4000 + mode % 512);
    PutGet16(ZeroInode(), 0, 0x4000 + mode % 512, 0);
    PutGet16(m, 2, 2, 0);
    PutGet16(m, 2, 2, 2);
    var i := BareDir(mode);
    assert SizeLo(i) == 0 && SizeHi(i) == 0;
  }

  /** The inode ufs_mkdir writes: its block, and the size of one block. */
  function NewDir(mode: nat, f: U32): Inode {
    SetSize(SetTopPtr(BareDir(mode), 0, f), BLOCK)
  }

  lemma NewDirIs(mode: nat, f: U32)
    ensures var i := NewDir(mode, f); var j := SetTopPtr(BareDir(mode), 0, f);
            && IsDir(i) && Nlink(i) == 2 && Size(i) == BLOCK == BLOCK * NBlocks(i) && NBlocks(i) == 1
            && IsSymlink(i) == IsSymlink(j) && forall k :: 0 <= k < 14 ==> TopPtr(i, k) == TopPtr(j, k)
  {
    BareDirIs(mode);
    SetTopFields(BareDir(mode), 0, f);
    SetSizeFields(SetTopPtr(BareDir(mode), 0, f), BLOCK);
  }

  /** An inode without pointers has no slot. */
  lemma NoSlots(tab: seq<Inode>, d: Disk, ino: nat, s: Slot)
    requires ino < |tab| && NoPtrs(tab[ino]) && s.ino == ino
    ensures Val(tab, d, s) == 0
  {
    assert forall k: nat :: TopVal(tab, ino, k) == 0;
  }

  lemma LooseTab(g: Geom, tab: seq<Inode>, tab': seq<Inode>, d: Disk, own: map<nat, Slot>, f: nat)
    requires Loose(g, tab, d, own, f) && |tab'| == |tab|
    ensures Loose(g, tab', d, own, f)
  {
  }

  function Dots(self: U32, parent: U32): multiset<Dirent> {
    multiset{Dirent([DOT], self), Dirent([DOT, DOT], parent)}
  }

  /** The block of "." and ".." becomes the first block of inode n. */
  lemma DirBlockIs(g: Geom, tab0: seq<Inode>, d0: Disk, own0: map<nat, Slot>, free0: nat, m: Disk, m2: Disk, free: nat,
                   n: U32, mode: nat, f: U32, parent: U32)
    requires Vol(g, tab0, d0, own0, free0) && n < g.inodes && NoPtrs(tab0[n]) && n != 0 && parent != 0
    requires Fresh(g, d0, m, f) && f !in own0 && f != 0 && |m2| == |m|
    requires forall q :: 0 <= q < |m2| ==> m2[q] == if f <= q < f + FRAGS then NewChunk(DotsChunk(n, parent), q - f) else m[q]
    requires Vol(g, tab0, m2, own0, free) && Loose(g, tab0, m2, own0, f)
    ensures n < |tab0|
    ensures var tab1 := tab0[n := BareDir(mode)]; var tab2 := tab0[n := NewDir(mode, f)]; var own2 := own0[f := Top(n, 0)];
            && Vol(g, tab2, m2, own2, free)
            && FileGrows(g, d0, own0, m2, own2, n, iset{})
            && exists tab' :: (forall s :: Val(tab2, m2, s) == Val(tab', m2, s)) && Linked(tab1, d0, tab', m2, n, 0, DotsChunk(n, parent))
  {
    hide Vol, Val, Loose, Fresh, FileGrows, Linked, NewChunk, DotsChunk, BareDir, NewDir, NoPtrs, Grows, DataSlot, IsSymlink, Geom.Valid, TopPtr, SetTopPtr;
    VolShape(g, tab0, d0, own0, free0);
    BareDirIs(mode);
    NewDirIs(mode, f);
    FreshStep(g, tab0, d0, own0, free0, n, BareDir(mode));
    FreshStep(g, tab0, m2, own0, free, n, BareDir(mode));
    var tab1 := tab0[n := BareDir(mode)];
    LooseTab(g, tab0, tab1, m2, own0, f);
    NoSlots(tab1, m2, n, Top(n, 0));
    NoSlots(tab1, d0, n, Top(n, 0));
    AttachTopGrows(g, tab1, m2, own0, free, n, 0, f);
    var tab' := tab1[n := SetTopPtr(BareDir(mode), 0, f)];
    var own2 := own0[f := Top(n, 0)];
    FirstSlot(n);
    VolGood(g, tab1, d0, own0, free0);
    VolGood(g, tab', m2, own2, free);
    LinkedIs(g, tab1, d0, own0, m, m2, tab', m2, own2, n, 0, f, DotsChunk(n, parent));
    FieldsStep(g, tab', m2, own2, free, n, NewDir(mode, f));
    assert tab'[n := NewDir(mode, f)] == tab0[n := NewDir(mode, f)];
  }

  lemma FirstSlot(n: nat)
    ensures DataSlot(n, 0) == Top(n, 0)
  {
  }

  /** Once its inode is on disk, the new directory is sound and lists "." and "..". */
  lemma NewDirOk(g: Geom, tab0: seq<Inode>, d0: Disk, tab': seq<Inode>, m2: Disk, own2: map<nat, Slot>, e: Disk, free: nat,
                 n: U32, mode: nat, f: U32, parent: U32)
    requires n < |tab0| && n != 0 && parent != 0
    requires Linked(tab0[n := BareDir(mode)], d0, tab', m2, n, 0, DotsChunk(n, parent))
    requires Vol(g, tab0[n := NewDir(mode, f)], e, own2, free) && Quiet(g, m2, e)
    requires forall s :: Val(tab0[n := NewDir(mode, f)], e, s) == Val(tab', m2, s)
    ensures var tab2 := tab0[n := NewDir(mode, f)];
            DirOk(tab2, e, n) && Listing(Dir(tab2, e, n)) == Dots(n, parent) && Dir(tab2, e, n) == NewChunks(DotsChunk(n, parent))
  {
    hide Vol, Val, Linked, DotsChunk, BareDir, NewDir, NoPtrs, DataSlot, Quiet, NewChunk, NewChunks, NBlocks, Mode, Size, Nlink,
         Tiled, Ents, Listing, IsSymlink, TopPtr, ChunkOk, SetTopPtr;
    var tab1, tab2 := tab0[n := BareDir(mode)], tab0[n := NewDir(mode, f)];
    BareDirIs(mode);
    NewDirIs(mode, f);
    LinkedDir(g, tab1, d0, tab', m2, own2, tab2, e, free, n, DotsChunk(n, parent));
    assert Dir(tab1, d0, n) == [];
    assert Dir(tab2, e, n) == NewChunks(DotsChunk(n, parent));
    NewChunksLen(DotsChunk(n, parent));
    DotsChunkIs(n, parent);
    NewChunksIs(DotsChunk(n, parent));
    forall b | 0 <= b ensures Val(tab1, d0, DataSlot(n, b)) == 0 {
      DataSlotPlain(n, b);
      NoSlots(tab1, d0, n, DataSlot(n, b));
    }
    LinkedEnds(tab1, d0, tab', m2, tab2, e, n, 0, DotsChunk(n, parent));
  }

  /** The middle of ufs_mkdir: a block with "." and "..", and the inode that points to it. */
  method MakeDir(u: Ufs, n: U32, mode: nat, parent: U32) returns (rc: Status, f: U32)
    requires u.Steady() && n < u.g.inodes && n < |u.tab| && NoPtrs(u.tab[n]) && n != 0 && parent != 0
    modifies u`disk, u`buf, u`freeBlocks, u`tab, u`own
    ensures u.Steady() && rc in {Ok, ENOSPC}
    ensures old(u.freeBlocks) == u.freeBlocks + if rc == Ok then 1 else 0
    ensures rc == ENOSPC ==> u.disk == old(u.disk) && u.tab == old(u.tab) && u.own == old(u.own) && FullDisk(u.g, u.disk)
    ensures rc == Ok ==>
      && u.tab == old(u.tab)[n := NewDir(mode, f)]
      && FileGrows(u.g, old(u.disk), old(u.own), u.disk, u.own, n, iset{})
      && DirOk(u.tab, u.disk, n) && Listing(Dir(u.tab, u.disk, n)) == Dots(n, parent)
      && Dir(u.tab, u.disk, n) == NewChunks(DotsChunk(n, parent))
  {
    hide Vol, Good, Val, Loose, Fresh, FileGrows, Linked, NewChunk, DotsChunk, BareDir, NewDir, NoPtrs, IsFree, EmptyBlock, Geom.Valid, DirOk,
         Listing, Dir, Quiet, Dots, FullDisk;
    ghost var tab0, d0, own0, free0 := u.tab, u.disk, u.own, u.freeBlocks;
    VolShape(u.g, u.tab, u.disk, u.own, u.freeBlocks);
    VolGood(u.g, u.tab, u.disk, u.own, u.freeBlocks);
    rc, f := u.AllocZeroed();
    if rc != Ok {
      FullIs(u.g, u.tab, u.disk, u.own);
      return;
    }
    ghost var m := u.disk;
    FreshTable(u.g, d0, m, f);
    FillBlock(u, f, DotsChunk(n, parent));
    ghost var m2, free := u.disk, u.freeBlocks;
    DirBlockIs(u.g, tab0, d0, own0, free0, m, m2, free, n, mode, f, parent);
    u.tab := tab0[n := NewDir(mode, f)];
    u.own := own0[f := Top(n, 0)];
    ghost var tab' :| (forall s :: Val(u.tab, m2, s) == Val(tab', m2, s)) && Linked(tab0[n := BareDir(mode)], d0, tab', m2, n, 0, DotsChunk(n, parent));
    u.WriteInode(n, NewDir(mode, f));
    LowStep(u.g, u.tab, m2, u.disk, u.own, free);
    QuietGrows(u.g, d0, own0, m2, u.own, u.disk, n, iset{});
    NewDirOk(u.g, tab0, d0, tab', m2, u.own, u.disk, free, n, mode, f, parent);
  }

  /** A new directory stands at inode n, listing "." and ".."; nothing else is listed anew. */
  ghost predicate Orphaned(tab: seq<Inode>, d: Disk, marks: seq<bool>, tab': seq<Inode>, e: Disk, marks': seq<bool>, k: nat, n: U32) {
    && |tab| == |tab'| == |marks| == |marks'| && k < |tab| && k < WORD && n < |tab| && !marks[n] && marks' == marks[n := true]
    && Listings(tab', e, marks') == Listings(tab, d, marks)[n := Dots(n, k)]
    && BytesKept(tab, d, tab', e, {k, n as nat})
  }

  /** The parent's listing gained the new directory's name. */
  ghost predicate MadeNamed(g: Geom, tab: seq<Inode>, d: Disk, own: map<nat, Slot>, marks: seq<bool>,
                            tab': seq<Inode>, e: Disk, own': map<nat, Slot>, marks': seq<bool>, k: nat, n: U32, name: Name)
  {
    && |tab| == |tab'| == |marks| == |marks'| && k < |tab| && k < WORD && n < |tab| && !marks[n] && marks' == marks[n := true]
    && Listings(tab', e, marks') == Plus(Listings(tab, d, marks)[n := Dots(n, k)], k, Dirent(Cut(name), n))
    && BytesKept(tab, d, tab', e, {k, n as nat})
    && NothingLost(g, tab, d, own, tab', e, own')
    && Nlink(tab'[k]) == (Nlink(tab[k]) + 1) % 0x1_0000
  }

  /** MakeDir seen from the whole volume. */
  lemma MadeTree(g: Geom, tab: seq<Inode>, d: Disk, own: map<nat, Slot>, free: nat, tab': seq<Inode>, e: Disk, own': map<nat, Slot>,
                 marks: seq<bool>, k: nat, n: U32)
    requires Vol(g, tab, d, own, free) && Good(g, tab', e, own') && InodesOk(tab, d, marks) && k < WORD
    requires n < |tab| == |tab'| && !marks[n] && FileGrows(g, d, own, e, own', n, iset{})
    requires forall j :: 0 <= j < |tab| && j != n ==> tab'[j] == tab[j]
    requires DirOk(tab', e, n) && Listing(Dir(tab', e, n)) == Dots(n, k)
    ensures InodesOk(tab', e, marks[n := true])
    ensures Listings(tab', e, marks[n := true]) == Listings(tab, d, marks)[n := Dots(n, k)]
    ensures BytesKept(tab, d, tab', e, {n as nat}) && NothingLost(g, tab, d, own, tab', e, own')
    ensures Listings(tab, d, marks)[n] == multiset{}
  {
    hide Vol, Good, FileGrows, Dir, Listing, Mode, BytesKept, NothingLost, Dots, NoPtrs;
    VolGood(g, tab, d, own, free);
    GrowsTree(g, tab, d, own, tab', e, own', n, iset{}, marks);
    GrowsNothingLost(g, tab, d, own, tab', e, own', n);
    IsDirOf(tab', e, n);
    var marks' := marks[n := true];
    forall i | 0 <= i < |tab|
      ensures InodeOk(tab', e, marks', i)
      ensures ListingAt(tab', e, marks', i) == if i == n then Dots(n, k) else ListingAt(tab, d, marks, i)
    {
      if i != n {
        hide DirOk;
        assert InodeOk(tab', e, marks, i) && ListingAt(tab', e, marks, i) == ListingAt(tab, d, marks, i);
      }
    }
    assert ListingAt(tab, d, marks, n) == multiset{};
    hide ListingAt;
    assert Listings(tab', e, marks') == Listings(tab, d, marks)[n := Dots(n, k)];
  }

  lemma IsDirOf(tab: seq<Inode>, d: Disk, i: nat)
    requires DirOk(tab, d, i)
    ensures i < |tab| && IsDir(tab[i])
  {
  }

  lemma OrphanedIs(g: Geom, tab: seq<Inode>, d: Disk, own: map<nat, Slot>, m: Disk, marks: seq<bool>,
                   tab': seq<Inode>, e: Disk, own': map<nat, Slot>, marks': seq<bool>, k: nat, n: U32)
    requires |tab| == |tab'| == |marks| && k < |tab| && k < WORD && n < |tab| && !marks[n] && marks' == marks[n := true]
    requires Listings(tab, m, marks) == Listings(tab, d, marks) && BytesKept(tab, d, tab, m, {}) && NothingLost(g, tab, d, own, tab, m, own)
    requires Listings(tab', e, marks') == Listings(tab, m, marks)[n := Dots(n, k)]
    requires BytesKept(tab, m, tab', e, {n as nat}) && NothingLost(g, tab, m, own, tab', e, own')
    ensures Orphaned(tab, d, marks, tab', e, marks', k, n) && NothingLost(g, tab, d, own, tab', e, own')
  {
    hide ByteAt, NoLeak, Dots;
  }

  lemma AllUsedIs(marks: seq<bool>)
    requires forall j :: ROOT_INO < j < |marks| ==> marks[j]
    ensures AllUsed(marks)
  {
  }

  lemma UnchangedTree(tab: seq<Inode>, d: Disk, marks: seq<bool>, e: Disk, k: nat)
    requires |tab| == |marks| && Listings(tab, e, marks) == Listings(tab, d, marks) && BytesKept(tab, d, tab, e, {})
    requires TreeOk(tab, d, marks) && InodesOk(tab, e, marks)
    ensures Unchanged(tab, d, marks, tab, e, marks, k) && TreeOk(tab, e, marks)
  {
    hide ByteAt, LinksOk, InodesOk;
  }

  /** What the new name means for a parent without repeated names. */
  lemma MadeUnique(g: Geom, tab: seq<Inode>, d: Disk, own: map<nat, Slot>, marks: seq<bool>,
                   tab': seq<Inode>, e: Disk, own': map<nat, Slot>, marks': seq<bool>, k: nat, n: U32, name: Name)
    requires MadeNamed(g, tab, d, own, marks, tab', e, own', marks', k, n, name)
    requires marks[k] && IsDir(tab[k]) && IsDir(tab'[k])
    ensures Listing(Dir(tab', e, k)) == Listing(Dir(tab, d, k)) + multiset{Dirent(Cut(name), n)}
    ensures Unique(Listing(Dir(tab, d, k))) ==>
      (Unique(Listing(Dir(tab', e, k))) <==> NoName(Listing(Dir(tab, d, k)), Cut(name)))
  {
    hide BytesKept, NothingLost, Unique, NoName, Listing, Dir, Mode, Cut, Nlink, Dots;
    assert Listings(tab', e, marks')[k] == Listings(tab, d, marks)[k] + multiset{Dirent(Cut(name), n)};
    if Unique(Listing(Dir(tab, d, k))) {
      UniqueAdd(Listing(Dir(tab, d, k)), Cut(name), n);
    }
  }

  /** ufs_mkdir after the directory exists: its name, and a link for its "..". */
  method NameDir(u: Ufs, dir: Vnode, name: Name, n: U32, ghost i: Inode, ghost tab0: seq<Inode>, ghost d0: Disk, ghost own0: map<nat, Slot>, ghost marks0: seq<bool>)
    returns (rc: Status)
    requires u.Steady() && InodesOk(u.tab, u.disk, u.marks) && DirVnode(u, dir) && !IsDots(Cut(name)) && n != 0
    requires TreeOk(tab0, d0, marks0) && Orphaned(tab0, d0, marks0, u.tab, u.disk, u.marks, dir.ino, n)
    requires NothingLost(u.g, tab0, d0, own0, u.tab, u.disk, u.own)
    requires marks0[dir.ino] && Listings(tab0, d0, marks0)[n] == multiset{}
    requires u.tab == tab0[n := i] && IsDir(i) && Nlink(i) == 2
    modifies u, dir
    ensures u.Steady() && rc in {Ok, ENOSPC} && dir.ino < |tab0|
    ensures rc == Ok ==> MadeNamed(u.g, tab0, d0, own0, marks0, u.tab, u.disk, u.own, u.marks, dir.ino, n, name)
    ensures rc == Ok ==> n < |u.tab| && u.tab[n] == i
    ensures rc == ENOSPC ==> Orphaned(tab0, d0, marks0, u.tab, u.disk, u.marks, dir.ino, n) && FullDisk(u.g, u.disk)
    ensures TreeOk(u.tab, u.disk, u.marks) <==> rc != Ok || Nlink(tab0[dir.ino]) < 0xFFFF
    ensures u.marks == old(u.marks) && u.freeInodes == old(u.freeInodes)
    ensures DirGrown(old(u.tab), u.tab, dir.ino) && u.freeBlocks <= old(u.freeBlocks) <= u.freeBlocks + 3
  {
    hide Unused, Vol, Good, Val, Loose, FileGrows, NewDir, NoPtrs, IsFree, Geom.Valid, DirOk, Listing, Dir, Quiet, FullDisk, Dots,
         InodesOk, LinksOk, BytesKept, NothingLost, Marks, Table, Added, NotAdded, Cut, IsDots, Mode, Nlink, Size, Plus, TreeOk, IsDir, MinRec;
    ghost var tab2, d2, own2, marks1, k, e := u.tab, u.disk, u.own, u.marks, dir.ino, Dirent(Cut(name), n);
    VolGood(u.g, u.tab, u.disk, u.own, u.freeBlocks);
    VolShape(u.g, u.tab, u.disk, u.own, u.freeBlocks);
    TreeParts(tab0, d0, marks0);
    DirOfTree(u.tab, u.disk, u.marks, k);
    rc := AddEntry(u, dir, name, n);
    VolGood(u.g, u.tab, u.disk, u.own, u.freeBlocks);
    ghost var ls0 := Listings(tab0, d0, marks0);
    ghost var tab3, d3, own3 := u.tab, u.disk, u.own;
    if rc != Ok {
      NotAddedTree(u.g, tab2, d2, own2, u.tab, u.disk, u.own, k, MinRec(|Cut(name)|), marks1);
      FullIs(u.g, u.tab, u.disk, u.own);
      OrphanLinks(tab0, marks0, ls0, k, n, i);
      NamedBytes(tab0, d0, tab2, d2, tab2, d3, k, n);
      TreeIs(u.tab, u.disk, u.marks);
      return;
    }
    AddedTree(u.g, tab2, d2, own2, tab3, d3, own3, k, e, marks1);
    AddedInode(u.g, tab2, d2, own2, tab3, d3, own3, k, e);
    VolShape(u.g, u.tab, u.disk, u.own, u.freeBlocks);
    NamedBytes(tab0, d0, tab2, d2, tab3, d3, k, n);
    NothingLostTrans(u.g, tab0, d0, own0, tab2, d2, own2, tab3, d3, own3);
    SetNlinkFields(tab3[k], (Nlink(tab3[k]) + 1) % 0x1_0000);
    AddLink(u, dir.ino);
    StepsDone(u.g, tab0, d0, own0, tab3, d3, own3, u.tab, u.disk, u.own, {k, n as nat});
    if Nlink(tab0[k]) < 0xFFFF {
      MkdirLinks(tab0, marks0, ls0, k, e, i, tab3, u.tab);
      TreeIs(u.tab, u.disk, u.marks);
    } else {
      DirByMode(tab2[k], u.tab[k]);
      NoLinksLeft(u.tab, u.disk, u.marks, k);
    }
  }

  /** A directory in use has links. */
  lemma NoLinksLeft(tab: seq<Inode>, d: Disk, marks: seq<bool>, k: nat)
    requires k < |tab| && k < |marks| && marks[k] && Nlink(tab[k]) == 0 && IsDir(tab[k])
    ensures !TreeOk(tab, d, marks)
  {
    hide Nlink, Mode, Listings, SubDirs, PlainNames, Names, InodesOk, Live;
    if TreeOk(tab, d, marks) {
      var ls := Listings(tab, d, marks);
      assert LinkOk(tab, ls, k);
      DirNotReg(tab[k]);
      assert false;
    }
  }

  lemma TreeIs(tab: seq<Inode>, d: Disk, marks: seq<bool>)
    requires InodesOk(tab, d, marks) && LinksOk(tab, marks, Listings(tab, d, marks))
    ensures TreeOk(tab, d, marks)
  {
  }

  lemma NamedBytes(tab0: seq<Inode>, d0: Disk, tab2: seq<Inode>, d2: Disk, tab3: seq<Inode>, d3: Disk, k: nat, n: nat)
    requires BytesKept(tab0, d0, tab2, d2, {k, n}) && BytesKept(tab2, d2, tab3, d3, {k})
    ensures BytesKept(tab0, d0, tab3, d3, {k, n})
  {
    hide ByteAt;
  }

  lemma OrphanLinks(tab: seq<Inode>, marks: seq<bool>, ls: Lists, k: nat, n: U32, i: Inode)
    requires LinksOk(tab, marks, ls) && k < |ls| && k < WORD && n < |tab| && !marks[n] && ls[n] == multiset{}
    requires IsDir(i) && Nlink(i) == 2 && marks[k] && k < |tab| && IsDir(tab[n := i][k])
    ensures LinksOk(tab[n := i], marks[n := true], ls[n := Dots(n, k)])
  {
    hide LinksOk, Nlink, Mode;
    LinksParts(tab, marks, ls);
    LinksOrphan(tab, marks, ls, k, n, tab[n := i], Dots(n, k));
  }

  lemma MkdirLinks(tab: seq<Inode>, marks: seq<bool>, ls: Lists, k: nat, e: Dirent, i: Inode, tab3: seq<Inode>, tab4: seq<Inode>)
    requires LinksOk(tab, marks, ls) && k < |ls| && k < WORD && e.ino < |tab| && !marks[e.ino] && ls[e.ino] == multiset{}
    requires IsDir(i) && Nlink(i) == 2 && marks[k] && k < |tab| && IsDir(tab[e.ino := i][k]) && !IsDots(e.name)
    requires |tab3| == |tab| && SameLinks(tab[e.ino := i][k], tab3[k])
    requires forall j :: 0 <= j < |tab| && j != k ==> tab3[j] == tab[e.ino := i][j]
    requires Nlink(tab[k]) < 0xFFFF && tab4 == tab3[k := SetNlink(tab3[k], (Nlink(tab3[k]) + 1) % 0x1_0000)]
    ensures LinksOk(tab4, marks[e.ino := true], Plus(ls[e.ino := Dots(e.ino, k)], k, e))
  {
    hide LinksOk, Nlink, Mode, SetNlink, Plus;
    LinksParts(tab, marks, ls);
    SetNlinkFields(tab3[k], (Nlink(tab3[k]) + 1) % 0x1_0000);
    LinksMkdir(tab, marks, ls, k, e, tab4, Dots(e.ino, k));
  }

  /** One less, and one more again, in 32 bits. */
  lemma CountDownUp(n: nat)
    requires 0 < n < WORD
    ensures (n + WORD - 1) % WORD == n - 1 && (n - 1 + 1) % WORD == n
  {
  }

  /** The first half of ufs_mkdir: a directory in use, not yet named. */
  method NewDirectory(u: Ufs, dir: Vnode, mode: nat) returns (rc: Status, ino: U32, f: U32)
    requires FsOk(u) && DirVnode(u, dir) && 0 < dir.ino
    modifies u`disk, u`buf, u`freeBlocks, u`freeInodes, u`marks, u`tab, u`own
    ensures u.Steady() && rc in {Ok, ENOSPC} && u.freeInodes == Unused(u.marks) && dir.ino < |old(u.tab)| == |u.tab|
    ensures u.freeBlocks <= old(u.freeBlocks) <= u.freeBlocks + 1
    ensures rc == ENOSPC ==>
      && FsOk(u) && u.tab == old(u.tab) && (AllUsed(u.marks) || FullDisk(u.g, u.disk))
      && Unchanged(old(u.tab), old(u.disk), old(u.marks), u.tab, u.disk, u.marks, dir.ino)
    ensures rc == Ok ==>
      && ROOT_INO < ino < |old(u.tab)| == |old(u.marks)| && u.marks == old(u.marks)[ino := true] && u.tab == old(u.tab)[ino := NewDir(mode, f)] && ino != dir.ino
      && InodesOk(u.tab, u.disk, u.marks) && Listings(old(u.tab), old(u.disk), old(u.marks))[ino] == multiset{}
      && Orphaned(old(u.tab), old(u.disk), old(u.marks), u.tab, u.disk, u.marks, dir.ino, ino)
      && NothingLost(u.g, old(u.tab), old(u.disk), old(u.own), u.tab, u.disk, u.own)
  {
    hide Unused, Vol, Good, Val, Loose, FileGrows, NewDir, NoPtrs, IsFree, Geom.Valid, DirOk, Listing, Dir, Quiet, Dots, FullDisk, AllUsed,
         InodesOk, LinksOk, BytesKept, NothingLost, Marks, Table, Mode, Nlink, Size, TreeOk, Unchanged, Orphaned, IsDir;
    ghost var tab0, d0, own0, marks0, k := u.tab, u.disk, u.own, u.marks, dir.ino;
    VolShape(u.g, u.tab, u.disk, u.own, u.freeBlocks);
    InodesBelow(u.g);
    TreeParts(tab0, d0, marks0);
    var n;
    rc, n := u.AllocInode();
    ino, f := 0, 0;
    if rc != Ok {
      BytesSame(tab0, d0, {});
      UnchangedTree(tab0, d0, marks0, d0, k);
      AllUsedIs(u.marks);
      return;
    }
    ino := n;
    UnusedPut(marks0, n, true);
    CountDownUp(Unused(marks0));
    ghost var d1 := u.disk;
    SameTree(u.g, tab0, d0, d1, u.own, u.freeBlocks, marks0);
    UnusedEmpty(tab0, d1, marks0, n);
    ghost var free1 := u.freeBlocks;
    rc, f := MakeDir(u, ino, mode, dir.ino);
    if rc != Ok {
      var rc' := u.FreeInode(n);
      assert u.marks == marks0;
      SameTree(u.g, tab0, d1, u.disk, u.own, u.freeBlocks, marks0);
      QuietFull(u.g, d1, u.disk);
      BytesKeptTrans(tab0, d0, tab0, d1, tab0, u.disk, {});
      UnchangedTree(tab0, d0, marks0, u.disk, k);
      return;
    }
    VolGood(u.g, u.tab, u.disk, u.own, u.freeBlocks);
    MadeTree(u.g, tab0, d1, own0, free1, u.tab, u.disk, u.own, marks0, k, ino);
    OrphanedIs(u.g, tab0, d0, own0, d1, marks0, u.tab, u.disk, u.own, u.marks, k, ino);
  }

  method Mkdir(u: Ufs, dir: Vnode, name: Name, mode: nat) returns (rc: Status, ino: U32)
    requires FsOk(u) && DirVnode(u, dir) && 0 < dir.ino && !IsDots(Cut(name))
    modifies u, dir
    ensures u.Steady() && rc in {Ok, ENOSPC} && dir.ino < |old(u.tab)|
    ensures rc == Ok ==>
      && ROOT_INO < ino
      && MadeNamed(u.g, old(u.tab), old(u.disk), old(u.own), old(u.marks), u.tab, u.disk, u.own, u.marks, dir.ino, ino, name)
      && ino < |u.tab| && exists f :: u.tab[ino] == NewDir(mode, f)
    ensures rc == ENOSPC ==>
      || Unchanged(old(u.tab), old(u.disk), old(u.marks), u.tab, u.disk, u.marks, dir.ino)
      || Orphaned(old(u.tab), old(u.disk), old(u.marks), u.tab, u.disk, u.marks, dir.ino, ino)
    ensures rc == ENOSPC ==> AllUsed(u.marks) || FullDisk(u.g, u.disk)
    ensures FsOk(u) <==> rc != Ok || Nlink(old(u.tab)[dir.ino]) < 0xFFFF
    ensures DirGrown(old(u.tab), u.tab, dir.ino) && u.freeBlocks <= old(u.freeBlocks) <= u.freeBlocks + 4
    ensures rc == Ok && Unique(Listing(Dir(old(u.tab), old(u.disk), dir.ino))) ==>
      (Unique(Listing(Dir(u.tab, u.disk, dir.ino))) <==> NoName(Listing(Dir(old(u.tab), old(u.disk), dir.ino)), Cut(name)))
  {
    hide Unused, Unique, NoName, Vol, NewDir, DirOk, Listing, Dir, Quiet, Dots, FullDisk, AllUsed,
         InodesOk, LinksOk, BytesKept, NothingLost, Marks, Table, Cut, IsDots, Mode, Nlink, Size, Plus, TreeOk, MadeNamed, Unchanged, Orphaned, IsDir;
    ghost var tab0, d0, own0, marks0, k := u.tab, u.disk, u.own, u.marks, dir.ino;
    var f;
    rc, ino, f := NewDirectory(u, dir, mode);
    if rc != Ok {
      return;
    }
    NewDirIs(mode, f);
    rc := NameDir(u, dir, name, ino, NewDir(mode, f), tab0, d0, own0, marks0);
    DirByMode(tab0[k], u.tab[k]);
    if rc == Ok {
      MadeUnique(u.g, tab0, d0, own0, marks0, u.tab, u.disk, u.own, u.marks, k, ino, name);
    }
  }
}
