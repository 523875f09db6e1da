/** A volume that holds nothing but its root directory: the invariant of UfsOps can be met on every geometry. */
module UfsFresh {
  import opened Bytes
  import opened UfsFormat
  import opened UfsTree
  import opened UfsBlocks
  import opened UfsFiles
  import opened UfsDirent
  import opened UfsDirs
  import opened UfsLinks
  import opened UfsOps
  import opened UfsMkdir

  function Zeros(g: Geom): (d: Disk)
    ensures |d| == g.sectors
  {
    seq(g.sectors, _ => ZeroSector())
  }

  lemma {:induction false} ZeroBits(k: nat)
    ensures !Bit(0, k)
  {
    if k != 0 {
      ZeroBits(k - 1);
    }
  }

  lemma ZeroMarks(g: Geom, i: nat)
    requires g.Valid() && i < g.inodes
    ensures !Marks(g, Zeros(g))[i]
  {
    ZeroBits(i % 8);
  }

  lemma ZeroTable(g: Geom, i: nat)
    requires g.Valid() && i < g.inodes
    ensures NoPtrs(Table(g, Zeros(g))[i])
  {
    var z := Table(g, Zeros(g))[i];
    assert z == ZeroSector()[i % 4 * 128..i % 4 * 128 + 128];
    assert forall k :: 0 <= k < 128 ==> z[k] == 0;
  }

  /** Without pointers nobody owns anything. */
  lemma NoOwners(g: Geom, tab: seq<Inode>, d: Disk)
    requires Shape(g, tab, d) && forall i :: 0 <= i < |tab| ==> NoPtrs(tab[i])
    ensures Good(g, tab, d, map[])
  {
    forall s ensures Val(tab, d, s) == 0 {
      if s.ino < |tab| {
        NoSlots(tab, d, s.ino, s);
      } else {
        assert forall k: nat :: TopVal(tab, s.ino, k) == 0;
      }
    }
  }

  lemma UsedTable(g: Geom, d: Disk, ino: nat)
    requires g.Valid() && |d| == g.sectors && ino < g.inodes
    ensures Table(g, SetUsed(g, d, ino, true)) == Table(g, d)
    ensures Marks(g, SetUsed(g, d, ino, true)) == Marks(g, d)[ino := ROOT_INO <= ino]
  {
    SetUsedFrame(g, d, ino, true);
    hide SetUsed;
    var e := SetUsed(g, d, ino, true);
    forall i | 0 <= i < g.inodes ensures InodeAt(g, e, i) == InodeAt(g, d, i) {
      assert d[g.itable + i / 4] == e[g.itable + i / 4];
    }
  }

  /** All blocks free, the root and the inodes below it marked, no inode with pointers. */
  method Blank(g: Geom) returns (d: Disk)
    requires g.Valid()
    ensures |d| == g.sectors && Table(g, d) == Table(g, Zeros(g)) && Marks(g, d) == Marks(g, Zeros(g))[ROOT_INO := true]
    ensures forall n :: 0 <= n < g.Blocks() ==> IsFree(g, d, n)
  {
    hide Table, Marks, SetUsed, SetMap, MapByte, Zeros;
    d := Zeros(g);
    for n := 0 to g.Blocks()
      invariant |d| == g.sectors && Table(g, d) == Table(g, Zeros(g)) && Marks(g, d) == Marks(g, Zeros(g))
      invariant forall m :: 0 <= m < n ==> IsFree(g, d, m)
    {
      SetMapFrame(g, d, n, 0xFF);
      MapMarks(g, d, n);
      FreeMore(g, d, n);
      d := SetMap(g, d, n, 0xFF);
    }
    ghost var marks := Marks(g, Zeros(g));
    for i := 0 to ROOT_INO + 1
      invariant |d| == g.sectors && Table(g, d) == Table(g, Zeros(g)) && Marks(g, d) == if ROOT_INO < i then marks[ROOT_INO := true] else marks
      invariant forall n :: 0 <= n < g.Blocks() ==> IsFree(g, d, n)
    {
      UsedTable(g, d, i);
      UsedFree(g, d, i);
      ZeroMarks(g, i);
      d := SetUsed(g, d, i, true);
    }
  }

  lemma FreeMore(g: Geom, d: Disk, n: nat)
    requires g.Valid() && |d| == g.sectors && n < g.Blocks() && forall m :: 0 <= m < n ==> IsFree(g, d, m)
    ensures |SetMap(g, d, n, 0xFF)| == |d| && forall m :: 0 <= m <= n ==> IsFree(g, SetMap(g, d, n, 0xFF), m)
  {
    SetMapFrame(g, d, n, 0xFF);
    hide SetMap, MapByte;
    forall m | 0 <= m <= n ensures IsFree(g, SetMap(g, d, n, 0xFF), m) {
      assert m < n ==> IsFree(g, d, m);
    }
  }

  lemma UsedFree(g: Geom, d: Disk, ino: nat)
    requires g.Valid() && |d| == g.sectors && ino < g.inodes && forall m :: 0 <= m < g.Blocks() ==> IsFree(g, d, m)
    ensures var e := SetUsed(g, d, ino, true); |e| == |d| && forall m :: 0 <= m < g.Blocks() ==> IsFree(g, e, m)
  {
    SetUsedFrame(g, d, ino, true);
    hide SetUsed, MapByte;
    forall m | 0 <= m < g.Blocks() ensures IsFree(g, SetUsed(g, d, ino, true), m) {
      assert IsFree(g, d, m);
    }
  }

  lemma {:induction false} AllCounted(g: Geom, d: Disk, n: nat)
    requires g.Valid() && |d| == g.sectors && n <= g.Blocks() && forall m :: 0 <= m < n ==> IsFree(g, d, m)
    ensures CountFree(g, d, n) == n
  {
    if n != 0 {
      AllCounted(g, d, n - 1);
    }
  }

  lemma {:induction false} OneUsed(marks: seq<bool>, r: nat)
    requires ROOT_INO <= r && forall i :: 0 <= i < |marks| ==> marks[i] == (i == r)
    ensures Unused(marks) == if r < |marks| then |marks| - ROOT_INO - 1 else if ROOT_INO <= |marks| then |marks| - ROOT_INO else 0
  {
    if ROOT_INO < |marks| {
      OneUsed(marks[..|marks| - 1], r);
    }
  }

  /** A new directory has seven chunks without a name. */
  lemma NewRoom(first: Sector, need: nat)
    requires need <= SECTOR
    ensures AnyRoom(NewChunks(first), need)
  {
    EmptyChunkIs();
    NewChunksLen(first);
    assert Room(NewChunks(first)[1], need);
  }

  lemma MapMarks(g: Geom, d: Disk, n: nat)
    requires g.Valid() && |d| == g.sectors && n < g.Blocks()
    ensures Marks(g, SetMap(g, d, n, 0xFF)) == Marks(g, d) && |SetMap(g, d, n, 0xFF)| == |d|
  {
    MarksOfByte(g, d, g.freeOff + n, 0xFF);
  }

  /** The root directory is its own parent and has two links. */
  lemma RootLinks(tab: seq<Inode>, marks: seq<bool>, ls: Lists, r: U32)
    requires r < |tab| == |marks| == |ls| && marks[r] && IsDir(tab[r]) && Nlink(tab[r]) == 2 && ls[r] == Dots(r, r)
    requires forall i :: 0 <= i < |tab| && i != r ==> !marks[i] && ls[i] == multiset{}
    ensures LinksOk(tab, marks, ls)
  {
    hide Mode, Nlink, Tally, Total, Names, PlainNames, SubDirs;
    var none: seq<bool>, l0: Lists := seq(|tab|, _ => false), seq(|tab|, _ => multiset{});
    NothingListed(l0);
    var x, y := Dirent([DOT], r), Dirent([DOT, DOT], r);
    var l1 := Plus(l0, r, x);
    var l2 := Plus(l1, r, y);
    assert l2[r] == Dots(r, r) && l2 == ls;
    PlusCounts(l0, r, x, r);
    PlusCounts(l1, r, y, r);
    PlusSubDirs(tab, l0, r, x, r);
    PlusSubDirs(tab, l1, r, y, r);
    UnusedUnnamed(none, l0, r);
    NoSubDirs(tab, l0, r);
    DirNotReg(tab[r]);
  }

  lemma {:induction false} NothingListed(ls: Lists)
    requires forall i :: 0 <= i < |ls| ==> ls[i] == multiset{}
    ensures Total(ls) == multiset{}
  {
    if ls != [] {
      NothingListed(ls[..|ls| - 1]);
    }
  }

  lemma RootTree(tab: seq<Inode>, d: Disk, marks: seq<bool>, r: U32)
    requires r < |tab| == |marks| && marks[r] && DirOk(tab, d, r) && Nlink(tab[r]) == 2 && Listing(Dir(tab, d, r)) == Dots(r, r)
    requires forall i :: 0 <= i < |tab| && i != r ==> !marks[i] && NoPtrs(tab[i])
    ensures TreeOk(tab, d, marks)
  {
    hide Dots, Nlink, Listing, Dir, NoPtrs;
    IsDirOf(tab, d, r);
    assert forall i :: 0 <= i < |tab| ==> InodeOk(tab, d, marks, i) by { hide DirOk; }
    hide DirOk;
    RootLinks(tab, marks, Listings(tab, d, marks), r);
  }

  lemma VolCounted(g: Geom, tab: seq<Inode>, d: Disk, own: map<nat, Slot>, free: nat)
    requires Vol(g, tab, d, own, free)
    ensures free == CountFree(g, d, g.Blocks())
  {
  }

  lemma GrownNoLeak(g: Geom, tab: seq<Inode>, d: Disk, e: Disk, own: map<nat, Slot>)
    requires Shape(g, tab, e) && FileGrows(g, d, map[], e, own, ROOT_INO, iset{})
    requires forall n :: 0 <= n < g.Blocks() ==> IsFree(g, d, n)
    ensures NoLeak(g, tab, e, own, iset{})
  {
    hide IsFree;
  }

  /** A sound volume on any geometry with room for one block; its root lists "." and "..". */
  method EmptyVolume(g: Geom, mode: nat) returns (u: Ufs, root: Vnode)
    requires g.Valid() && 0 < g.Blocks()
    ensures fresh(u) && fresh(root) && u.g == g && FsOk(u) && root.ino == ROOT_INO && root.isDir && DirVnode(u, root)
    ensures Listing(Dir(u.tab, u.disk, ROOT_INO)) == Dots(ROOT_INO, ROOT_INO)
    ensures forall i :: 0 <= i < |u.marks| ==> u.marks[i] == (i == ROOT_INO)
    ensures u.freeBlocks == g.Blocks() - 1 && |u.marks| == g.inodes && NoLeak(g, u.tab, u.disk, u.own, iset{})
    ensures Size(u.tab[ROOT_INO]) == BLOCK && Nlink(u.tab[ROOT_INO]) == 2
    ensures forall need: nat :: need <= SECTOR ==> AnyRoom(Dir(u.tab, u.disk, ROOT_INO), need)
  {
    hide Unused, CountFree, AnyRoom, IsFree, NewChunks, DotsChunk, Table, Marks, Good, Vol, DirOk, Dir, Listing, Dots, Nlink, Size, NoPtrs, NewDir, TreeOk, FileGrows, IsDir, Zeros;
    var d := Blank(g);
    forall i | 0 <= i < g.inodes ensures NoPtrs(Table(g, d)[i]) && Marks(g, d)[i] == (i == ROOT_INO) {
      ZeroTable(g, i);
      ZeroMarks(g, i);
    }
    NoOwners(g, Table(g, d), d);
    OneUsed(Marks(g, d), ROOT_INO);
    AllCounted(g, d, g.Blocks());
    u := new Ufs.Mount(g, d, g.inodes - 3, map[]);
    VolCounted(u.g, u.tab, u.disk, u.own, u.freeBlocks);
    VolShape(u.g, u.tab, u.disk, u.own, u.freeBlocks);
    assert IsFree(g, d, 0);
    var rc, f := MakeDir(u, ROOT_INO, mode, ROOT_INO);
    assert rc == Ok;
    NewDirIs(mode, f);
    VolShape(u.g, u.tab, u.disk, u.own, u.freeBlocks);
    RootTree(u.tab, u.disk, u.marks, ROOT_INO);
    GrownNoLeak(g, u.tab, d, u.disk, u.own);
    forall need: nat | need <= SECTOR ensures AnyRoom(Dir(u.tab, u.disk, ROOT_INO), need) {
      NewRoom(DotsChunk(ROOT_INO, ROOT_INO), need);
    }
    root := new Vnode(ROOT_INO, true, BLOCK);
  }
}
