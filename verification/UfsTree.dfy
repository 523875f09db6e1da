/** The block-pointer trees of all inodes, and who owns which block. */
module UfsTree {
  import opened Bytes
  import opened UfsFormat

  /** Every place of a volume where a block pointer can stand. */
  datatype Slot =
    | Top(ino: nat, k: nat)             // i_direct[k] for k < 12, i_ib[k - 12] for k in 12..13
    | Ind(ino: nat, k: nat)             // entry k of the single-indirect block
    | Outer(ino: nat, k: nat)           // entry k of the double-indirect block
    | Inner(ino: nat, k: nat, j: nat)   // entry j of the indirect block at Outer(ino, k)

  /** Slots whose value names an indirect block; all others name data blocks. */
  predicate IsMeta(s: Slot) {
    (s.Top? && 12 <= s.k) || s.Outer?
  }

  function TopVal(tab: seq<Inode>, ino: nat, k: nat): U32 {
    if ino < |tab| && k < 14 && !IsSymlink(tab[ino]) then TopPtr(tab[ino], k) else 0
  }

  /** The pointer standing at a slot; 0 when there is none. */
  function Val(tab: seq<Inode>, d: Disk, s: Slot): U32 {
    match s
    case Top(i, k) => TopVal(tab, i, k)
    case Ind(i, k) => Entry(d, TopVal(tab, i, 12), k)
    case Outer(i, k) => Entry(d, TopVal(tab, i, 13), k)
    case Inner(i, k, j) => Entry(d, Entry(d, TopVal(tab, i, 13), k), j)
  }

  function Parent(s: Slot): Slot
    requires !s.Top?
  {
    match s
    case Ind(i, _) => Top(i, 12)
    case Outer(i, _) => Top(i, 13)
    case Inner(i, k, _) => Outer(i, k)
  }

  function Index(s: Slot): nat
    requires !s.Top?
  {
    if s.Inner? then s.j else s.k
  }

  /** The slot of logical block l of a file. */
  function DataSlot(ino: nat, l: nat): Slot {
    if l < NDIRECT then Top(ino, l)
    else if l - NDIRECT < PTRS then Ind(ino, l - NDIRECT)
    else Inner(ino, (l - NDIRECT - PTRS) / PTRS, (l - NDIRECT - PTRS) % PTRS)
  }

  lemma DataSlotInjective(i: nat, l: nat, j: nat, m: nat)
    requires DataSlot(i, l) == DataSlot(j, m)
    ensures i == j && l == m
  {
  }

  ghost predicate Shape(g: Geom, tab: seq<Inode>, d: Disk) {
    g.Valid() && |d| == g.sectors && |tab| == g.inodes
  }

  /** own is exactly the inverse of the slot table, and every owned block is a real, allocated block.
      So no block is pointed to twice, and none is both free and pointed to. */
  ghost predicate Good(g: Geom, tab: seq<Inode>, d: Disk, own: map<nat, Slot>) {
    && Shape(g, tab, d)
    && (forall s :: Val(tab, d, s) != 0 ==> Val(tab, d, s) in own && own[Val(tab, d, s)] == s)
    && (forall v :: v in own ==> Owned(g, tab, d, own, v))
  }

  ghost predicate Owned(g: Geom, tab: seq<Inode>, d: Disk, own: map<nat, Slot>, v: nat)
  {
    && Shape(g, tab, d) && v in own
    && g.IsBlock(v) && !IsFree(g, d, g.BlockNo(v))
    && Val(tab, d, own[v]) == v
  }

  /** An allocated block that no slot points to (yet, or any more). */
  ghost predicate Loose(g: Geom, tab: seq<Inode>, d: Disk, own: map<nat, Slot>, f: nat) {
    && Shape(g, tab, d)
    && g.IsBlock(f) && !IsFree(g, d, g.BlockNo(f))
    && f !in own
  }

  /** Every allocated block is owned, except those in lost. */
  ghost predicate NoLeak(g: Geom, tab: seq<Inode>, d: Disk, own: map<nat, Slot>, lost: iset<nat>) {
    && Shape(g, tab, d)
    && forall n :: 0 <= n < g.Blocks() && !IsFree(g, d, n) ==> g.Frag(n) in own || g.Frag(n) in lost
  }

  /** What Good says without the inverse map: disjoint ownership. */
  lemma Disjoint(g: Geom, tab: seq<Inode>, d: Disk, own: map<nat, Slot>, s: Slot, t: Slot)
    requires Good(g, tab, d, own)
    requires Val(tab, d, s) != 0
    ensures g.IsBlock(Val(tab, d, s)) && !IsFree(g, d, g.BlockNo(Val(tab, d, s)))
    ensures Val(tab, d, s) == Val(tab, d, t) ==> s == t
  {
    assert Owned(g, tab, d, own, Val(tab, d, s));
  }

  ghost predicate Pointed(tab: seq<Inode>, d: Disk, v: nat) {
    exists s :: Val(tab, d, s) == v
  }

  ghost function Pointer(tab: seq<Inode>, d: Disk, v: nat): (s: Slot)
    requires Pointed(tab, d, v)
    ensures Val(tab, d, s) == v
  {
    var s :| Val(tab, d, s) == v;
    s
  }

  /** Conversely disjoint, allocated ownership of real blocks has such an inverse. */
  lemma DisjointHasOwner(g: Geom, tab: seq<Inode>, d: Disk) returns (own: map<nat, Slot>)
    requires Shape(g, tab, d)
    requires forall s :: Val(tab, d, s) != 0 ==> g.IsBlock(Val(tab, d, s)) && !IsFree(g, d, g.BlockNo(Val(tab, d, s)))
    requires forall s, t :: Val(tab, d, s) != 0 && Val(tab, d, s) == Val(tab, d, t) ==> s == t
    ensures Good(g, tab, d, own)
  {
    own := map v: nat | 0 < v < g.sectors && Pointed(tab, d, v) :: Pointer(tab, d, v);
    forall s | Val(tab, d, s) != 0
      ensures Val(tab, d, s) in own && own[Val(tab, d, s)] == s
    {
      assert g.IsBlock(Val(tab, d, s));
    }
  }

  // ---- frames ----

  /** Two disks agree from the data area on. */
  predicate SameData(g: Geom, d: Disk, e: Disk) {
    |d| == |e| && forall q :: g.data <= q < |d| ==> d[q] == e[q]
  }

  /** Two disks agree on the eight sectors at p. */
  predicate SameBlock(d: Disk, e: Disk, p: nat) {
    |d| == |e| && forall q :: p <= q < p + FRAGS && q < |d| ==> d[q] == e[q]
  }

  lemma EntrySame(d: Disk, e: Disk, p: nat, k: nat)
    requires SameBlock(d, e, p)
    ensures Entry(d, p, k) == Entry(e, p, k)
  {
  }

  /** Slot values depend on the inodes and the indirect blocks alone. */
  lemma ValSame(tab: seq<Inode>, d: Disk, e: Disk, s: Slot)
    requires !s.Top? ==> Val(tab, d, Parent(s)) == Val(tab, e, Parent(s))
    requires !s.Top? && Val(tab, d, Parent(s)) != 0 ==> SameBlock(d, e, Val(tab, d, Parent(s)))
    ensures Val(tab, d, s) == Val(tab, e, s)
  {
    if !s.Top? && Val(tab, d, Parent(s)) != 0 {
      EntrySame(d, e, Val(tab, d, Parent(s)), Index(s));
    }
  }

  lemma MetaFrame(tab: seq<Inode>, d: Disk, e: Disk)
    requires |d| == |e|
    requires forall m :: IsMeta(m) && Val(tab, d, m) != 0 ==> SameBlock(d, e, Val(tab, d, m))
    ensures forall s :: Val(tab, d, s) == Val(tab, e, s)
  {
    forall s ensures Val(tab, d, s) == Val(tab, e, s) {
      if !s.Top? {
        if s.Inner? {
          assert IsMeta(Top(s.ino, 13));
          ValSame(tab, d, e, Parent(s));
        }
        assert IsMeta(Parent(s));
        ValSame(tab, d, e, s);
      }
    }
  }

  /** Changing only sectors before the data area moves no pointer. */
  lemma DataFrame(g: Geom, tab: seq<Inode>, d: Disk, e: Disk, own: map<nat, Slot>)
    requires Good(g, tab, d, own)
    requires SameData(g, d, e)
    ensures forall s :: Val(tab, d, s) == Val(tab, e, s)
  {
    forall m | IsMeta(m) && Val(tab, d, m) != 0 ensures SameBlock(d, e, Val(tab, d, m)) {
      assert Owned(g, tab, d, own, Val(tab, d, m));
    }
    MetaFrame(tab, d, e);
  }

  /** Good needs only the slot values and that owned blocks stay allocated. */
  lemma GoodFrame(g: Geom, tab: seq<Inode>, d: Disk, e: Disk, own: map<nat, Slot>)
    requires Good(g, tab, d, own) && |e| == |d|
    requires forall s :: Val(tab, d, s) == Val(tab, e, s)
    requires forall n :: 0 <= n < g.Blocks() && g.Frag(n) in own ==> !IsFree(g, e, n)
    ensures Good(g, tab, e, own)
  {
    forall v | v in own ensures Owned(g, tab, e, own, v) {
      assert Owned(g, tab, d, own, v);
      assert v == g.Frag(g.BlockNo(v));
    }
  }

  // ---- the free map ----

  predicate SameTable(g: Geom, d: Disk, e: Disk)
    requires g.Valid() && |d| == g.sectors && |e| == g.sectors
  {
    forall i :: 0 <= i < g.inodes ==> InodeAt(g, d, i) == InodeAt(g, e, i)
  }

  /** d and e differ in the free-map byte of block n alone. */
  function SetMap(g: Geom, d: Disk, n: nat, v: Byte): Disk
    requires g.Valid() && |d| == g.sectors && n < g.Blocks()
  {
    SetCgByte(d, g.freeOff + n, v)
  }

  lemma SetMapFrame(g: Geom, d: Disk, n: nat, v: Byte)
    requires g.Valid() && |d| == g.sectors && n < g.Blocks()
    ensures var e := SetMap(g, d, n, v);
            && SameData(g, d, e) && Table(g, d) == Table(g, e)
            && forall m :: 0 <= m < g.Blocks() ==> MapByte(g, e, m) == if m == n then v else MapByte(g, d, m)
  {
    var e := SetMap(g, d, n, v);
    forall m | 0 <= m < g.Blocks()
      ensures MapByte(g, e, m) == if m == n then v else MapByte(g, d, m)
    {
      CgByteSet(d, g.freeOff + n, v, g.freeOff + m);
    }
    forall i | 0 <= i < g.inodes ensures InodeAt(g, d, i) == InodeAt(g, e, i) {
      assert d[g.itable + i / 4] == e[g.itable + i / 4];
    }
  }

  lemma SetMapCount(g: Geom, d: Disk, n: nat, v: Byte)
    requires g.Valid() && |d| == g.sectors && n < g.Blocks()
    ensures var e := SetMap(g, d, n, v);
            CountFree(g, e, g.Blocks()) == CountFree(g, d, g.Blocks())
                                           - (if IsFree(g, d, n) then 1 else 0) + (if v == 0xFF then 1 else 0)
  {
    var e := SetMap(g, d, n, v);
    SetMapFrame(g, d, n, v);
    if IsFree(g, d, n) == IsFree(g, e, n) {
      CountFreeSame(g, d, e, g.Blocks());
    } else if IsFree(g, d, n) {
      CountFreeStep(g, d, e, n, g.Blocks());
    } else {
      CountFreeStep(g, e, d, n, g.Blocks());
    }
  }

  /** Taking a free block out of the map keeps every tree; the block becomes loose. */
  lemma AllocStep(g: Geom, tab: seq<Inode>, d: Disk, own: map<nat, Slot>, n: nat)
    requires Good(g, tab, d, own)
    requires n < g.Blocks() && IsFree(g, d, n)
    ensures var e := SetMap(g, d, n, 0);
            && Good(g, tab, e, own) && Loose(g, tab, e, own, g.Frag(n))
            && (forall s :: Val(tab, d, s) == Val(tab, e, s))
  {
    hide MapByte, SetMap;
    var e := SetMap(g, d, n, 0);
    SetMapFrame(g, d, n, 0);
    DataFrame(g, tab, d, e, own);
    assert g.Frag(n) in own ==> Owned(g, tab, d, own, g.Frag(n));
    forall m | 0 <= m < g.Blocks() && g.Frag(m) in own ensures !IsFree(g, e, m) {
      assert Owned(g, tab, d, own, g.Frag(m));
    }
    GoodFrame(g, tab, d, e, own);
  }

  /** Returning a loose block keeps every tree. */
  lemma FreeStep(g: Geom, tab: seq<Inode>, d: Disk, own: map<nat, Slot>, f: nat)
    requires Good(g, tab, d, own)
    requires Loose(g, tab, d, own, f)
    ensures var e := SetMap(g, d, g.BlockNo(f), 0xFF);
            && Good(g, tab, e, own)
            && (forall s :: Val(tab, d, s) == Val(tab, e, s))
  {
    hide MapByte, SetMap;
    var n := g.BlockNo(f);
    var e := SetMap(g, d, n, 0xFF);
    SetMapFrame(g, d, n, 0xFF);
    DataFrame(g, tab, d, e, own);
    forall m | 0 <= m < g.Blocks() && g.Frag(m) in own ensures !IsFree(g, e, m) {
      assert Owned(g, tab, d, own, g.Frag(m));
    }
    GoodFrame(g, tab, d, e, own);
  }

  /** A good volume whose cached count of free blocks is right. */
  ghost predicate Vol(g: Geom, tab: seq<Inode>, d: Disk, own: map<nat, Slot>, free: nat) {
    Good(g, tab, d, own) && free == CountFree(g, d, g.Blocks())
  }

  lemma TakeBlock(g: Geom, tab: seq<Inode>, d: Disk, own: map<nat, Slot>, free: nat, n: nat)
    requires Vol(g, tab, d, own, free)
    requires n < g.Blocks() && IsFree(g, d, n)
    ensures 0 < free && g.IsBlock(g.Frag(n)) && g.BlockNo(g.Frag(n)) == n
    ensures var e := SetMap(g, d, n, 0);
            && Vol(g, tab, e, own, free - 1) && Loose(g, tab, e, own, g.Frag(n))
            && (forall s :: Val(tab, d, s) == Val(tab, e, s))
  {
    AllocStep(g, tab, d, own, n);
    SetMapCount(g, d, n, 0);
  }

  lemma ReleaseBlock(g: Geom, tab: seq<Inode>, d: Disk, own: map<nat, Slot>, free: nat, f: nat)
    requires Vol(g, tab, d, own, free)
    requires Loose(g, tab, d, own, f)
    ensures var e := SetMap(g, d, g.BlockNo(f), 0xFF);
            && Vol(g, tab, e, own, free + 1)
            && (forall s :: Val(tab, d, s) == Val(tab, e, s))
  {
    FreeStep(g, tab, d, own, f);
    SetMapCount(g, d, g.BlockNo(f), 0xFF);
  }

  /** Where the map byte of block n lives. */
  lemma MapByteAt(g: Geom, d: Disk, n: nat)
    requires g.Valid() && |d| == g.sectors && n < g.Blocks()
    ensures var q := CG_SECTOR + (g.freeOff + n) / SECTOR; var o := (g.freeOff + n) % SECTOR;
            && q < |d|
            && (IsFree(g, d, n) <==> d[q][o] == 0xFF)
            && forall v: Byte :: SetMap(g, d, n, v) == d[q := d[q][o := v]]
  {
  }

  /** Only sectors before the data area changed, and not the free map. */
  ghost predicate Quiet(g: Geom, d: Disk, e: Disk) {
    && g.Valid() && |d| == g.sectors == |e|
    && SameData(g, d, e)
    && forall n :: 0 <= n < g.Blocks() ==> MapByte(g, e, n) == MapByte(g, d, n)
  }

  lemma QuietRefl(g: Geom, d: Disk)
    requires g.Valid() && |d| == g.sectors
    ensures Quiet(g, d, d)
  {
  }

  lemma QuietTrans(g: Geom, d: Disk, e: Disk, h: Disk)
    requires Quiet(g, d, e) && Quiet(g, e, h)
    ensures Quiet(g, d, h)
  {
    hide MapByte;
  }

  /** A change outside the data area and the free map is invisible to the block layer. */
  lemma LowStep(g: Geom, tab: seq<Inode>, d: Disk, e: Disk, own: map<nat, Slot>, free: nat)
    requires Vol(g, tab, d, own, free) && Quiet(g, d, e)
    ensures Vol(g, tab, e, own, free)
    ensures forall s :: Val(tab, d, s) == Val(tab, e, s)
  {
    hide MapByte;
    DataFrame(g, tab, d, e, own);
    forall m | 0 <= m < g.Blocks() && g.Frag(m) in own ensures !IsFree(g, e, m) {
      assert Owned(g, tab, d, own, g.Frag(m));
    }
    GoodFrame(g, tab, d, e, own);
    CountFreeSame(g, d, e, g.Blocks());
  }

  // ---- writing into blocks ----

  /** Two blocks never overlap. */
  lemma BlocksApart(g: Geom, v: nat, w: nat)
    requires g.IsBlock(v) && g.IsBlock(w) && v != w
    ensures v + FRAGS <= w || w + FRAGS <= v
  {
  }

  /** Overwriting a block that is not an indirect block of any file moves no pointer. */
  lemma WriteStep(g: Geom, tab: seq<Inode>, d: Disk, e: Disk, own: map<nat, Slot>, v: nat)
    requires Good(g, tab, d, own)
    requires g.IsBlock(v) && (v in own ==> !IsMeta(own[v]))
    requires |e| == |d| && forall q :: 0 <= q < |d| && !(v <= q < v + FRAGS) ==> d[q] == e[q]
    ensures forall s :: Val(tab, d, s) == Val(tab, e, s)
    ensures Good(g, tab, e, own)
    ensures Table(g, e) == Table(g, d)
    ensures forall n :: 0 <= n < g.Blocks() ==> MapByte(g, e, n) == MapByte(g, d, n)
  {
    forall m | IsMeta(m) && Val(tab, d, m) != 0 ensures SameBlock(d, e, Val(tab, d, m)) {
      assert Owned(g, tab, d, own, Val(tab, d, m));
      BlocksApart(g, v, Val(tab, d, m));
    }
    MetaFrame(tab, d, e);
    LowFrame(g, d, e);
    forall w | w in own ensures Owned(g, tab, e, own, w) {
      assert Owned(g, tab, d, own, w);
    }
  }

  /** Changing only the data area changes neither bitmap nor inode table. */
  lemma LowFrame(g: Geom, d: Disk, e: Disk)
    requires g.Valid() && |d| == g.sectors == |e|
    requires forall q :: 0 <= q < g.data ==> d[q] == e[q]
    ensures Table(g, e) == Table(g, d)
    ensures forall n :: 0 <= n < g.Blocks() ==> MapByte(g, e, n) == MapByte(g, d, n)
  {
    forall i | 0 <= i < g.inodes ensures InodeAt(g, d, i) == InodeAt(g, e, i) {
      assert d[g.itable + i / 4] == e[g.itable + i / 4];
    }
  }

  /** ufs_zero_block on a loose block. */
  lemma ZeroStep(g: Geom, tab: seq<Inode>, d: Disk, own: map<nat, Slot>, free: nat, f: nat)
    requires Vol(g, tab, d, own, free) && Loose(g, tab, d, own, f)
    ensures f + FRAGS <= |d|
    ensures var e := ZeroBlock(d, f);
            && Vol(g, tab, e, own, free) && Loose(g, tab, e, own, f) && EmptyBlock(e, f)
            && (forall s :: Val(tab, d, s) == Val(tab, e, s)) && Table(g, e) == Table(g, d)
            && (forall n :: 0 <= n < g.Blocks() ==> MapByte(g, e, n) == MapByte(g, d, n))
  {
    hide MapByte;
    var e := ZeroBlock(d, f);
    WriteStep(g, tab, d, e, own, f);
    CountFreeSame(g, d, e, g.Blocks());
    ZeroedEmpty(d, f);
  }

  // ---- attaching a block ----

  /** Slot s goes from 0 to f; every other slot keeps its value. */
  ghost predicate Attached(tab: seq<Inode>, d: Disk, tab': seq<Inode>, e: Disk, s: Slot, f: nat) {
    forall t :: Val(tab', e, t) == if t == s then f else Val(tab, d, t)
  }

  /** An indirect block with no entries. */
  predicate EmptyBlock(d: Disk, f: nat) {
    forall k :: 0 <= k < PTRS ==> Entry(d, f, k) == 0
  }

  lemma ZeroedEmpty(d: Disk, f: nat)
    requires f + FRAGS <= |d|
    ensures EmptyBlock(ZeroBlock(d, f), f)
  {
  }

  lemma AttachGood(g: Geom, tab: seq<Inode>, d: Disk, own: map<nat, Slot>, tab': seq<Inode>, e: Disk, s: Slot, f: nat)
    requires Good(g, tab, d, own) && Loose(g, tab, d, own, f)
    requires Attached(tab, d, tab', e, s, f) && Val(tab, d, s) == 0
    requires Shape(g, tab', e)
    requires forall n :: 0 <= n < g.Blocks() && !IsFree(g, d, n) ==> !IsFree(g, e, n)
    ensures Good(g, tab', e, own[f := s])
  {
    hide Val, MapByte;
    var own' := own[f := s];
    forall v | v in own' ensures Owned(g, tab', e, own', v) {
      if v != f {
        assert Owned(g, tab, d, own, v);
      }
    }
    forall t | Val(tab', e, t) != 0 ensures Val(tab', e, t) in own' && own'[Val(tab', e, t)] == t {
      if t != s {
        assert Val(tab, d, t) in own;
      }
    }
  }

  /** Storing f in an empty pointer field of an inode. */
  lemma AttachTop(g: Geom, tab: seq<Inode>, d: Disk, own: map<nat, Slot>, ino: nat, k: nat, f: U32)
    requires Good(g, tab, d, own) && Loose(g, tab, d, own, f)
    requires ino < g.inodes && !IsSymlink(tab[ino]) && k < 14 && TopPtr(tab[ino], k) == 0
    requires 12 <= k ==> EmptyBlock(d, f)
    ensures var tab' := tab[ino := SetTopPtr(tab[ino], k, f)];
            && !IsSymlink(tab'[ino])
            && Attached(tab, d, tab', d, Top(ino, k), f)
            && Good(g, tab', d, own[f := Top(ino, k)])
  {
    var i := tab[ino];
    var i' := SetTopPtr(i, k, f);
    var tab' := tab[ino := i'];
    SetTopFields(i, k, f);
    forall t ensures Val(tab', d, t) == if t == Top(ino, k) then f else Val(tab, d, t) {
      assert forall j :: 0 <= j < 14 ==> TopVal(tab', t.ino, j) == if t.ino == ino && j == k then f else TopVal(tab, t.ino, j);
      if t.Inner? && t.ino == ino && k == 13 {
        assert Entry(d, f, t.k) == 0;
      }
    }
    AttachGood(g, tab, d, own, tab', d, Top(ino, k), f);
  }

  /** Setting a pointer field leaves all other inode fields alone. */
  lemma SetTopFields(i: Inode, k: nat, f: U32)
    requires k < 14
    ensures var c := SetTopPtr(i, k, f);
            && (forall j :: 0 <= j < 14 ==> TopPtr(c, j) == if j == k then f else TopPtr(i, j))
            && Mode(c) == Mode(i) && Nlink(c) == Nlink(i) && Size(c) == Size(i)
  {
    forall j | 0 <= j < 14
      ensures TopPtr(SetTopPtr(i, k, f), j) == if j == k then f else TopPtr(i, j)
    {
      PutGet32(i, 40 + 4 * k, f, 40 + 4 * j);
    }
  }

  /** Storing f in an empty entry of an indirect block. */
  lemma AttachEntry(g: Geom, tab: seq<Inode>, d: Disk, own: map<nat, Slot>, s: Slot, f: U32)
    requires Good(g, tab, d, own) && Loose(g, tab, d, own, f)
    requires !s.Top? && Index(s) < PTRS && Val(tab, d, Parent(s)) != 0 && Val(tab, d, s) == 0
    requires s.Outer? ==> EmptyBlock(d, f)
    ensures var p := Val(tab, d, Parent(s));
            && g.IsBlock(p) && p + FRAGS <= |d|
            && var e := SetEntry(d, p, Index(s), f);
            && Attached(tab, d, tab, e, s, f)
            && Good(g, tab, e, own[f := s])
            && Table(g, e) == Table(g, d)
            && (forall n :: 0 <= n < g.Blocks() ==> MapByte(g, e, n) == MapByte(g, d, n))
  {
    var p := Val(tab, d, Parent(s));
    assert Owned(g, tab, d, own, p);
    var e := SetEntry(d, p, Index(s), f);
    forall t ensures Val(tab, e, t) == if t == s then f else Val(tab, d, t) {
      AttachEntryAt(g, tab, d, own, s, f, e, t);
    }
    LowFrame(g, d, e);
    AttachGood(g, tab, d, own, tab, e, s, f);
  }

  lemma AttachEntryAt(g: Geom, tab: seq<Inode>, d: Disk, own: map<nat, Slot>, s: Slot, f: U32, e: Disk, t: Slot)
    requires Good(g, tab, d, own) && Loose(g, tab, d, own, f)
    requires !s.Top? && Index(s) < PTRS && Val(tab, d, Parent(s)) != 0
    requires s.Outer? ==> EmptyBlock(d, f) && Val(tab, d, s) == 0
    requires var p := Val(tab, d, Parent(s)); p + FRAGS <= |d| && e == SetEntry(d, p, Index(s), f)
    ensures Val(tab, e, t) == if t == s then f else Val(tab, d, t)
    decreases if t.Inner? then 1 else 0
  {
    var p := Val(tab, d, Parent(s));
    if !t.Top? {
      if t.Inner? {
        AttachEntryAt(g, tab, d, own, s, f, e, Parent(t));
      }
      var q := Val(tab, e, Parent(t));
      if q != 0 {
        if Parent(t) == s {
          assert q == f;
        } else {
          assert q == Val(tab, d, Parent(t));
          assert Owned(g, tab, d, own, q);
        }
        assert Owned(g, tab, d, own, p);
        if q != p {
          BlocksApart(g, p, q);
        }
        EntrySet(d, p, Index(s), f, q, Index(t));
      }
    }
  }

  // ---- overwriting a pointer ----

  /** Data slot s goes from one block to f: the old block stays allocated and is nobody's. */
  ghost predicate Replaced(g: Geom, tab: seq<Inode>, d: Disk, own: map<nat, Slot>, tab': seq<Inode>, e: Disk, own': map<nat, Slot>, s: Slot, f: nat)
  {
    && g.Valid() && |d| == g.sectors == |e|
    && Attached(tab, d, tab', e, s, f)
    && own' == (own - {Val(tab, d, s)})[f := s]
    && forall n :: 0 <= n < g.Blocks() ==> MapByte(g, e, n) == MapByte(g, d, n)
  }

  lemma ReplaceGood(g: Geom, tab: seq<Inode>, d: Disk, own: map<nat, Slot>, tab': seq<Inode>, e: Disk, s: Slot, f: nat)
    requires Good(g, tab, d, own) && Loose(g, tab, d, own, f)
    requires Attached(tab, d, tab', e, s, f) && Val(tab, d, s) != 0
    requires Shape(g, tab', e)
    requires forall n :: 0 <= n < g.Blocks() && !IsFree(g, d, n) ==> !IsFree(g, e, n)
    ensures Good(g, tab', e, (own - {Val(tab, d, s)})[f := s])
  {
    hide Val, MapByte;
    var own' := (own - {Val(tab, d, s)})[f := s];
    forall v | v in own' ensures Owned(g, tab', e, own', v) {
      if v != f {
        assert Owned(g, tab, d, own, v);
      }
    }
    forall t | Val(tab', e, t) != 0 ensures Val(tab', e, t) in own' && own'[Val(tab', e, t)] == t {
      if t != s {
        assert Val(tab, d, t) in own && own[Val(tab, d, t)] == t;
      }
    }
  }

  lemma ReplaceTop(g: Geom, tab: seq<Inode>, d: Disk, own: map<nat, Slot>, ino: nat, k: nat, f: U32)
    requires Good(g, tab, d, own) && Loose(g, tab, d, own, f)
    requires ino < g.inodes && !IsSymlink(tab[ino]) && k < 12 && Val(tab, d, Top(ino, k)) != 0
    ensures var tab' := tab[ino := SetTopPtr(tab[ino], k, f)]; var own' := (own - {Val(tab, d, Top(ino, k))})[f := Top(ino, k)];
            Good(g, tab', d, own') && Replaced(g, tab, d, own, tab', d, own', Top(ino, k), f)
  {
    var i' := SetTopPtr(tab[ino], k, f);
    var tab' := tab[ino := i'];
    SetTopFields(tab[ino], k, f);
    forall t ensures Val(tab', d, t) == if t == Top(ino, k) then f else Val(tab, d, t) {
      assert forall j :: 0 <= j < 14 ==> TopVal(tab', t.ino, j) == if t.ino == ino && j == k then f else TopVal(tab, t.ino, j);
    }
    ReplaceGood(g, tab, d, own, tab', d, Top(ino, k), f);
  }

  lemma ReplaceEntry(g: Geom, tab: seq<Inode>, d: Disk, own: map<nat, Slot>, s: Slot, f: U32)
    requires Good(g, tab, d, own) && Loose(g, tab, d, own, f)
    requires !s.Top? && !IsMeta(s) && Index(s) < PTRS && Val(tab, d, Parent(s)) != 0 && Val(tab, d, s) != 0
    ensures var p := Val(tab, d, Parent(s));
            && g.IsBlock(p) && p + FRAGS <= |d|
            && var e := SetEntry(d, p, Index(s), f); var own' := (own - {Val(tab, d, s)})[f := s];
               Good(g, tab, e, own') && Replaced(g, tab, d, own, tab, e, own', s, f) && Table(g, e) == Table(g, d)
  {
    var p := Val(tab, d, Parent(s));
    assert Owned(g, tab, d, own, p);
    var e := SetEntry(d, p, Index(s), f);
    forall t ensures Val(tab, e, t) == if t == s then f else Val(tab, d, t) {
      AttachEntryAt(g, tab, d, own, s, f, e, t);
    }
    LowFrame(g, d, e);
    ReplaceGood(g, tab, d, own, tab, e, s, f);
  }

  // ---- detaching ----

  /** A tree of which some slots were cleared is still good. */
  lemma Cleared(g: Geom, tab: seq<Inode>, d: Disk, own: map<nat, Slot>, tab': seq<Inode>, e: Disk) returns (own': map<nat, Slot>)
    requires Good(g, tab, d, own) && Shape(g, tab', e)
    requires forall s :: Val(tab', e, s) == Val(tab, d, s) || Val(tab', e, s) == 0
    requires forall v :: v in own && Val(tab', e, own[v]) == v ==> !IsFree(g, e, g.BlockNo(v))
    ensures Good(g, tab', e, own')
    ensures own' == map v | v in own && Val(tab', e, own[v]) == v :: own[v]
  {
    own' := map v | v in own && Val(tab', e, own[v]) == v :: own[v];
    forall v | v in own' ensures Owned(g, tab', e, own', v) {
      assert Owned(g, tab, d, own, v);
    }
  }

  /** Changing inode fields other than the pointers moves no pointer. */
  lemma FieldsStep(g: Geom, tab: seq<Inode>, d: Disk, own: map<nat, Slot>, free: nat, ino: nat, i: Inode)
    requires Vol(g, tab, d, own, free) && ino < g.inodes
    requires IsSymlink(i) == IsSymlink(tab[ino])
    requires forall k :: 0 <= k < 14 ==> TopPtr(i, k) == TopPtr(tab[ino], k)
    ensures Vol(g, tab[ino := i], d, own, free)
    ensures forall s :: Val(tab[ino := i], d, s) == Val(tab, d, s)
  {
    var tab' := tab[ino := i];
    forall s ensures Val(tab', d, s) == Val(tab, d, s) {
      assert forall k: nat :: TopVal(tab', s.ino, k) == TopVal(tab, s.ino, k);
    }
    hide Val, MapByte;
    forall v | v in own ensures Owned(g, tab', d, own, v) {
      assert Owned(g, tab, d, own, v);
    }
  }
}
