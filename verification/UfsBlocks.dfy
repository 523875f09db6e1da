/** The UFS driver's block layer: allocator, inode I/O, block map, all through one sector buffer. */
module UfsBlocks {
  import opened Bytes
  import opened UfsFormat
  import opened UfsTree

  /** Logical blocks that direct, single and double indirect pointers reach. */
  const MAX_LOGICAL := NDIRECT + PTRS + PTRS * PTRS

  datatype Status = Ok | ENOSPC | EINVAL | EISDIR | EIO | ENOENT | ENOTEMPTY | EEXIST | EPERM

  /** From (d, own) to (e, own'): no owner is lost, no block is freed, what is newly taken is owned
      (except extra), new indirect blocks come from the free map, and only indirect blocks are overwritten. */
  ghost predicate Grows(g: Geom, d: Disk, own: map<nat, Slot>, e: Disk, own': map<nat, Slot>, extra: iset<nat>) {
    && g.Valid() && |d| == g.sectors == |e|
    && (forall v :: v in own ==> v in own' && own'[v] == own[v])
    && (forall n :: 0 <= n < g.Blocks() && IsFree(g, e, n) ==> IsFree(g, d, n))
    && (forall n :: 0 <= n < g.Blocks() && IsFree(g, d, n) && !IsFree(g, e, n) ==> g.Frag(n) in own' || g.Frag(n) in extra)
    && (forall v :: v in own' && v !in own && IsMeta(own'[v]) ==> g.IsBlock(v) && IsFree(g, d, g.BlockNo(v)))
    && (forall v :: Plain(g, d, own, v) ==> SameBlock(d, e, v))
  }

  /** An allocated block that is not an indirect block of a file. */
  ghost predicate Plain(g: Geom, d: Disk, own: map<nat, Slot>, v: nat)
    requires g.Valid() && |d| == g.sectors
  {
    g.IsBlock(v) && !IsFree(g, d, g.BlockNo(v)) && (v in own ==> !IsMeta(own[v]))
  }

  /** p is s, or one of the pointers followed on the way to it. */
  predicate OnPath(p: Slot, s: Slot) {
    p == s || (!s.Top? && (p == Parent(s) || (!Parent(s).Top? && p == Parent(Parent(s)))))
  }

  /** Among the owners in own' but not in own: the data block f at slot s, else indirect blocks on the way to s. */
  ghost predicate NewOwners(own: map<nat, Slot>, own': map<nat, Slot>, ino: nat, s: Slot, f: nat) {
    forall v :: v in own' && v !in own ==>
      (v == f && own'[v] == s) || (IsMeta(own'[v]) && own'[v].ino == ino && OnPath(own'[v], s))
  }

  ghost predicate NewMeta(own: map<nat, Slot>, own': map<nat, Slot>, s: Slot) {
    forall v :: v in own' && v !in own ==> IsMeta(own'[v]) && own'[v].ino == s.ino && OnPath(own'[v], s)
  }

  /** What is new hangs directly in the inode. */
  ghost predicate NewTops(own: map<nat, Slot>, own': map<nat, Slot>) {
    forall v :: v in own' && v !in own ==> own'[v].Top?
  }

  /** Equal in everything but the block pointers. */
  predicate SameFields(i: Inode, j: Inode) {
    Mode(i) == Mode(j) && Nlink(i) == Nlink(j) && Size(i) == Size(j)
  }

  /** What growing a tree does to the slot table. */
  lemma SlotsKept(g: Geom, tab: seq<Inode>, d: Disk, own: map<nat, Slot>,
                  tab': seq<Inode>, e: Disk, own': map<nat, Slot>, ino: nat, s: Slot, f: nat)
    requires Good(g, tab, d, own) && Good(g, tab', e, own')
    requires forall v :: v in own ==> v in own' && own'[v] == own[v]
    requires NewOwners(own, own', ino, s, f)
    ensures forall t :: Val(tab, d, t) != 0 ==> Val(tab', e, t) == Val(tab, d, t)
    ensures forall t :: t != s && (IsMeta(t) ==> t.ino != ino) ==> Val(tab', e, t) == Val(tab, d, t)
  {
    forall t | Val(tab, d, t) != 0 ensures Val(tab', e, t) == Val(tab, d, t) {
      var v := Val(tab, d, t);
      assert v in own && own[v] == t && Owned(g, tab', e, own', v);
    }
    forall t | t != s && (IsMeta(t) ==> t.ino != ino) ensures Val(tab', e, t) == Val(tab, d, t) {
      var v := Val(tab', e, t);
      if v != 0 {
        assert v in own' && own'[v] == t;
        assert Owned(g, tab, d, own, v);
      }
    }
  }

  /** A loose block stays loose while only indirect blocks are added. */
  lemma LooseKept(g: Geom, tab: seq<Inode>, d: Disk, own: map<nat, Slot>,
                  tab': seq<Inode>, e: Disk, own': map<nat, Slot>, s: Slot, f: nat)
    requires Loose(g, tab, d, own, f) && Shape(g, tab', e)
    requires Grows(g, d, own, e, own', iset{}) && NewMeta(own, own', s)
    ensures Loose(g, tab', e, own', f)
  {
  }

  /** e is d after taking block f from the free map and zeroing it. */
  ghost predicate Fresh(g: Geom, d: Disk, e: Disk, f: nat) {
    && g.Valid() && |d| == g.sectors == |e| && g.IsBlock(f)
    && IsFree(g, d, g.BlockNo(f))
    && (forall n :: 0 <= n < g.Blocks() ==> (IsFree(g, e, n) <==> IsFree(g, d, n) && n != g.BlockNo(f)))
    && (forall q :: g.data <= q < |d| ==> e[q] == if f <= q < f + FRAGS then ZeroSector() else d[q])
    && Table(g, e) == Table(g, d)
  }

  lemma GrowsTrans(g: Geom, d: Disk, own: map<nat, Slot>, e: Disk, own': map<nat, Slot>, h: Disk, own'': map<nat, Slot>)
    requires Grows(g, d, own, e, own', iset{}) && Grows(g, e, own', h, own'', iset{})
    ensures Grows(g, d, own, h, own'', iset{})
  {
    forall v | Plain(g, d, own, v) ensures SameBlock(d, h, v) {
      assert Plain(g, e, own', v);
    }
  }

  lemma FreshFrom(g: Geom, d: Disk, f: nat)
    requires g.Valid() && |d| == g.sectors && g.IsBlock(f) && IsFree(g, d, g.BlockNo(f))
    ensures f + FRAGS <= |d| && Fresh(g, d, ZeroBlock(SetMap(g, d, g.BlockNo(f), 0), f), f)
  {
    var m := SetMap(g, d, g.BlockNo(f), 0);
    SetMapFrame(g, d, g.BlockNo(f), 0);
    var e := ZeroBlock(m, f);
    LowFrame(g, m, e);
    hide MapByte, SetMap;
    assert Table(g, e) == Table(g, d);
  }

  lemma FreshTable(g: Geom, d: Disk, e: Disk, f: nat)
    requires Fresh(g, d, e, f)
    ensures Table(g, e) == Table(g, d)
  {
  }

  lemma FreshGrows(g: Geom, d: Disk, own: map<nat, Slot>, e: Disk, f: nat)
    requires Fresh(g, d, e, f)
    ensures Grows(g, d, own, e, own, iset{f})
  {
    forall v | Plain(g, d, own, v) ensures SameBlock(d, e, v) {
      BlocksApart(g, v, f);
    }
    forall n | 0 <= n < g.Blocks() && IsFree(g, d, n) && !IsFree(g, e, n) ensures g.Frag(n) in iset{f} {
      assert f == g.Frag(g.BlockNo(f));
    }
  }

  /** A fresh block becomes an indirect block named by the inode. */
  lemma FreshTop(g: Geom, tab: seq<Inode>, d: Disk, own: map<nat, Slot>, e: Disk, free: nat, ino: nat, k: nat, f: U32)
    requires Good(g, tab, d, own) && Fresh(g, d, e, f) && Vol(g, tab, e, own, free) && f !in own && EmptyBlock(e, f)
    requires ino < g.inodes && !IsSymlink(tab[ino]) && 12 <= k < 14 && TopPtr(tab[ino], k) == 0
    ensures var tab' := tab[ino := SetTopPtr(tab[ino], k, f)]; var own' := own[f := Top(ino, k)];
            && Vol(g, tab', e, own', free)
            && Attached(tab, e, tab', e, Top(ino, k), f)
            && Grows(g, d, own, e, own', iset{})
  {
    FreshGrows(g, d, own, e, f);
    AttachTop(g, tab, e, own, ino, k, f);
  }

  /** A fresh block becomes the inner indirect block at an outer entry. */
  lemma FreshOuter(g: Geom, tab: seq<Inode>, d: Disk, own: map<nat, Slot>, e: Disk, free: nat, s: Slot, f: U32)
    requires Good(g, tab, d, own) && Fresh(g, d, e, f) && Vol(g, tab, e, own, free) && f !in own && EmptyBlock(e, f)
    requires forall t :: Val(tab, d, t) == Val(tab, e, t)
    requires s.Outer? && s.k < PTRS && Val(tab, d, Parent(s)) != 0 && Val(tab, d, s) == 0
    ensures Val(tab, d, Parent(s)) + FRAGS <= |d|
    ensures var h := SetEntry(e, Val(tab, d, Parent(s)), s.k, f); var own' := own[f := s];
            && Vol(g, tab, h, own', free)
            && Attached(tab, e, tab, h, s, f)
            && Grows(g, d, own, h, own', iset{})
            && Table(g, h) == Table(g, d)
  {
    hide Val, MapByte, Entry, SetEntry, Vol, Good, EmptyBlock, Grows;
    FreshGrows(g, d, own, e, f);
    FreshTable(g, d, e, f);
    assert Loose(g, tab, e, own, f) by { VolShape(g, tab, e, own, free); }
    EntryVol(g, tab, e, own, free, s, f);
    EntryGrows(g, tab, d, own, e, s, f, iset{f});
  }

  /** Storing a pointer in an empty entry, with the cached count. */
  lemma EntryVol(g: Geom, tab: seq<Inode>, d: Disk, own: map<nat, Slot>, free: nat, s: Slot, f: U32)
    requires Vol(g, tab, d, own, free) && Loose(g, tab, d, own, f)
    requires !s.Top? && Index(s) < PTRS && Val(tab, d, Parent(s)) != 0 && Val(tab, d, s) == 0
    requires s.Outer? ==> EmptyBlock(d, f)
    ensures var p := Val(tab, d, Parent(s));
            && p + FRAGS <= |d|
            && var e := SetEntry(d, p, Index(s), f);
            && Vol(g, tab, e, own[f := s], free)
            && Attached(tab, d, tab, e, s, f)
            && Table(g, e) == Table(g, d)
  {
    AttachEntry(g, tab, d, own, s, f);
    hide MapByte, Val, Entry, SetEntry, EmptyBlock;
    CountFreeSame(g, d, SetEntry(d, Val(tab, d, Parent(s)), Index(s), f), g.Blocks());
  }

  lemma MetaParent(s: Slot)
    requires !s.Top?
    ensures IsMeta(Parent(s))
  {
  }

  lemma BlockLow(g: Geom, p: nat)
    requires g.Valid() && g.IsBlock(p)
    ensures g.data <= p && p + FRAGS <= g.sectors
  {
  }

  /** Writing an entry of an indirect block touches that block only. */
  lemma EntryGrows(g: Geom, tab: seq<Inode>, d: Disk, own: map<nat, Slot>, e: Disk, s: Slot, f: U32, x: iset<nat>)
    requires Good(g, tab, d, own) && Grows(g, d, own, e, own, x) && x <= iset{f as nat}
    requires !s.Top? && Index(s) < PTRS && Val(tab, d, Parent(s)) != 0
    requires f !in own && (IsMeta(s) ==> g.IsBlock(f) && IsFree(g, d, g.BlockNo(f)))
    ensures Val(tab, d, Parent(s)) + FRAGS <= |d|
    ensures var h := SetEntry(e, Val(tab, d, Parent(s)), Index(s), f);
            Grows(g, d, own, h, own[f := s], iset{})
  {
    hide Val, MapByte, Entry, Geom.Valid, U32At, PutU32, Index, Parent;
    var p := Val(tab, d, Parent(s));
    assert Owned(g, tab, d, own, p);
    MetaParent(s);
    BlockLow(g, p);
    var h := SetEntry(e, p, Index(s), f);
    LowFrame(g, e, h);
    forall v | Plain(g, d, own, v) ensures SameBlock(d, h, v) {
      BlocksApart(g, v, p);
    }
  }

  /** A slot never names sectors outside the device. */
  lemma InRange(g: Geom, tab: seq<Inode>, d: Disk, own: map<nat, Slot>, s: Slot)
    requires Good(g, tab, d, own) && Val(tab, d, s) != 0
    ensures Val(tab, d, s) + FRAGS <= |d|
  {
    assert Owned(g, tab, d, own, Val(tab, d, s));
  }

  /** The three ways a logical block is reached. */
  lemma MapCases(tab: seq<Inode>, d: Disk, ino: nat, l: nat)
    requires ino < |tab| && !IsSymlink(tab[ino])
    ensures l < NDIRECT ==> Val(tab, d, DataSlot(ino, l)) == TopPtr(tab[ino], l)
    ensures NDIRECT <= l < NDIRECT + PTRS ==>
      Val(tab, d, DataSlot(ino, l)) == Entry(d, TopPtr(tab[ino], 12), l - NDIRECT)
    ensures NDIRECT + PTRS <= l ==>
      var di := l - NDIRECT - PTRS;
      Val(tab, d, DataSlot(ino, l)) == Entry(d, Entry(d, TopPtr(tab[ino], 13), di / PTRS), di % PTRS)
  {
  }

  /** The indirect blocks on that way lie inside the device. */
  lemma MapInRange(g: Geom, tab: seq<Inode>, d: Disk, own: map<nat, Slot>, ino: nat, k: nat)
    requires Good(g, tab, d, own) && ino < g.inodes && !IsSymlink(tab[ino])
    ensures forall t :: 12 <= t < 14 && TopPtr(tab[ino], t) != 0 ==> TopPtr(tab[ino], t) + FRAGS <= |d|
    ensures Entry(d, TopPtr(tab[ino], 13), k) != 0 ==> Entry(d, TopPtr(tab[ino], 13), k) + FRAGS <= |d|
  {
    forall t | 12 <= t < 14 && TopPtr(tab[ino], t) != 0 ensures TopPtr(tab[ino], t) + FRAGS <= |d| {
      InRange(g, tab, d, own, Top(ino, t));
    }
    if Entry(d, TopPtr(tab[ino], 13), k) != 0 {
      InRange(g, tab, d, own, Outer(ino, k));
    }
  }

  lemma OuterVal(tab: seq<Inode>, d: Disk, ino: nat, k: nat)
    requires ino < |tab| && !IsSymlink(tab[ino])
    ensures Val(tab, d, Top(ino, 12)) == TopPtr(tab[ino], 12)
    ensures Val(tab, d, Top(ino, 13)) == TopPtr(tab[ino], 13)
    ensures Val(tab, d, Outer(ino, k)) == Entry(d, TopPtr(tab[ino], 13), k)
  {
  }

  lemma VolGood(g: Geom, tab: seq<Inode>, d: Disk, own: map<nat, Slot>, free: nat)
    requires Vol(g, tab, d, own, free)
    ensures Good(g, tab, d, own)
  {
  }

  lemma GrowsRefl(g: Geom, d: Disk, own: map<nat, Slot>)
    requires g.Valid() && |d| == g.sectors
    ensures Grows(g, d, own, d, own, iset{})
  {
  }

  lemma AttachTopGrows(g: Geom, tab: seq<Inode>, d: Disk, own: map<nat, Slot>, free: nat, ino: nat, k: nat, f: U32)
    requires Vol(g, tab, d, own, free) && Loose(g, tab, d, own, f)
    requires ino < g.inodes && !IsSymlink(tab[ino]) && k < 12 && Val(tab, d, Top(ino, k)) == 0
    ensures var i := SetTopPtr(tab[ino], k, f); var tab' := tab[ino := i]; var own' := own[f := Top(ino, k)];
            && Vol(g, tab', d, own', free) && SameFields(tab[ino], i)
            && Grows(g, d, own, d, own', iset{})
            && Val(tab', d, Top(ino, k)) == f
  {
    AttachTop(g, tab, d, own, ino, k, f);
    SetTopFields(tab[ino], k, f);
  }

  lemma DataEntryStep(g: Geom, tab: seq<Inode>, d: Disk, own: map<nat, Slot>, free: nat, s: Slot, f: U32)
    requires Vol(g, tab, d, own, free) && Loose(g, tab, d, own, f)
    requires !s.Top? && !IsMeta(s) && Index(s) < PTRS && Val(tab, d, Parent(s)) != 0 && Val(tab, d, s) == 0
    ensures var p := Val(tab, d, Parent(s));
            && p + FRAGS <= |d|
            && var e := SetEntry(d, p, Index(s), f); var own' := own[f := s];
            && Vol(g, tab, e, own', free)
            && Grows(g, d, own, e, own', iset{})
            && Table(g, e) == Table(g, d)
            && Val(tab, e, s) == f
  {
    GrowsRefl(g, d, own);
    EntryGrows(g, tab, d, own, d, s, f, iset{});
    EntryVol(g, tab, d, own, free, s, f);
  }

  lemma ReplaceEntryStep(g: Geom, tab: seq<Inode>, d: Disk, own: map<nat, Slot>, free: nat, s: Slot, f: U32)
    requires Vol(g, tab, d, own, free) && Loose(g, tab, d, own, f)
    requires !s.Top? && !IsMeta(s) && Index(s) < PTRS && Val(tab, d, Parent(s)) != 0 && Val(tab, d, s) != 0
    ensures var p := Val(tab, d, Parent(s));
            && p + FRAGS <= |d|
            && var e := SetEntry(d, p, Index(s), f); var own' := (own - {Val(tab, d, s)})[f := s];
            && Vol(g, tab, e, own', free)
            && Replaced(g, tab, d, own, tab, e, own', s, f)
            && Table(g, e) == Table(g, d)
            && Val(tab, e, s) == f
  {
    ReplaceEntry(g, tab, d, own, s, f);
    hide MapByte, Val, Entry, SetEntry, EmptyBlock;
    CountFreeSame(g, d, SetEntry(d, Val(tab, d, Parent(s)), Index(s), f), g.Blocks());
  }

  lemma ReplaceTopStep(g: Geom, tab: seq<Inode>, d: Disk, own: map<nat, Slot>, free: nat, ino: nat, k: nat, f: U32)
    requires Vol(g, tab, d, own, free) && Loose(g, tab, d, own, f)
    requires ino < g.inodes && !IsSymlink(tab[ino]) && k < 12 && Val(tab, d, Top(ino, k)) != 0
    ensures var i := SetTopPtr(tab[ino], k, f); var tab' := tab[ino := i]; var own' := (own - {Val(tab, d, Top(ino, k))})[f := Top(ino, k)];
            && Vol(g, tab', d, own', free) && SameFields(tab[ino], i)
            && Replaced(g, tab, d, own, tab', d, own', Top(ino, k), f)
            && Val(tab', d, Top(ino, k)) == f
  {
    ReplaceTop(g, tab, d, own, ino, k, f);
    SetTopFields(tab[ino], k, f);
  }

  /** While indirect blocks are added, a loose block stays loose and an empty data slot stays empty. */
  lemma MetaKept(g: Geom, tab: seq<Inode>, d: Disk, own: map<nat, Slot>,
                 tab': seq<Inode>, e: Disk, own': map<nat, Slot>, s: Slot, f: nat)
    requires Good(g, tab, d, own) && Good(g, tab', e, own')
    requires Grows(g, d, own, e, own', iset{}) && NewMeta(own, own', s)
    requires Loose(g, tab, d, own, f) && !IsMeta(s) && Val(tab, d, s) == 0
    ensures Loose(g, tab', e, own', f) && Val(tab', e, s) == 0
  {
    LooseKept(g, tab, d, own, tab', e, own', s, f);
    hide Val, IsFree, Grows;
    var v := Val(tab', e, s);
    assert v != 0 ==> v in own' && own'[v] == s;
    assert v in own ==> Owned(g, tab, d, own, v);
  }

  lemma MetaOwners(own: map<nat, Slot>, own': map<nat, Slot>, ino: nat, s: Slot, f: nat)
    requires NewMeta(own, own', s) && s.ino == ino
    ensures NewOwners(own, own', ino, s, f)
  {
  }

  lemma DataOwner(own: map<nat, Slot>, own1: map<nat, Slot>, own': map<nat, Slot>, ino: nat, s: Slot, f: nat)
    requires NewMeta(own, own1, s) && own' == own1[f := s] && s.ino == ino
    ensures NewOwners(own, own', ino, s, f)
  {
  }

  /** A block that is there has its indirect blocks there. */
  lemma PathThere(tab: seq<Inode>, d: Disk, ino: nat, l: nat)
    requires l < MAX_LOGICAL && ino < |tab|
    ensures var s := DataSlot(ino, l);
            && s.ino == ino && !IsMeta(s)
            && (Val(tab, d, s) != 0 && NDIRECT <= l < NDIRECT + PTRS ==> TopPtr(tab[ino], 12) != 0)
            && (Val(tab, d, s) != 0 && NDIRECT + PTRS <= l ==>
                  TopPtr(tab[ino], 13) != 0 && Val(tab, d, Outer(ino, (l - NDIRECT - PTRS) / PTRS)) != 0)
  {
  }

  lemma NewMetaTrans(g: Geom, d: Disk, own: map<nat, Slot>, e: Disk, own': map<nat, Slot>, own'': map<nat, Slot>, h: Disk, s: Slot)
    requires Grows(g, e, own', h, own'', iset{})
    requires NewMeta(own, own', s) && NewMeta(own', own'', s)
    ensures NewMeta(own, own'', s)
  {
  }

  lemma {:induction false} CountBound(g: Geom, d: Disk, n: nat)
    requires g.Valid() && |d| == g.sectors && n <= g.Blocks()
    ensures CountFree(g, d, n) <= n
  {
    if n > 0 {
      CountBound(g, d, n - 1);
    }
  }

  lemma VolCount(g: Geom, tab: seq<Inode>, d: Disk, own: map<nat, Slot>, free: nat)
    requires Vol(g, tab, d, own, free)
    ensures free <= g.Blocks() < WORD
  {
    CountBound(g, d, g.Blocks());
  }

  lemma MarkStep(g: Geom, tab: seq<Inode>, d: Disk, own: map<nat, Slot>, free: nat, ino: nat, on: bool)
    requires Vol(g, tab, d, own, free) && ino < g.inodes && (on ==> ROOT_INO <= ino)
    ensures var e := SetUsed(g, d, ino, on);
            Vol(g, tab, e, own, free) && Quiet(g, d, e) && Table(g, e) == Table(g, d) && Marks(g, e) == Marks(g, d)[ino := on]
  {
    hide MapByte, SetUsed, InoUsed;
    SetUsedFrame(g, d, ino, on);
    var e := SetUsed(g, d, ino, on);
    assert forall j :: 0 <= j < g.inodes ==> Marks(g, e)[j] == if j == ino then on else Marks(g, d)[j];
    TableSame(g, d, e);
    LowStep(g, tab, d, e, own, free);
  }

  lemma SyncStep(g: Geom, tab: seq<Inode>, d: Disk, own: map<nat, Slot>, free: nat, nb: U32, ni: U32)
    requires Vol(g, tab, d, own, free)
    ensures var e := SyncedSuper(g, d, nb, ni);
            Vol(g, tab, e, own, free) && Quiet(g, d, e) && Table(g, e) == Table(g, d) && Marks(g, e) == Marks(g, d)
  {
    hide MapByte, SyncedSuper, InoUsed;
    SyncedFrame(g, d, nb, ni);
    var e := SyncedSuper(g, d, nb, ni);
    assert forall j :: 0 <= j < g.inodes ==> Marks(g, e)[j] == Marks(g, d)[j];
    TableSame(g, d, e);
    LowStep(g, tab, d, e, own, free);
  }

  /** Marking block n free and counting one more: sound exactly for an allocated block without an owner. */
  lemma FreeAny(g: Geom, tab: seq<Inode>, d: Disk, own: map<nat, Slot>, free: nat, n: nat)
    requires Vol(g, tab, d, own, free) && n < g.Blocks()
    ensures var e := SetMap(g, d, n, 0xFF);
      && (forall s :: Val(tab, d, s) == Val(tab, e, s))
      && (Vol(g, tab, e, own, free + 1) <==> Loose(g, tab, d, own, g.Frag(n)))
  {
    var e, f := SetMap(g, d, n, 0xFF), g.Frag(n);
    assert g.IsBlock(f) && g.BlockNo(f) == n;
    SetMapFrame(g, d, n, 0xFF);
    SetMapCount(g, d, n, 0xFF);
    VolShape(g, tab, d, own, free);
    DataFrame(g, tab, d, e, own);
    if Loose(g, tab, d, own, f) {
      ReleaseBlock(g, tab, d, own, free, f);
    } else {
      hide SetMap, MapByte, Val;
      assert IsFree(g, e, n);
      assert f in own ==> Owned(g, tab, d, own, f) && (Good(g, tab, e, own) ==> Owned(g, tab, e, own, f));
    }
  }

  lemma MapInside(g: Geom, n: nat)
    requires g.Valid() && g.sectors <= CG_SECTOR + (g.freeOff + n) / SECTOR
    ensures g.Blocks() <= n
  {
  }

  lemma CgStored(d: Disk, off: nat, v: Byte)
    requires CgIn(d, off)
    ensures SetCgByte(d, off, v) == d[CG_SECTOR + off / SECTOR := d[CG_SECTOR + off / SECTOR][off % SECTOR := v]]
  {
  }

  lemma MapIsByte(g: Geom, d: Disk, n: nat, v: Byte)
    requires g.Valid() && |d| == g.sectors && n < g.Blocks()
    ensures CgIn(d, g.freeOff + n) && SetMap(g, d, n, v) == SetCgByte(d, g.freeOff + n, v)
  {
  }

  /** A byte behind the map is none of it, so the count is off. */
  lemma BehindMap(g: Geom, tab: seq<Inode>, d: Disk, own: map<nat, Slot>, free: nat, n: nat)
    requires Vol(g, tab, d, own, free) && g.Blocks() <= n && CgIn(d, g.freeOff + n)
    ensures !Vol(g, tab, SetCgByte(d, g.freeOff + n, 0xFF), own, free + 1)
  {
    var e := SetCgByte(d, g.freeOff + n, 0xFF);
    forall m | 0 <= m < g.Blocks() ensures IsFree(g, e, m) <==> IsFree(g, d, m) {
      CgByteSet(d, g.freeOff + n, 0xFF, g.freeOff + m);
    }
    CountFreeSame(g, d, e, g.Blocks());
  }

  lemma RootIn(g: Geom)
    requires g.Valid()
    ensures ROOT_INO < g.inodes
  {
  }

  lemma MarkIs(g: Geom, d: Disk, ino: nat, on: bool)
    requires g.Valid() && |d| == g.sectors && ino < g.inodes
    ensures var o := g.iusedOff + ino / 8; var q := CG_SECTOR + o / SECTOR;
            && q < |d| && (Marks(g, d)[ino] <==> ROOT_INO <= ino && Bit(d[q][o % SECTOR], ino % 8))
            && SetUsed(g, d, ino, on) == d[q := d[q][o % SECTOR := ByteWithBit(d[q][o % SECTOR], ino % 8, on)]]
  {
    hide ByteWithBit;
  }

  lemma MarksMap(g: Geom, d: Disk, n: nat, v: Byte)
    requires g.Valid() && |d| == g.sectors && n < g.Blocks()
    ensures Marks(g, SetMap(g, d, n, v)) == Marks(g, d)
  {
    MarksOfByte(g, d, g.freeOff + n, v);
  }

  lemma MarksData(g: Geom, d: Disk, e: Disk)
    requires g.Valid() && |d| == g.sectors == |e|
    requires forall q :: 0 <= q < g.data ==> d[q] == e[q]
    ensures Marks(g, e) == Marks(g, d)
  {
    MarksSame(g, d, e);
  }

  /** Writing the block a slot names leaves the bitmap alone. */
  lemma MarksMeta(g: Geom, tab: seq<Inode>, d: Disk, own: map<nat, Slot>, m: Disk, e: Disk, s: Slot)
    requires Good(g, tab, d, own) && Val(tab, d, s) != 0 && |d| == |m| == |e|
    requires forall q :: 0 <= q < |m| && !(Val(tab, d, s) <= q < Val(tab, d, s) + FRAGS) ==> m[q] == e[q]
    ensures Marks(g, e) == Marks(g, m)
  {
    assert Owned(g, tab, d, own, Val(tab, d, s));
    MarksData(g, m, e);
  }

  lemma VolShape(g: Geom, tab: seq<Inode>, d: Disk, own: map<nat, Slot>, free: nat)
    requires Vol(g, tab, d, own, free)
    ensures Shape(g, tab, d)
  {
  }

  class Ufs {
    const g: Geom
    var disk: Disk
    var buf: Sector               // ufs_buf
    var scratch: Page             // the out-of-segment scratch page
    var freeBlocks: nat           // ufs_priv.free_blocks
    var freeInodes: U32           // ufs_priv.free_inodes
    ghost var tab: seq<Inode>     // the inodes, with the copy an operation is working on
    ghost var own: map<nat, Slot> // who points to which block
    ghost var marks: seq<bool>    // which inodes are in use

    ghost predicate Valid()
      reads this
    {
      Vol(g, tab, disk, own, freeBlocks) && marks == Marks(g, disk)
    }

    /** No inode copy is pending: the table is the one on disk. */
    ghost predicate Steady()
      reads this
    {
      Valid() && tab == Table(g, disk)
    }

    constructor Mount(geom: Geom, d: Disk, fi: U32, ghost owner: map<nat, Slot>)
      requires geom.Valid() && |d| == geom.sectors
      requires Good(geom, Table(geom, d), d, owner)
      ensures g == geom && disk == d && own == owner && freeInodes == fi && Steady()
    {
      g := geom;
      disk := d;
      buf, scratch := ZeroSector(), seq(4096, _ => 0);
      freeBlocks := CountFree(geom, d, geom.Blocks());
      freeInodes := fi;
      tab := Table(geom, d);
      own := owner;
      marks := Marks(geom, d);
    }

    method ReadSector(q: nat)
      requires q < |disk|
      modifies this`buf
      ensures buf == disk[q]
    {
      buf := disk[q];
    }

    method WriteSector(q: nat)
      requires q < |disk|
      modifies this`disk
      ensures disk == old(disk)[q := buf]
    {
      disk := disk[q := buf];
    }

    // ---- allocator ----

    method AllocBlock() returns (rc: Status, frag: U32)
      requires Valid()
      modifies this`disk, this`buf, this`freeBlocks
      ensures Valid()
      ensures rc == Ok || rc == ENOSPC
      ensures rc == ENOSPC <==> forall n :: 0 <= n < g.Blocks() ==> !IsFree(g, old(disk), n)
      ensures rc == ENOSPC ==> disk == old(disk)
      ensures old(freeBlocks) == freeBlocks + if rc == Ok then 1 else 0
      ensures rc == Ok ==>
        && g.IsBlock(frag) && IsFree(g, old(disk), g.BlockNo(frag))
        && (forall m :: 0 <= m < g.BlockNo(frag) ==> !IsFree(g, old(disk), m))
        && disk == SetMap(g, old(disk), g.BlockNo(frag), 0)
        && Loose(g, tab, disk, own, frag)
        && (forall s :: Val(tab, old(disk), s) == Val(tab, disk, s))
    {
      hide Vol, Good, Loose, MapByte, SetMap;
      frag := 0;
      var n := 0;
      assert g.Valid() && |disk| == g.sectors by { VolShape(g, tab, disk, own, freeBlocks); }
      while n < g.Blocks()
        invariant 0 <= n <= g.Blocks() && disk == old(disk) && freeBlocks == old(freeBlocks)
        invariant forall m :: 0 <= m < n ==> !IsFree(g, old(disk), m)
      {
        var byteOff := g.freeOff + n;
        MapByteAt(g, disk, n);
        ReadSector(CG_SECTOR + byteOff / SECTOR);
        if buf[byteOff % SECTOR] == 0xFF {
          TakeBlock(g, tab, disk, own, freeBlocks, n);
          buf := buf[byteOff % SECTOR := 0];
          WriteSector(CG_SECTOR + byteOff / SECTOR);
          assert disk == SetMap(g, old(disk), n, 0);
          MarksMap(g, old(disk), n, 0);
          freeBlocks := freeBlocks - 1;
          frag := g.Frag(n);
          return Ok, frag;
        }
        n := n + 1;
      }
      rc := ENOSPC;
    }

    /** ufs_free_block. The volume stays sound exactly when the block was allocated and nothing pointed to it; for
        a number past the data area it writes behind the map. */
    method FreeBlock(frag: nat) returns (rc: Status)
      requires Valid()
      modifies this`disk, this`buf, this`freeBlocks
      ensures frag < g.data ==> rc == EINVAL
      ensures g.data <= frag && !CgIn(old(disk), g.freeOff + g.BlockNo(frag)) ==> rc == EIO
      ensures rc != Ok ==> disk == old(disk) && freeBlocks == old(freeBlocks)
      ensures g.data <= frag && CgIn(old(disk), g.freeOff + g.BlockNo(frag)) ==>
        && rc == Ok && disk == SetCgByte(old(disk), g.freeOff + g.BlockNo(frag), 0xFF) && freeBlocks == old(freeBlocks) + 1
        && (Valid() <==> g.BlockNo(frag) < g.Blocks() && Loose(g, tab, old(disk), own, g.Frag(g.BlockNo(frag))))
      ensures g.data <= frag && g.BlockNo(frag) < g.Blocks() ==> rc == Ok && disk == SetMap(g, old(disk), g.BlockNo(frag), 0xFF)
      ensures frag < g.data || Loose(g, tab, old(disk), own, frag) ==> Valid()
      ensures g.data <= frag ==> g.BlockNo(frag) < g.Blocks() ==> forall s :: Val(tab, old(disk), s) == Val(tab, disk, s)
    {
      hide Vol, Good, MapByte, SetMap, Geom.Valid, IsFree, CgByte, SetCgByte;
      VolShape(g, tab, disk, own, freeBlocks);
      if frag < g.data {
        return EINVAL;
      }
      var n := (frag - g.data) / FRAGS;
      var byteOff := g.freeOff + n;
      if |disk| <= CG_SECTOR + byteOff / SECTOR {
        assert !CgIn(disk, byteOff);
        MapInside(g, n);
        return EIO;
      }
      assert CgIn(disk, byteOff);
      ReadSector(CG_SECTOR + byteOff / SECTOR);
      buf := buf[byteOff % SECTOR := 0xFF];
      WriteSector(CG_SECTOR + byteOff / SECTOR);
      CgStored(old(disk), byteOff, 0xFF);
      assert disk == SetCgByte(old(disk), byteOff, 0xFF);
      freeBlocks := freeBlocks + 1;
      if n < g.Blocks() {
        FreeAny(g, tab, old(disk), own, old(freeBlocks), n);
        MapByteAt(g, old(disk), n);
        MapIsByte(g, old(disk), n, 0xFF);
        MarksMap(g, old(disk), n, 0xFF);
      } else {
        BehindMap(g, tab, old(disk), own, old(freeBlocks), n);
      }
      return Ok;
    }

    method ZeroFrags(frag: nat)
      requires Valid() && Loose(g, tab, disk, own, frag)
      modifies this`disk, this`buf
      ensures Valid() && Loose(g, tab, disk, own, frag)
      ensures disk == ZeroBlock(old(disk), frag)
      ensures forall s :: Val(tab, old(disk), s) == Val(tab, disk, s)
      ensures EmptyBlock(disk, frag)
    {
      ZeroStep(g, tab, disk, own, freeBlocks, frag);
      hide Vol, Good, Loose;
      buf := ZeroSector();
      var s := 0;
      while s < FRAGS
        invariant 0 <= s <= FRAGS && buf == ZeroSector()
        invariant |disk| == |old(disk)|
        invariant forall q :: 0 <= q < |disk| ==> disk[q] == if frag <= q < frag + s then ZeroSector() else old(disk)[q]
      {
        WriteSector(frag + s);
        s := s + 1;
      }
      assert disk == ZeroBlock(old(disk), frag);
      MarksData(g, old(disk), disk);
    }

    // ---- inode bitmap and superblock ----

    method AllocInode() returns (rc: Status, ino: nat)
      requires Valid()
      modifies this`disk, this`buf, this`freeInodes, this`marks
      ensures Valid() && Quiet(g, old(disk), disk) && Table(g, disk) == Table(g, old(disk))
      ensures rc == Ok || rc == ENOSPC
      ensures rc == Ok ==>
        && ROOT_INO < ino < g.inodes == |old(marks)| && !old(marks)[ino]
        && (forall j :: ROOT_INO < j < ino ==> old(marks)[j])
        && marks == old(marks)[ino := true]
        && freeInodes == (old(freeInodes) + WORD - 1) % WORD
      ensures rc == ENOSPC ==>
        disk == old(disk) && marks == old(marks) && freeInodes == old(freeInodes) && |marks| == g.inodes && forall j :: ROOT_INO < j < g.inodes ==> marks[j]
    {
      hide Vol, Good, Bit, ByteWithBit, CountFree, Quiet, SetUsed, InoUsed, SameTable, Geom.Valid, CgByte, Table;
      VolShape(g, tab, disk, own, freeBlocks);
      QuietRefl(g, disk);
      RootIn(g);
      ino := ROOT_INO + 1;
      while ino < g.inodes
        invariant ROOT_INO < ino <= g.inodes
        invariant Valid() && disk == old(disk) && freeInodes == old(freeInodes) && marks == old(marks)
        invariant forall j :: ROOT_INO < j < ino ==> marks[j]
      {
        var byteOff := g.iusedOff + ino / 8;
        MarkIs(g, disk, ino, true);
        ReadSector(CG_SECTOR + byteOff / SECTOR);
        if !Bit(buf[byteOff % SECTOR], ino % 8) {
          buf := buf[byteOff % SECTOR := ByteWithBit(buf[byteOff % SECTOR], ino % 8, true)];
          WriteSector(CG_SECTOR + byteOff / SECTOR);
          assert disk == SetUsed(g, old(disk), ino, true);
          MarkStep(g, tab, old(disk), own, freeBlocks, ino, true);
          marks := marks[ino := true];
          freeInodes := if freeInodes == 0 then WORD - 1 else freeInodes - 1;
          return Ok, ino;
        }
        ino := ino + 1;
      }
      return ENOSPC, 0;
    }

    method FreeInode(ino: nat) returns (rc: Status)
      requires Valid()
      modifies this`disk, this`buf, this`freeInodes, this`marks
      ensures Valid() && Quiet(g, old(disk), disk) && Table(g, disk) == Table(g, old(disk))
      ensures if ino < g.inodes then rc == Ok && ino < |old(marks)| && marks == old(marks)[ino := false] && freeInodes == (old(freeInodes) + 1) % WORD
              else rc == EINVAL && disk == old(disk) && marks == old(marks) && freeInodes == old(freeInodes)
    {
      hide Vol, Good, ByteWithBit, CountFree, Quiet, SetUsed;
      VolShape(g, tab, disk, own, freeBlocks);
      if g.inodes <= ino {
        QuietRefl(g, disk);
        return EINVAL;
      }
      var byteOff := g.iusedOff + ino / 8;
      ReadSector(CG_SECTOR + byteOff / SECTOR);
      buf := buf[byteOff % SECTOR := ByteWithBit(buf[byteOff % SECTOR], ino % 8, false)];
      WriteSector(CG_SECTOR + byteOff / SECTOR);
      assert disk == SetUsed(g, old(disk), ino, false) by { MarkIs(g, old(disk), ino, false); }
      MarkStep(g, tab, old(disk), own, freeBlocks, ino, false);
      marks := marks[ino := false];
      freeInodes := (freeInodes + 1) % WORD;
      return Ok;
    }

    method SyncSuper()
      requires Valid()
      modifies this`disk, this`buf
      ensures Valid() && Quiet(g, old(disk), disk) && Table(g, disk) == Table(g, old(disk))
      ensures freeBlocks < WORD && disk == SyncedSuper(g, old(disk), freeBlocks, freeInodes)
    {
      hide Vol, Good, CountFree, Quiet;
      VolShape(g, tab, disk, own, freeBlocks);
      VolCount(g, tab, disk, own, freeBlocks);
      SyncStep(g, tab, disk, own, freeBlocks, freeBlocks, freeInodes);
      ReadSector(SB_SECTOR);
      buf := PutU32(PutU32(buf, 196, freeBlocks), 200, freeInodes);
      WriteSector(SB_SECTOR);
      ReadSector(CG_SECTOR);
      buf := PutU32(PutU32(buf, 28, freeBlocks), 32, freeInodes);
      WriteSector(CG_SECTOR);
    }

    /** ufs_alloc_block followed by ufs_zero_block, as every caller pairs them. */
    method AllocZeroed() returns (rc: Status, frag: U32)
      requires Valid()
      modifies this`disk, this`buf, this`freeBlocks
      ensures Valid()
      ensures rc == Ok || rc == ENOSPC
      ensures rc == ENOSPC <==> forall n :: 0 <= n < g.Blocks() ==> !IsFree(g, old(disk), n)
      ensures rc == ENOSPC ==> disk == old(disk)
      ensures old(freeBlocks) == freeBlocks + if rc == Ok then 1 else 0
      ensures rc == Ok ==> Fresh(g, old(disk), disk, frag) && frag !in own && EmptyBlock(disk, frag) && frag != 0
      ensures |disk| == |old(disk)|
      ensures rc == Ok ==> Loose(g, tab, disk, own, frag)
      ensures forall s :: Val(tab, old(disk), s) == Val(tab, disk, s)
    {
      hide Vol, Good, Fresh, EmptyBlock, Val, SetMap, MapByte, ZeroBlock, SameTable;
      VolShape(g, tab, disk, own, freeBlocks);
      rc, frag := AllocBlock();
      if rc == Ok {
        ghost var mid := disk;
        ZeroFrags(frag);
        ZeroStep(g, tab, mid, own, freeBlocks, frag);
        FreshFrom(g, old(disk), frag);
        assert frag !in own && frag != 0;
      }
    }

    // ---- inodes ----

    method ReadInode(ino: nat) returns (i: Inode)
      requires g.Valid() && |disk| == g.sectors && ino < g.inodes
      modifies this`buf
      ensures i == InodeAt(g, disk, ino)
    {
      ReadSector(g.itable + ino / 4);
      i := buf[ino % 4 * 128..ino % 4 * 128 + 128];
    }

    method WriteInode(ino: nat, i: Inode)
      requires Valid() && ino < g.inodes
      modifies this`buf, this`disk
      ensures Valid()
      ensures disk == PutInode(g, old(disk), ino, i)
      ensures Table(g, disk) == Table(g, old(disk))[ino := i]
      ensures Quiet(g, old(disk), disk)
    {
      ReadSector(g.itable + ino / 4);
      buf := Splice(buf, ino % 4 * 128, i);
      WriteSector(g.itable + ino / 4);
      assert disk == PutInode(g, old(disk), ino, i);
      TablePut(g, old(disk), ino, i);
      forall n | 0 <= n < g.Blocks() ensures MapByte(g, disk, n) == MapByte(g, old(disk), n) {
        assert CG_SECTOR + (g.freeOff + n) / SECTOR < g.itable;
      }
      assert Quiet(g, old(disk), disk);
      LowStep(g, tab, old(disk), disk, own, freeBlocks);
      MarksSame(g, old(disk), disk);
    }

    // ---- block map ----

    method BlockMap(inode: Inode, logical: nat, ghost ino: nat) returns (rc: Status, phys: U32)
      requires Valid() && ino < g.inodes && tab[ino] == inode && !IsSymlink(inode)
      modifies this`buf
      ensures rc == Ok || rc == EIO
      ensures rc == Ok <==> logical < MAX_LOGICAL
      ensures rc == Ok ==> phys == Val(tab, disk, DataSlot(ino, logical))
    {
      hide Vol, Good, U32At, Val, DataSlot, Geom.Valid, IsSymlink, TopPtr;
      VolShape(g, tab, disk, own, freeBlocks);
      VolGood(g, tab, disk, own, freeBlocks);
      MapCases(tab, disk, ino, logical);
      MapInRange(g, tab, disk, own, ino, if NDIRECT + PTRS <= logical then (logical - NDIRECT - PTRS) / PTRS else 0);
      if logical < NDIRECT {
        return Ok, TopPtr(inode, logical);
      }
      var indIdx := logical - NDIRECT;
      if indIdx < PTRS {
        if TopPtr(inode, 12) == 0 {
          return Ok, 0;
        }
        ReadSector(TopPtr(inode, 12) + indIdx / PTRS_SEC);
        return Ok, U32At(buf, 4 * (indIdx % PTRS_SEC));
      }
      var diIdx := indIdx - PTRS;
      if PTRS * PTRS <= diIdx {
        return EIO, 0;
      }
      if TopPtr(inode, 13) == 0 {
        return Ok, 0;
      }
      var outer := diIdx / PTRS;
      var inner := diIdx % PTRS;
      ReadSector(TopPtr(inode, 13) + outer / PTRS_SEC);
      var innerFrag := U32At(buf, 4 * (outer % PTRS_SEC));
      if innerFrag == 0 {
        return Ok, 0;
      }
      ReadSector(innerFrag + inner / PTRS_SEC);
      return Ok, U32At(buf, 4 * (inner % PTRS_SEC));
    }

    /** The i_ib[k - 12] part of ufs_block_set: allocate that indirect block on demand. */
    method EnsureTop(inode: Inode, k: nat, ghost ino: nat, ghost s: Slot) returns (rc: Status, inode': Inode)
      requires s.ino == ino && OnPath(Top(ino, k), s)
      requires Valid() && ino < g.inodes && tab[ino] == inode && !IsSymlink(inode) && 12 <= k < 14
      modifies this`disk, this`buf, this`freeBlocks, this`tab, this`own
      ensures Valid() && tab == old(tab)[ino := inode'] && SameFields(inode, inode')
      ensures Table(g, disk) == Table(g, old(disk))
      ensures Grows(g, old(disk), old(own), disk, own, iset{}) && NewMeta(old(own), own, s) && NewTops(old(own), own)
      ensures rc == Ok ==> TopPtr(inode', k) != 0
      ensures TopPtr(inode, k) != 0 ==> rc == Ok && inode' == inode && tab == old(tab) && disk == old(disk) && own == old(own) && freeBlocks == old(freeBlocks)
      ensures freeBlocks <= old(freeBlocks) <= freeBlocks + if rc == Ok then 1 else 0
      ensures rc == Ok || (rc == ENOSPC && forall n :: 0 <= n < g.Blocks() ==> !IsFree(g, disk, n))
    {
      hide Vol, Good, Grows, Fresh, EmptyBlock, TopPtr, SetTopPtr, Loose, Val, Geom.Valid, IsFree;
      rc, inode' := Ok, inode;
      VolShape(g, tab, disk, own, freeBlocks);
      VolGood(g, tab, disk, own, freeBlocks);
      GrowsRefl(g, disk, own);
      if TopPtr(inode, k) == 0 {
        var f;
        rc, f := AllocZeroed();
        if rc == Ok {
          FreshTop(g, tab, old(disk), own, disk, freeBlocks, ino, k, f);
          SetTopFields(inode, k, f);
          FreshTable(g, old(disk), disk, f);
          inode' := SetTopPtr(inode, k, f);
          own := own[f := Top(ino, k)];
          tab := tab[ino := inode'];
        }
      }
    }

    /** The inner-block part of ufs_block_set: the outer sector is read again after the allocation. */
    method EnsureInner(inode: Inode, outer: nat, ghost ino: nat, ghost s: Slot) returns (rc: Status, inner: U32)
      requires s.ino == ino && OnPath(Outer(ino, outer), s)
      requires Valid() && ino < g.inodes && tab[ino] == inode && !IsSymlink(inode)
      requires TopPtr(inode, 13) != 0 && outer < PTRS
      modifies this`disk, this`buf, this`freeBlocks, this`own
      ensures Valid() && Table(g, disk) == Table(g, old(disk))
      ensures Grows(g, old(disk), old(own), disk, own, iset{}) && NewMeta(old(own), own, s)
      ensures rc != Ok ==> own == old(own)
      ensures rc == Ok ==> inner != 0 && inner == Val(tab, disk, Outer(ino, outer))
      ensures Val(tab, old(disk), Outer(ino, outer)) != 0 ==> rc == Ok && disk == old(disk) && own == old(own) && freeBlocks == old(freeBlocks)
      ensures freeBlocks <= old(freeBlocks) <= freeBlocks + if rc == Ok then 1 else 0
      ensures rc == Ok || (rc == ENOSPC && forall n :: 0 <= n < g.Blocks() ==> !IsFree(g, disk, n))
    {
      hide Vol, Good, Grows, Fresh, EmptyBlock, TopPtr, Loose, Val, Geom.Valid, IsSymlink, U32At, IsFree;
      VolShape(g, tab, disk, own, freeBlocks);
      VolGood(g, tab, disk, own, freeBlocks);
      GrowsRefl(g, disk, own);
      MapInRange(g, tab, disk, own, ino, outer);
      OuterVal(tab, disk, ino, outer);
      var sec := outer / PTRS_SEC;
      var off := outer % PTRS_SEC;
      ReadSector(TopPtr(inode, 13) + sec);
      rc, inner := Ok, U32At(buf, 4 * off);
      if inner == 0 {
        var f;
        rc, f := AllocZeroed();
        if rc == Ok {
          inner := f;
          FreshOuter(g, tab, old(disk), own, disk, freeBlocks, Outer(ino, outer), f);
          ghost var mid := disk;
          ReadSector(TopPtr(inode, 13) + sec);
          buf := PutU32(buf, 4 * off, f);
          WriteSector(TopPtr(inode, 13) + sec);
          own := own[f := Outer(ino, outer)];
          assert disk == SetEntry(mid, TopPtr(inode, 13), outer, f);
          MarksMeta(g, tab, old(disk), old(own), mid, disk, Top(ino, 13));
        }
      }
    }

    /** ufs_block_set: makes logical block `logical` of the inode point to phys, and nothing else. */
    method BlockSet(inode: Inode, logical: nat, phys: U32, ghost ino: nat) returns (rc: Status, inode': Inode)
      requires Valid() && ino < g.inodes && tab[ino] == inode && !IsSymlink(inode)
      requires Loose(g, tab, disk, own, phys)
      modifies this`disk, this`buf, this`freeBlocks, this`tab, this`own
      ensures Valid() && tab == old(tab)[ino := inode'] && SameFields(inode, inode')
      ensures Table(g, disk) == Table(g, old(disk)) && rc in {Ok, ENOSPC}
      ensures MAX_LOGICAL <= logical ==> rc == ENOSPC && disk == old(disk) && tab == old(tab) && own == old(own) && freeBlocks == old(freeBlocks)
      ensures logical < MAX_LOGICAL && Val(old(tab), old(disk), DataSlot(ino, logical)) == 0 ==>
        && Grows(g, old(disk), old(own), disk, own, iset{})
        && NewOwners(old(own), own, ino, DataSlot(ino, logical), phys)
        && (rc == ENOSPC ==> NewTops(old(own), own) && Val(tab, disk, DataSlot(ino, logical)) == 0 && forall n :: 0 <= n < g.Blocks() ==> !IsFree(g, disk, n))
      ensures logical < MAX_LOGICAL && Val(old(tab), old(disk), DataSlot(ino, logical)) != 0 ==>
        rc == Ok && freeBlocks == old(freeBlocks) && Replaced(g, old(tab), old(disk), old(own), tab, disk, own, DataSlot(ino, logical), phys)
      ensures rc == Ok ==> logical < MAX_LOGICAL && Val(tab, disk, DataSlot(ino, logical)) == phys
      ensures rc == ENOSPC ==> Loose(g, tab, disk, own, phys)
      ensures freeBlocks <= old(freeBlocks) <= freeBlocks + if rc == Ok then 2 else 1
      ensures logical < NDIRECT ==> rc == Ok && freeBlocks == old(freeBlocks)
    {
      hide Vol, Good, Grows, EmptyBlock, TopPtr, SetTopPtr, Loose, Val, Geom.Valid, IsFree, Replaced, NewOwners;
      VolShape(g, tab, disk, own, freeBlocks);
      VolGood(g, tab, disk, own, freeBlocks);
      ghost var s := DataSlot(ino, logical);
      ghost var v := Val(tab, disk, s);
      if MAX_LOGICAL <= logical {
        return ENOSPC, inode;
      }
      PathThere(tab, disk, ino, logical);
      if logical < NDIRECT {
        inode' := SetTopPtr(inode, logical, phys);
        if v == 0 {
          AttachTopGrows(g, tab, disk, own, freeBlocks, ino, logical, phys);
          DataOwner(own, own, own[phys := s], ino, s, phys);
        } else {
          ReplaceTopStep(g, tab, disk, own, freeBlocks, ino, logical, phys);
        }
        own := if v == 0 then own[phys := s] else (own - {v})[phys := s];
        tab := tab[ino := inode'];
        return Ok, inode';
      }
      var indIdx := logical - NDIRECT;
      var k := if indIdx < PTRS then 12 else 13;
      rc, inode' := EnsureTop(inode, k, ino, s);
      ghost var tab1, disk1, own1 := tab, disk, own;
      VolGood(g, tab, disk, own, freeBlocks);
      if v == 0 {
        MetaKept(g, old(tab), old(disk), old(own), tab, disk, own, s, phys);
        MetaOwners(old(own), own, ino, s, phys);
      }
      if rc != Ok {
        return;
      }
      OuterVal(tab, disk, ino, 0);
      if indIdx < PTRS {
        SetDataEntry(TopPtr(inode', 12), indIdx, s, phys);
        if v == 0 {
          GrowsTrans(g, old(disk), old(own), disk1, own1, disk, own);
          DataOwner(old(own), own1, own, ino, s, phys);
        }
        return;
      }
      var diIdx := indIdx - PTRS;
      var outer := diIdx / PTRS;
      var innerFrag;
      rc, innerFrag := EnsureInner(inode', outer, ino, s);
      GrowsTrans(g, old(disk), old(own), disk1, own1, disk, own);
      NewMetaTrans(g, old(disk), old(own), disk1, own1, own, disk, s);
      ghost var disk2, own2 := disk, own;
      VolGood(g, tab, disk, own, freeBlocks);
      if v == 0 {
        MetaKept(g, tab1, disk1, own1, tab, disk, own, s, phys);
        MetaOwners(old(own), own, ino, s, phys);
      }
      if rc != Ok {
        return;
      }
      SetDataEntry(innerFrag, diIdx % PTRS, s, phys);
      if v == 0 {
        GrowsTrans(g, old(disk), old(own), disk2, own2, disk, own);
        DataOwner(old(own), own2, own, ino, s, phys);
      }
    }

    /** The last write of ufs_block_set: one word of an indirect block. */
    method SetDataEntry(p: U32, idx: nat, ghost s: Slot, phys: U32)
      requires Valid() && !s.Top? && !IsMeta(s) && idx == Index(s) < PTRS
      requires p != 0 && p == Val(tab, disk, Parent(s))
      requires Loose(g, tab, disk, own, phys)
      modifies this`disk, this`buf, this`own
      ensures Valid() && Table(g, disk) == Table(g, old(disk))
      ensures Val(tab, disk, s) == phys
      ensures Val(tab, old(disk), s) == 0 ==> own == old(own)[phys := s] && Grows(g, old(disk), old(own), disk, own, iset{})
      ensures Val(tab, old(disk), s) != 0 ==> Replaced(g, tab, old(disk), old(own), tab, disk, own, s, phys)
    {
      hide Vol, Good, Grows, EmptyBlock, TopPtr, Loose, Val, Geom.Valid, IsFree, Replaced;
      VolGood(g, tab, disk, own, freeBlocks);
      ghost var v := Val(tab, disk, s);
      if v == 0 {
        DataEntryStep(g, tab, disk, own, freeBlocks, s, phys);
      } else {
        ReplaceEntryStep(g, tab, disk, own, freeBlocks, s, phys);
      }
      ReadSector(p + idx / PTRS_SEC);
      buf := PutU32(buf, 4 * (idx % PTRS_SEC), phys);
      WriteSector(p + idx / PTRS_SEC);
      own := if v == 0 then own[phys := s] else (own - {v})[phys := s];
      assert disk == SetEntry(old(disk), p, idx, phys);
      MarksMeta(g, tab, old(disk), old(own), old(disk), disk, Parent(s));
    }
  }
}
