/** ufs_truncate and the release of a whole inode: exactly the blocks past the new end are freed. */
module UfsTruncate {
  import opened Options
  import opened Bytes
  import opened UfsFormat
  import opened UfsTree
  import opened UfsBlocks
  import opened UfsFiles
  import opened UfsReclaim

  const SIND := NDIRECT + PTRS   // first logical block of the double-indirect tree

  /** The slot stands for logical blocks at or past `keep` only. */
  predicate Beyond(s: Slot, keep: nat) {
    match s
    case Top(_, k) => if k < NDIRECT then keep <= k else if k == 12 then keep <= NDIRECT else keep <= SIND
    case Ind(_, k) => keep <= NDIRECT + k
    case Outer(_, k) => keep <= SIND + k * PTRS
    case Inner(_, k, j) => keep <= SIND + k * PTRS + j
  }

  /** Blocks of file ino past its first `keep` logical blocks. */
  ghost function Doomed(own: map<nat, Slot>, ino: nat, keep: nat): set<nat> {
    set v | v in own && own[v].ino == ino && Beyond(own[v], keep)
  }

  // ---- the inode with all its block pointers taken out ----

  function ClearPtrs(i: Inode): Inode {
    Splice(i, 40, seq(56, _ => 0))
  }

  lemma ClearPtrsFields(i: Inode)
    ensures SameFields(i, ClearPtrs(i)) && forall k :: 0 <= k < 14 ==> TopPtr(ClearPtrs(i), k) == 0
  {
  }

  ghost function Without(own: map<nat, Slot>, ino: nat): map<nat, Slot> {
    map v | v in own && own[v].ino != ino :: own[v]
  }

  /** In the ghost table the file's tree is detached: all its blocks become loose. */
  lemma Detach(g: Geom, tab: seq<Inode>, d: Disk, own: map<nat, Slot>, free: nat, ino: nat)
    requires Vol(g, tab, d, own, free) && ino < g.inodes && !IsSymlink(tab[ino])
    ensures var tab' := tab[ino := ClearPtrs(tab[ino])];
            && Vol(g, tab', d, Without(own, ino), free)
            && forall v :: v in own && own[v].ino == ino ==> Loose(g, tab', d, Without(own, ino), v)
  {
    var i := ClearPtrs(tab[ino]);
    var tab' := tab[ino := i];
    ClearPtrsFields(tab[ino]);
    forall s ensures Val(tab', d, s) == if s.ino == ino then 0 else Val(tab, d, s) {
      assert forall k: nat :: TopVal(tab', s.ino, k) == if s.ino == ino then 0 else TopVal(tab, s.ino, k);
    }
    hide Val, MapByte;
    forall v | v in own ensures Owned(g, tab, d, own, v) {
    }
    var own' := Cleared(g, tab, d, own, tab', d);
    assert own' == Without(own, ino);
  }

  // ---- what each part of the tree owns ----

  lemma DirectOwner(g: Geom, tab: seq<Inode>, d: Disk, own: map<nat, Slot>, ino: nat, k: nat)
    requires Good(g, tab, d, own) && ino < |tab| && !IsSymlink(tab[ino]) && k < 14
    ensures TopPtr(tab[ino], k) != 0 ==> TopPtr(tab[ino], k) in own && own[TopPtr(tab[ino], k)] == Top(ino, k)
    ensures forall v :: v in own && own[v] == Top(ino, k) ==> v == TopPtr(tab[ino], k)
  {
    assert Val(tab, d, Top(ino, k)) == TopPtr(tab[ino], k);
    forall v | v in own && own[v] == Top(ino, k) ensures v == TopPtr(tab[ino], k) {
      assert Owned(g, tab, d, own, v);
    }
  }

  lemma SingleOwners(g: Geom, tab: seq<Inode>, d: Disk, own: map<nat, Slot>, ino: nat, keep: nat)
    requires Good(g, tab, d, own) && ino < |tab| && !IsSymlink(tab[ino])
    ensures Entries(d, TopPtr(tab[ino], 12), keep, PTRS) == set v | v in own && own[v].Ind? && own[v].ino == ino && keep <= own[v].k
    ensures DistinctEntries(d, TopPtr(tab[ino], 12))
  {
    var p := TopPtr(tab[ino], 12);
    forall k: nat | Entry(d, p, k) != 0
      ensures Entry(d, p, k) in own && own[Entry(d, p, k)] == Ind(ino, k) && k < PTRS
    {
      assert Val(tab, d, Ind(ino, k)) == Entry(d, p, k);
    }
    forall v | v in own && own[v].Ind? && own[v].ino == ino && keep <= own[v].k
      ensures v in Entries(d, p, keep, PTRS)
    {
      assert Owned(g, tab, d, own, v);
      assert v == Entry(d, p, own[v].k);
    }
    hide Entry, Val;
  }

  predicate InDouble(s: Slot, ino: nat, keep: nat) {
    s.ino == ino && ((s.Outer? && keep <= s.k * PTRS) || (s.Inner? && keep <= s.k * PTRS + s.j))
  }

  lemma DoubleSlots(g: Geom, tab: seq<Inode>, d: Disk, own: map<nat, Slot>, ino: nat, keep: nat)
    requires Good(g, tab, d, own) && ino < |tab| && !IsSymlink(tab[ino]) && TopPtr(tab[ino], 13) != 0
    ensures DoubleFree(d, TopPtr(tab[ino], 13), keep, PTRS) == set v | v in own && InDouble(own[v], ino, keep)
  {
    var b := TopPtr(tab[ino], 13);
    hide Good, DoubleFree;
    forall v | v in DoubleFree(d, b, keep, PTRS) ensures v in own && InDouble(own[v], ino, keep) {
      DoubleIn(g, tab, d, own, ino, keep, PTRS, v);
    }
    forall v | v in own && InDouble(own[v], ino, keep) ensures v in DoubleFree(d, b, keep, PTRS) {
      DoubleHas(g, tab, d, own, ino, keep, v);
    }
  }

  lemma {:induction false} DoubleIn(g: Geom, tab: seq<Inode>, d: Disk, own: map<nat, Slot>, ino: nat, keep: nat, k: nat, v: nat)
    requires Good(g, tab, d, own) && ino < |tab| && !IsSymlink(tab[ino]) && TopPtr(tab[ino], 13) != 0
    requires v in DoubleFree(d, TopPtr(tab[ino], 13), keep, k)
    ensures v in own && InDouble(own[v], ino, keep)
  {
    if v in DoubleFree(d, TopPtr(tab[ino], 13), keep, k - 1) {
      DoubleIn(g, tab, d, own, ino, keep, k - 1, v);
    } else {
      OuterIn(g, tab, d, own, ino, keep, k - 1, v);
    }
  }

  lemma OuterIn(g: Geom, tab: seq<Inode>, d: Disk, own: map<nat, Slot>, ino: nat, keep: nat, o: nat, v: nat)
    requires Good(g, tab, d, own) && ino < |tab| && !IsSymlink(tab[ino])
    requires TopPtr(tab[ino], 13) != 0
    requires v in OuterFree(d, TopPtr(tab[ino], 13), keep, o)
    ensures v in own && InDouble(own[v], ino, keep)
  {
    hide Good, Entry, TopPtr, IsSymlink, Geom.Valid, Geom.IsBlock;
    GoodKnowsDouble(g, tab, d, own, ino);
    var q := Entry(d, TopPtr(tab[ino], 13), o);
    if v != q {
      var j: nat :| j < PTRS && keep <= o * PTRS + j && Entry(d, q, j) == v && v != 0;
      assert Knows(g, own, Entry(d, q, j), Inner(ino, o, j));
    } else {
      assert Knows(g, own, q, Outer(ino, o));
    }
  }

  lemma DoubleVal(tab: seq<Inode>, d: Disk, ino: nat, s: Slot)
    requires ino < |tab| && !IsSymlink(tab[ino]) && s.ino == ino && (s.Outer? || s.Inner?) && Val(tab, d, s) != 0
    ensures var q := Entry(d, TopPtr(tab[ino], 13), s.k);
            && q != 0 && s.k < PTRS
            && (s.Outer? ==> Val(tab, d, s) == q)
            && (s.Inner? ==> Val(tab, d, s) == Entry(d, q, s.j) && s.j < PTRS)
  {
  }

  lemma DoubleHas(g: Geom, tab: seq<Inode>, d: Disk, own: map<nat, Slot>, ino: nat, keep: nat, v: nat)
    requires Good(g, tab, d, own) && ino < |tab| && !IsSymlink(tab[ino])
    requires v in own && InDouble(own[v], ino, keep)
    ensures v in DoubleFree(d, TopPtr(tab[ino], 13), keep, PTRS)
  {
    hide Val, Entry, DoubleFree, TopPtr, IsSymlink, Geom.Valid, U32At, IsFree;
    var b, s := TopPtr(tab[ino], 13), own[v];
    assert Owned(g, tab, d, own, v);
    ZeroNotOwned(g, tab, d, own, v);
    DoubleVal(tab, d, ino, s);
    var q := Entry(d, b, s.k);
    assert v in OuterFree(d, b, keep, s.k);
    InnerPending(d, b, keep, s.k);
    DoubleGrows(d, b, keep, s.k + 1, PTRS);
  }

  // ---- releasing blocks of a detached inode ----

  /** The volume as it was found, with inode ino not a symlink. */
  ghost predicate Found(g: Geom, tab: seq<Inode>, d: Disk, own: map<nat, Slot>, ino: nat) {
    Good(g, tab, d, own) && |tab| == g.inodes && ino < g.inodes && !IsSymlink(tab[ino])
  }

  /** All blocks of ino that are not in f are still loose. */
  ghost predicate StillLoose(g: Geom, tab: seq<Inode>, d: Disk, own: map<nat, Slot>, owner: map<nat, Slot>, ino: nat, f: set<nat>) {
    forall v :: v in owner && owner[v].ino == ino && v !in f ==> Loose(g, tab, d, own, v)
  }

  lemma StillLooseAfter(g: Geom, tab: seq<Inode>, d: Disk, e: Disk, own: map<nat, Slot>, owner: map<nat, Slot>, ino: nat, f: set<nat>, f': set<nat>, b: nat)
    requires StillLoose(g, tab, d, own, owner, ino, f) && Freed(g, d, e, f', b)
    ensures StillLoose(g, tab, e, own, owner, ino, f + f')
  {
    hide Loose, Freed;
    forall v | v in owner && owner[v].ino == ino && v !in f + f' ensures Loose(g, tab, e, own, v) {
      LooseAfter(g, tab, d, e, own, f', b, v);
    }
  }

  ghost predicate DirectFrom(s: Slot, ino: nat, keep: nat, hi: nat) {
    s.Top? && s.ino == ino && keep <= s.k < hi && s.k < NDIRECT
  }

  ghost function DirectDoomed(own: map<nat, Slot>, ino: nat, keep: nat, hi: nat): set<nat> {
    set v | v in own && DirectFrom(own[v], ino, keep, hi)
  }

  /** i_direct[keep..11]. tab0, d0, owner are the volume as found; the ghost table has the inode detached. */
  method FreeDirect(u: Ufs, inode: Inode, keep: nat, ghost tab0: seq<Inode>, ghost owner: map<nat, Slot>, ghost ino: nat) returns (inode': Inode)
    requires u.Valid() && Found(u.g, tab0, u.disk, owner, ino) && inode == tab0[ino]
    requires StillLoose(u.g, u.tab, u.disk, u.own, owner, ino, {})
    modifies u`disk, u`buf, u`freeBlocks
    ensures u.Valid()
    ensures Freed(u.g, old(u.disk), u.disk, DirectDoomed(owner, ino, keep, NDIRECT), 0)
    ensures SameFields(inode, inode')
    ensures forall k :: 0 <= k < 14 ==> TopPtr(inode', k) == if keep <= k < NDIRECT then 0 else TopPtr(inode, k)
  {
    hide Vol, Good, Freed, Loose, Geom.Valid, Val, TopPtr, SetTopPtr, StillLoose, DirectDoomed, DirectFrom, Found;
    ghost var d0 := u.disk;
    inode' := inode;
    FoundShape(u.g, tab0, d0, owner, ino);
    FreedRefl(u.g, d0, 0);
    DirectNone(owner, ino, keep, keep);
    var i := keep;
    while i < NDIRECT
      invariant keep <= i && (if NDIRECT < keep then i == keep else i <= NDIRECT) && u.Valid()
      invariant Freed(u.g, d0, u.disk, DirectDoomed(owner, ino, keep, i), 0)
      invariant SameFields(inode, inode')
      invariant forall k :: 0 <= k < 14 ==> TopPtr(inode', k) == if keep <= k < i && k < NDIRECT then 0 else TopPtr(inode, k)
    {
      DirectNext(u.g, tab0, d0, owner, ino, keep, i);
      if TopPtr(inode', i) != 0 {
        var v := TopPtr(inode', i);
        LooseIn(u.g, u.tab, d0, u.own, owner, ino, v, {});
        LooseAfter(u.g, u.tab, d0, u.disk, u.own, DirectDoomed(owner, ino, keep, i), 0, v);
        LooseData(u.g, u.tab, u.disk, u.own, v);
        ghost var d1 := u.disk;
        var rc := u.FreeBlock(v);
        FreedOne(u.g, d1, v);
        FreedTrans(u.g, d0, d1, u.disk, DirectDoomed(owner, ino, keep, i), {v as nat}, 0);
        SetTopFields(inode', i, 0);
        SameFieldsTrans(inode, inode', SetTopPtr(inode', i, 0));
        inode' := SetTopPtr(inode', i, 0);
      }
      i := i + 1;
    }
    DirectNone(owner, ino, keep, NDIRECT);
  }

  lemma FoundShape(g: Geom, tab: seq<Inode>, d: Disk, own: map<nat, Slot>, ino: nat)
    requires Found(g, tab, d, own, ino)
    ensures g.Valid() && |d| == g.sectors && ino < |tab| == g.inodes && Good(g, tab, d, own) && !IsSymlink(tab[ino])
  {
  }

  lemma LooseIn(g: Geom, tab: seq<Inode>, d: Disk, own: map<nat, Slot>, owner: map<nat, Slot>, ino: nat, v: nat, f: set<nat>)
    requires StillLoose(g, tab, d, own, owner, ino, f) && v in owner && owner[v].ino == ino && v !in f
    ensures Loose(g, tab, d, own, v)
  {
  }

  lemma DirectNone(own: map<nat, Slot>, ino: nat, keep: nat, hi: nat)
    ensures hi <= keep ==> DirectDoomed(own, ino, keep, hi) == {}
    ensures NDIRECT <= hi ==> DirectDoomed(own, ino, keep, hi) == DirectDoomed(own, ino, keep, NDIRECT)
  {
  }

  lemma DirectNext(g: Geom, tab: seq<Inode>, d: Disk, own: map<nat, Slot>, ino: nat, keep: nat, i: nat)
    requires Found(g, tab, d, own, ino) && keep <= i < NDIRECT
    ensures var v := TopPtr(tab[ino], i);
            && (v != 0 ==> DirectDoomed(own, ino, keep, i + 1) == DirectDoomed(own, ino, keep, i) + {v as nat})
            && (v == 0 ==> DirectDoomed(own, ino, keep, i + 1) == DirectDoomed(own, ino, keep, i))
            && (v != 0 ==> v in own && own[v].ino == ino && v as nat !in DirectDoomed(own, ino, keep, i))
  {
    DirectOwner(g, tab, d, own, ino, i);
    hide Good, TopPtr;
    var v := TopPtr(tab[ino], i);
    if v == 0 {
      forall w | w in own && own[w] == Top(ino, i) ensures false {
        ZeroNotOwned(g, tab, d, own, w);
      }
    }
  }

  lemma ZeroNotOwned(g: Geom, tab: seq<Inode>, d: Disk, own: map<nat, Slot>, w: nat)
    requires Good(g, tab, d, own)
    ensures w in own ==> w != 0
  {
    assert w in own ==> Owned(g, tab, d, own, w);
  }

  predicate SingleSlot(s: Slot, ino: nat) {
    s.ino == ino && (s == Top(ino, 12) || s.Ind?)
  }

  predicate DoubleSlot(s: Slot, ino: nat) {
    s.ino == ino && (s == Top(ino, 13) || s.Outer? || s.Inner?)
  }

  ghost function SingleDoomed(own: map<nat, Slot>, ino: nat, keep: nat): set<nat> {
    set v | v in own && SingleSlot(own[v], ino) && Beyond(own[v], keep)
  }

  ghost function DoubleDoomed(own: map<nat, Slot>, ino: nat, keep: nat): set<nat> {
    set v | v in own && DoubleSlot(own[v], ino) && Beyond(own[v], keep)
  }

  /** The three parts together are all there is. */
  lemma DoomedParts(g: Geom, tab: seq<Inode>, d: Disk, own: map<nat, Slot>, ino: nat, keep: nat)
    requires Good(g, tab, d, own)
    ensures Doomed(own, ino, keep) == DirectDoomed(own, ino, keep, NDIRECT) + SingleDoomed(own, ino, keep) + DoubleDoomed(own, ino, keep)
    ensures SingleDoomed(own, ino, keep) !! DirectDoomed(own, ino, keep, NDIRECT)
    ensures DoubleDoomed(own, ino, keep) !! DirectDoomed(own, ino, keep, NDIRECT) + SingleDoomed(own, ino, keep)
  {
    hide Val;
    forall v | v in own && own[v].Top? ensures own[v].k < 14 {
      TopBound(g, tab, d, own, v);
    }
  }

  lemma TopBound(g: Geom, tab: seq<Inode>, d: Disk, own: map<nat, Slot>, v: nat)
    requires Good(g, tab, d, own) && v in own && own[v].Top?
    ensures own[v].k < 14
  {
    assert Owned(g, tab, d, own, v);
  }

  lemma SingleParts(g: Geom, tab: seq<Inode>, d: Disk, own: map<nat, Slot>, ino: nat, keep: nat)
    requires Found(g, tab, d, own, ino)
    ensures var p := TopPtr(tab[ino], 12);
            && (p == 0 ==> SingleDoomed(own, ino, keep) == {})
            && (p != 0 && keep <= NDIRECT ==>
                  SingleDoomed(own, ino, keep) == Entries(d, p, 0, PTRS) + {p as nat} && p as nat !in Entries(d, p, 0, PTRS))
            && (p != 0 && NDIRECT < keep ==>
                  SingleDoomed(own, ino, keep) == if keep < SIND then Entries(d, p, keep - NDIRECT, PTRS) else {})
            && (p != 0 ==> p in own && own[p].ino == ino)
  {
    var p := TopPtr(tab[ino], 12);
    DirectOwner(g, tab, d, own, ino, 12);
    SingleOwners(g, tab, d, own, ino, 0);
    SingleOwners(g, tab, d, own, ino, if NDIRECT <= keep then keep - NDIRECT else 0);
    forall v | v in own && own[v].Ind? ensures own[v].k < PTRS && (p == 0 ==> own[v].ino != ino) {
      IndBound(g, tab, d, own, ino, v);
    }
    if p == 0 {
      ZeroNotOwned(g, tab, d, own, 0);
    }
    hide Good, Entry, Found, TopPtr;
  }

  lemma IndBound(g: Geom, tab: seq<Inode>, d: Disk, own: map<nat, Slot>, ino: nat, v: nat)
    requires Found(g, tab, d, own, ino) && v in own && own[v].Ind?
    ensures own[v].k < PTRS && (TopPtr(tab[ino], 12) == 0 ==> own[v].ino != ino)
  {
    assert Owned(g, tab, d, own, v);
  }

  /** The i_ib[0] part: all of it, its tail, or nothing. */
  method FreeSingle(u: Ufs, inode: Inode, keep: nat, ghost tab0: seq<Inode>, ghost owner: map<nat, Slot>, ghost ino: nat, ghost d0: Disk, ghost f: set<nat>)
    returns (inode': Inode)
    requires u.Valid() && Found(u.g, tab0, d0, owner, ino) && TopPtr(inode, 12) == TopPtr(tab0[ino], 12)
    requires Freed(u.g, d0, u.disk, f, 0) && StillLoose(u.g, u.tab, u.disk, u.own, owner, ino, f)
    requires f !! SingleDoomed(owner, ino, keep)
    modifies u`disk, u`buf, u`scratch, u`freeBlocks
    ensures u.Valid() && Freed(u.g, d0, u.disk, f + SingleDoomed(owner, ino, keep), 0)
    ensures StillLoose(u.g, u.tab, u.disk, u.own, owner, ino, f + SingleDoomed(owner, ino, keep))
    ensures SameFields(inode, inode')
    ensures forall k :: 0 <= k < 14 ==> TopPtr(inode', k) == if k == 12 && keep <= NDIRECT then 0 else TopPtr(inode, k)
  {
    hide Vol, Good, Freed, Loose, Geom.Valid, Val, TopPtr, SetTopPtr, StillLoose, SingleDoomed, Found, Entries, DistinctEntries, Entry;
    inode' := inode;
    ghost var d1 := u.disk;
    ghost var p := TopPtr(inode, 12);
    SingleParts(u.g, tab0, d0, owner, ino, keep);
    SetTopFields(inode, 12, 0);
    SingleReady(u.g, tab0, d0, owner, ino, keep, u.tab, d1, u.own, f);
    if TopPtr(inode, 12) != 0 && keep <= NDIRECT {
      FreeEntries(u, TopPtr(inode, 12), 0);
      ghost var d2 := u.disk;
      LooseAfter(u.g, u.tab, d1, d2, u.own, Entries(d1, p, 0, PTRS), 0, p);
      LooseData(u.g, u.tab, u.disk, u.own, p);
      var rc := u.FreeBlock(TopPtr(inode, 12));
      FreedOne(u.g, d2, p);
      FreedTrans(u.g, d1, d2, u.disk, Entries(d1, p, 0, PTRS), {p as nat}, 0);
      inode' := SetTopPtr(inode, 12, 0);
    } else if TopPtr(inode, 12) != 0 && NDIRECT < keep < SIND {
      FreeEntries(u, TopPtr(inode, 12), keep - NDIRECT);
    } else {
      FreedShape(u.g, d0, d1, f, 0);
      FreedRefl(u.g, d1, 0);
    }
    FreedTrans(u.g, d0, d1, u.disk, f, SingleDoomed(owner, ino, keep), 0);
    StillLooseAfter(u.g, u.tab, d1, u.disk, u.own, owner, ino, f, SingleDoomed(owner, ino, keep), 0);
  }

  lemma SingleReady(g: Geom, tab0: seq<Inode>, d0: Disk, owner: map<nat, Slot>, ino: nat, keep: nat, tab: seq<Inode>, d: Disk, own: map<nat, Slot>, f: set<nat>)
    requires Found(g, tab0, d0, owner, ino) && Freed(g, d0, d, f, 0) && StillLoose(g, tab, d, own, owner, ino, f)
    requires f !! SingleDoomed(owner, ino, keep)
    ensures var p := TopPtr(tab0[ino], 12);
            p != 0 ==>
              && g.data <= p && p + FRAGS <= |d| && DistinctEntries(d, p)
              && (forall lo, hi :: Entries(d, p, lo, hi) == Entries(d0, p, lo, hi))
              && (keep <= NDIRECT ==> Loose(g, tab, d, own, p))
              && (forall v :: v in SingleDoomed(owner, ino, keep) ==> Loose(g, tab, d, own, v))
  {
    var p := TopPtr(tab0[ino], 12);
    if p != 0 {
      SingleParts(g, tab0, d0, owner, ino, keep);
      SingleOwners(g, tab0, d0, owner, ino, 0);
      assert Owned(g, tab0, d0, owner, p);
      SameEntries(d0, d, p);
      hide Good, Entry, Freed, DistinctEntries, Entries, Found, Loose;
      forall v | v in SingleDoomed(owner, ino, keep) ensures Loose(g, tab, d, own, v) {
      }
    }
  }

  function DoubleKeep(keep: nat): nat {
    if keep <= SIND then 0 else keep - SIND
  }

  lemma DoubleParts(g: Geom, tab: seq<Inode>, d: Disk, own: map<nat, Slot>, ino: nat, keep: nat)
    requires Found(g, tab, d, own, ino)
    ensures var b := TopPtr(tab[ino], 13);
            && (b == 0 ==> DoubleDoomed(own, ino, keep) == {})
            && (b != 0 ==>
                  && DoubleDoomed(own, ino, keep)
                     == DoubleFree(d, b, DoubleKeep(keep), PTRS) + (if DoubleKeep(keep) == 0 then {b as nat} else {})
                  && KnowsDouble(g, d, b, own, ino)
                  && b in own && own[b] == Top(ino, 13))
  {
    hide Good, Found, TopPtr, DoubleFree, KnowsDouble, IsSymlink, Geom.Valid;
    FoundShape(g, tab, d, own, ino);
    var b := TopPtr(tab[ino], 13);
    DirectOwner(g, tab, d, own, ino, 13);
    if b == 0 {
      ZeroNotOwned(g, tab, d, own, 0);
      forall v | v in own && DoubleSlot(own[v], ino) ensures false {
        DoubleBound(g, tab, d, own, ino, v);
      }
    } else {
      GoodKnowsDouble(g, tab, d, own, ino);
      DoubleSlots(g, tab, d, own, ino, DoubleKeep(keep));
    }
  }

  lemma DoubleBound(g: Geom, tab: seq<Inode>, d: Disk, own: map<nat, Slot>, ino: nat, v: nat)
    requires Found(g, tab, d, own, ino) && v in own && DoubleSlot(own[v], ino)
    ensures TopPtr(tab[ino], 13) != 0
  {
    assert Owned(g, tab, d, own, v);
    ZeroNotOwned(g, tab, d, own, v);
  }

  /** The i_ib[1] part. */
  method FreeTwoLevel(u: Ufs, inode: Inode, keep: nat, ghost tab0: seq<Inode>, ghost owner: map<nat, Slot>, ghost ino: nat, ghost d0: Disk, ghost f: set<nat>)
    returns (inode': Inode)
    requires u.Valid() && Found(u.g, tab0, d0, owner, ino) && TopPtr(inode, 13) == TopPtr(tab0[ino], 13)
    requires Freed(u.g, d0, u.disk, f, 0) && StillLoose(u.g, u.tab, u.disk, u.own, owner, ino, f)
    requires forall v :: v in f ==> v in owner && !DoubleSlot(owner[v], ino)
    modifies u`disk, u`buf, u`scratch, u`freeBlocks
    ensures u.Valid() && Freed(u.g, d0, u.disk, f + DoubleDoomed(owner, ino, keep), TopPtr(inode, 13))
    ensures forall k :: 0 <= k < PTRS ==>
      Entry(u.disk, TopPtr(inode, 13), k) == if DoubleKeep(keep) <= k * PTRS then 0 else Entry(d0, TopPtr(inode, 13), k)
    ensures SameFields(inode, inode')
    ensures forall k :: 0 <= k < 14 ==> TopPtr(inode', k) == if k == 13 && keep <= SIND then 0 else TopPtr(inode, k)
  {
    hide Vol, Good, Freed, Loose, Geom.Valid, Val, TopPtr, SetTopPtr, StillLoose, DoubleDoomed, Found, DoubleFree, Entry, KnowsDouble;
    inode' := inode;
    ghost var d1, b := u.disk, TopPtr(inode, 13);
    DoubleParts(u.g, tab0, d0, owner, ino, keep);
    SetTopFields(inode, 13, 0);
    FreedBut(u.g, d0, d1, f, b);
    if TopPtr(inode, 13) != 0 {
      DoubleReady(u.g, tab0, d0, owner, ino, keep, u.tab, d1, u.own, f);
      FreeDoubleIndirect(u, TopPtr(inode, 13), if keep <= SIND then 0 else keep - SIND, owner, ino);
      if keep <= SIND {
        inode' := SetTopPtr(inode, 13, 0);
      }
    } else {
      FreedShape(u.g, d0, d1, f, 0);
      FreedRefl(u.g, d1, b);
      NoEntries(d0, d1);
    }
    FreedTrans(u.g, d0, d1, u.disk, f, DoubleDoomed(owner, ino, keep), b);
  }

  lemma NoEntries(d: Disk, e: Disk)
    ensures forall k :: Entry(d, 0, k) == 0 && Entry(e, 0, k) == 0
  {
  }

  lemma DoubleReady(g: Geom, tab0: seq<Inode>, d0: Disk, owner: map<nat, Slot>, ino: nat, keep: nat, tab: seq<Inode>, d: Disk, own: map<nat, Slot>, f: set<nat>)
    requires Found(g, tab0, d0, owner, ino) && Freed(g, d0, d, f, 0) && StillLoose(g, tab, d, own, owner, ino, f)
    requires TopPtr(tab0[ino], 13) != 0
    requires forall v :: v in f ==> v in owner && !DoubleSlot(owner[v], ino)
    ensures var b := TopPtr(tab0[ino], 13);
            && KnowsDouble(g, d, b, owner, ino)
            && Loose(g, tab, d, own, b)
            && (forall kp :: DoubleFree(d, b, kp, PTRS) == DoubleFree(d0, b, kp, PTRS))
            && (forall v :: v in DoubleFree(d, b, DoubleKeep(keep), PTRS) ==> Loose(g, tab, d, own, v))
            && (forall k :: Entry(d, b, k) == Entry(d0, b, k))
  {
    var b := TopPtr(tab0[ino], 13);
    DoubleParts(g, tab0, d0, owner, ino, keep);
    DoubleSame(g, d0, d, f, b, owner, ino);
    hide Good, Entry, Freed, Found, Loose, KnowsDouble, DoubleFree, DoubleDoomed, TopPtr;
    DoubleSlots2(g, tab0, d0, owner, ino, keep);
  }

  lemma DoubleSlots2(g: Geom, tab: seq<Inode>, d: Disk, own: map<nat, Slot>, ino: nat, keep: nat)
    requires Found(g, tab, d, own, ino) && TopPtr(tab[ino], 13) != 0
    ensures forall v :: v in DoubleFree(d, TopPtr(tab[ino], 13), DoubleKeep(keep), PTRS) ==> v in own && own[v].ino == ino && v in DoubleDoomed(own, ino, keep)
  {
    DoubleParts(g, tab, d, own, ino, keep);
    hide Found, Good, DoubleFree, KnowsDouble, TopPtr;
  }

  /** The tree reads the same while only the free map changed. */
  lemma DoubleSame(g: Geom, d: Disk, e: Disk, f: set<nat>, b: nat, owner: map<nat, Slot>, ino: nat)
    requires KnowsDouble(g, d, b, owner, ino) && Freed(g, d, e, f, 0)
    ensures KnowsDouble(g, e, b, owner, ino)
    ensures forall k :: Entry(e, b, k) == Entry(d, b, k)
    ensures forall kp :: DoubleFree(e, b, kp, PTRS) == DoubleFree(d, b, kp, PTRS)
  {
    SameEntries(d, e, b);
    forall k ensures Entry(d, b, k) != 0 ==> SameBlock(d, e, Entry(d, b, k)) {
      if Entry(d, b, k) != 0 {
        assert Knows(g, owner, Entry(d, b, k), Outer(ino, k));
      }
    }
    forall k, j ensures Entry(d, Entry(d, b, k), j) == Entry(e, Entry(e, b, k), j) {
      if Entry(d, b, k) != 0 {
        SameEntries(d, e, Entry(d, b, k));
      }
    }
    forall kp ensures DoubleFree(e, b, kp, PTRS) == DoubleFree(d, b, kp, PTRS) {
      DoubleFreeSame(d, e, b, kp, PTRS);
    }
  }

  lemma {:induction false} DoubleFreeSame(d: Disk, e: Disk, b: nat, keep: nat, k: nat)
    requires forall o :: Entry(e, b, o) == Entry(d, b, o)
    requires forall o :: Entry(d, b, o) != 0 ==> SameBlock(d, e, Entry(d, b, o))
    ensures DoubleFree(e, b, keep, k) == DoubleFree(d, b, keep, k)
  {
    hide Entry, Entries;
    if k > 0 {
      DoubleFreeSame(d, e, b, keep, k - 1);
      if Entry(d, b, k - 1) != 0 {
        SameEntries(d, e, Entry(d, b, k - 1));
      }
    }
  }

  /** All of the tree past `keep` blocks: what ufs_truncate and the last ufs_unlink of a file do. */
  method FreeTree(u: Ufs, inode: Inode, keep: nat, ghost tab0: seq<Inode>, ghost owner: map<nat, Slot>, ghost ino: nat) returns (inode': Inode)
    requires u.Valid() && Found(u.g, tab0, u.disk, owner, ino) && inode == tab0[ino]
    requires StillLoose(u.g, u.tab, u.disk, u.own, owner, ino, {})
    modifies u`disk, u`buf, u`scratch, u`freeBlocks
    ensures u.Valid()
    ensures Freed(u.g, old(u.disk), u.disk, Doomed(owner, ino, keep), TopPtr(inode, 13))
    ensures forall k :: 0 <= k < PTRS ==>
      Entry(u.disk, TopPtr(inode, 13), k) == if DoubleKeep(keep) <= k * PTRS then 0 else Entry(old(u.disk), TopPtr(inode, 13), k)
    ensures SameFields(inode, inode')
    ensures forall k :: 0 <= k < 14 ==> TopPtr(inode', k) == if Beyond(Top(ino, k), keep) then 0 else TopPtr(inode, k)
  {
    hide Vol, Good, Freed, Loose, Geom.Valid, Val, TopPtr, StillLoose, Doomed, DirectDoomed, SingleDoomed, DoubleDoomed, Found, Entry, SameFields;
    ghost var d0 := u.disk;
    FoundShape(u.g, tab0, d0, owner, ino);
    DoomedParts(u.g, tab0, d0, owner, ino, keep);
    PartSlots(u.g, tab0, d0, owner, ino, keep);
    inode' := FreeDirect(u, inode, keep, tab0, owner, ino);
    ghost var i1, f1 := inode', DirectDoomed(owner, ino, keep, NDIRECT);
    StillLooseAfter(u.g, u.tab, d0, u.disk, u.own, owner, ino, {}, f1, 0);
    assert {} + f1 == f1;
    inode' := FreeSingle(u, inode', keep, tab0, owner, ino, d0, f1);
    ghost var i2, f2 := inode', f1 + SingleDoomed(owner, ino, keep);
    SameFieldsTrans(inode, i1, i2);
    inode' := FreeTwoLevel(u, inode', keep, tab0, owner, ino, d0, f2);
    SameFieldsTrans(inode, i2, inode');
  }

  lemma PartSlots(g: Geom, tab: seq<Inode>, d: Disk, own: map<nat, Slot>, ino: nat, keep: nat)
    requires Found(g, tab, d, own, ino)
    ensures forall v :: v in DirectDoomed(own, ino, keep, NDIRECT) + SingleDoomed(own, ino, keep) ==> v in own && !DoubleSlot(own[v], ino)
  {
    hide Found;
  }

  // ---- the volume after the blocks are gone ----

  /** tab', e: file ino lost its blocks past `keep`; nothing else changed. */
  ghost predicate Shrunk(g: Geom, tab: seq<Inode>, d: Disk, own: map<nat, Slot>, tab': seq<Inode>, e: Disk, ino: nat, keep: nat) {
    && Shape(g, tab, d) && Shape(g, tab', e) && ino < g.inodes
    && (forall i :: 0 <= i < g.inodes && i != ino ==> tab'[i] == tab[i])
    && Mode(tab'[ino]) == Mode(tab[ino]) && Nlink(tab'[ino]) == Nlink(tab[ino])
    && (forall k :: 0 <= k < 14 ==> TopPtr(tab'[ino], k) == if Beyond(Top(ino, k), keep) then 0 else TopPtr(tab[ino], k))
    && (forall q :: g.data <= q < |d| && !(TopPtr(tab[ino], 13) <= q < TopPtr(tab[ino], 13) + FRAGS) ==> e[q] == d[q])
    && (forall k :: 0 <= k < PTRS ==>
          Entry(e, TopPtr(tab[ino], 13), k) == if DoubleKeep(keep) <= k * PTRS then 0 else Entry(d, TopPtr(tab[ino], 13), k))
    && (forall n :: 0 <= n < g.Blocks() ==>
          MapByte(g, e, n) == if g.Frag(n) in Doomed(own, ino, keep) then 0xFF else MapByte(g, d, n))
  }

  /** A pointer past the new end that stands in an indirect block which stays. */
  predicate Stale(s: Slot, keep: nat) {
    !s.Top? && !IsMeta(s) && Beyond(s, keep) && !Beyond(Parent(s), keep)
  }

  /** Which indirect block holds the pointer of logical block l (l >= 12). */
  function IndirectOf(l: nat): nat {
    if l < SIND then 0 else 1 + (l - SIND) / PTRS
  }

  /** In block numbers: l is past the end but shares the indirect block of the last block kept. */
  lemma StaleMeans(ino: nat, l: nat, keep: nat)
    requires l < MAX_LOGICAL
    ensures Stale(DataSlot(ino, l), keep) <==> NDIRECT < keep <= l && IndirectOf(l) == IndirectOf(keep - 1)
  {
  }

  ghost predicate NoStale(tab: seq<Inode>, d: Disk, ino: nat, keep: nat) {
    forall s: Slot :: s.ino == ino && Stale(s, keep) ==> Val(tab, d, s) == 0
  }

  lemma ShrunkTops(g: Geom, tab: seq<Inode>, d: Disk, own: map<nat, Slot>, tab': seq<Inode>, e: Disk, ino: nat, keep: nat, i: nat, k: nat)
    requires Found(g, tab, d, own, ino) && Shrunk(g, tab, d, own, tab', e, ino, keep) && k < 14
    ensures TopVal(tab', i, k) == if i == ino && Beyond(Top(i, k), keep) then 0 else TopVal(tab, i, k)
  {
  }

  /** Every indirect block other than the double-indirect root reads as before. */
  lemma ShrunkEntry(g: Geom, tab: seq<Inode>, d: Disk, own: map<nat, Slot>, tab': seq<Inode>, e: Disk, ino: nat, keep: nat, m: Slot, k: nat)
    requires Found(g, tab, d, own, ino) && Shrunk(g, tab, d, own, tab', e, ino, keep)
    requires m != Top(ino, 13)
    ensures Entry(e, Val(tab, d, m), k) == Entry(d, Val(tab, d, m), k)
  {
    hide Entry;
    var v, b := Val(tab, d, m), TopPtr(tab[ino], 13);
    if v != 0 {
      assert Owned(g, tab, d, own, v);
      if b != 0 {
        assert Val(tab, d, Top(ino, 13)) == b && Owned(g, tab, d, own, b);
        BlocksApart(g, v, b);
      }
      EntrySame(d, e, v, k);
    } else {
      NoEntries(d, e);
    }
  }

  /** The slot table after a shrink. */
  lemma ShrunkVal(g: Geom, tab: seq<Inode>, d: Disk, own: map<nat, Slot>, tab': seq<Inode>, e: Disk, ino: nat, keep: nat, s: Slot)
    requires Found(g, tab, d, own, ino) && Shrunk(g, tab, d, own, tab', e, ino, keep)
    ensures Val(tab', e, s) == if s.ino == ino && Beyond(s, keep) && !Stale(s, keep) then 0 else Val(tab, d, s)
  {
    if s.Top? {
      if s.k < 14 {
        ShrunkTops(g, tab, d, own, tab', e, ino, keep, s.ino, s.k);
      }
    } else {
      ShrunkTops(g, tab, d, own, tab', e, ino, keep, s.ino, 12);
      ShrunkTops(g, tab, d, own, tab', e, ino, keep, s.ino, 13);
      if s.Ind? {
        ShrunkEntry(g, tab, d, own, tab', e, ino, keep, Top(s.ino, 12), s.k);
      } else {
        ShrunkOuter(g, tab, d, own, tab', e, ino, keep, s.ino, s.k);
        if s.Inner? {
          ShrunkEntry(g, tab, d, own, tab', e, ino, keep, Outer(s.ino, s.k), s.j);
        }
      }
      NoEntries(d, e);
      hide Entry, Found, Shrunk, TopVal;
    }
  }

  lemma ShrunkOuter(g: Geom, tab: seq<Inode>, d: Disk, own: map<nat, Slot>, tab': seq<Inode>, e: Disk, ino: nat, keep: nat, i: nat, k: nat)
    requires Found(g, tab, d, own, ino) && Shrunk(g, tab, d, own, tab', e, ino, keep)
    ensures Val(tab', e, Outer(i, k)) == if i == ino && Beyond(Outer(i, k), keep) then 0 else Val(tab, d, Outer(i, k))
  {
    ShrunkTops(g, tab, d, own, tab', e, ino, keep, i, 13);
    NoEntries(d, e);
    if i != ino {
      ShrunkEntry(g, tab, d, own, tab', e, ino, keep, Top(i, 13), k);
    }
  }

  /** The owners that remain. */
  ghost function Left(own: map<nat, Slot>, ino: nat, keep: nat): map<nat, Slot> {
    map v | v in own && v !in Doomed(own, ino, keep) :: own[v]
  }

  /** Without stale pointers the shrunk volume is as sound as the old one, and nothing was lost. */
  lemma ShrinkGood(g: Geom, tab: seq<Inode>, d: Disk, own: map<nat, Slot>, tab': seq<Inode>, e: Disk, ino: nat, keep: nat)
    requires Found(g, tab, d, own, ino) && Shrunk(g, tab, d, own, tab', e, ino, keep)
    requires NoStale(tab, d, ino, keep)
    ensures Good(g, tab', e, Left(own, ino, keep))
    ensures forall lost :: NoLeak(g, tab, d, own, lost) ==> NoLeak(g, tab', e, Left(own, ino, keep), lost)
  {
    FoundShape(g, tab, d, own, ino);
    assert Shape(g, tab', e);
    forall s ensures Val(tab', e, s) == if s.ino == ino && Beyond(s, keep) then 0 else Val(tab, d, s) {
      ShrunkVal(g, tab, d, own, tab', e, ino, keep, s);
    }
    forall v | v in own && v !in Doomed(own, ino, keep) ensures g.IsBlock(v) && !IsFree(g, e, g.BlockNo(v)) && Val(tab', e, own[v]) == v {
      LeftAllocated(g, tab, d, own, tab', e, ino, keep, v);
    }
    var own' := Left(own, ino, keep);
    LeftMap(g, tab, d, own, tab', e, ino, keep);
    hide Val, Found, Shrunk, NoStale, MapByte;
    var kept := Cleared(g, tab, d, own, tab', e);
    assert kept == own';
  }

  lemma LeftAllocated(g: Geom, tab: seq<Inode>, d: Disk, own: map<nat, Slot>, tab': seq<Inode>, e: Disk, ino: nat, keep: nat, v: nat)
    requires Found(g, tab, d, own, ino) && Shrunk(g, tab, d, own, tab', e, ino, keep)
    requires v in own && v !in Doomed(own, ino, keep)
    ensures g.IsBlock(v) && !IsFree(g, e, g.BlockNo(v)) && v != 0 && Val(tab, d, own[v]) == v
  {
    assert Owned(g, tab, d, own, v);
    assert v == g.Frag(g.BlockNo(v));
    assert MapByte(g, e, g.BlockNo(v)) == MapByte(g, d, g.BlockNo(v));
  }

  lemma LeftMap(g: Geom, tab: seq<Inode>, d: Disk, own: map<nat, Slot>, tab': seq<Inode>, e: Disk, ino: nat, keep: nat)
    requires Shrunk(g, tab, d, own, tab', e, ino, keep)
    ensures forall n :: 0 <= n < g.Blocks() && !IsFree(g, e, n) ==> !IsFree(g, d, n) && g.Frag(n) !in Doomed(own, ino, keep)
  {
    forall n | 0 <= n < g.Blocks() && !IsFree(g, e, n) ensures !IsFree(g, d, n) && g.Frag(n) !in Doomed(own, ino, keep) {
      assert MapByte(g, e, n) != 0xFF;
    }
  }

  /** Exactly when does a shrink keep the pointers sound? When no stale pointer is left behind. */
  lemma ShrinkSoundIff(g: Geom, tab: seq<Inode>, d: Disk, own: map<nat, Slot>, tab': seq<Inode>, e: Disk, ino: nat, keep: nat)
    requires Found(g, tab, d, own, ino) && Shrunk(g, tab, d, own, tab', e, ino, keep)
    ensures (exists own' :: Good(g, tab', e, own')) <==> NoStale(tab, d, ino, keep)
  {
    if NoStale(tab, d, ino, keep) {
      ShrinkGood(g, tab, d, own, tab', e, ino, keep);
    } else {
      var s: Slot :| s.ino == ino && Stale(s, keep) && Val(tab, d, s) != 0;
      ShrunkVal(g, tab, d, own, tab', e, ino, keep, s);
      var v := Val(tab, d, s);
      StaleFreed(g, tab, d, own, tab', e, ino, keep, s);
      forall own' | Good(g, tab', e, own') ensures false {
        Disjoint(g, tab', e, own', s, s);
      }
    }
  }

  lemma StaleFreed(g: Geom, tab: seq<Inode>, d: Disk, own: map<nat, Slot>, tab': seq<Inode>, e: Disk, ino: nat, keep: nat, s: Slot)
    requires Found(g, tab, d, own, ino) && Shrunk(g, tab, d, own, tab', e, ino, keep)
    requires s.ino == ino && Stale(s, keep) && Val(tab, d, s) != 0
    ensures g.IsBlock(Val(tab, d, s)) && IsFree(g, e, g.BlockNo(Val(tab, d, s)))
  {
    var v := Val(tab, d, s);
    assert v in own && own[v] == s && Owned(g, tab, d, own, v);
    assert v == g.Frag(g.BlockNo(v));
  }

  /** Cutting a file to its direct blocks, or to nothing, never leaves a stale pointer. */
  lemma ShortNeverStale(tab: seq<Inode>, d: Disk, ino: nat, keep: nat)
    requires keep <= NDIRECT
    ensures NoStale(tab, d, ino, keep)
  {
  }

  /** The bytes of all files after a shrink: what lies before the cut and all other files stay. */
  lemma ShrinkBytes(g: Geom, tab: seq<Inode>, d: Disk, own: map<nat, Slot>, tab': seq<Inode>, e: Disk, ino: nat, keep: nat, i: nat, pos: nat)
    requires Found(g, tab, d, own, ino) && Shrunk(g, tab, d, own, tab', e, ino, keep)
    ensures i != ino || pos < keep * BLOCK ==> ByteAt(tab', e, i, pos) == ByteAt(tab, d, i, pos)
    ensures i == ino && keep * BLOCK <= pos && NoStale(tab, d, ino, keep) ==> ByteAt(tab', e, i, pos) == None
  {
    var s := DataSlot(i, pos / BLOCK);
    DataSlotPlain(i, pos / BLOCK);
    DataBeyond(i, pos / BLOCK, keep);
    ShrunkVal(g, tab, d, own, tab', e, ino, keep, s);
    var v, b := Val(tab, d, s), TopPtr(tab[ino], 13);
    if v != 0 && b != 0 {
      assert Val(tab, d, Top(ino, 13)) == b;
      assert Owned(g, tab, d, own, v) && Owned(g, tab, d, own, b);
      BlocksApart(g, v, b);
    }
    if v != 0 {
      assert Owned(g, tab, d, own, v);
    }
    assert Shape(g, tab', e) && Shape(g, tab, d);
    if i != ino || pos < keep * BLOCK {
      ByteSame(tab, d, tab', e, i, pos);
    }
  }

  lemma DataBeyond(i: nat, l: nat, keep: nat)
    ensures Beyond(DataSlot(i, l), keep) <==> keep <= l
  {
  }

  // ---- ufs_truncate ----

  /** (length + UFS_BLOCK_SIZE - 1) / UFS_BLOCK_SIZE in 32-bit arithmetic. */
  function KeepBlocks(length: U32): nat {
    (length + BLOCK - 1) % WORD / BLOCK
  }

  /** The count is the number of blocks the new length needs, unless the sum wraps around. */
  lemma KeepBlocksCovers(length: U32)
    ensures length <= KeepBlocks(length) * BLOCK <==> length <= WORD - BLOCK
    ensures length <= WORD - BLOCK ==> KeepBlocks(length) * BLOCK < length + BLOCK
    ensures WORD - BLOCK < length ==> KeepBlocks(length) == 0
  {
  }

  /** A new length close to 4 GiB: every block of the file is freed although the length is not 0. */
  lemma KeepBlocksWraps()
    ensures KeepBlocks(0xFFFF_F001) == 0
  {
  }

  lemma TruncateStart(g: Geom, tab: seq<Inode>, d: Disk, own: map<nat, Slot>, free: nat, ino: nat)
    requires Vol(g, tab, d, own, free) && ino < g.inodes && !IsSymlink(tab[ino])
    ensures var tab' := tab[ino := ClearPtrs(tab[ino])];
            && Found(g, tab, d, own, ino)
            && Vol(g, tab', d, Without(own, ino), free)
            && StillLoose(g, tab', d, Without(own, ino), own, ino, {})
  {
    Detach(g, tab, d, own, free, ino);
    hide Good, Loose, Val;
    VolShape(g, tab, d, own, free);
  }

  /** The blocks are gone, the new inode is on disk: what the volume looks like. */
  lemma ShrunkIs(g: Geom, tab: seq<Inode>, d: Disk, own: map<nat, Slot>, m: Disk, i: Inode, e: Disk, ino: nat, keep: nat)
    requires Found(g, tab, d, own, ino)
    requires Freed(g, d, m, Doomed(own, ino, keep), TopPtr(tab[ino], 13))
    requires forall k :: 0 <= k < PTRS ==>
      Entry(m, TopPtr(tab[ino], 13), k) == if DoubleKeep(keep) <= k * PTRS then 0 else Entry(d, TopPtr(tab[ino], 13), k)
    requires forall k :: 0 <= k < 14 ==> TopPtr(i, k) == if Beyond(Top(ino, k), keep) then 0 else TopPtr(tab[ino], k)
    requires Mode(i) == Mode(tab[ino]) && Nlink(i) == Nlink(tab[ino])
    requires Quiet(g, m, e) && Table(g, e) == tab[ino := i]
    ensures Shrunk(g, tab, d, own, tab[ino := i], e, ino, keep)
  {
    FoundShape(g, tab, d, own, ino);
    hide Good, MapByte, Table, TopPtr, Found;
    forall k | 0 <= k < PTRS ensures Entry(e, TopPtr(tab[ino], 13), k) == Entry(m, TopPtr(tab[ino], 13), k) {
      RootQuiet(g, tab, d, own, m, e, ino, k);
    }
    hide Entry;
  }

  lemma RootQuiet(g: Geom, tab: seq<Inode>, d: Disk, own: map<nat, Slot>, m: Disk, e: Disk, ino: nat, k: nat)
    requires Found(g, tab, d, own, ino) && Quiet(g, m, e)
    ensures Entry(e, TopPtr(tab[ino], 13), k) == Entry(m, TopPtr(tab[ino], 13), k)
  {
    var b := TopPtr(tab[ino], 13);
    if b != 0 {
      assert Val(tab, d, Top(ino, 13)) == b && Owned(g, tab, d, own, b);
      EntrySame(m, e, b, k);
    }
  }

  method Truncate(u: Ufs, vn: Vnode, length: U32) returns (rc: Status)
    requires u.Steady() && vn.ino < u.g.inodes
    requires !vn.isDir ==> !IsSymlink(u.tab[vn.ino])
    modifies u`disk, u`buf, u`scratch, u`freeBlocks, u`tab, u`own, vn`size
    ensures vn.isDir ==> rc == EISDIR && u.Steady() && u.disk == old(u.disk) && u.own == old(u.own)
    ensures u.Valid()
    ensures !vn.isDir ==> rc == Ok && vn.size == length && u.g.Valid() && |u.disk| == u.g.sectors && u.marks == Marks(u.g, u.disk) && Size(Table(u.g, u.disk)[vn.ino]) == length
    ensures !vn.isDir && Size(old(u.tab)[vn.ino]) <= length ==>
      && u.Steady() && u.own == old(u.own) && Quiet(u.g, old(u.disk), u.disk)
      && u.tab == old(u.tab)[vn.ino := SetSize(old(u.tab)[vn.ino], length)]
      && forall s :: Val(u.tab, u.disk, s) == Val(old(u.tab), old(u.disk), s)
    ensures !vn.isDir && length < Size(old(u.tab)[vn.ino]) ==>
      && Shrunk(u.g, old(u.tab), old(u.disk), old(u.own), Table(u.g, u.disk), u.disk, vn.ino, KeepBlocks(length))
      && u.freeBlocks == CountFree(u.g, u.disk, u.g.Blocks())
      && (NoStale(old(u.tab), old(u.disk), vn.ino, KeepBlocks(length)) ==>
            u.Steady() && u.own == Left(old(u.own), vn.ino, KeepBlocks(length)))
  {
    hide Vol, Good, Quiet, Shrunk, NoStale, Left, Val, Geom.Valid, IsSymlink, TopPtr, KeepBlocks, CountFree, Found;
    if vn.isDir {
      return EISDIR;
    }
    ghost var ino, tab0, d0, own0 := vn.ino, u.tab, u.disk, u.own;
    VolShape(u.g, u.tab, u.disk, u.own, u.freeBlocks);
    var inode := u.ReadInode(vn.ino);
    SetSizeFields(inode, length);
    if Size(inode) <= length {
      ExtendStep(u.g, u.tab, u.disk, u.own, u.freeBlocks, ino, length);
      inode := SetSize(inode, length);
      u.tab := u.tab[vn.ino := inode];
      ghost var free1 := u.freeBlocks;
      StoreInode(u, vn.ino, inode);
      LowStep(u.g, u.tab, d0, u.disk, u.own, free1);
    } else {
      Shrink(u, vn.ino, inode, length);
    }
    VolFree(u.g, u.tab, u.disk, u.own, u.freeBlocks);
    VolShape(u.g, u.tab, u.disk, u.own, u.freeBlocks);
    vn.size := length;
    TableSize(u.g, u.disk, vn.ino);
    return Ok;
  }

  lemma KeepIs(length: U32)
    ensures KeepBlocks(length) == if length == 0 then 0 else (length + BLOCK - 1) % WORD / BLOCK
  {
  }

  lemma TableSize(g: Geom, d: Disk, ino: nat)
    requires g.Valid() && |d| == g.sectors && ino < g.inodes
    ensures Table(g, d)[ino] == InodeAt(g, d, ino)
  {
  }

  lemma ExtendStep(g: Geom, tab: seq<Inode>, d: Disk, own: map<nat, Slot>, free: nat, ino: nat, length: U32)
    requires Vol(g, tab, d, own, free) && ino < g.inodes && ino < |tab|
    ensures Vol(g, tab[ino := SetSize(tab[ino], length)], d, own, free)
    ensures forall s :: Val(tab[ino := SetSize(tab[ino], length)], d, s) == Val(tab, d, s)
  {
    SetSizeFields(tab[ino], length);
    FieldsStep(g, tab, d, own, free, ino, SetSize(tab[ino], length));
  }

  /** ufs_write_inode followed by ufs_sync_super, as most operations end. */
  method StoreInode(u: Ufs, ino: nat, inode: Inode)
    requires u.Valid() && ino < u.g.inodes
    modifies u`disk, u`buf
    ensures u.Valid() && |u.disk| == |old(u.disk)| == u.g.sectors && u.g.Valid()
    ensures Quiet(u.g, old(u.disk), u.disk)
    ensures Table(u.g, u.disk) == Table(u.g, old(u.disk))[ino := inode]
  {
    hide Vol, Good, Quiet, Geom.Valid;
    ghost var d0 := u.disk;
    VolShape(u.g, u.tab, u.disk, u.own, u.freeBlocks);
    u.WriteInode(ino, inode);
    ghost var d1 := u.disk;
    u.SyncSuper();
    QuietTrans(u.g, d0, d1, u.disk);
    VolShape(u.g, u.tab, u.disk, u.own, u.freeBlocks);
  }

  /** The shrinking branches: free the blocks past `keep`, then store the inode with its new size.
      inode may differ from the one on disk (an unlink has lowered its link count). */
  method ShrinkTo(u: Ufs, ino: nat, inode: Inode, length: U32, keep: nat)
    requires u.Valid() && ino < u.g.inodes && u.tab[ino] == inode && !IsSymlink(inode)
    requires Table(u.g, u.disk)[ino := inode] == u.tab
    modifies u`disk, u`buf, u`scratch, u`freeBlocks, u`tab, u`own
    ensures u.Valid()
    ensures Shrunk(u.g, old(u.tab), old(u.disk), old(u.own), Table(u.g, u.disk), u.disk, ino, keep)
    ensures Size(Table(u.g, u.disk)[ino]) == length
    ensures NoStale(old(u.tab), old(u.disk), ino, keep) ==> u.Steady() && u.own == Left(old(u.own), ino, keep)
    ensures Found(u.g, old(u.tab), old(u.disk), old(u.own), ino)
  {
    hide Vol, Good, Quiet, Freed, Shrunk, NoStale, Left, Val, Found, StillLoose, Geom.Valid, IsSymlink, TopPtr, Entry, Doomed, Beyond, CountFree;
    ghost var tab0, d0, own0 := u.tab, u.disk, u.own;
    VolShape(u.g, u.tab, u.disk, u.own, u.freeBlocks);
    TruncateStart(u.g, u.tab, u.disk, u.own, u.freeBlocks, ino);
    u.tab := u.tab[ino := ClearPtrs(inode)];
    u.own := Without(u.own, ino);
    var i := FreeTree(u, inode, keep, tab0, own0, ino);
    SetSizeFields(i, length);
    i := SetSize(i, length);
    ghost var m := u.disk;
    FreedTable(u.g, d0, m, Doomed(own0, ino, keep), TopPtr(tab0[ino], 13));
    u.WriteInode(ino, i);
    assert Table(u.g, u.disk) == tab0[ino := i];
    ShrunkIs(u.g, tab0, d0, own0, m, i, u.disk, ino, keep);
    VolFree(u.g, u.tab, u.disk, u.own, u.freeBlocks);
    if NoStale(tab0, d0, ino, keep) {
      ShrinkGood(u.g, tab0, d0, own0, Table(u.g, u.disk), u.disk, ino, keep);
      u.tab := Table(u.g, u.disk);
      u.own := Left(own0, ino, keep);
      GoodVol(u.g, u.tab, u.disk, u.own, u.freeBlocks);
    }
  }

  /** The shrinking branches of ufs_truncate. */
  method Shrink(u: Ufs, ino: nat, inode: Inode, length: U32)
    requires u.Steady() && ino < u.g.inodes && u.tab[ino] == inode && !IsSymlink(inode)
    modifies u`disk, u`buf, u`scratch, u`freeBlocks, u`tab, u`own
    ensures u.Valid()
    ensures Shrunk(u.g, old(u.tab), old(u.disk), old(u.own), Table(u.g, u.disk), u.disk, ino, KeepBlocks(length))
    ensures Size(Table(u.g, u.disk)[ino]) == length
    ensures NoStale(old(u.tab), old(u.disk), ino, KeepBlocks(length)) ==>
      u.Steady() && u.own == Left(old(u.own), ino, KeepBlocks(length))
  {
    hide Vol, Good, Quiet, Shrunk, NoStale, Left, Val, Geom.Valid, IsSymlink, KeepBlocks, Found;
    ghost var tab0, d0, own0 := u.tab, u.disk, u.own;
    VolShape(u.g, u.tab, u.disk, u.own, u.freeBlocks);
    assert tab0[ino := inode] == tab0;
    KeepIs(length);
    ShrinkTo(u, ino, inode, length, if length == 0 then 0 else (length + BLOCK - 1) % WORD / BLOCK);
    ghost var m := u.disk;
    u.SyncSuper();
    VolShape(u.g, u.tab, u.disk, u.own, u.freeBlocks);
    ShrunkQuiet(u.g, tab0, d0, own0, Table(u.g, u.disk), m, u.disk, ino, KeepBlocks(length));
  }

  /** Nothing below the data area matters but the free map and the inodes. */
  lemma ShrunkQuiet(g: Geom, tab: seq<Inode>, d: Disk, own: map<nat, Slot>, tab': seq<Inode>, m: Disk, e: Disk, ino: nat, keep: nat)
    requires Found(g, tab, d, own, ino) && Shrunk(g, tab, d, own, tab', m, ino, keep) && Quiet(g, m, e)
    ensures Shrunk(g, tab, d, own, tab', e, ino, keep)
  {
    FoundShape(g, tab, d, own, ino);
    hide Good, MapByte, Found, TopPtr;
    forall k | 0 <= k < PTRS ensures Entry(e, TopPtr(tab[ino], 13), k) == Entry(m, TopPtr(tab[ino], 13), k) {
      RootQuiet(g, tab, d, own, m, e, ino, k);
    }
    hide Entry;
  }

  lemma FreedTable(g: Geom, d: Disk, e: Disk, f: set<nat>, b: nat)
    requires Freed(g, d, e, f, b)
    ensures Table(g, e) == Table(g, d)
  {
  }

  lemma VolFree(g: Geom, tab: seq<Inode>, d: Disk, own: map<nat, Slot>, free: nat)
    requires Vol(g, tab, d, own, free)
    ensures free == CountFree(g, d, g.Blocks())
  {
  }

  lemma GoodVol(g: Geom, tab: seq<Inode>, d: Disk, own: map<nat, Slot>, free: nat)
    requires Good(g, tab, d, own) && free == CountFree(g, d, g.Blocks())
    ensures Vol(g, tab, d, own, free)
  {
  }
}
