/** Writing and truncating seen from the whole volume: the invariant of UfsOps also holds after them. */
module UfsSound {
  import opened Options
  import opened Bytes
  import opened UfsFormat
  import opened UfsTree
  import opened UfsBlocks
  import opened UfsFiles
  import opened UfsTruncate
  import opened UfsDirent
  import opened UfsDirs
  import opened UfsLinks
  import opened UfsOps

  /** A vnode of an inode in use, as ufs_lookup makes it. */
  ghost predicate UsedVnode(u: Ufs, vn: Vnode)
    reads u, vn
  {
    && vn.ino < u.g.inodes && vn.ino < |u.marks| && vn.ino < |u.tab| && u.marks[vn.ino]
    && if vn.isDir then IsDir(u.tab[vn.ino]) else IsReg(u.tab[vn.ino])
  }

  lemma RegNoSymlink(i: Inode)
    requires IsReg(i)
    ensures !IsSymlink(i)
  {
  }

  lemma SameBytes(tab: seq<Inode>, d: Disk, touched: set<nat>)
    ensures BytesKept(tab, d, tab, d, touched)
  {
  }

  /** ufs_write on a sound volume, whether or not space runs out. */
  method WriteFile(u: Ufs, vn: Vnode, src: seq<Byte>, off: U32) returns (ret: Ret)
    requires FsOk(u) && UsedVnode(u, vn) && |src| < WORD
    modifies u, vn
    ensures FsOk(u) && u.marks == old(u.marks) && |u.tab| == |u.marks| == |old(u.tab)|
    ensures Listings(u.tab, u.disk, u.marks) == Listings(old(u.tab), old(u.disk), u.marks)
    ensures BytesKept(old(u.tab), old(u.disk), u.tab, u.disk, {vn.ino})
    ensures vn.isDir ==> ret == Err(EISDIR) && u.disk == old(u.disk)
    ensures !vn.isDir && ret == Count(|src|) ==>
      && WriteDone(u.g, old(u.tab), old(u.disk), old(u.own), u.tab, u.disk, u.own, vn.ino, off, src)
      && NothingLost(u.g, old(u.tab), old(u.disk), old(u.own), u.tab, u.disk, u.own)
      && vn.size == if Size(old(u.tab)[vn.ino]) < Wrap(off + |src|) then Wrap(off + |src|) else old(vn.size)
    ensures !vn.isDir && ret != Count(|src|) ==>
      && (ret == Err(ENOSPC) || (ret.Count? && 0 < ret.n < |src|)) && u.tab == old(u.tab) && vn.size == old(vn.size)
      && WriteShort(u.g, old(u.tab), old(u.disk), old(u.own), u.disk, u.own, vn.ino, off, src, if ret.Count? then ret.n else 0)
    ensures !vn.isDir && 3 * Touched(off, |src|) <= old(u.freeBlocks) ==> ret == Count(|src|)
  {
    hide Unused, Vol, Good, TreeOk, WriteDone, WriteShort, BytesKept, NothingLost, Listings, IsReg, IsDir, IsSymlink, Marks, Table;
    ghost var tab0, d0, own0, marks0 := u.tab, u.disk, u.own, u.marks;
    if !vn.isDir {
      RegNoSymlink(u.tab[vn.ino]);
    }
    VolGood(u.g, u.tab, u.disk, u.own, u.freeBlocks);
    TreeParts(u.tab, u.disk, u.marks);
    ret := Write(u, vn, src, off);
    VolGood(u.g, u.tab, u.disk, u.own, u.freeBlocks);
    if vn.isDir {
      SameBytes(tab0, d0, {vn.ino});
      return;
    }
    WriteTree(u.g, tab0, d0, own0, u.tab, u.disk, u.own, vn.ino, off, src, if ret.Count? then ret.n else 0, marks0);
    TreeParts(u.tab, u.disk, u.marks);
  }

  /** The bytes of the file after its length was set: of a shorter one, those of the blocks kept. */
  ghost predicate CutTo(tab: seq<Inode>, d: Disk, tab': seq<Inode>, e: Disk, ino: nat, length: U32)
    requires ino < |tab|
  {
    forall pos: nat :: ByteAt(tab', e, ino, pos) ==
      if length < Size(tab[ino]) && KeepBlocks(length) * BLOCK <= pos then None else ByteAt(tab, d, ino, pos)
  }

  /** ufs_truncate on a sound volume: it stays sound exactly when no pointer past the new end stands in an
      indirect block that is kept. */
  method TruncateFile(u: Ufs, vn: Vnode, length: U32) returns (rc: Status)
    requires FsOk(u) && UsedVnode(u, vn)
    modifies u, vn
    ensures rc == if vn.isDir then EISDIR else Ok
    ensures vn.isDir ==> FsOk(u) && u.disk == old(u.disk)
    ensures !vn.isDir ==> vn.size == length
    ensures vn.ino < |old(u.tab)| && u.marks == old(u.marks)
    ensures !vn.isDir ==>
      (FsOk(u) <==> Size(old(u.tab)[vn.ino]) <= length || NoStale(old(u.tab), old(u.disk), vn.ino, KeepBlocks(length)))
    ensures FsOk(u) ==>
      && NothingLost(u.g, old(u.tab), old(u.disk), old(u.own), u.tab, u.disk, u.own)
      && |u.tab| == |u.marks| == |old(u.tab)|
      && Listings(u.tab, u.disk, u.marks) == Listings(old(u.tab), old(u.disk), u.marks)
      && BytesKept(old(u.tab), old(u.disk), u.tab, u.disk, {vn.ino})
    ensures FsOk(u) && !vn.isDir ==>
      && CutTo(old(u.tab), old(u.disk), u.tab, u.disk, vn.ino, length)
      && Size(u.tab[vn.ino]) == length && Mode(u.tab[vn.ino]) == Mode(old(u.tab)[vn.ino])
  {
    hide Unused, Vol, Good, TreeOk, BytesKept, NothingLost, Listings, IsReg, IsDir, IsSymlink, Marks, Table, NoStale, Shrunk, Val, Quiet,
         Found, KeepBlocks, CountFree, SetSize, Size, Left, CutTo, Mode;
    ghost var tab0, d0, own0, marks0, keep := u.tab, u.disk, u.own, u.marks, KeepBlocks(length);
    if !vn.isDir {
      RegNoSymlink(u.tab[vn.ino]);
      FoundIs(u.g, u.tab, u.disk, u.own, u.freeBlocks, vn.ino);
    }
    TreeParts(u.tab, u.disk, u.marks);
    VolGood(u.g, u.tab, u.disk, u.own, u.freeBlocks);
    rc := Truncate(u, vn, length);
    if vn.isDir {
      SameBytes(tab0, d0, {vn.ino});
      LostSame(u.g, tab0, d0, own0);
    } else if Size(tab0[vn.ino]) <= length {
      ExtendTree(u.g, tab0, d0, u.own, u.freeBlocks, u.disk, vn.ino, length, marks0);
      MoreTouched(tab0, d0, u.tab, u.disk, {vn.ino});
      GrownCut(tab0, d0, u.disk, vn.ino, length);
      VolGood(u.g, u.tab, u.disk, u.own, u.freeBlocks);
      QuietNothingLost(u.g, tab0, d0, own0, u.tab, u.disk);
      TreeParts(u.tab, u.disk, u.marks);
    } else if NoStale(tab0, d0, vn.ino, keep) {
      ShrinkTree(u.g, tab0, d0, own0, u.tab, u.disk, vn.ino, keep, marks0);
      ShrunkCut(u.g, tab0, d0, own0, u.tab, u.disk, vn.ino, length);
      TreeParts(u.tab, u.disk, u.marks);
    } else {
      ShrinkSoundIff(u.g, tab0, d0, own0, Table(u.g, u.disk), u.disk, vn.ino, keep);
      VolGood(u.g, u.tab, u.disk, u.own, u.freeBlocks);
    }
  }

  lemma GrownCut(tab: seq<Inode>, d: Disk, e: Disk, ino: nat, length: U32)
    requires ino < |tab| && Size(tab[ino]) <= length && BytesKept(tab, d, tab[ino := SetSize(tab[ino], length)], e, {})
    ensures var tab' := tab[ino := SetSize(tab[ino], length)];
            CutTo(tab, d, tab', e, ino, length) && Size(tab'[ino]) == length && Mode(tab'[ino]) == Mode(tab[ino])
  {
    SetSizeFields(tab[ino], length);
    hide ByteAt, Size, SetSize, Mode;
  }

  lemma ShrunkCut(g: Geom, tab: seq<Inode>, d: Disk, own: map<nat, Slot>, tab': seq<Inode>, e: Disk, ino: nat, length: U32)
    requires ino < |tab| && length < Size(tab[ino]) && NoStale(tab, d, ino, KeepBlocks(length))
    requires Found(g, tab, d, own, ino) && Shrunk(g, tab, d, own, tab', e, ino, KeepBlocks(length))
    ensures CutTo(tab, d, tab', e, ino, length) && |tab'| == |tab| && Mode(tab'[ino]) == Mode(tab[ino])
  {
    hide NoStale, ByteAt, Size, Mode, KeepBlocks;
    forall pos: nat
      ensures ByteAt(tab', e, ino, pos) == if KeepBlocks(length) * BLOCK <= pos then None else ByteAt(tab, d, ino, pos)
    {
      ShrinkBytes(g, tab, d, own, tab', e, ino, KeepBlocks(length), ino, pos);
    }
  }

  lemma FoundIs(g: Geom, tab: seq<Inode>, d: Disk, own: map<nat, Slot>, free: nat, ino: nat)
    requires Vol(g, tab, d, own, free) && ino < g.inodes && ino < |tab| && !IsSymlink(tab[ino])
    ensures Found(g, tab, d, own, ino)
  {
    VolGood(g, tab, d, own, free);
    VolShape(g, tab, d, own, free);
  }

  lemma MoreTouched(tab: seq<Inode>, d: Disk, tab': seq<Inode>, e: Disk, touched: set<nat>)
    requires BytesKept(tab, d, tab', e, {})
    ensures BytesKept(tab, d, tab', e, touched)
  {
  }

  /** On a sound volume that lost no block every data block is either free and named by no pointer, or allocated
      and named by exactly one. */
  lemma FreeOrOwned(g: Geom, tab: seq<Inode>, d: Disk, own: map<nat, Slot>, n: nat)
    requires Good(g, tab, d, own) && NoLeak(g, tab, d, own, iset{}) && n < g.Blocks()
    ensures IsFree(g, d, n) <==> !exists s :: Val(tab, d, s) == g.Frag(n)
    ensures !IsFree(g, d, n) ==> exists s :: Val(tab, d, s) == g.Frag(n) && forall t :: Val(tab, d, t) == g.Frag(n) ==> t == s
  {
    hide IsFree, Val;
    var v := g.Frag(n);
    assert g.IsBlock(v) && g.BlockNo(v) == n && v != 0;
    if v in own {
      assert Owned(g, tab, d, own, v);
    }
  }
}
