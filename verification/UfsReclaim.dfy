/** Giving blocks back: ufs_free_indirect_ptrs and ufs_free_double_indirect. */
module UfsReclaim {
  import opened Bytes
  import opened UfsFormat
  import opened UfsTree
  import opened UfsBlocks
  import opened UfsFiles

  const OUTER_OFF := 2048   // where the scratch page caches the outer sector

  /** From d to e exactly the blocks in f were returned to the free map; nothing else changed,
      except perhaps inside the block at b (0: no exception). */
  ghost predicate Freed(g: Geom, d: Disk, e: Disk, f: set<nat>, b: nat) {
    && g.Valid() && |d| == g.sectors == |e|
    && Table(g, e) == Table(g, d)
    && (forall q :: g.data <= q < |d| && !(b <= q < b + FRAGS) ==> d[q] == e[q])
    && (forall n :: 0 <= n < g.Blocks() ==> MapByte(g, e, n) == if g.Frag(n) in f then 0xFF else MapByte(g, d, n))
  }

  lemma FreedRefl(g: Geom, d: Disk, b: nat)
    requires g.Valid() && |d| == g.sectors
    ensures Freed(g, d, d, {}, b)
  {
  }

  lemma FreedTrans(g: Geom, d: Disk, e: Disk, h: Disk, f: set<nat>, f': set<nat>, b: nat)
    requires Freed(g, d, e, f, b) && Freed(g, e, h, f', b)
    ensures Freed(g, d, h, f + f', b)
  {
    hide MapByte, Table;
  }

  /** No exception is needed for a block below the data area. */
  lemma FreedBut(g: Geom, d: Disk, e: Disk, f: set<nat>, b: nat)
    requires Freed(g, d, e, f, 0)
    ensures Freed(g, d, e, f, b)
  {
    hide MapByte, Table;
  }

  lemma FreedOne(g: Geom, d: Disk, v: nat)
    requires g.Valid() && |d| == g.sectors && g.IsBlock(v)
    ensures Freed(g, d, SetMap(g, d, g.BlockNo(v), 0xFF), {v}, 0)
  {
    SetMapFrame(g, d, g.BlockNo(v), 0xFF);
    hide MapByte, Table, SetMap;
    assert v == g.Frag(g.BlockNo(v));
  }

  lemma LooseAfter(g: Geom, tab: seq<Inode>, d: Disk, e: Disk, own: map<nat, Slot>, f: set<nat>, b: nat, v: nat)
    requires Loose(g, tab, d, own, v) && Freed(g, d, e, f, b) && v !in f
    ensures Loose(g, tab, e, own, v)
  {
    assert v == g.Frag(g.BlockNo(v));
    assert MapByte(g, e, g.BlockNo(v)) == MapByte(g, d, g.BlockNo(v));
  }

  // ---- the pointers of one sector ----

  function Word(s: Sector, j: nat): U32
    requires j < PTRS_SEC
  {
    U32At(s, 4 * j)
  }

  ghost function Words(s: Sector, lo: nat, hi: nat): set<nat>
    requires hi <= PTRS_SEC
  {
    set j | lo <= j < hi && Word(s, j) != 0 :: Word(s, j) as nat
  }

  ghost predicate DistinctWords(s: Sector, lo: nat) {
    forall i, j :: lo <= i < PTRS_SEC && lo <= j < PTRS_SEC && Word(s, i) != 0 && Word(s, i) == Word(s, j) ==> i == j
  }

  /** ufs_free_indirect_ptrs: the buffer is saved in the scratch page because freeing clobbers it. */
  method FreeIndirectPtrs(u: Ufs, start: nat)
    requires u.Valid() && start <= PTRS_SEC
    requires DistinctWords(u.buf, start)
    requires forall j :: start <= j < PTRS_SEC && Word(u.buf, j) != 0 ==> Loose(u.g, u.tab, u.disk, u.own, Word(u.buf, j))
    modifies u`disk, u`buf, u`scratch, u`freeBlocks
    ensures u.Valid()
    ensures Freed(u.g, old(u.disk), u.disk, Words(old(u.buf), start, PTRS_SEC), 0)
    ensures u.scratch[SECTOR..] == old(u.scratch)[SECTOR..]
  {
    hide Vol, Good, Freed, Loose, Geom.Valid, U32At, Words;
    ghost var sec, d0, tab, own := u.buf, u.disk, u.tab, u.own;
    VolShape(u.g, u.tab, u.disk, u.own, u.freeBlocks);
    u.scratch := Splice(u.scratch, 0, u.buf);
    FreedRefl(u.g, d0, 0);
    WordsEmpty(sec, start);
    var j := start;
    while j < PTRS_SEC
      invariant start <= j <= PTRS_SEC && u.Valid()
      invariant u.scratch[..SECTOR] == sec && u.scratch[SECTOR..] == old(u.scratch)[SECTOR..]
      invariant Freed(u.g, d0, u.disk, Words(sec, start, j), 0)
    {
      var ptr := U32At(u.scratch[..SECTOR], 4 * j);
      WordsNext(sec, start, j);
      if ptr != 0 {
        assert ptr == Word(sec, j);
        WordFresh(sec, start, j);
        LooseAfter(u.g, u.tab, d0, u.disk, u.own, Words(sec, start, j), 0, ptr);
        ghost var d1 := u.disk;
        LooseData(u.g, u.tab, u.disk, u.own, ptr);
        var rc := u.FreeBlock(ptr);
        FreedOne(u.g, d1, ptr);
        FreedTrans(u.g, d0, d1, u.disk, Words(sec, start, j), {ptr as nat}, 0);
      }
      j := j + 1;
    }
  }

  lemma LooseData(g: Geom, tab: seq<Inode>, d: Disk, own: map<nat, Slot>, v: nat)
    requires Loose(g, tab, d, own, v)
    ensures g.data <= v && g.IsBlock(v) && v + FRAGS <= |d| && g.Valid() && |d| == g.sectors
  {
  }

  lemma WordsEmpty(s: Sector, lo: nat)
    requires lo <= PTRS_SEC
    ensures Words(s, lo, lo) == {}
  {
  }

  lemma WordsNext(s: Sector, lo: nat, j: nat)
    requires lo <= j < PTRS_SEC
    ensures Words(s, lo, j + 1) == if Word(s, j) != 0 then Words(s, lo, j) + {Word(s, j) as nat} else Words(s, lo, j)
  {
    hide U32At;
  }

  lemma WordFresh(s: Sector, lo: nat, j: nat)
    requires lo <= j < PTRS_SEC && DistinctWords(s, lo) && Word(s, j) != 0
    ensures Word(s, j) as nat !in Words(s, lo, j)
  {
    hide U32At;
  }

  // ---- the pointers of one indirect block ----

  ghost function Entries(d: Disk, p: nat, lo: nat, hi: nat): set<nat> {
    set k | lo <= k < hi && Entry(d, p, k) != 0 :: Entry(d, p, k) as nat
  }

  ghost predicate DistinctEntries(d: Disk, p: nat) {
    forall i, j :: Entry(d, p, i) != 0 && Entry(d, p, i) == Entry(d, p, j) ==> i == j
  }

  /** Frees what the indirect block at p points to from entry `keep` on, sector by sector. */
  method FreeEntries(u: Ufs, p: nat, keep: nat)
    requires u.Valid() && keep <= PTRS && p != 0 && u.g.data <= p && p + FRAGS <= |u.disk|
    requires DistinctEntries(u.disk, p)
    requires forall v :: v in Entries(u.disk, p, keep, PTRS) ==> Loose(u.g, u.tab, u.disk, u.own, v)
    modifies u`disk, u`buf, u`scratch, u`freeBlocks
    ensures u.Valid()
    ensures Freed(u.g, old(u.disk), u.disk, Entries(old(u.disk), p, keep, PTRS), 0)
    ensures u.scratch[SECTOR..] == old(u.scratch)[SECTOR..]
  {
    hide Vol, Good, Freed, Loose, Geom.Valid, Entries, Entry, DistinctEntries, DistinctWords, Words, U32At;
    ghost var d0 := u.disk;
    VolShape(u.g, u.tab, u.disk, u.own, u.freeBlocks);
    FreedRefl(u.g, d0, 0);
    EntriesEmpty(d0, p, keep, keep);
    var s := keep / PTRS_SEC;
    ghost var at := keep;
    while s < FRAGS
      invariant keep / PTRS_SEC <= s <= FRAGS && u.Valid() && |u.disk| == |d0|
      invariant at == if s == keep / PTRS_SEC then keep else s * PTRS_SEC
      invariant Freed(u.g, d0, u.disk, Entries(d0, p, keep, at), 0)
      invariant u.scratch[SECTOR..] == old(u.scratch)[SECTOR..]
    {
      u.ReadSector(p + s);
      var start := if s == keep / PTRS_SEC then keep % PTRS_SEC else 0;
      ghost var d1 := u.disk;
      FreedSector(u.g, d0, d1, Entries(d0, p, keep, at), p + s);
      SectorEntries(d0, p, s, start);
      LooseRest(u.g, u.tab, d0, d1, u.own, p, keep, at, s, start, u.buf);
      FreeIndirectPtrs(u, start);
      FreedTrans(u.g, d0, d1, u.disk, Entries(d0, p, keep, at), Words(d0[p + s], start, PTRS_SEC), 0);
      EntriesJoin(d0, p, keep, at, (s + 1) * PTRS_SEC);
      FreedLen(u.g, d1, u.disk, Words(d0[p + s], start, PTRS_SEC));
      s := s + 1;
      at := s * PTRS_SEC;
    }
    assert at == PTRS;
  }

  lemma FreedLen(g: Geom, d: Disk, e: Disk, f: set<nat>)
    requires Freed(g, d, e, f, 0)
    ensures |d| == |e|
  {
  }

  lemma FreedSector(g: Geom, d: Disk, e: Disk, f: set<nat>, q: nat)
    requires Freed(g, d, e, f, 0) && g.data <= q < |d|
    ensures |d| == |e| && d[q] == e[q]
  {
  }

  lemma EntriesEmpty(d: Disk, p: nat, lo: nat, hi: nat)
    requires hi <= lo
    ensures Entries(d, p, lo, hi) == {}
  {
  }

  lemma EntriesJoin(d: Disk, p: nat, lo: nat, mid: nat, hi: nat)
    requires lo <= mid <= hi
    ensures Entries(d, p, lo, hi) == Entries(d, p, lo, mid) + Entries(d, p, mid, hi)
  {
    hide Entry;
  }

  lemma WordEntry(d: Disk, p: nat, s: nat, j: nat)
    requires p != 0 && s < FRAGS && p + FRAGS <= |d| && j < PTRS_SEC
    ensures Word(d[p + s], j) == Entry(d, p, s * PTRS_SEC + j)
  {
  }

  lemma SectorEntries(d: Disk, p: nat, s: nat, start: nat)
    requires p != 0 && s < FRAGS && p + FRAGS <= |d| && start <= PTRS_SEC
    ensures Words(d[p + s], start, PTRS_SEC) == Entries(d, p, s * PTRS_SEC + start, (s + 1) * PTRS_SEC)
    ensures DistinctEntries(d, p) ==> DistinctWords(d[p + s], start)
  {
    hide Entry, Word;
    var sec, base := d[p + s], s * PTRS_SEC;
    forall j | start <= j < PTRS_SEC ensures Word(sec, j) == Entry(d, p, base + j) {
      WordEntry(d, p, s, j);
    }
    forall v | v in Entries(d, p, base + start, (s + 1) * PTRS_SEC) ensures v in Words(sec, start, PTRS_SEC) {
      var k :| base + start <= k < (s + 1) * PTRS_SEC && Entry(d, p, k) == v;
      assert Word(sec, k - base) == Entry(d, p, base + (k - base));
    }
    if DistinctEntries(d, p) {
      forall i, j | start <= i < PTRS_SEC && start <= j < PTRS_SEC && Word(sec, i) != 0 && Word(sec, i) == Word(sec, j)
        ensures i == j
      {
        assert Entry(d, p, base + i) == Entry(d, p, base + j);
      }
    }
  }

  /** The pointers of the next sector have not been freed yet. */
  lemma LooseRest(g: Geom, tab: seq<Inode>, d: Disk, e: Disk, own: map<nat, Slot>, p: nat, keep: nat, at: nat, s: nat, start: nat, sec: Sector)
    requires p != 0 && s < FRAGS && p + FRAGS <= |d| && start <= PTRS_SEC && keep <= at == s * PTRS_SEC + start
    requires DistinctEntries(d, p) && |e| == |d| && sec == d[p + s]
    requires Freed(g, d, e, Entries(d, p, keep, at), 0)
    requires forall v :: v in Entries(d, p, keep, PTRS) ==> Loose(g, tab, d, own, v)
    ensures forall j :: start <= j < PTRS_SEC && Word(sec, j) != 0 ==> Loose(g, tab, e, own, Word(sec, j))
  {
    hide Freed, Loose, Entry, Word;
    forall j | start <= j < PTRS_SEC && Word(sec, j) != 0 ensures Loose(g, tab, e, own, Word(sec, j)) {
      WordEntry(d, p, s, j);
      var v := Entry(d, p, s * PTRS_SEC + j);
      assert v as nat in Entries(d, p, keep, PTRS);
      assert v as nat !in Entries(d, p, keep, at);
      LooseAfter(g, tab, d, e, own, Entries(d, p, keep, at), 0, v);
    }
  }

  // ---- the double-indirect tree ----

  /** What is freed on account of outer entry o when `keep` logical blocks of the tree stay. */
  ghost function OuterFree(d: Disk, b: nat, keep: nat, o: nat): set<nat> {
    var q := Entry(d, b, o);
    if q == 0 then {}
    else if keep <= o * PTRS then Entries(d, q, 0, PTRS) + {q as nat}
    else if keep < o * PTRS + PTRS then Entries(d, q, keep - o * PTRS, PTRS)
    else {}
  }

  /** ... and on account of the first k outer entries. */
  ghost function DoubleFree(d: Disk, b: nat, keep: nat, k: nat): set<nat> {
    if k == 0 then {} else DoubleFree(d, b, keep, k - 1) + OuterFree(d, b, keep, k - 1)
  }

  /** owner knows every block of the tree at b, so no block stands in it twice. */
  ghost predicate KnowsDouble(g: Geom, d: Disk, b: nat, owner: map<nat, Slot>, ino: nat) {
    && g.Valid() && |d| == g.sectors && g.IsBlock(b) && b in owner && owner[b] == Top(ino, 13)
    && (forall k :: Entry(d, b, k) != 0 ==> Knows(g, owner, Entry(d, b, k), Outer(ino, k)))
    && (forall k, j :: Entry(d, Entry(d, b, k), j) != 0 ==> Knows(g, owner, Entry(d, Entry(d, b, k), j), Inner(ino, k, j)))
  }

  ghost predicate Knows(g: Geom, owner: map<nat, Slot>, v: nat, s: Slot) {
    g.IsBlock(v) && v in owner && owner[v] == s
  }

  lemma GoodKnowsDouble(g: Geom, tab: seq<Inode>, d: Disk, own: map<nat, Slot>, ino: nat)
    requires Good(g, tab, d, own) && ino < |tab| && !IsSymlink(tab[ino]) && TopPtr(tab[ino], 13) != 0
    ensures KnowsDouble(g, d, TopPtr(tab[ino], 13), own, ino)
  {
    var b := TopPtr(tab[ino], 13);
    assert Val(tab, d, Top(ino, 13)) == b && Owned(g, tab, d, own, b);
    forall k | Entry(d, b, k) != 0 ensures Knows(g, own, Entry(d, b, k), Outer(ino, k)) {
      assert Val(tab, d, Outer(ino, k)) == Entry(d, b, k);
      assert Owned(g, tab, d, own, Entry(d, b, k));
    }
    forall k, j | Entry(d, Entry(d, b, k), j) != 0 ensures Knows(g, own, Entry(d, Entry(d, b, k), j), Inner(ino, k, j)) {
      assert Val(tab, d, Inner(ino, k, j)) == Entry(d, Entry(d, b, k), j);
      assert Owned(g, tab, d, own, Entry(d, Entry(d, b, k), j));
    }
  }

  lemma OuterOwners(g: Geom, d: Disk, b: nat, owner: map<nat, Slot>, ino: nat, keep: nat, o: nat)
    requires KnowsDouble(g, d, b, owner, ino)
    ensures forall v :: v in OuterFree(d, b, keep, o) ==> v in owner && v != b && !owner[v].Top? && !owner[v].Ind? && owner[v].k == o
    ensures Entry(d, b, o) != 0 ==> DistinctEntries(d, Entry(d, b, o)) && Entry(d, b, o) as nat !in Entries(d, Entry(d, b, o), 0, PTRS)
  {
    hide Entry;
  }

  lemma {:induction false} DoubleOwners(g: Geom, d: Disk, b: nat, owner: map<nat, Slot>, ino: nat, keep: nat, k: nat)
    requires KnowsDouble(g, d, b, owner, ino)
    ensures forall v :: v in DoubleFree(d, b, keep, k) ==> v in owner && v != b && !owner[v].Top? && !owner[v].Ind? && owner[v].k < k
  {
    hide OuterFree, KnowsDouble;
    if k > 0 {
      DoubleOwners(g, d, b, owner, ino, keep, k - 1);
      OuterOwners(g, d, b, owner, ino, keep, k - 1);
    }
  }

  /** The loop body of ufs_free_double_indirect for one inner block q at outer index o. */
  method FreeInner(u: Ufs, q: nat, o: nat, keep: nat) returns (gone: bool)
    requires u.Valid() && q != 0 && u.g.data <= q && q + FRAGS <= |u.disk|
    requires DistinctEntries(u.disk, q) && q !in Entries(u.disk, q, 0, PTRS)
    requires keep <= o * PTRS ==> Loose(u.g, u.tab, u.disk, u.own, q)
    requires forall v :: v in Entries(u.disk, q, if keep <= o * PTRS then 0 else keep - o * PTRS, PTRS) ==> Loose(u.g, u.tab, u.disk, u.own, v)
    modifies u`disk, u`buf, u`scratch, u`freeBlocks
    ensures u.Valid() && gone == (keep <= o * PTRS)
    ensures Freed(u.g, old(u.disk), u.disk,
                  if keep <= o * PTRS then Entries(old(u.disk), q, 0, PTRS) + {q}
                  else if keep < o * PTRS + PTRS then Entries(old(u.disk), q, keep - o * PTRS, PTRS) else {}, 0)
    ensures u.scratch[SECTOR..] == old(u.scratch)[SECTOR..]
  {
    hide Vol, Good, Freed, Loose, Geom.Valid, Entries, DistinctEntries;
    ghost var d0 := u.disk;
    VolShape(u.g, u.tab, u.disk, u.own, u.freeBlocks);
    gone := keep <= o * PTRS;
    if keep <= o * PTRS {
      LooseData(u.g, u.tab, u.disk, u.own, q);
      FreeEntries(u, q, 0);
      ghost var d1 := u.disk;
      LooseAfter(u.g, u.tab, d0, d1, u.own, Entries(d0, q, 0, PTRS), 0, q);
      LooseData(u.g, u.tab, u.disk, u.own, q);
      var rc := u.FreeBlock(q);
      FreedOne(u.g, d1, q);
      FreedTrans(u.g, d0, d1, u.disk, Entries(d0, q, 0, PTRS), {q}, 0);
    } else if keep < o * PTRS + PTRS {
      FreeEntries(u, q, keep - o * PTRS);
    } else {
      FreedRefl(u.g, d0, 0);
    }
  }

  /** What the outer sector s looks like once its first i entries were dealt with. */
  ghost predicate OuterCached(p: Page, d: Disk, b: nat, s: nat, keep: nat, i: nat)
    requires b + s < |d|
  {
    forall m :: 0 <= m < PTRS_SEC ==>
      U32At(p, OUTER_OFF + 4 * m) == if m < i && keep <= (s * PTRS_SEC + m) * PTRS then 0 else Word(d[b + s], m)
  }

  lemma CacheStep(p: Page, p': Page, d: Disk, b: nat, s: nat, keep: nat, i: nat)
    requires b + s < |d| && i < PTRS_SEC && OuterCached(p, d, b, s, keep, i)
    requires p[SECTOR..] == p'[SECTOR..]
    ensures keep <= (s * PTRS_SEC + i) * PTRS ==> OuterCached(PutU32(p', OUTER_OFF + 4 * i, 0), d, b, s, keep, i + 1)
    ensures !(keep <= (s * PTRS_SEC + i) * PTRS) || Word(d[b + s], i) == 0 ==> OuterCached(p', d, b, s, keep, i + 1)
  {
    hide Word;
    forall m | 0 <= m < PTRS_SEC
      ensures U32At(p', OUTER_OFF + 4 * m) == U32At(p, OUTER_OFF + 4 * m)
      ensures U32At(PutU32(p', OUTER_OFF + 4 * i, 0), OUTER_OFF + 4 * m) == if m == i then 0 else U32At(p, OUTER_OFF + 4 * m)
    {
      PutGet32(p', OUTER_OFF + 4 * i, 0, OUTER_OFF + 4 * m);
      assert forall x :: SECTOR <= x < 4096 ==> p[x] == p[SECTOR..][x - SECTOR] && p'[x] == p'[SECTOR..][x - SECTOR];
    }
  }

  /** One turn of the inner loop of ufs_free_double_indirect: outer entry o = 128 s + i. */
  method FreeOuterEntry(u: Ufs, b: nat, s: nat, i: nat, keep: nat, ghost d0: Disk, ghost owner: map<nat, Slot>, ghost ino: nat) returns (dirty: bool)
    requires u.Valid() && s < FRAGS && i < PTRS_SEC && b + FRAGS <= |d0| && |d0| == u.g.sectors
    requires KnowsDouble(u.g, d0, b, owner, ino)
    requires Freed(u.g, d0, u.disk, DoubleFree(d0, b, keep, s * PTRS_SEC + i), b)
    requires forall v :: v in DoubleFree(d0, b, keep, PTRS) ==> Loose(u.g, u.tab, d0, u.own, v)
    requires OuterCached(u.scratch, d0, b, s, keep, i)
    modifies u`disk, u`buf, u`scratch, u`freeBlocks
    ensures u.Valid() && |u.disk| == |d0|
    ensures Freed(u.g, d0, u.disk, DoubleFree(d0, b, keep, s * PTRS_SEC + i + 1), b)
    ensures OuterCached(u.scratch, d0, b, s, keep, i + 1)
    ensures !dirty && NothingToClear(d0[b + s], s, keep, i) ==> NothingToClear(d0[b + s], s, keep, i + 1)
    ensures SameBlock(old(u.disk), u.disk, b)
  {
    hide Vol, Good, Freed, Loose, Geom.Valid, Entries, Entry, DistinctEntries, KnowsDouble, U32At, OuterCached, Word;
    ghost var o, k := s * PTRS_SEC + i, s * PTRS_SEC + i;
    ghost var d1, p1 := u.disk, u.scratch;
    CachedWord(u.scratch, d0, b, s, keep, i);
    var q := U32At(u.scratch, OUTER_OFF + 4 * i);
    WordEntryOf(u.g, d0, b, owner, ino, s, i);
    CacheStep(p1, p1, d0, b, s, keep, i);
    dirty := false;
    FreedShape(u.g, d0, d1, DoubleFree(d0, b, keep, o), b);
    if q != 0 {
      InnerReady(u.g, u.tab, d0, d1, u.own, b, owner, ino, keep, o, q);
      dirty := FreeInner(u, q, s * PTRS_SEC + i, keep);
      FreedBut(u.g, d1, u.disk, OuterFree(d0, b, keep, o), b);
      FreedTrans(u.g, d0, d1, u.disk, DoubleFree(d0, b, keep, o), OuterFree(d0, b, keep, o), b);
      FreedRoot(u.g, d0, d1, u.disk, OuterFree(d0, b, keep, o), b, owner, ino);
      CacheStep(p1, u.scratch, d0, b, s, keep, i);
      if dirty {
        u.scratch := PutU32(u.scratch, OUTER_OFF + 4 * i, 0);
      }
    } else {
      assert DoubleFree(d0, b, keep, o + 1) == DoubleFree(d0, b, keep, o);
    }
  }

  lemma FreedShape(g: Geom, d: Disk, e: Disk, f: set<nat>, b: nat)
    requires Freed(g, d, e, f, b)
    ensures |d| == |e| == g.sectors && g.Valid()
  {
  }

  lemma CachedWord(p: Page, d: Disk, b: nat, s: nat, keep: nat, i: nat)
    requires b + s < |d| && i < PTRS_SEC && OuterCached(p, d, b, s, keep, i)
    ensures U32At(p, OUTER_OFF + 4 * i) == Word(d[b + s], i)
  {
  }

  lemma WordEntryOf(g: Geom, d: Disk, b: nat, owner: map<nat, Slot>, ino: nat, s: nat, i: nat)
    requires KnowsDouble(g, d, b, owner, ino) && s < FRAGS && i < PTRS_SEC && b + FRAGS <= |d|
    ensures Word(d[b + s], i) == Entry(d, b, s * PTRS_SEC + i)
  {
    WordEntry(d, b, s, i);
  }

  lemma FreedRoot(g: Geom, d0: Disk, d: Disk, e: Disk, f: set<nat>, b: nat, owner: map<nat, Slot>, ino: nat)
    requires KnowsDouble(g, d0, b, owner, ino) && Freed(g, d, e, f, 0)
    ensures SameBlock(d, e, b)
  {
  }

  /** The inner block at outer entry o, and what it points to, is still as found and still to be freed. */
  lemma InnerReady(g: Geom, tab: seq<Inode>, d0: Disk, d: Disk, own: map<nat, Slot>, b: nat, owner: map<nat, Slot>, ino: nat, keep: nat, o: nat, q: nat)
    requires KnowsDouble(g, d0, b, owner, ino) && o < PTRS && q == Entry(d0, b, o) != 0
    requires Freed(g, d0, d, DoubleFree(d0, b, keep, o), b)
    requires forall v :: v in DoubleFree(d0, b, keep, PTRS) ==> Loose(g, tab, d0, own, v)
    ensures g.data <= q && q + FRAGS <= |d|
    ensures DistinctEntries(d, q) && q !in Entries(d, q, 0, PTRS)
    ensures keep <= o * PTRS ==> Loose(g, tab, d, own, q)
    ensures forall lo, hi :: Entries(d, q, lo, hi) == Entries(d0, q, lo, hi)
    ensures forall v :: v in Entries(d, q, if keep <= o * PTRS then 0 else keep - o * PTRS, PTRS) ==> Loose(g, tab, d, own, v)
  {
    hide Entry, Loose, KnowsDouble, Freed, DoubleFree, Geom.Valid, SameBlock, Entries, DistinctEntries;
    OuterOwners(g, d0, b, owner, ino, keep, o);
    DoubleOwners(g, d0, b, owner, ino, keep, o);
    InnerSame(g, d0, d, DoubleFree(d0, b, keep, o), b, owner, ino, o);
    SameEntries(d0, d, q);
    DoubleGrows(d0, b, keep, o + 1, PTRS);
    if o * PTRS + PTRS <= keep {
      EntriesEmpty(d0, q, keep - o * PTRS, PTRS);
    }
    forall v | v in OuterFree(d0, b, keep, o) ensures Loose(g, tab, d, own, v) {
      InnerPending(d0, b, keep, o);
      LooseAfter(g, tab, d0, d, own, DoubleFree(d0, b, keep, o), b, v);
    }
  }

  lemma InnerSame(g: Geom, d0: Disk, d: Disk, f: set<nat>, b: nat, owner: map<nat, Slot>, ino: nat, o: nat)
    requires KnowsDouble(g, d0, b, owner, ino) && Entry(d0, b, o) != 0
    requires Freed(g, d0, d, f, b)
    ensures SameBlock(d0, d, Entry(d0, b, o)) && g.data <= Entry(d0, b, o) && Entry(d0, b, o) + FRAGS <= |d|
  {
    hide Entry;
    assert Knows(g, owner, Entry(d0, b, o), Outer(ino, o));
    BlocksApart(g, b, Entry(d0, b, o));
  }

  lemma InnerPending(d: Disk, b: nat, keep: nat, o: nat)
    ensures OuterFree(d, b, keep, o) <= DoubleFree(d, b, keep, o + 1)
  {
  }

  lemma {:induction false} DoubleGrows(d: Disk, b: nat, keep: nat, k: nat, m: nat)
    requires k <= m
    ensures DoubleFree(d, b, keep, k) <= DoubleFree(d, b, keep, m)
  {
    if k < m {
      DoubleGrows(d, b, keep, k, m - 1);
    }
  }

  lemma SameEntries(d: Disk, e: Disk, q: nat)
    requires SameBlock(d, e, q)
    ensures forall k :: Entry(d, q, k) == Entry(e, q, k)
    ensures forall lo, hi :: Entries(d, q, lo, hi) == Entries(e, q, lo, hi)
    ensures DistinctEntries(d, q) == DistinctEntries(e, q)
  {
    forall k ensures Entry(d, q, k) == Entry(e, q, k) {
      EntrySame(d, e, q, k);
    }
    hide Entry;
  }

  /** One sector of the outer block: cached, its entries dealt with, written back when some were cleared. */
  method FreeOuterSector(u: Ufs, b: nat, s: nat, keep: nat, ghost d0: Disk, ghost owner: map<nat, Slot>, ghost ino: nat)
    requires u.Valid() && s < FRAGS && b + FRAGS <= |d0| && |d0| == u.g.sectors
    requires KnowsDouble(u.g, d0, b, owner, ino)
    requires Freed(u.g, d0, u.disk, DoubleFree(d0, b, keep, s * PTRS_SEC), b)
    requires forall v :: v in DoubleFree(d0, b, keep, PTRS) ==> Loose(u.g, u.tab, d0, u.own, v)
    requires Loose(u.g, u.tab, d0, u.own, b)
    requires u.disk[b + s] == d0[b + s]
    modifies u`disk, u`buf, u`scratch, u`freeBlocks
    ensures u.Valid() && |u.disk| == |d0|
    ensures Freed(u.g, d0, u.disk, DoubleFree(d0, b, keep, (s + 1) * PTRS_SEC), b)
    ensures forall q :: b <= q < b + FRAGS && q != b + s ==> u.disk[q] == old(u.disk)[q]
    ensures SectorCleared(u.disk[b + s], d0[b + s], s, keep)
  {
    hide Vol, Good, Freed, Loose, Geom.Valid, KnowsDouble, OuterCached, DoubleFree, SectorCleared, U32At;
    ghost var d1 := u.disk;
    FreedShape(u.g, d0, u.disk, DoubleFree(d0, b, keep, s * PTRS_SEC), b);
    u.ReadSector(b + s);
    u.scratch := Splice(u.scratch, OUTER_OFF, u.buf);
    CacheOuterIs(u.scratch, d0, b, s, keep);
    var dirty := false;
    var i := 0;
    while i < PTRS_SEC
      invariant 0 <= i <= PTRS_SEC && u.Valid() && |u.disk| == |d0|
      invariant Freed(u.g, d0, u.disk, DoubleFree(d0, b, keep, s * PTRS_SEC + i), b)
      invariant OuterCached(u.scratch, d0, b, s, keep, i)
      invariant SameBlock(d1, u.disk, b)
      invariant !dirty ==> NothingToClear(d0[b + s], s, keep, i)
    {
      var cleared := FreeOuterEntry(u, b, s, i, keep, d0, owner, ino);
      dirty := dirty || cleared;
      i := i + 1;
    }
    ghost var d2 := u.disk;
    ClearedIs(u.scratch, d0, b, s, keep, dirty);
    if dirty {
      u.buf := u.scratch[OUTER_OFF..OUTER_OFF + SECTOR];
      RootWrite(u.g, u.tab, d0, u.disk, u.own, u.freeBlocks, DoubleFree(d0, b, keep, (s + 1) * PTRS_SEC), b, s, u.buf);
      u.WriteSector(b + s);
    }
  }

  /** Sector s of the outer block with the entries of freed inner blocks cleared. */
  ghost predicate SectorCleared(t: Sector, was: Sector, s: nat, keep: nat) {
    forall m :: 0 <= m < PTRS_SEC ==> Word(t, m) == if keep <= (s * PTRS_SEC + m) * PTRS then 0 else Word(was, m)
  }

  ghost predicate NothingToClear(was: Sector, s: nat, keep: nat, i: nat) {
    forall m :: 0 <= m < i && m < PTRS_SEC && keep <= (s * PTRS_SEC + m) * PTRS ==> Word(was, m) == 0
  }

  lemma CacheOuterIs(p: Page, d: Disk, b: nat, s: nat, keep: nat)
    requires b + s < |d|
    requires p[OUTER_OFF..OUTER_OFF + SECTOR] == d[b + s]
    ensures OuterCached(p, d, b, s, keep, 0)
  {
    var t := p[OUTER_OFF..OUTER_OFF + SECTOR];
    forall m | 0 <= m < PTRS_SEC ensures U32At(p, OUTER_OFF + 4 * m) == Word(t, m) {
      PageWord(p, m);
    }
  }

  lemma PageWord(p: Page, m: nat)
    requires m < PTRS_SEC
    ensures U32At(p, OUTER_OFF + 4 * m) == Word(p[OUTER_OFF..OUTER_OFF + SECTOR], m)
  {
  }

  lemma ClearedIs(p: Page, d: Disk, b: nat, s: nat, keep: nat, dirty: bool)
    requires b + s < |d| && OuterCached(p, d, b, s, keep, PTRS_SEC)
    requires !dirty ==> NothingToClear(d[b + s], s, keep, PTRS_SEC)
    ensures SectorCleared(p[OUTER_OFF..OUTER_OFF + SECTOR], d[b + s], s, keep)
    ensures !dirty ==> SectorCleared(d[b + s], d[b + s], s, keep)
  {
    var t := p[OUTER_OFF..OUTER_OFF + SECTOR];
    forall m | 0 <= m < PTRS_SEC ensures U32At(p, OUTER_OFF + 4 * m) == Word(t, m) {
      PageWord(p, m);
    }
  }

  /** Writing a sector of the still-loose outer block. */
  lemma RootWrite(g: Geom, tab: seq<Inode>, d0: Disk, d: Disk, own: map<nat, Slot>, free: nat, f: set<nat>, b: nat, s: nat, t: Sector)
    requires Vol(g, tab, d, own, free) && s < FRAGS && b + FRAGS <= |d|
    requires Freed(g, d0, d, f, b) && Loose(g, tab, d0, own, b)
    ensures Vol(g, tab, d[b + s := t], own, free) && Freed(g, d0, d[b + s := t], f, b)
    ensures Marks(g, d[b + s := t]) == Marks(g, d)
  {
    hide Val, MapByte, IsFree, Table, Marks;
    var e := d[b + s := t];
    VolGood(g, tab, d, own, free);
    MarksData(g, d, e);
    hide Geom.Valid;
    WriteStep(g, tab, d, e, own, b);
    CountFreeFrame(g, d, e);
  }

  lemma CountFreeFrame(g: Geom, d: Disk, e: Disk)
    requires g.Valid() && |d| == g.sectors == |e|
    requires forall n :: 0 <= n < g.Blocks() ==> MapByte(g, e, n) == MapByte(g, d, n)
    ensures CountFree(g, e, g.Blocks()) == CountFree(g, d, g.Blocks())
  {
    hide MapByte;
    CountFreeSame(g, d, e, g.Blocks());
  }

  /** ufs_free_double_indirect. The tree at b, detached in the ghost table, keeps its first `keep` data blocks. */
  method FreeDoubleIndirect(u: Ufs, b: nat, keep: nat, ghost owner: map<nat, Slot>, ghost ino: nat)
    requires u.Valid() && KnowsDouble(u.g, u.disk, b, owner, ino)
    requires Loose(u.g, u.tab, u.disk, u.own, b)
    requires forall v :: v in DoubleFree(u.disk, b, keep, PTRS) ==> Loose(u.g, u.tab, u.disk, u.own, v)
    modifies u`disk, u`buf, u`scratch, u`freeBlocks
    ensures u.Valid() && |u.disk| == |old(u.disk)|
    ensures Freed(u.g, old(u.disk), u.disk, DoubleFree(old(u.disk), b, keep, PTRS) + if keep == 0 then {b} else {}, b)
    ensures forall k :: 0 <= k < PTRS ==> Entry(u.disk, b, k) == if keep <= k * PTRS then 0 else Entry(old(u.disk), b, k)
  {
    hide Vol, Good, Freed, Loose, Geom.Valid, KnowsDouble, DoubleFree, SectorCleared, Entry;
    ghost var d0 := u.disk;
    LooseData(u.g, u.tab, u.disk, u.own, b);
    FreedRefl(u.g, d0, b);
    DoubleNone(d0, b, keep);
    var s := 0;
    while s < FRAGS
      invariant 0 <= s <= FRAGS && u.Valid() && |u.disk| == |d0|
      invariant Freed(u.g, d0, u.disk, DoubleFree(d0, b, keep, s * PTRS_SEC), b)
      invariant forall q :: b + s <= q < b + FRAGS ==> u.disk[q] == d0[q]
      invariant forall q :: b <= q < b + s ==> SectorCleared(u.disk[q], d0[q], q - b, keep)
    {
      FreeOuterSector(u, b, s, keep, d0, owner, ino);
      s := s + 1;
    }
    AllCleared(d0, u.disk, b, keep);
    if keep == 0 {
      ghost var d1 := u.disk;
      RootKept(u.g, d0, b, owner, ino, keep);
      LooseAfter(u.g, u.tab, d0, u.disk, u.own, DoubleFree(d0, b, keep, PTRS), b, b);
      var rc := u.FreeBlock(b);
      FreedOne(u.g, d1, b);
      FreedBut(u.g, d1, u.disk, {b}, b);
      FreedTrans(u.g, d0, d1, u.disk, DoubleFree(d0, b, keep, PTRS), {b}, b);
      FreedRoot(u.g, d0, d1, u.disk, {b}, b, owner, ino);
      SameEntries(d1, u.disk, b);
    } else {
      assert DoubleFree(d0, b, keep, PTRS) + {} == DoubleFree(d0, b, keep, PTRS);
    }
  }

  lemma DoubleNone(d: Disk, b: nat, keep: nat)
    ensures DoubleFree(d, b, keep, 0) == {}
  {
  }

  lemma RootKept(g: Geom, d: Disk, b: nat, owner: map<nat, Slot>, ino: nat, keep: nat)
    requires KnowsDouble(g, d, b, owner, ino)
    ensures b !in DoubleFree(d, b, keep, PTRS)
  {
    DoubleOwners(g, d, b, owner, ino, keep, PTRS);
  }

  lemma AllCleared(d: Disk, e: Disk, b: nat, keep: nat)
    requires b != 0 && b + FRAGS <= |d| == |e|
    requires forall q :: b <= q < b + FRAGS ==> SectorCleared(e[q], d[q], q - b, keep)
    ensures forall k :: 0 <= k < PTRS ==> Entry(e, b, k) == if keep <= k * PTRS then 0 else Entry(d, b, k)
  {
    hide Entry;
    forall k | 0 <= k < PTRS ensures Entry(e, b, k) == if keep <= k * PTRS then 0 else Entry(d, b, k) {
      var s, m := k / PTRS_SEC, k % PTRS_SEC;
      WordEntry(d, b, s, m);
      WordEntry(e, b, s, m);
      assert SectorCleared(e[b + s], d[b + s], b + s - b, keep);
    }
  }
}
