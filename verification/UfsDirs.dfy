/** UFS directories: what a directory lists, and lookup, insertion and removal over its chunks. */
module UfsDirs {
  import opened Options
  import opened Bytes
  import opened UfsFormat
  import opened UfsTree
  import opened UfsBlocks
  import opened UfsFiles
  import opened UfsDirent

  /** nblocks of a directory, in 32-bit arithmetic. */
  function NBlocks(i: Inode): nat {
    (Size(i) % WORD + BLOCK - 1) % WORD / BLOCK
  }

  /** Names are cut to 255 bytes by add and remove. */
  function Cut(name: Name): Name {
    if |name| <= NAME_MAX then name else name[..NAME_MAX]
  }

  // ---- a directory as a sequence of chunks ----

  type Chunks = seq<Option<Sector>>

  function ChunkAt(tab: seq<Inode>, d: Disk, ino: nat, c: nat): Option<Sector> {
    var v := Val(tab, d, DataSlot(ino, c / FRAGS));
    if v == 0 || |d| < v + FRAGS then None else Some(d[v + c % FRAGS])
  }

  function Dir(tab: seq<Inode>, d: Disk, ino: nat): (cs: Chunks)
    requires ino < |tab|
    ensures |cs| == FRAGS * NBlocks(tab[ino])
    ensures forall c :: 0 <= c < |cs| ==> cs[c] == ChunkAt(tab, d, ino, c)
  {
    seq(FRAGS * NBlocks(tab[ino]), c requires 0 <= c => ChunkAt(tab, d, ino, c))
  }

  predicate ChunkOk(o: Option<Sector>) {
    o.Some? ==> Tiled(o.value, 0)
  }

  function Listed(o: Option<Sector>): multiset<Dirent> {
    if o.Some? then Ents(o.value, 0) else multiset{}
  }

  /** Everything the chunks list. */
  function Listing(cs: Chunks): multiset<Dirent> {
    if cs == [] then multiset{} else Listing(cs[..|cs| - 1]) + Listed(cs[|cs| - 1])
  }

  predicate Room(o: Option<Sector>, need: nat) {
    o.Some? && HasRoom(o.value, 0, need)
  }

  /** Some chunk can take a record of `need` bytes. */
  predicate AnyRoom(cs: Chunks, need: nat) {
    exists c :: 0 <= c < |cs| && Room(cs[c], need)
  }

  /** A directory whose every chunk is exactly tiled and whose blocks end where its size says. */
  ghost predicate DirOk(tab: seq<Inode>, d: Disk, ino: nat) {
    && ino < |tab| && IsDir(tab[ino])
    && Size(tab[ino]) == BLOCK * NBlocks(tab[ino])
    && (forall c :: 0 <= c < |Dir(tab, d, ino)| ==> ChunkOk(Dir(tab, d, ino)[c]))
    && (forall b :: NBlocks(tab[ino]) <= b ==> Val(tab, d, DataSlot(ino, b)) == 0)
  }

  // ---- listings ----

  lemma {:induction false} ListingConcat(a: Chunks, b: Chunks)
    ensures Listing(a + b) == Listing(a) + Listing(b)
  {
    hide Listed;
    if b == [] {
      assert a + b == a;
    } else {
      assert (a + b)[..|a + b| - 1] == a + b[..|b| - 1];
      ListingConcat(a, b[..|b| - 1]);
    }
  }

  lemma ListingOne(o: Option<Sector>)
    ensures Listing([o]) == Listed(o)
  {
    assert [o][..0] == [];
  }

  /** Changing one chunk changes the listing by what that chunk gains. */
  lemma ListingPut(cs: Chunks, c: nat, o: Option<Sector>, m: multiset<Dirent>)
    requires c < |cs| && Listed(o) == Listed(cs[c]) + m
    ensures Listing(cs[c := o]) == Listing(cs) + m
  {
    hide Listed, Listing;
    var a, z := cs[..c], cs[c + 1..];
    assert cs == a + [cs[c]] + z && cs[c := o] == a + [o] + z;
    ListingConcat(a + [cs[c]], z);
    ListingConcat(a, [cs[c]]);
    ListingConcat(a + [o], z);
    ListingConcat(a, [o]);
    ListingOne(o);
    ListingOne(cs[c]);
    MovePast(Listing(a), Listed(cs[c]), m, Listing(z));
  }

  lemma MovePast(a: multiset<Dirent>, b: multiset<Dirent>, m: multiset<Dirent>, z: multiset<Dirent>)
    ensures a + (b + m) + z == a + b + z + m
  {
  }

  /** A name missing from two parts is missing from the whole. */
  lemma NoNameStep(cs: Chunks, c: nat, name: Name)
    requires c < |cs| && NoName(Listing(cs[..c]), name) && NoName(Listed(cs[c]), name)
    ensures NoName(Listing(cs[..c + 1]), name)
  {
    assert cs[..c + 1] == cs[..c] + [cs[c]];
    ListingConcat(cs[..c], [cs[c]]);
    ListingOne(cs[c]);
  }

  lemma {:induction false} ListedIn(cs: Chunks, c: nat, e: Dirent)
    requires c < |cs| && e in Listed(cs[c])
    ensures e in Listing(cs)
  {
    hide Listed;
    if c < |cs| - 1 {
      assert cs[..|cs| - 1][c] == cs[c];
      ListedIn(cs[..|cs| - 1], c, e);
    }
  }

  // ---- directories seen as finite maps ----

  /** The listing is the map m: one record per name, naming its inode. */
  ghost predicate Refines(ents: multiset<Dirent>, m: map<Name, U32>) {
    && (forall e: Dirent :: e in ents ==> ents[e] == 1 && e.name in m && m[e.name] == e.ino)
    && (forall n :: n in m ==> Dirent(n, m[n]) in ents)
  }

  /** Exactly the listings without repeated names are maps. */
  ghost predicate Unique(ents: multiset<Dirent>) {
    && (forall e: Dirent :: e in ents ==> ents[e] == 1)
    && (forall e: Dirent, f: Dirent :: e in ents && f in ents && e.name == f.name ==> e == f)
  }

  lemma UniqueIsMap(ents: multiset<Dirent>) returns (m: map<Name, U32>)
    requires Unique(ents)
    ensures Refines(ents, m)
  {
    var s := set e: Dirent | e in ents;
    var names := set e: Dirent | e in s :: e.name;
    m := map n | n in names :: InoOf(ents, n);
    forall e: Dirent | e in ents ensures e.name in m && m[e.name] == e.ino {
      assert e.name in names;
      assert Dirent(e.name, e.ino) in ents;
    }
  }

  ghost function InoOf(ents: multiset<Dirent>, n: Name): U32
  {
    if exists i: U32 :: Dirent(n, i) in ents then
      var i: U32 :| Dirent(n, i) in ents; i
    else 0
  }

  lemma MapIsUnique(ents: multiset<Dirent>, m: map<Name, U32>)
    requires Refines(ents, m)
    ensures Unique(ents)
  {
  }

  /** With one record more a listing is still a map if and only if the name was absent. */
  lemma UniqueAdd(ents: multiset<Dirent>, n: Name, i: U32)
    requires Unique(ents)
    ensures Unique(ents + multiset{Dirent(n, i)}) <==> NoName(ents, n)
  {
    var es := ents + multiset{Dirent(n, i)};
    assert Dirent(n, i) in es;
    if NoName(ents, n) {
      var m := UniqueIsMap(ents);
      RefinesGet(ents, m, n, i);
      RefinesInsert(ents, m, n, i);
      MapIsUnique(es, m[n := i]);
    } else {
      var e: Dirent :| e in ents && e.name == n;
      assert e in es && es[Dirent(n, i)] == ents[Dirent(n, i)] + 1;
      assert e == Dirent(n, i) ==> es[e] == 2;
    }
  }

  /** Lookup is get. */
  lemma RefinesGet(ents: multiset<Dirent>, m: map<Name, U32>, n: Name, i: U32)
    requires Refines(ents, m)
    ensures NoName(ents, n) <==> n !in m
    ensures Dirent(n, i) in ents <==> n in m && m[n] == i
  {
  }

  /** Adding an absent name is insert. */
  lemma RefinesInsert(ents: multiset<Dirent>, m: map<Name, U32>, n: Name, i: U32)
    requires Refines(ents, m) && n !in m
    ensures Refines(ents + multiset{Dirent(n, i)}, m[n := i])
  {
    var e := ents + multiset{Dirent(n, i)};
    forall x: Dirent | x in e ensures e[x] == 1 && x.name in m[n := i] && m[n := i][x.name] == x.ino {
      if x != Dirent(n, i) {
        assert x in ents;
      }
    }
  }

  /** Removing a record is delete, of a name that was there. */
  lemma RefinesDelete(ents: multiset<Dirent>, m: map<Name, U32>, n: Name, i: U32)
    requires Refines(ents + multiset{Dirent(n, i)}, m)
    ensures n in m && m[n] == i && Refines(ents, m - {n})
  {
    var e := ents + multiset{Dirent(n, i)};
    assert Dirent(n, i) in e && e[Dirent(n, i)] == ents[Dirent(n, i)] + 1;
    forall x: Dirent | x in ents ensures ents[x] == 1 && x.name in m - {n} && m[x.name] == x.ino {
      assert x in e;
    }
  }

  // ---- how disks change under a directory ----

  /** The chunk at c is a sector of the directory's own block. */
  lemma ChunkPlace(g: Geom, tab: seq<Inode>, d: Disk, own: map<nat, Slot>, free: nat, ino: nat, c: nat)
    requires Vol(g, tab, d, own, free)
    ensures var v := Val(tab, d, DataSlot(ino, c / FRAGS));
            if v == 0 then ChunkAt(tab, d, ino, c) == None
            else v + FRAGS <= |d| && ChunkAt(tab, d, ino, c) == Some(d[v + c % FRAGS])
  {
    hide Val, DataSlot;
    var s := DataSlot(ino, c / FRAGS);
    if Val(tab, d, s) != 0 {
      VolGood(g, tab, d, own, free);
      InRange(g, tab, d, own, s);
    }
  }

  /** Equal pointers and equal blocks make equal chunks. */
  lemma ChunkSame(tab: seq<Inode>, d: Disk, tab': seq<Inode>, e: Disk, ino: nat, c: nat)
    requires |d| == |e|
    requires var s := DataSlot(ino, c / FRAGS);
             Val(tab', e, s) == Val(tab, d, s) && (Val(tab, d, s) != 0 ==> SameBlock(d, e, Val(tab, d, s)))
    ensures ChunkAt(tab', e, ino, c) == ChunkAt(tab, d, ino, c)
  {
    hide Val, DataSlot;
  }

  /** Storing a sector of a directory: that chunk changes, nothing else in any directory, file or tree. */
  lemma ChunkPut(g: Geom, tab: seq<Inode>, d: Disk, own: map<nat, Slot>, free: nat, ino: nat, c: nat, t: Sector)
    requires Vol(g, tab, d, own, free) && DirOk(tab, d, ino) && c < |Dir(tab, d, ino)|
    requires Val(tab, d, DataSlot(ino, c / FRAGS)) != 0 && Tiled(t, 0)
    ensures Val(tab, d, DataSlot(ino, c / FRAGS)) + FRAGS <= |d|
    ensures var e := d[Val(tab, d, DataSlot(ino, c / FRAGS)) + c % FRAGS := t];
            && Vol(g, tab, e, own, free) && Table(g, e) == Table(g, d) && Marks(g, e) == Marks(g, d)
            && FileGrows(g, d, own, e, own, ino, iset{})
            && (forall s :: Val(tab, d, s) == Val(tab, e, s))
            && Dir(tab, e, ino) == Dir(tab, d, ino)[c := Some(t)]
            && DirOk(tab, e, ino)
  {
    hide Vol, Val, DataSlot, FileGrows, IsMeta, ChunkAt, NBlocks, Tiled, Geom.Valid;
    var s := DataSlot(ino, c / FRAGS);
    var v := Val(tab, d, s);
    ChunkPlace(g, tab, d, own, free, ino, c);
    DataSlotPlain(ino, c / FRAGS);
    var e := d[v + c % FRAGS := t];
    ChunkVol(g, tab, d, own, free, s, e);
    forall k | 0 <= k < |Dir(tab, d, ino)|
      ensures Dir(tab, e, ino)[k] == if k == c then Some(t) else Dir(tab, d, ino)[k]
    {
      ChunkPutAt(g, tab, d, own, free, ino, c, t, e, k);
    }
    assert Dir(tab, e, ino) == Dir(tab, d, ino)[c := Some(t)];
  }

  lemma ChunkPutAt(g: Geom, tab: seq<Inode>, d: Disk, own: map<nat, Slot>, free: nat, ino: nat, c: nat, t: Sector, e: Disk, k: nat)
    requires Vol(g, tab, d, own, free)
    requires var v := Val(tab, d, DataSlot(ino, c / FRAGS)); v != 0 && v + FRAGS <= |d| && e == d[v + c % FRAGS := t]
    requires forall s :: Val(tab, d, s) == Val(tab, e, s)
    ensures ChunkAt(tab, e, ino, k) == if k == c then Some(t) else ChunkAt(tab, d, ino, k)
  {
    hide Vol, Val, DataSlot;
    FileBlocksApart(g, tab, d, own, free, ino, c / FRAGS, k / FRAGS);
    assert k == c <==> k / FRAGS == c / FRAGS && k % FRAGS == c % FRAGS;
  }

  /** A directory that is not the one worked on keeps its chunks. */
  lemma OtherDir(g: Geom, tab: seq<Inode>, d: Disk, own: map<nat, Slot>, tab': seq<Inode>, e: Disk, own': map<nat, Slot>,
                 ino: nat, lost: iset<nat>, j: nat)
    requires Good(g, tab, d, own) && Good(g, tab', e, own') && FileGrows(g, d, own, e, own', ino, lost)
    requires j != ino && j < |tab| && j < |tab'|
    requires Size(tab'[j]) == Size(tab[j]) && Mode(tab'[j]) == Mode(tab[j])
    ensures Dir(tab', e, j) == Dir(tab, d, j)
    ensures DirOk(tab, d, j) ==> DirOk(tab', e, j)
  {
    hide Good, FileGrows, Val, DataSlot, ChunkAt, ChunkOk, Size, Mode;
    forall b: nat
      ensures var s := DataSlot(j, b);
              |d| == |e| && Val(tab', e, s) == Val(tab, d, s) && (Val(tab, d, s) != 0 ==> SameBlock(d, e, Val(tab, d, s)))
    {
      DataSlotPlain(j, b);
      OtherSlot(g, tab, d, own, tab', e, own', ino, DataSlot(j, b), lost);
    }
    forall c | 0 <= c < |Dir(tab, d, j)| ensures Dir(tab', e, j)[c] == Dir(tab, d, j)[c] {
      var s := DataSlot(j, c / FRAGS);
      assert |d| == |e| && Val(tab', e, s) == Val(tab, d, s);
      ChunkSame(tab, d, tab', e, j, c);
    }
    assert Dir(tab', e, j) == Dir(tab, d, j);
  }

  /** A change below the data area and outside the free map shows in no chunk. */
  lemma QuietChunk(g: Geom, tab: seq<Inode>, d: Disk, tab': seq<Inode>, e: Disk, own: map<nat, Slot>, free: nat, j: nat, c: nat)
    requires Vol(g, tab', e, own, free) && Quiet(g, d, e)
    requires forall s :: Val(tab', e, s) == Val(tab, d, s)
    ensures ChunkAt(tab', e, j, c) == ChunkAt(tab, d, j, c)
  {
    hide Val, DataSlot, Geom.Valid, MapByte, IsFree;
    var s := DataSlot(j, c / FRAGS);
    assert Val(tab', e, s) != 0 ==> Owned(g, tab', e, own, Val(tab', e, s));
    ChunkSame(tab, d, tab', e, j, c);
  }

  lemma QuietDir(g: Geom, tab: seq<Inode>, d: Disk, tab': seq<Inode>, e: Disk, own: map<nat, Slot>, free: nat, j: nat)
    requires Vol(g, tab', e, own, free) && Quiet(g, d, e)
    requires forall s :: Val(tab', e, s) == Val(tab, d, s)
    requires j < |tab| && j < |tab'| && Size(tab'[j]) == Size(tab[j]) && Mode(tab'[j]) == Mode(tab[j])
    ensures Dir(tab', e, j) == Dir(tab, d, j)
    ensures DirOk(tab, d, j) ==> DirOk(tab', e, j)
  {
    hide Val, DataSlot, ChunkAt, ChunkOk, Size, Mode, Vol, Quiet;
    forall c | 0 <= c < |Dir(tab, d, j)| ensures Dir(tab', e, j)[c] == Dir(tab, d, j)[c] {
      QuietChunk(g, tab, d, tab', e, own, free, j, c);
    }
    assert Dir(tab', e, j) == Dir(tab, d, j);
  }

  // ---- scanning a directory ----

  lemma DirFacts(tab: seq<Inode>, d: Disk, ino: nat)
    requires DirOk(tab, d, ino)
    ensures ino < |tab| && !IsSymlink(tab[ino])
    ensures Size(tab[ino]) == BLOCK * NBlocks(tab[ino]) && NBlocks(tab[ino]) < WORD / BLOCK
    ensures forall c :: 0 <= c < |Dir(tab, d, ino)| ==> ChunkOk(Dir(tab, d, ino)[c])
    ensures forall b :: NBlocks(tab[ino]) <= b ==> Val(tab, d, DataSlot(ino, b)) == 0
  {
    hide Val, DataSlot, ChunkAt, ChunkOk, Size;
  }

  /** Skipping a hole: its eight chunks list nothing. */
  lemma HoleNames(cs: Chunks, b: nat, name: Name)
    requires FRAGS * b + FRAGS <= |cs| && NoName(Listing(cs[..FRAGS * b]), name)
    requires forall c :: FRAGS * b <= c < FRAGS * b + FRAGS ==> cs[c] == None
    ensures NoName(Listing(cs[..FRAGS * (b + 1)]), name)
  {
    hide Listing;
    var k := 0;
    while k < FRAGS
      invariant 0 <= k <= FRAGS && NoName(Listing(cs[..FRAGS * b + k]), name)
    {
      NoNameStep(cs, FRAGS * b + k, name);
      k := k + 1;
    }
  }

  lemma HoleChunks(g: Geom, tab: seq<Inode>, d: Disk, own: map<nat, Slot>, free: nat, ino: nat, b: nat)
    requires Vol(g, tab, d, own, free) && ino < |tab| && b < NBlocks(tab[ino])
    requires Val(tab, d, DataSlot(ino, b)) == 0
    ensures forall c :: FRAGS * b <= c < FRAGS * b + FRAGS ==> Dir(tab, d, ino)[c] == None
  {
    hide Vol, Val, DataSlot;
    forall c | FRAGS * b <= c < FRAGS * b + FRAGS ensures Dir(tab, d, ino)[c] == None {
      assert c / FRAGS == b;
    }
  }

  /** The sector at a chunk's place is the chunk. */
  lemma ChunkHere(g: Geom, tab: seq<Inode>, d: Disk, own: map<nat, Slot>, free: nat, ino: nat, b: nat, s: nat)
    requires Vol(g, tab, d, own, free) && ino < |tab| && b < NBlocks(tab[ino]) && s < FRAGS
    requires Val(tab, d, DataSlot(ino, b)) != 0
    ensures var c := FRAGS * b + s; var q := Val(tab, d, DataSlot(ino, b)) + s;
            && c < |Dir(tab, d, ino)| && q < |d| && c / FRAGS == b && c % FRAGS == s
            && Dir(tab, d, ino)[c] == Some(d[q])
  {
    hide Vol, Val, DataSlot, ChunkAt;
    var c := FRAGS * b + s;
    assert c / FRAGS == b && c % FRAGS == s;
    ChunkPlace(g, tab, d, own, free, ino, c);
  }

  /** Where chunk c of a directory, standing in u.buf, was read from. */
  ghost predicate Loaded(u: Ufs, ino: nat, c: nat, sec: nat)
    reads u
  {
    && ino < |u.tab| && c < |Dir(u.tab, u.disk, ino)|
    && Val(u.tab, u.disk, DataSlot(ino, c / FRAGS)) != 0
    && sec == Val(u.tab, u.disk, DataSlot(ino, c / FRAGS)) + c % FRAGS
    && sec < |u.disk| && Dir(u.tab, u.disk, ino)[c] == Some(u.buf)
  }

  /** The search loop shared by lookup and removal: the live record of that name. */
  method FindEntry(u: Ufs, inode: Inode, name: Name, ghost ino: nat) returns (found: bool, ghost c: nat, sec: nat, o: nat)
    requires u.Valid() && ino < u.g.inodes && DirOk(u.tab, u.disk, ino) && u.tab[ino] == inode && |name| <= NAME_MAX
    modifies u`buf
    ensures found ==>
      && Loaded(u, ino, c, sec)
      && o < SECTOR && Tiled(u.buf, 0) && Reaches(u.buf, 0, o) && Tiled(u.buf, o)
      && o + HDR <= SECTOR && Ino(u.buf, o) != 0 && NameAt(u.buf, o) == name
    ensures !found ==> NoName(Listing(Dir(u.tab, u.disk, ino)), name)
  {
    hide Vol, Good, DirOk, Val, DataSlot, ChunkAt, Listing, NoName, Tiled, Reaches, Ino, NameAt, Geom.Valid, NBlocks, Size, Mode, Ents;
    DirFacts(u.tab, u.disk, ino);
    ghost var cs := Dir(u.tab, u.disk, ino);
    NoNames(name);
    assert cs[..0] == [];
    var b := 0;
    while b < NBlocks(inode)
      invariant 0 <= b <= NBlocks(inode) && NoName(Listing(cs[..FRAGS * b]), name)
    {
      var rc, phys := u.BlockMap(inode, b, ino);
      if phys == 0 {
        HoleChunks(u.g, u.tab, u.disk, u.own, u.freeBlocks, ino, b);
        HoleNames(cs, b, name);
      } else {
        var s := 0;
        while s < FRAGS
          invariant 0 <= s <= FRAGS && NoName(Listing(cs[..FRAGS * b + s]), name)
        {
          ChunkHere(u.g, u.tab, u.disk, u.own, u.freeBlocks, ino, b, s);
          u.ReadSector(phys + s);
          assert ChunkOk(cs[FRAGS * b + s]);
          var hit;
          hit, o := FindInChunk(u.buf, name);
          if hit {
            return true, FRAGS * b + s, phys + s, o;
          }
          NoNameStep(cs, FRAGS * b + s, name);
          s := s + 1;
        }
      }
      b := b + 1;
    }
    assert cs[..|cs|] == cs;
    return false, 0, 0, 0;
  }

  lemma NoNames(name: Name)
    ensures NoName(Listing([]), name)
  {
  }

  /** The slot search of ufs_dir_add_entry. */
  method FindSlot(u: Ufs, inode: Inode, need: nat, ghost ino: nat) returns (found: bool, ghost c: nat, sec: nat, o: nat)
    requires u.Valid() && ino < u.g.inodes && DirOk(u.tab, u.disk, ino) && u.tab[ino] == inode
    modifies u`buf
    ensures found ==>
      && Loaded(u, ino, c, sec)
      && o < SECTOR && Tiled(u.buf, 0) && Reaches(u.buf, 0, o) && Tiled(u.buf, o)
      && o + HDR <= SECTOR && Fits(u.buf, o, need)
    ensures !found ==> !AnyRoom(Dir(u.tab, u.disk, ino), need)
  {
    hide Vol, Good, DirOk, Val, DataSlot, ChunkAt, Tiled, Reaches, Fits, HasRoom, Geom.Valid, NBlocks, Size, Mode;
    DirFacts(u.tab, u.disk, ino);
    ghost var cs := Dir(u.tab, u.disk, ino);
    var b := 0;
    while b < NBlocks(inode)
      invariant 0 <= b <= NBlocks(inode)
      invariant forall k :: 0 <= k < FRAGS * b ==> !Room(cs[k], need)
    {
      var rc, phys := u.BlockMap(inode, b, ino);
      if phys == 0 {
        HoleChunks(u.g, u.tab, u.disk, u.own, u.freeBlocks, ino, b);
      } else {
        var s := 0;
        while s < FRAGS
          invariant 0 <= s <= FRAGS
          invariant forall k :: 0 <= k < FRAGS * b + s ==> !Room(cs[k], need)
        {
          ChunkHere(u.g, u.tab, u.disk, u.own, u.freeBlocks, ino, b, s);
          u.ReadSector(phys + s);
          assert ChunkOk(cs[FRAGS * b + s]);
          var hit;
          hit, o := FindRoom(u.buf, need);
          if hit {
            return true, FRAGS * b + s, phys + s, o;
          }
          s := s + 1;
        }
      }
      b := b + 1;
    }
    return false, 0, 0, 0;
  }

  // ---- adding a name ----

  /** Directory ino gained exactly the record ent; other inodes, and the rest of this one, are as before. */
  ghost predicate Added(g: Geom, tab: seq<Inode>, d: Disk, own: map<nat, Slot>,
                        tab': seq<Inode>, e: Disk, own': map<nat, Slot>, ino: nat, ent: Dirent)
    requires ino < |tab|
  {
    && FileGrows(g, d, own, e, own', ino, iset{})
    && DirOk(tab', e, ino)
    && Listing(Dir(tab', e, ino)) == Listing(Dir(tab, d, ino)) + multiset{ent}
    && DirInode(tab, tab', ino)
  }

  /** Only directory ino's size and pointers may differ. */
  predicate DirInode(tab: seq<Inode>, tab': seq<Inode>, ino: nat)
    requires ino < |tab|
  {
    && |tab'| == |tab| && (forall j :: 0 <= j < |tab| && j != ino ==> tab'[j] == tab[j])
    && Mode(tab'[ino]) == Mode(tab[ino]) && Nlink(tab'[ino]) == Nlink(tab[ino])
  }

  /** The directory had no room and the volume no block: nothing is listed anew, though a block may be lost. */
  ghost predicate NotAdded(g: Geom, tab: seq<Inode>, d: Disk, own: map<nat, Slot>,
                           tab': seq<Inode>, e: Disk, own': map<nat, Slot>, ino: nat, need: nat)
    requires ino < |tab|
  {
    && FileGrows(g, d, own, e, own', ino, iset v: nat | v !in own')
    && DirOk(tab', e, ino)
    && tab' == tab
    && Dir(tab, e, ino) == Dir(tab, d, ino)
    && !AnyRoom(Dir(tab, d, ino), need)
    && (forall n :: 0 <= n < g.Blocks() ==> !IsFree(g, e, n))
  }

  /** The edit made to a record that fits. */
  function InsertAt(s: Sector, o: nat, ino: U32, name: Name): Sector
    requires o + HDR <= SECTOR && |name| <= NAME_MAX
    requires Tiled(s, o) && Fits(s, o, MinRec(|name|))
  {
    InsertFits(s, o, name);
    if Ino(s, o) == 0 then PutRec(s, o, ino, name) else SplitRec(s, o, MinRec(NamLen(s, o)), ino, name)
  }

  lemma InsertFits(s: Sector, o: nat, name: Name)
    requires o + HDR <= SECTOR && |name| <= NAME_MAX && Tiled(s, o) && Fits(s, o, MinRec(|name|))
    ensures RecOk(s, o)
    ensures Ino(s, o) == 0 ==> o + HDR + |name| <= SECTOR
    ensures Ino(s, o) != 0 ==> MinRec(NamLen(s, o)) <= RecLen(s, o) && o + MinRec(NamLen(s, o)) + HDR + |name| <= SECTOR
  {
    hide Ino, RecLen, NamLen;
    TiledRec(s, o);
    MinRecFits(|name|);
    MinRecFits(NamLen(s, o));
  }

  lemma InsertIs(s: Sector, o: nat, ino: U32, name: Name)
    requires Tiled(s, 0) && Reaches(s, 0, o) && o + HDR <= SECTOR && Tiled(s, o) && ino != 0 && |name| <= NAME_MAX
    requires Fits(s, o, MinRec(|name|))
    ensures var t := InsertAt(s, o, ino, name);
            Tiled(t, 0) && Ents(t, 0) == Ents(s, 0) + multiset{Dirent(name, ino)}
  {
    hide Tiled, Reaches, Ents, PutRec, SplitRec, Ino, RecLen, NamLen, MinRec;
    if Ino(s, o) == 0 {
      FillChunk(s, 0, o, ino, name);
    } else {
      SplitChunk(s, 0, o, ino, name);
    }
  }

  lemma PutAdds(g: Geom, tab: seq<Inode>, d: Disk, own: map<nat, Slot>, free: nat, ino: nat, c: nat, t: Sector, ent: Dirent)
    requires Vol(g, tab, d, own, free) && DirOk(tab, d, ino) && c < |Dir(tab, d, ino)| && Tiled(t, 0)
    requires Val(tab, d, DataSlot(ino, c / FRAGS)) != 0 && Dir(tab, d, ino)[c].Some?
    requires Ents(t, 0) == Ents(Dir(tab, d, ino)[c].value, 0) + multiset{ent}
    ensures Val(tab, d, DataSlot(ino, c / FRAGS)) + FRAGS <= |d|
    ensures var e := d[Val(tab, d, DataSlot(ino, c / FRAGS)) + c % FRAGS := t];
            && Vol(g, tab, e, own, free) && Table(g, e) == Table(g, d) && Marks(g, e) == Marks(g, d)
            && Added(g, tab, d, own, tab, e, own, ino, ent)
  {
    hide Vol, Val, DataSlot, FileGrows, Tiled, Listing, ChunkAt, Ents, Dir;
    ChunkPut(g, tab, d, own, free, ino, c, t);
    ListingPut(Dir(tab, d, ino), c, Some(t), multiset{ent});
  }

  lemma FoundRoom(cs: Chunks, c: nat, o: nat, need: nat)
    requires c < |cs| && cs[c].Some? && Reaches(cs[c].value, 0, o) && o + HDR <= SECTOR
    requires RecLen(cs[c].value, o) != 0 && Fits(cs[c].value, o, need)
    ensures AnyRoom(cs, need)
  {
    hide HasRoom, Fits;
    RoomAt(cs[c].value, 0, o, need);
    assert Room(cs[c], need);
  }

  /** ufs_dir_add_entry. */
  method AddEntry(u: Ufs, dir: Vnode, name: Name, child: U32) returns (rc: Status)
    requires u.Steady() && dir.ino < u.g.inodes && DirOk(u.tab, u.disk, dir.ino) && child != 0
    requires Size(u.tab[dir.ino]) + BLOCK < WORD
    modifies u, dir
    ensures u.Steady() && u.marks == old(u.marks) && u.freeInodes == old(u.freeInodes)
    ensures rc == Ok || rc == ENOSPC
    ensures rc == Ok ==>
      Added(u.g, old(u.tab), old(u.disk), old(u.own), u.tab, u.disk, u.own, dir.ino, Dirent(Cut(name), child))
    ensures rc == ENOSPC ==>
      NotAdded(u.g, old(u.tab), old(u.disk), old(u.own), u.tab, u.disk, u.own, dir.ino, MinRec(|Cut(name)|))
    ensures u.freeBlocks <= old(u.freeBlocks) <= u.freeBlocks + 3
    ensures dir.ino < |u.tab| && Size(u.tab[dir.ino]) <= Size(old(u.tab)[dir.ino]) + BLOCK
    ensures AnyRoom(Dir(old(u.tab), old(u.disk), dir.ino), MinRec(|Cut(name)|)) ==>
      rc == Ok && u.own == old(u.own) && u.freeBlocks == old(u.freeBlocks) && u.tab == old(u.tab)
  {
    hide Vol, Good, DirOk, Val, DataSlot, ChunkAt, Listing, Tiled, Reaches, Fits, Geom.Valid, NBlocks, Size, Mode,
         Added, NotAdded, AnyRoom, Ino, PutRec, SplitRec, NamLen, MinRec, Ents, RecLen;
    DirFacts(u.tab, u.disk, dir.ino);
    VolShape(u.g, u.tab, u.disk, u.own, u.freeBlocks);
    var inode := u.ReadInode(dir.ino);
    var cut := Cut(name);
    var found, c, sec, o := FindSlot(u, inode, MinRec(|cut|), dir.ino);
    if !found {
      rc := Extend(u, dir, inode, cut, child);
      return;
    }
    ghost var ino, cs, was := dir.ino, Dir(u.tab, u.disk, dir.ino), u.buf;
    InsertFits(u.buf, o, cut);
    InsertIs(u.buf, o, child, cut);
    PutAdds(u.g, u.tab, u.disk, u.own, u.freeBlocks, ino, c, InsertAt(was, o, child, cut), Dirent(cut, child));
    if Ino(u.buf, o) == 0 {
      u.buf := PutRec(u.buf, o, child, cut);
    } else {
      u.buf := SplitRec(u.buf, o, MinRec(NamLen(u.buf, o)), child, cut);
    }
    u.WriteSector(sec);
    return Ok;
  }

  // ---- a new block for a directory ----

  /** Writing into a loose block moves nothing. */
  lemma LooseWrite(g: Geom, tab: seq<Inode>, d: Disk, own: map<nat, Slot>, free: nat, f: nat, e: Disk)
    requires Vol(g, tab, d, own, free) && Loose(g, tab, d, own, f) && |e| == |d|
    requires forall q :: 0 <= q < |d| && !(f <= q < f + FRAGS) ==> d[q] == e[q]
    ensures Vol(g, tab, e, own, free) && Loose(g, tab, e, own, f)
    ensures Table(g, e) == Table(g, d) && Marks(g, e) == Marks(g, d)
    ensures forall s :: Val(tab, d, s) == Val(tab, e, s)
  {
    hide MapByte, Val, Table, Marks;
    WriteStep(g, tab, d, e, own, f);
    MarksData(g, d, e);
    CountFreeSame(g, d, e, g.Blocks());
  }

  /** The eight chunks of a new directory block. */
  function NewChunk(first: Sector, k: nat): Sector
  {
    if k == 0 then first else EmptyChunk()
  }

  function NewChunks(first: Sector): Chunks
  {
    [Some(first)] + seq(7, _ => Some(EmptyChunk()))
  }

  lemma {:induction false} EmptyListing(cs: Chunks)
    requires forall c :: 0 <= c < |cs| ==> cs[c] == Some(EmptyChunk())
    ensures Listing(cs) == multiset{}
  {
    if cs != [] {
      EmptyChunkIs();
      EmptyListing(cs[..|cs| - 1]);
    }
  }

  lemma NewChunksIs(first: Sector)
    requires Tiled(first, 0)
    ensures Listing(NewChunks(first)) == Ents(first, 0)
    ensures forall c :: 0 <= c < FRAGS ==> ChunkOk(NewChunks(first)[c])
  {
    hide Tiled, Ents, EmptyChunk, Listing;
    EmptyChunkIs();
    var rest: Chunks := seq(7, _ => Some(EmptyChunk()));
    EmptyListing(rest);
    ListingConcat([Some(first)], rest);
    ListingOne(Some(first));
  }

  /** The new record's sector, then seven placeholders. */
  method FillBlock(u: Ufs, f: nat, first: Sector)
    requires u.Valid() && Loose(u.g, u.tab, u.disk, u.own, f)
    modifies u`disk, u`buf
    ensures u.Valid() && Loose(u.g, u.tab, u.disk, u.own, f) && f + FRAGS <= |u.disk| == |old(u.disk)|
    ensures forall q :: 0 <= q < |u.disk| ==>
      u.disk[q] == if f <= q < f + FRAGS then NewChunk(first, q - f) else old(u.disk)[q]
    ensures Table(u.g, u.disk) == Table(u.g, old(u.disk))
    ensures forall s :: Val(u.tab, u.disk, s) == Val(u.tab, old(u.disk), s)
  {
    hide Vol, Good, EmptyChunk, Val, Loose;
    ghost var d0 := u.disk;
    LooseRange(u.g, u.tab, u.disk, u.own, f);
    u.buf := first;
    u.WriteSector(f);
    u.buf := EmptyChunk();
    var s := 1;
    while s < FRAGS
      invariant 1 <= s <= FRAGS && u.buf == EmptyChunk() && |u.disk| == |d0|
      invariant forall q :: 0 <= q < |d0| ==> u.disk[q] == if f <= q < f + s then NewChunk(first, q - f) else d0[q]
    {
      u.WriteSector(f + s);
      s := s + 1;
    }
    LooseWrite(u.g, u.tab, d0, u.own, u.freeBlocks, f, u.disk);
  }

  lemma LooseRange(g: Geom, tab: seq<Inode>, d: Disk, own: map<nat, Slot>, f: nat)
    requires Loose(g, tab, d, own, f)
    ensures f + FRAGS <= |d|
  {
  }

  lemma FreshTouched(g: Geom, d: Disk, m: Disk, m2: Disk, f: nat)
    requires Fresh(g, d, m, f) && |m2| == |m|
    requires forall q :: 0 <= q < |m| && !(f <= q < f + FRAGS) ==> m[q] == m2[q]
    ensures forall n :: 0 <= n < g.Blocks() ==> (IsFree(g, m2, n) <==> IsFree(g, m, n))
    ensures g.IsBlock(f) && IsFree(g, d, g.BlockNo(f)) && !IsFree(g, m2, g.BlockNo(f))
    ensures |m2| == |d| == g.sectors && g.Valid()
  {
    LowFrame(g, m, m2);
  }

  /** Taking f from the free map, writing it, and linking it, seen as one step. */
  lemma NewBlockGrows(g: Geom, d: Disk, own: map<nat, Slot>, m: Disk, m2: Disk, e: Disk, own': map<nat, Slot>, f: nat)
    requires Fresh(g, d, m, f) && f !in own && |m2| == |m|
    requires forall q :: 0 <= q < |m| && !(f <= q < f + FRAGS) ==> m[q] == m2[q]
    requires Grows(g, m2, own, e, own', iset{}) && (f in own' ==> !IsMeta(own'[f]))
    ensures Grows(g, d, own, e, own', iset{f})
    ensures g.IsBlock(f) && IsFree(g, d, g.BlockNo(f))
    ensures |e| == |m2| && forall q :: f <= q < f + FRAGS && q < |m2| ==> e[q] == m2[q]
  {
    hide IsFree, Fresh, Table, Geom.Valid;
    FreshGrows(g, d, own, m, f);
    FreshTouched(g, d, m, m2, f);
    forall v | Plain(g, d, own, v) ensures SameBlock(d, e, v) {
      BlocksApart(g, v, f);
      assert Plain(g, m2, own, v);
    }
    assert Plain(g, m2, own, f);
  }

  /** The chunks after a block f was linked at index nb, or could not be. */
  lemma NewBlockChunks(g: Geom, tab: seq<Inode>, d: Disk, own: map<nat, Slot>, tab': seq<Inode>, e: Disk, own': map<nat, Slot>,
                       ino: nat, nb: nat, f: nat)
    requires Good(g, tab, d, own) && Good(g, tab', e, own')
    requires Grows(g, d, own, e, own', iset{f}) && NewOwners(own, own', ino, DataSlot(ino, nb), f)
    requires f !in own && (f in own' ==> own'[f] == DataSlot(ino, nb)) && Val(tab, d, DataSlot(ino, nb)) == 0
    ensures forall c: nat :: c / FRAGS != nb ==> ChunkAt(tab', e, ino, c) == ChunkAt(tab, d, ino, c)
    ensures forall c: nat :: c / FRAGS == nb ==>
      if f in own' then f + FRAGS <= |e| && f != 0 && ChunkAt(tab', e, ino, c) == Some(e[f + c % FRAGS])
      else ChunkAt(tab', e, ino, c) == None
    ensures forall b: nat :: b != nb ==> Val(tab', e, DataSlot(ino, b)) == Val(tab, d, DataSlot(ino, b))
    ensures f !in own' ==> Val(tab', e, DataSlot(ino, nb)) == 0
  {
    assert f in own' ==> Owned(g, tab', e, own', f);
    hide Good, Grows, NewOwners, Val, DataSlot;
    forall b: nat
      ensures b != nb ==> Val(tab', e, DataSlot(ino, b)) == Val(tab, d, DataSlot(ino, b))
    {
      FilledSlot(g, tab, d, own, tab', e, own', ino, nb, f, b);
    }
    forall c: nat | c / FRAGS != nb ensures ChunkAt(tab', e, ino, c) == ChunkAt(tab, d, ino, c) {
      FilledSlot(g, tab, d, own, tab', e, own', ino, nb, f, c / FRAGS);
      ChunkSame(tab, d, tab', e, ino, c);
    }
    FilledSlot(g, tab, d, own, tab', e, own', ino, nb, f, nb);
  }

  lemma NextBlocks(i: Inode, j: Inode)
    requires Size(i) == BLOCK * NBlocks(i) && Size(i) + BLOCK < WORD && Size(j) == Size(i) + BLOCK
    ensures NBlocks(j) == NBlocks(i) + 1 && Size(j) == BLOCK * NBlocks(j)
  {
    hide Size;
  }

  /** File ino got the new chunks at block nb; its other chunks and pointers are as before. */
  ghost predicate Linked(tab: seq<Inode>, d: Disk, tab': seq<Inode>, e: Disk, ino: nat, nb: nat, first: Sector)
  {
    && (forall c: nat :: c / FRAGS != nb ==> ChunkAt(tab', e, ino, c) == ChunkAt(tab, d, ino, c))
    && (forall c: nat :: c / FRAGS == nb ==> ChunkAt(tab', e, ino, c) == Some(NewChunk(first, c % FRAGS)))
    && (forall b: nat :: b != nb ==> Val(tab', e, DataSlot(ino, b)) == Val(tab, d, DataSlot(ino, b)))
  }

  lemma NewChunkAt(first: Sector, k: nat)
    requires k < FRAGS
    ensures NewChunks(first)[k] == Some(NewChunk(first, k))
  {
  }

  /** With its size grown by a block, the directory shows the new chunks behind the old ones. */
  lemma LinkedDir(g: Geom, tab: seq<Inode>, d: Disk, tab1: seq<Inode>, e1: Disk, own': map<nat, Slot>,
                  tab2: seq<Inode>, e2: Disk, free: nat, ino: nat, first: Sector)
    requires ino < |tab| == |tab2| && NBlocks(tab2[ino]) == NBlocks(tab[ino]) + 1
    requires Vol(g, tab2, e2, own', free) && Quiet(g, e1, e2)
    requires forall s :: Val(tab2, e2, s) == Val(tab1, e1, s)
    requires Linked(tab, d, tab1, e1, ino, NBlocks(tab[ino]), first)
    ensures Dir(tab2, e2, ino) == Dir(tab, d, ino) + NewChunks(first)
  {
    hide Vol, Val, Quiet, NBlocks, ChunkAt, NewChunk, NewChunks;
    var cs, ds, nb := Dir(tab, d, ino), Dir(tab2, e2, ino), NBlocks(tab[ino]);
    assert |NewChunks(first)| == FRAGS by { NewChunksLen(first); }
    forall c | 0 <= c < |ds| ensures ds[c] == (cs + NewChunks(first))[c] {
      QuietChunk(g, tab1, e1, tab2, e2, own', free, ino, c);
      if c < FRAGS * nb {
        assert c / FRAGS != nb;
      } else {
        assert c / FRAGS == nb && c % FRAGS == c - FRAGS * nb;
        NewChunkAt(first, c % FRAGS);
      }
    }
    assert ds == cs + NewChunks(first);
  }

  lemma NewChunksLen(first: Sector)
    ensures |NewChunks(first)| == FRAGS
  {
  }

  /** The directory inode with its new block stored and its size grown. */
  lemma ExtendedIs(g: Geom, tab: seq<Inode>, d: Disk, own: map<nat, Slot>, tab1: seq<Inode>, e1: Disk, own': map<nat, Slot>,
                   tab2: seq<Inode>, e2: Disk, free: nat, ino: nat, child: U32, name: Name)
    requires DirOk(tab, d, ino) && |name| <= NAME_MAX && child != 0 && Size(tab[ino]) + BLOCK < WORD
    requires Vol(g, tab2, e2, own', free) && Quiet(g, e1, e2)
    requires forall s :: Val(tab2, e2, s) == Val(tab1, e1, s)
    requires FileGrows(g, d, own, e1, own', ino, iset{})
    requires DirInode(tab, tab2, ino) && Size(tab2[ino]) == Size(tab[ino]) + BLOCK
    requires Linked(tab, d, tab1, e1, ino, NBlocks(tab[ino]), FirstChunk(child, name))
    ensures Added(g, tab, d, own, tab2, e2, own', ino, Dirent(name, child))
  {
    hide FirstChunk, Tiled, Ents, Vol, FileGrows, Quiet, NBlocks, Size, Mode, Listing, ChunkOk, NewChunks, ChunkAt, Val, DataSlot, DirOk, Added, Linked;
    DirFacts(tab, d, ino);
    NextBlocks(tab[ino], tab2[ino]);
    var first := FirstChunk(child, name);
    FirstChunkIs(child, name);
    NewChunksIs(first);
    NewChunksLen(first);
    LinkedDir(g, tab, d, tab1, e1, own', tab2, e2, free, ino, first);
    ListingConcat(Dir(tab, d, ino), NewChunks(first));
    QuietGrows(g, d, own, e1, own', e2, ino, iset{});
    LinkedEnds(tab, d, tab1, e1, tab2, e2, ino, NBlocks(tab[ino]), first);
    AddedIs(g, tab, d, own, tab2, e2, own', ino, Dirent(name, child));
  }

  lemma AddedIs(g: Geom, tab: seq<Inode>, d: Disk, own: map<nat, Slot>, tab': seq<Inode>, e: Disk, own': map<nat, Slot>, ino: nat, ent: Dirent)
    requires DirOk(tab, d, ino) && DirInode(tab, tab', ino) && FileGrows(g, d, own, e, own', ino, iset{})
    requires Size(tab'[ino]) == BLOCK * NBlocks(tab'[ino])
    requires forall c :: 0 <= c < |Dir(tab', e, ino)| ==> ChunkOk(Dir(tab', e, ino)[c])
    requires forall b :: NBlocks(tab'[ino]) <= b ==> Val(tab', e, DataSlot(ino, b)) == 0
    requires Listing(Dir(tab', e, ino)) == Listing(Dir(tab, d, ino)) + multiset{ent}
    ensures Added(g, tab, d, own, tab', e, own', ino, ent)
  {
    hide Val, DataSlot, ChunkOk, ChunkAt, Listing, FileGrows, Size, NBlocks, Mode, Nlink, Dir;
  }

  lemma LinkedEnds(tab: seq<Inode>, d: Disk, tab1: seq<Inode>, e1: Disk, tab2: seq<Inode>, e2: Disk, ino: nat, nb: nat, first: Sector)
    requires Linked(tab, d, tab1, e1, ino, nb, first)
    requires forall s :: Val(tab2, e2, s) == Val(tab1, e1, s)
    requires forall b :: nb <= b ==> Val(tab, d, DataSlot(ino, b)) == 0
    ensures forall b :: nb + 1 <= b ==> Val(tab2, e2, DataSlot(ino, b)) == 0
  {
    hide Val, DataSlot, ChunkAt, NewChunk;
  }

  /** The directory after the new block could not be linked. */
  lemma RevertedIs(g: Geom, tab: seq<Inode>, d: Disk, own: map<nat, Slot>, i: Inode, e: Disk, own': map<nat, Slot>, free: nat,
                   ino: nat, f: nat, need: nat) returns (kept: map<nat, Slot>)
    requires DirOk(tab, d, ino) && Good(g, tab, d, own) && ino < g.inodes && SameFields(tab[ino], i)
    requires Vol(g, tab[ino := i], e, own', free)
    requires Grows(g, d, own, e, own', iset{f}) && NewOwners(own, own', ino, DataSlot(ino, NBlocks(tab[ino])), f)
    requires f !in own && f !in own' && g.IsBlock(f) && IsFree(g, d, g.BlockNo(f))
    requires !AnyRoom(Dir(tab, d, ino), need)
    requires forall n :: 0 <= n < g.Blocks() ==> !IsFree(g, e, n)
    ensures Vol(g, tab, e, kept, free)
    ensures NotAdded(g, tab, d, own, tab, e, kept, ino, need)
  {
    DirFacts(tab, d, ino);
    hide Vol, Good, Val, DataSlot, FileGrows, Grows, NBlocks, Size, ChunkAt, ChunkOk, IsFree, NewOwners, AnyRoom, SameFields, IsSymlink, Geom.Valid;
    var nb := NBlocks(tab[ino]);
    DataSlotPlain(ino, nb);
    SameFieldsTrans(tab[ino], i, i);
    GrowsFile(g, tab[ino := i], d, own, e, own', ino, DataSlot(ino, nb), f);
    FileGrowsOwn(g, d, own, e, own', ino, iset{f});
    kept := Revert(g, tab, d, own, free, i, ino, e, own');
    VolGood(g, tab, e, kept, free);
    FileGrowsLess(g, d, own, e, own', kept, ino, iset{f});
    VolGood(g, tab[ino := i], e, own', free);
    forall b: nat
      ensures Val(tab, e, DataSlot(ino, b)) == Val(tab, d, DataSlot(ino, b))
      ensures |d| == |e| && (Val(tab, d, DataSlot(ino, b)) != 0 ==> SameBlock(d, e, Val(tab, d, DataSlot(ino, b))))
    {
      RevertedSlot(g, tab, d, own, tab[ino := i], e, own', kept, ino, nb, f, b);
    }
    forall c | 0 <= c < |Dir(tab, d, ino)| ensures Dir(tab, e, ino)[c] == Dir(tab, d, ino)[c] {
      var s := DataSlot(ino, c / FRAGS);
      assert Val(tab, e, s) == Val(tab, d, s);
      ChunkSame(tab, d, tab, e, ino, c);
    }
    assert Dir(tab, e, ino) == Dir(tab, d, ino);
  }

  lemma RevertedSlot(g: Geom, tab: seq<Inode>, d: Disk, own: map<nat, Slot>, tab': seq<Inode>, e: Disk, own': map<nat, Slot>, kept: map<nat, Slot>,
                     ino: nat, nb: nat, f: nat, b: nat)
    requires Good(g, tab, d, own) && Good(g, tab', e, own') && Good(g, tab, e, kept)
    requires Grows(g, d, own, e, own', iset{f}) && NewOwners(own, own', ino, DataSlot(ino, nb), f)
    requires f !in own && f !in own' && Val(tab, d, DataSlot(ino, nb)) == 0
    requires forall v :: v in own ==> v in kept && kept[v] == own[v]
    requires forall s :: Val(tab, e, s) == Val(tab', e, s) || Val(tab, e, s) == 0
    ensures var s := DataSlot(ino, b);
            |d| == |e| && Val(tab, e, s) == Val(tab, d, s) && (Val(tab, d, s) != 0 ==> SameBlock(d, e, Val(tab, d, s)))
  {
    FilledSlot(g, tab, d, own, tab', e, own', ino, nb, f, b);
    hide Val, DataSlot, Grows, NewOwners, SameBlock;
    var s := DataSlot(ino, b);
    if Val(tab, d, s) != 0 {
      assert Owned(g, tab, e, kept, Val(tab, d, s));
    }
  }

  lemma NoneAdded(g: Geom, tab: seq<Inode>, d: Disk, own: map<nat, Slot>, ino: nat, need: nat)
    requires Good(g, tab, d, own) && DirOk(tab, d, ino) && !AnyRoom(Dir(tab, d, ino), need)
    requires forall n :: 0 <= n < g.Blocks() ==> !IsFree(g, d, n)
    ensures NotAdded(g, tab, d, own, tab, d, own, ino, need)
  {
    hide DirOk, IsFree, AnyRoom, Geom.Valid, Val;
  }

  lemma OwnerIs(g: Geom, tab: seq<Inode>, d: Disk, own: map<nat, Slot>, s: Slot, f: nat)
    requires Good(g, tab, d, own) && f != 0
    ensures Val(tab, d, s) == f ==> f in own && own[f] == s
  {
  }

  /** What allocating, filling and linking block f did, up to the inode still in memory. */
  lemma LinkedIs(g: Geom, tab: seq<Inode>, d: Disk, own: map<nat, Slot>, m: Disk, m2: Disk, tab': seq<Inode>, e: Disk, own': map<nat, Slot>,
                 ino: nat, nb: nat, f: nat, first: Sector)
    requires Good(g, tab, d, own) && Good(g, tab', e, own') && Val(tab, d, DataSlot(ino, nb)) == 0
    requires Fresh(g, d, m, f) && f !in own && f != 0 && |m2| == |m|
    requires forall q :: 0 <= q < |m2| ==> m2[q] == if f <= q < f + FRAGS then NewChunk(first, q - f) else m[q]
    requires Grows(g, m2, own, e, own', iset{}) && NewOwners(own, own', ino, DataSlot(ino, nb), f)
    requires f in own' ==> Val(tab', e, DataSlot(ino, nb)) == f
    ensures Grows(g, d, own, e, own', iset{f}) && g.IsBlock(f) && IsFree(g, d, g.BlockNo(f))
    ensures f in own' ==>
      FileGrows(g, d, own, e, own', ino, iset{}) && Linked(tab, d, tab', e, ino, nb, first)
  {
    hide Good, Fresh, Val, DataSlot, Grows, FileGrows, IsFree, ChunkAt, NewOwners, Geom.Valid, NewChunk;
    OwnerIs(g, tab', e, own', DataSlot(ino, nb), f);
    DataSlotPlain(ino, nb);
    NewBlockGrows(g, d, own, m, m2, e, own', f);
    NewBlockChunks(g, tab, d, own, tab', e, own', ino, nb, f);
    GrowsFile(g, tab', d, own, e, own', ino, DataSlot(ino, nb), f);
    if f in own' {
      forall c: nat | c / FRAGS == nb ensures ChunkAt(tab', e, ino, c) == Some(NewChunk(first, c % FRAGS)) {
        var q := f + c % FRAGS;
        assert f <= q < f + FRAGS && q - f == c % FRAGS;
      }
    }
  }

  /** i_size += UFS_BLOCK_SIZE and ufs_write_inode. */
  method StoreGrown(u: Ufs, ino: nat, i: Inode, was: Inode) returns (j: Inode)
    requires u.Valid() && ino < u.g.inodes && u.tab[ino] == i && SameFields(was, i) && Size(was) + BLOCK < WORD
    requires Table(u.g, u.disk) == u.tab[ino := was]
    modifies u`disk, u`buf, u`tab
    ensures u.Steady() && u.tab == old(u.tab)[ino := j]
    ensures Quiet(u.g, old(u.disk), u.disk)
    ensures forall s :: Val(u.tab, u.disk, s) == Val(old(u.tab), old(u.disk), s)
    ensures Mode(j) == Mode(was) && Nlink(j) == Nlink(was) && Size(j) == Size(was) + BLOCK
  {
    hide Vol, Good, Val, Geom.Valid, Quiet, IsFree;
    VolShape(u.g, u.tab, u.disk, u.own, u.freeBlocks);
    SetSizeFields(i, Size(i) + BLOCK);
    j := SetSize(i, Size(i) + BLOCK);
    FieldsStep(u.g, u.tab, u.disk, u.own, u.freeBlocks, ino, j);
    ghost var tab1, d1 := u.tab, u.disk;
    u.tab := u.tab[ino := j];
    u.WriteInode(ino, j);
    LowStep(u.g, u.tab, d1, u.disk, u.own, u.freeBlocks);
  }

  /** The extension part of ufs_dir_add_entry. */
  method Extend(u: Ufs, dir: Vnode, inode: Inode, name: Name, child: U32) returns (rc: Status)
    requires u.Steady() && dir.ino < u.g.inodes && DirOk(u.tab, u.disk, dir.ino) && child != 0
    requires u.tab[dir.ino] == inode && Size(inode) + BLOCK < WORD && |name| <= NAME_MAX
    requires !AnyRoom(Dir(u.tab, u.disk, dir.ino), MinRec(|name|))
    modifies u, dir
    ensures u.Steady() && u.marks == old(u.marks) && u.freeInodes == old(u.freeInodes)
    ensures rc == Ok || rc == ENOSPC
    ensures rc == Ok ==>
      Added(u.g, old(u.tab), old(u.disk), old(u.own), u.tab, u.disk, u.own, dir.ino, Dirent(name, child))
    ensures rc == ENOSPC ==>
      NotAdded(u.g, old(u.tab), old(u.disk), old(u.own), u.tab, u.disk, u.own, dir.ino, MinRec(|name|))
    ensures u.freeBlocks <= old(u.freeBlocks) <= u.freeBlocks + 3
    ensures dir.ino < |u.tab| && Size(u.tab[dir.ino]) <= Size(old(u.tab)[dir.ino]) + BLOCK
  {
    hide Vol, Good, DirOk, Val, DataSlot, ChunkAt, Geom.Valid, NBlocks, Size, Mode, Nlink, IsSymlink, SameFields, Fresh, EmptyBlock, IsFree,
         Added, NotAdded, AnyRoom, MinRec, Grows, NewOwners, FileGrows, Loose, NewChunk, Linked, Quiet;
    ghost var ino, tab0, d0, own0, need := dir.ino, u.tab, u.disk, u.own, MinRec(|name|);
    DirFacts(u.tab, u.disk, ino);
    VolGood(u.g, u.tab, u.disk, u.own, u.freeBlocks);
    VolShape(u.g, u.tab, u.disk, u.own, u.freeBlocks);
    var f;
    rc, f := u.AllocZeroed();
    if rc != Ok {
      NoneAdded(u.g, u.tab, u.disk, u.own, ino, need);
      return;
    }
    ghost var m := u.disk;
    FreshTable(u.g, d0, m, f);
    FillBlock(u, f, FirstChunk(child, name));
    ghost var m2 := u.disk;
    var i;
    rc, i := u.BlockSet(inode, NBlocks(inode), f, ino);
    ghost var e1, tab1 := u.disk, u.tab;
    VolGood(u.g, u.tab, u.disk, u.own, u.freeBlocks);
    SetOutcome(u.g, u.tab, u.disk, u.own, ino, NBlocks(inode), f);
    LinkedIs(u.g, tab0, d0, own0, m, m2, tab1, e1, u.own, ino, NBlocks(inode), f, FirstChunk(child, name));
    if rc != Ok {
      u.own := RevertedIs(u.g, tab0, d0, own0, i, u.disk, u.own, u.freeBlocks, ino, f, need);
      u.tab := tab0;
      return;
    }
    i := StoreGrown(u, dir.ino, i, inode);
    ExtendedIs(u.g, tab0, d0, own0, tab1, e1, u.own, u.tab, u.disk, u.freeBlocks, ino, child, name);
    dir.size := SizeLo(i);
  }

  // ---- lookup and removal ----

  /** Every record names an inode of the volume. */
  predicate InRangeInos(ents: multiset<Dirent>, inodes: nat) {
    forall e: Dirent :: e in ents ==> e.ino < inodes
  }

  /** A found record is listed. */
  lemma FoundListed(cs: Chunks, c: nat, o: nat)
    requires c < |cs| && cs[c].Some? && Reaches(cs[c].value, 0, o) && Tiled(cs[c].value, 0)
    requires o + HDR <= SECTOR && Ino(cs[c].value, o) != 0
    ensures Dirent(NameAt(cs[c].value, o), Ino(cs[c].value, o)) in Listing(cs)
  {
    hide Tiled, Ino, NameAt;
    var s := cs[c].value;
    EntsSplit(s, 0, o);
    TiledRec(s, o);
    TailStep(s, o, Ino(s, o), RecLen(s, o), NameAt(s, o));
    ListedIn(cs, c, Dirent(NameAt(s, o), Ino(s, o)));
  }

  /** ufs_lookup, up to the vnode it makes of the inode. */
  method Lookup(u: Ufs, dir: Vnode, name: Name) returns (rc: Status, ino: U32, child: Inode)
    requires u.Steady() && dir.ino < u.g.inodes && DirOk(u.tab, u.disk, dir.ino)
    requires InRangeInos(Listing(Dir(u.tab, u.disk, dir.ino)), u.g.inodes)
    modifies u`buf
    ensures u.Steady()
    ensures rc == Ok || rc == ENOENT
    ensures rc == Ok ==>
      ino < u.g.inodes == |u.tab| && Dirent(name, ino) in Listing(Dir(u.tab, u.disk, dir.ino)) && child == u.tab[ino] && ino != 0
    ensures rc == ENOENT <==> |name| > NAME_MAX || NoName(Listing(Dir(u.tab, u.disk, dir.ino)), name)
  {
    hide Vol, Good, DirOk, Val, DataSlot, ChunkAt, Listing, Tiled, Reaches, Geom.Valid, Ino, NameAt, Size, NBlocks;
    VolShape(u.g, u.tab, u.disk, u.own, u.freeBlocks);
    var inode := u.ReadInode(dir.ino);
    if NAME_MAX < |name| {
      return ENOENT, 0, inode;
    }
    var found, c, sec, o := FindEntry(u, inode, name, dir.ino);
    if !found {
      return ENOENT, 0, inode;
    }
    ino := Ino(u.buf, o);
    FoundListed(Dir(u.tab, u.disk, dir.ino), c, o);
    assert Dirent(name, ino) in Listing(Dir(u.tab, u.disk, dir.ino));
    child := u.ReadInode(ino);
    return Ok, ino, child;
  }

  /** Directory ino lost exactly the record ent, and now has room for a record of that size. */
  ghost predicate Removed(g: Geom, tab: seq<Inode>, d: Disk, own: map<nat, Slot>, e: Disk, ino: nat, ent: Dirent)
    requires ino < |tab|
  {
    && FileGrows(g, d, own, e, own, ino, iset{})
    && DirOk(tab, e, ino)
    && Listing(Dir(tab, d, ino)) == Listing(Dir(tab, e, ino)) + multiset{ent}
    && AnyRoom(Dir(tab, e, ino), MinRec(|ent.name|))
    && forall s :: Val(tab, d, s) == Val(tab, e, s)
  }

  lemma ClearRemoves(g: Geom, tab: seq<Inode>, d: Disk, own: map<nat, Slot>, free: nat, ino: nat, c: nat, o: nat)
    requires Vol(g, tab, d, own, free) && DirOk(tab, d, ino) && c < |Dir(tab, d, ino)|
    requires Val(tab, d, DataSlot(ino, c / FRAGS)) != 0 && Dir(tab, d, ino)[c].Some?
    requires var s := Dir(tab, d, ino)[c].value;
             Tiled(s, 0) && Reaches(s, 0, o) && o + HDR <= SECTOR && Tiled(s, o) && Ino(s, o) != 0
    ensures Val(tab, d, DataSlot(ino, c / FRAGS)) + FRAGS <= |d|
    ensures var s := Dir(tab, d, ino)[c].value;
            var e := d[Val(tab, d, DataSlot(ino, c / FRAGS)) + c % FRAGS := PutU32(s, o, 0)];
            && Vol(g, tab, e, own, free) && Table(g, e) == Table(g, d) && Marks(g, e) == Marks(g, d)
            && Removed(g, tab, d, own, e, ino, Dirent(NameAt(s, o), Ino(s, o)))
  {
    hide Vol, Val, DataSlot, FileGrows, Tiled, Listing, ChunkAt, Ents, Dir, DirOk, Reaches, Ino, NameAt, HasRoom, PutU32;
    DirFacts(tab, d, ino);
    var cs := Dir(tab, d, ino);
    var s := cs[c].value;
    var t: Sector := PutU32(s, o, 0);
    var ent := Dirent(NameAt(s, o), Ino(s, o));
    ClearChunk(s, 0, o);
    ChunkPut(g, tab, d, own, free, ino, c, t);
    ListingPut(cs[c := Some(t)], c, cs[c], multiset{ent});
    assert cs[c := Some(t)][c := cs[c]] == cs;
    ClearedFits(s, t, o);
    FoundRoom(cs[c := Some(t)], c, o, MinRec(|ent.name|));
  }

  lemma ClearedFits(s: Sector, t: Sector, o: nat)
    requires o + HDR <= SECTOR && Tiled(s, o) && Ino(s, o) != 0 && Ino(t, o) == 0 && RecLen(t, o) == RecLen(s, o)
    ensures RecLen(t, o) != 0 && Fits(t, o, MinRec(|NameAt(s, o)|))
  {
    TiledRec(s, o);
    NameLen(s, o);
  }

  /** ufs_dir_remove_entry. */
  method RemoveEntry(u: Ufs, dir: Vnode, name: Name) returns (rc: Status, removed: U32)
    requires u.Steady() && dir.ino < u.g.inodes && DirOk(u.tab, u.disk, dir.ino)
    modifies u`disk, u`buf
    ensures u.Steady() && u.tab == old(u.tab)
    ensures rc == Ok || rc == ENOENT
    ensures rc == Ok ==>
      removed != 0 && Removed(u.g, old(u.tab), old(u.disk), old(u.own), u.disk, dir.ino, Dirent(Cut(name), removed))
    ensures rc == ENOENT ==> u.disk == old(u.disk)
    ensures rc == ENOENT <==> NoName(Listing(Dir(old(u.tab), old(u.disk), dir.ino)), Cut(name))
  {
    hide Vol, Good, DirOk, Val, DataSlot, ChunkAt, Listing, Tiled, Reaches, Geom.Valid, Ino, NameAt, Size, NBlocks, Removed;
    VolShape(u.g, u.tab, u.disk, u.own, u.freeBlocks);
    var inode := u.ReadInode(dir.ino);
    var found, c, sec, o := FindEntry(u, inode, Cut(name), dir.ino);
    if !found {
      return ENOENT, 0;
    }
    removed := Ino(u.buf, o);
    FoundListed(Dir(u.tab, u.disk, dir.ino), c, o);
    assert Dirent(Cut(name), removed) in Listing(Dir(u.tab, u.disk, dir.ino));
    ClearRemoves(u.g, u.tab, u.disk, u.own, u.freeBlocks, dir.ino, c, o);
    u.buf := PutU32(u.buf, o, 0);
    u.WriteSector(sec);
    return Ok, removed;
  }

  lemma DotsStep(cs: Chunks, c: nat)
    requires c < |cs|
    ensures OnlyDots(Listing(cs[..c + 1])) <==> OnlyDots(Listing(cs[..c])) && OnlyDots(Listed(cs[c]))
  {
    hide Listed, Listing, IsDots;
    assert cs[..c + 1] == cs[..c] + [cs[c]];
    ListingConcat(cs[..c], [cs[c]]);
    ListingOne(cs[c]);
    var a, b := Listing(cs[..c]), Listed(cs[c]);
    assert forall e: Dirent :: e in a + b <==> e in a || e in b;
  }

  lemma HoleDots(cs: Chunks, b: nat)
    requires FRAGS * b + FRAGS <= |cs|
    requires forall c :: FRAGS * b <= c < FRAGS * b + FRAGS ==> cs[c] == None
    ensures OnlyDots(Listing(cs[..FRAGS * b])) ==> OnlyDots(Listing(cs[..FRAGS * (b + 1)]))
  {
    hide Listing, IsDots;
    var k := 0;
    while k < FRAGS
      invariant 0 <= k <= FRAGS
      invariant OnlyDots(Listing(cs[..FRAGS * b])) ==> OnlyDots(Listing(cs[..FRAGS * b + k]))
    {
      DotsStep(cs, FRAGS * b + k);
      k := k + 1;
    }
  }

  lemma DotsPart(cs: Chunks, c: nat)
    requires c < |cs| && !OnlyDots(Listed(cs[c]))
    ensures !OnlyDots(Listing(cs))
  {
    hide Listed, Listing, IsDots;
    var e: Dirent :| e in Listed(cs[c]) && !IsDots(e.name);
    ListedIn(cs, c, e);
  }

  /** ufs_dir_is_empty: nothing is listed but "." and "..". */
  method DirIsEmpty(u: Ufs, ino: nat) returns (empty: bool)
    requires u.Steady() && ino < u.g.inodes && DirOk(u.tab, u.disk, ino)
    modifies u`buf
    ensures empty == OnlyDots(Listing(Dir(u.tab, u.disk, ino)))
  {
    hide Vol, Good, DirOk, Val, DataSlot, ChunkAt, Listing, Tiled, Geom.Valid, NBlocks, Size, Mode, Ents, OnlyDots;
    DirFacts(u.tab, u.disk, ino);
    VolShape(u.g, u.tab, u.disk, u.own, u.freeBlocks);
    var inode := u.ReadInode(ino);
    ghost var cs := Dir(u.tab, u.disk, ino);
    NoDots(cs);
    var b := 0;
    while b < NBlocks(inode)
      invariant 0 <= b <= NBlocks(inode) && OnlyDots(Listing(cs[..FRAGS * b]))
    {
      var rc, phys := u.BlockMap(inode, b, ino);
      if phys == 0 {
        HoleChunks(u.g, u.tab, u.disk, u.own, u.freeBlocks, ino, b);
        HoleDots(cs, b);
      } else {
        var s := 0;
        while s < FRAGS
          invariant 0 <= s <= FRAGS && OnlyDots(Listing(cs[..FRAGS * b + s]))
        {
          ChunkHere(u.g, u.tab, u.disk, u.own, u.freeBlocks, ino, b, s);
          u.ReadSector(phys + s);
          assert ChunkOk(cs[FRAGS * b + s]);
          var only := DotsInChunk(u.buf);
          if !only {
            DotsPart(cs, FRAGS * b + s);
            return false;
          }
          DotsStep(cs, FRAGS * b + s);
          s := s + 1;
        }
      }
      b := b + 1;
    }
    assert cs[..|cs|] == cs;
    return true;
  }

  lemma NoDots(cs: Chunks)
    ensures OnlyDots(Listing(cs[..0]))
  {
  }
}
