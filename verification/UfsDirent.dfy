/** Variable-length directory records inside one 512-byte chunk. */
module UfsDirent {
  import opened Bytes
  import opened UfsFormat

  const HDR := 8            // bytes before the name
  const NAME_MAX := 255

  type Name = seq<Byte>

  datatype Dirent = Dirent(name: Name, ino: U32)

  /** UFS_DIRENT_MINREC: header, name and NUL, rounded up to 4. */
  function MinRec(n: nat): nat {
    (HDR + n + 1 + 3) / 4 * 4
  }

  function Ino(s: Sector, o: nat): U32
    requires o + HDR <= SECTOR
  {
    U32At(s, o)
  }

  function RecLen(s: Sector, o: nat): U16
    requires o + HDR <= SECTOR
  {
    U16At(s, o + 4)
  }

  function NamLen(s: Sector, o: nat): nat
    requires o + HDR <= SECTOR
  {
    s[o + 7]
  }

  function NameAt(s: Sector, o: nat): Name
    requires o + HDR <= SECTOR
  {
    if o + HDR + NamLen(s, o) <= SECTOR then s[o + HDR..o + HDR + NamLen(s, o)] else []
  }

  /** The record at o is well formed: a multiple of 4 that holds its header, its live name, and ends in the chunk. */
  predicate RecOk(s: Sector, o: nat) {
    && o + HDR <= SECTOR
    && RecLen(s, o) % 4 == 0 && HDR <= RecLen(s, o) && o + RecLen(s, o) <= SECTOR
    && (Ino(s, o) != 0 ==> MinRec(NamLen(s, o)) <= RecLen(s, o))
  }

  /** From o on the chunk is tiled exactly by records. */
  predicate Tiled(s: Sector, o: nat)
    decreases SECTOR - o
  {
    o == SECTOR || (RecOk(s, o) && Tiled(s, o + RecLen(s, o)))
  }

  function LiveAt(s: Sector, o: nat): multiset<Dirent>
    requires o + HDR <= SECTOR
  {
    if Ino(s, o) != 0 then multiset{Dirent(NameAt(s, o), Ino(s, o))} else multiset{}
  }

  /** The live records from o on, as the scanning loops see them (a zero length stops the scan). */
  function Ents(s: Sector, o: nat): multiset<Dirent>
    decreases SECTOR - o
  {
    if SECTOR < o + HDR || RecLen(s, o) == 0 then multiset{}
    else LiveAt(s, o) + Ents(s, o + RecLen(s, o))
  }

  /** Record o is met when scanning from p. */
  predicate Reaches(s: Sector, p: nat, o: nat)
    decreases SECTOR - p
  {
    p == o || (p + HDR <= SECTOR && RecLen(s, p) != 0 && Reaches(s, p + RecLen(s, p), o))
  }

  // ---- locality ----

  lemma {:induction false} ReachesLess(s: Sector, p: nat, o: nat)
    requires Reaches(s, p, o)
    ensures p <= o
    decreases SECTOR - p
  {
    if p != o {
      ReachesLess(s, p + RecLen(s, p), o);
    }
  }

  /** Scanning from p depends on the bytes from p on alone. */
  lemma {:induction false} SameTail(s: Sector, t: Sector, p: nat)
    requires forall i :: p <= i < SECTOR ==> s[i] == t[i]
    ensures Ents(s, p) == Ents(t, p) && Tiled(s, p) == Tiled(t, p)
    decreases SECTOR - p
  {
    if p + HDR <= SECTOR {
      SameRec(s, t, p);
      if RecLen(s, p) != 0 {
        SameTail(s, t, p + RecLen(s, p));
      }
    }
  }

  lemma SameRec(s: Sector, t: Sector, p: nat)
    requires p + HDR <= SECTOR && forall i :: p <= i < p + HDR ==> s[i] == t[i]
    ensures Ino(s, p) == Ino(t, p) && RecLen(s, p) == RecLen(t, p) && NamLen(s, p) == NamLen(t, p)
    ensures (forall i :: p + HDR <= i < p + HDR + NamLen(s, p) && i < SECTOR ==> s[i] == t[i]) ==> NameAt(s, p) == NameAt(t, p)
  {
  }

  /** The live records from p up to, not including, the record at o. */
  function Before(s: Sector, p: nat, o: nat): multiset<Dirent>
    requires Reaches(s, p, o)
    decreases SECTOR - p
  {
    if p == o then multiset{} else LiveAt(s, p) + Before(s, p + RecLen(s, p), o)
  }

  lemma {:induction false} EntsSplit(s: Sector, p: nat, o: nat)
    requires Reaches(s, p, o)
    ensures Ents(s, p) == Before(s, p, o) + Ents(s, o)
    ensures Tiled(s, p) ==> Tiled(s, o)
    decreases SECTOR - p
  {
    hide LiveAt;
    if p != o {
      EntsSplit(s, p + RecLen(s, p), o);
    }
  }

  /** A change from o on does not disturb the records before o. */
  lemma {:induction false} SameHead(s: Sector, t: Sector, p: nat, o: nat)
    requires Tiled(s, p) && Reaches(s, p, o) && Tiled(t, o)
    requires forall i :: p <= i < o && i < SECTOR ==> s[i] == t[i]
    ensures Tiled(t, p) && Reaches(t, p, o) && Before(t, p, o) == Before(s, p, o)
    decreases SECTOR - p
  {
    hide LiveAt, RecOk;
    if p != o {
      assert RecOk(s, p);
      RecBounds(s, p);
      ReachesLess(s, p + RecLen(s, p), o);
      RecSame(s, t, p, o);
      RecBounds(t, p);
      SameHead(s, t, p + RecLen(s, p), o);
    }
  }

  lemma RecBounds(s: Sector, p: nat)
    requires RecOk(s, p)
    ensures p + HDR <= SECTOR && HDR <= RecLen(s, p) && p + RecLen(s, p) <= SECTOR
  {
  }

  lemma RecSame(s: Sector, t: Sector, p: nat, o: nat)
    requires RecOk(s, p) && p + RecLen(s, p) <= o
    requires forall i :: p <= i < o && i < SECTOR ==> s[i] == t[i]
    ensures RecOk(t, p) && RecLen(t, p) == RecLen(s, p) && LiveAt(t, p) == LiveAt(s, p)
  {
    SameRec(s, t, p);
    if Ino(s, p) != 0 {
      NameFits(s, p);
    }
  }

  lemma NameFits(s: Sector, p: nat)
    requires RecOk(s, p) && Ino(s, p) != 0
    ensures p + HDR + NamLen(s, p) < p + RecLen(s, p) <= SECTOR
  {
  }

  /** Replacing the tail of a chunk from o on changes what it lists by the difference of the tails. */
  lemma NewTail(s: Sector, t: Sector, p: nat, o: nat) returns (b: multiset<Dirent>)
    requires Tiled(s, p) && Reaches(s, p, o) && Tiled(t, o)
    requires forall i :: p <= i < o && i < SECTOR ==> s[i] == t[i]
    ensures Tiled(t, p) && Reaches(t, p, o)
    ensures Ents(s, p) == b + Ents(s, o) && Ents(t, p) == b + Ents(t, o)
  {
    hide Tiled, Ents, Reaches, Before;
    SameHead(s, t, p, o);
    b := Before(s, p, o);
    EntsSplit(s, p, o);
    EntsSplit(t, p, o);
  }

  lemma MoveFront(b: multiset<Dirent>, x: multiset<Dirent>, r: multiset<Dirent>)
    ensures b + (x + r) == b + r + x && multiset{} + r == r
  {
  }

  /** One record of a tail. */
  lemma TailStep(s: Sector, o: nat, ino: U32, len: nat, name: Name)
    requires RecOk(s, o) && Ino(s, o) == ino && RecLen(s, o) == len && NameAt(s, o) == name
    ensures Ents(s, o) == (if ino != 0 then multiset{Dirent(name, ino)} else multiset{}) + Ents(s, o + len)
    ensures Tiled(s, o) == Tiled(s, o + len)
  {
  }

  // ---- the three edits of a chunk ----

  /** d_ino, d_type, d_namlen and the name of the record at o; d_reclen stays. */
  function PutRec(s: Sector, o: nat, ino: U32, name: Name): Sector
    requires o + HDR + |name| <= SECTOR && |name| <= NAME_MAX
  {
    Splice(Splice(PutU32(s, o, ino), o + 6, [0, |name|]), o + HDR, name)
  }

  lemma PutRecIs(s: Sector, o: nat, ino: U32, name: Name)
    requires o + HDR + |name| <= SECTOR && |name| <= NAME_MAX
    ensures var t := PutRec(s, o, ino, name);
            && Ino(t, o) == ino && RecLen(t, o) == RecLen(s, o) && NamLen(t, o) == |name| && NameAt(t, o) == name
            && forall i :: 0 <= i < SECTOR && !(o <= i < o + HDR + |name|) ==> t[i] == s[i]
  {
    PutGet32(s, o, ino, o);
    var a := PutU32(s, o, ino);
    var b := Splice(a, o + 6, [0, |name|]);
    var t := Splice(b, o + HDR, name);
    assert forall i :: o <= i < o + 4 ==> t[i] == a[i];
    assert t[o + 4] == s[o + 4] && t[o + 5] == s[o + 5];
    assert t[o + 7] == b[o + 7] == |name|;
    assert t[o + HDR..o + HDR + |name|] == name;
  }

  /** The byte behind the name belongs to the record but is not written: a reused record ends in NUL if and only
      if a zero stood there before. */
  lemma TailKept(s: Sector, o: nat, ino: U32, name: Name)
    requires o + HDR <= SECTOR && o + RecLen(s, o) <= SECTOR && MinRec(|name|) <= RecLen(s, o) && |name| <= NAME_MAX
    ensures var e := o + HDR + |name|;
            e < o + RecLen(s, o) && (PutRec(s, o, ino, name)[e] == 0 <==> s[e] == 0)
  {
    PutRecIs(s, o, ino, name);
  }

  /** "ab" is added, removed, and "a" takes its record: the "b" still stands behind it. */
  lemma TailInput()
    ensures var ab, a := [0x61, 0x62], [0x61];
            var t := PutU32(PutRec(EmptyChunk(), 0, 3, ab), 0, 0);
            Ino(t, 0) == 0 && MinRec(|a|) <= RecLen(t, 0) && NameAt(PutRec(t, 0, 4, a), 0) == a && PutRec(t, 0, 4, a)[HDR + |a|] == 0x62
  {
    var ab, a := [0x61, 0x62], [0x61];
    EmptyChunkIs();
    var s := PutRec(EmptyChunk(), 0, 3, ab);
    PutRecIs(EmptyChunk(), 0, 3, ab);
    var t: Sector := PutU32(s, 0, 0);
    PutGet32(s, 0, 0, 0);
    PutRecIs(t, 0, 4, a);
    assert s[HDR..HDR + 2] == ab;
    assert RecLen(t, 0) == RecLen(s, 0);
    assert t[HDR + 1] == s[HDR + 1] == 0x62;
  }

  /** Shortening the record at o to m bytes and putting a new one behind it. */
  function SplitRec(s: Sector, o: nat, m: U16, ino: U32, name: Name): Sector
    requires o + HDR <= SECTOR && m <= RecLen(s, o)
    requires o + m + HDR + |name| <= SECTOR && |name| <= NAME_MAX
  {
    PutRec(PutU16(PutU16(s, o + 4, m), o + m + 4, RecLen(s, o) - m), o + m, ino, name)
  }

  lemma SplitRecIs(s: Sector, o: nat, m: U16, ino: U32, name: Name)
    requires o + HDR <= SECTOR && HDR <= m <= RecLen(s, o)
    requires o + m + HDR + |name| <= SECTOR && |name| <= NAME_MAX
    ensures var t := SplitRec(s, o, m, ino, name);
            && RecLen(t, o) == m && Ino(t, o) == Ino(s, o) && NamLen(t, o) == NamLen(s, o)
            && Ino(t, o + m) == ino && RecLen(t, o + m) == RecLen(s, o) - m
            && NamLen(t, o + m) == |name| && NameAt(t, o + m) == name
            && (forall i :: 0 <= i < SECTOR && !(o + 4 <= i < o + 6) && !(o + m <= i < o + m + HDR + |name|) ==> t[i] == s[i])
  {
    hide NameAt, PutU16, U16At, U32At, PutRec, RecLen;
    var was := RecLen(s, o);
    var a: Sector := PutU16(s, o + 4, m);
    PutLenIs(s, o, m);
    var b: Sector := PutU16(a, o + m + 4, was - m);
    PutLenIs(a, o + m, was - m);
    PutRecIs(b, o + m, ino, name);
    var t := PutRec(b, o + m, ino, name);
    assert forall i :: o <= i < o + HDR ==> t[i] == a[i];
    HeaderSame(a, t, o);
    HeaderIno(s, t, o);
  }

  lemma PutLenIs(s: Sector, o: nat, m: U16)
    requires o + HDR <= SECTOR
    ensures var t: Sector := PutU16(s, o + 4, m);
            && RecLen(t, o) == m
            && forall i :: 0 <= i < SECTOR && !(o + 4 <= i < o + 6) ==> t[i] == s[i]
  {
    PutGet16(s, o + 4, m, o + 4);
  }

  lemma HeaderSame(s: Sector, t: Sector, o: nat)
    requires o + HDR <= SECTOR && forall i :: o <= i < o + HDR ==> t[i] == s[i]
    ensures RecLen(t, o) == RecLen(s, o)
  {
  }

  lemma HeaderIno(s: Sector, t: Sector, o: nat)
    requires o + HDR <= SECTOR && forall i :: o <= i < o + HDR && i != o + 4 && i != o + 5 ==> t[i] == s[i]
    ensures Ino(t, o) == Ino(s, o) && NamLen(t, o) == NamLen(s, o)
  {
  }

  /** Using a deleted record: one entry more, still exactly tiled. */
  lemma FillChunk(s: Sector, p: nat, o: nat, ino: U32, name: Name)
    requires Tiled(s, p) && Reaches(s, p, o) && o < SECTOR && Tiled(s, o)
    requires Ino(s, o) == 0 && ino != 0 && |name| <= NAME_MAX && MinRec(|name|) <= RecLen(s, o)
    ensures o + HDR + |name| <= SECTOR
    ensures var t := PutRec(s, o, ino, name);
            Tiled(t, p) && Ents(t, p) == Ents(s, p) + multiset{Dirent(name, ino)}
  {
    assert RecOk(s, o);
    hide Tiled, Ents, Reaches, Ino, RecLen, NamLen, NameAt, PutRec;
    var t := PutRec(s, o, ino, name);
    PutRecIs(s, o, ino, name);
    var len := RecLen(s, o);
    SameTail(s, t, o + len);
    assert RecOk(t, o);
    TailStep(s, o, 0, len, NameAt(s, o));
    TailStep(t, o, ino, len, name);
    var b := NewTail(s, t, p, o);
    MoveFront(b, multiset{Dirent(name, ino)}, Ents(t, o + len));
  }

  /** Splitting a live record that has room behind its name. */
  lemma SplitChunk(s: Sector, p: nat, o: nat, ino: U32, name: Name)
    requires Tiled(s, p) && Reaches(s, p, o) && o < SECTOR && Tiled(s, o)
    requires Ino(s, o) != 0 && ino != 0 && |name| <= NAME_MAX
    requires MinRec(NamLen(s, o)) + MinRec(|name|) <= RecLen(s, o)
    ensures o + MinRec(NamLen(s, o)) + HDR + |name| <= SECTOR
    ensures var t := SplitRec(s, o, MinRec(NamLen(s, o)), ino, name);
            Tiled(t, p) && Ents(t, p) == Ents(s, p) + multiset{Dirent(name, ino)}
  {
    hide Tiled, Ents, Reaches, SplitRec, MinRec, NameAt;
    TiledRec(s, o);
    MinRecFits(NamLen(s, o));
    MinRecFits(|name|);
    var t := SplitRec(s, o, MinRec(NamLen(s, o)), ino, name);
    SplitRecIs(s, o, MinRec(NamLen(s, o)), ino, name);
    SplitTail(s, o, ino, name);
    var b := NewTail(s, t, p, o);
    assert b + (Ents(s, o) + multiset{Dirent(name, ino)}) == b + Ents(s, o) + multiset{Dirent(name, ino)};
  }

  lemma TiledRec(s: Sector, o: nat)
    requires Tiled(s, o) && o < SECTOR
    ensures RecOk(s, o) && Tiled(s, o + RecLen(s, o))
  {
  }

  lemma SplitTail(s: Sector, o: nat, ino: U32, name: Name)
    requires RecOk(s, o) && Tiled(s, o + RecLen(s, o))
    requires Ino(s, o) != 0 && ino != 0 && |name| <= NAME_MAX
    requires MinRec(NamLen(s, o)) + MinRec(|name|) <= RecLen(s, o)
    ensures o + MinRec(NamLen(s, o)) + HDR + |name| <= SECTOR
    ensures var t := SplitRec(s, o, MinRec(NamLen(s, o)), ino, name);
            Tiled(t, o) && Ents(t, o) == Ents(s, o) + multiset{Dirent(name, ino)}
  {
    hide Tiled, Ents, Ino, RecLen, NamLen, NameAt, SplitRec, MinRec;
    MinRecFits(NamLen(s, o));
    MinRecFits(|name|);
    var m := MinRec(NamLen(s, o));
    var t := SplitRec(s, o, m, ino, name);
    SplitRecIs(s, o, m, ino, name);
    NameKept(s, t, o);
    var len := RecLen(s, o);
    SameTail(s, t, o + len);
    TailStep(s, o, Ino(s, o), len, NameAt(s, o));
    TailStep(t, o + m, ino, len - m, name);
    TailStep(t, o, Ino(s, o), m, NameAt(s, o));
    var x, y, r := multiset{Dirent(name, ino)}, multiset{Dirent(NameAt(s, o), Ino(s, o))}, Ents(t, o + len);
    MoveFront(y, x, r);
  }

  lemma MinRecFits(n: nat)
    ensures HDR + n < MinRec(n) <= HDR + n + 4 && MinRec(n) % 4 == 0
  {
  }

  lemma NameKept(s: Sector, t: Sector, o: nat)
    requires o + HDR <= SECTOR && NamLen(t, o) == NamLen(s, o)
    requires forall i :: o + HDR <= i < o + MinRec(NamLen(s, o)) && i < SECTOR ==> t[i] == s[i]
    ensures NameAt(t, o) == NameAt(s, o)
  {
  }

  lemma ClearedRec(s: Sector, o: nat)
    requires RecOk(s, o)
    ensures var t: Sector := PutU32(s, o, 0);
            RecOk(t, o) && Ino(t, o) == 0 && RecLen(t, o) == RecLen(s, o) && forall i :: 0 <= i < SECTOR && !(o <= i < o + 4) ==> t[i] == s[i]
  {
    hide MinRec;
    PutGet32(s, o, 0, o);
    assert RecLen(PutU32(s, o, 0), o) == RecLen(s, o);
  }

  /** A deleted record lists nothing. */
  lemma DeadTail(s: Sector, o: nat)
    requires RecOk(s, o) && Ino(s, o) == 0
    ensures Ents(s, o) == Ents(s, o + RecLen(s, o)) && Tiled(s, o) == Tiled(s, o + RecLen(s, o))
  {
    hide RecLen, NameAt, Ino;
    var r := Ents(s, o + RecLen(s, o));
    assert multiset{} + r == r;
  }

  lemma ClearedTail(s: Sector, o: nat)
    requires RecOk(s, o) && Tiled(s, o) && Ino(s, o) != 0
    ensures var t: Sector := PutU32(s, o, 0); Tiled(t, o) && Ents(s, o) == multiset{Dirent(NameAt(s, o), Ino(s, o))} + Ents(t, o)
  {
    ClearedRec(s, o);
    hide Tiled, Ents, RecOk, Ino, RecLen, NameAt, PutU32;
    var t: Sector := PutU32(s, o, 0);
    SameTail(s, t, o + RecLen(s, o));
    DeadTail(t, o);
    TailStep(s, o, Ino(s, o), RecLen(s, o), NameAt(s, o));
  }

  /** Deleting the record at o: one entry less. */
  lemma ClearChunk(s: Sector, p: nat, o: nat)
    requires Tiled(s, p) && Reaches(s, p, o) && o < SECTOR && Tiled(s, o) && Ino(s, o) != 0
    ensures o + HDR <= SECTOR
    ensures var t := PutU32(s, o, 0); var e := Dirent(NameAt(s, o), Ino(s, o));
            && Tiled(t, p) && Ents(s, p) == Ents(t, p) + multiset{e}
            && Reaches(t, p, o) && Ino(t, o) == 0 && RecLen(t, o) == RecLen(s, o)
  {
    assert RecOk(s, o);
    hide Tiled, Ents, Reaches, Ino, RecLen, NameAt, RecOk, PutU32;
    var t: Sector := PutU32(s, o, 0);
    ClearedRec(s, o);
    ClearedTail(s, o);
    var b := NewTail(s, t, p, o);
    MoveFront(b, multiset{Dirent(NameAt(s, o), Ino(s, o))}, Ents(t, o));
  }

  // ---- the chunks of a new directory block ----

  /** A chunk that is one deleted record. */
  function EmptyChunk(): Sector {
    PutU16(ZeroSector(), 4, 512)
  }

  lemma EmptyChunkIs()
    ensures var s := EmptyChunk(); Tiled(s, 0) && Ents(s, 0) == multiset{} && Ino(s, 0) == 0 && RecLen(s, 0) == 512
  {
    var s := EmptyChunk();
    PutGet16(ZeroSector(), 4, 512, 4);
    assert Ino(s, 0) == 0 && RecLen(s, 0) == 512;
    TailStep(s, 0, 0, 512, NameAt(s, 0));
  }

  /** A chunk that is one live record. */
  function FirstChunk(ino: U32, name: Name): Sector
    requires |name| <= NAME_MAX
  {
    PutRec(EmptyChunk(), 0, ino, name)
  }

  lemma FirstChunkIs(ino: U32, name: Name)
    requires |name| <= NAME_MAX && ino != 0
    ensures var s := FirstChunk(ino, name); Tiled(s, 0) && Ents(s, 0) == multiset{Dirent(name, ino)}
  {
    hide EmptyChunk, PutRec, Tiled, Ents;
    EmptyChunkIs();
    FillChunk(EmptyChunk(), 0, 0, ino, name);
  }

  // ---- the scanning loops ----

  predicate Fits(s: Sector, o: nat, need: nat)
    requires o + HDR <= SECTOR
  {
    if Ino(s, o) == 0 then need <= RecLen(s, o) else MinRec(NamLen(s, o)) + need <= RecLen(s, o)
  }

  /** Some record met from o on can take a new entry of `need` bytes. */
  predicate HasRoom(s: Sector, o: nat, need: nat)
    decreases SECTOR - o
  {
    o + HDR <= SECTOR && RecLen(s, o) != 0 && (Fits(s, o, need) || HasRoom(s, o + RecLen(s, o), need))
  }

  /** A record that fits is room. */
  lemma {:induction false} RoomAt(s: Sector, p: nat, o: nat, need: nat)
    requires Reaches(s, p, o) && o + HDR <= SECTOR && RecLen(s, o) != 0 && Fits(s, o, need)
    ensures HasRoom(s, p, need)
    decreases SECTOR - p
  {
    hide Fits;
    if p != o {
      RoomAt(s, p + RecLen(s, p), o, need);
    }
  }

  lemma {:induction false} ReachesNext(s: Sector, p: nat, o: nat)
    requires Reaches(s, p, o) && o + HDR <= SECTOR && RecLen(s, o) != 0
    ensures Reaches(s, p, o + RecLen(s, o))
    decreases SECTOR - p
  {
    if p != o {
      ReachesNext(s, p + RecLen(s, p), o);
    }
  }

  predicate NoName(m: multiset<Dirent>, name: Name) {
    forall i :: Dirent(name, i) !in m
  }

  /** The name comparison loop: the live record of that name, if any. */
  method FindInChunk(s: Sector, name: Name) returns (found: bool, o: nat)
    requires Tiled(s, 0) && |name| <= NAME_MAX
    ensures found ==> o + HDR <= SECTOR && Reaches(s, 0, o) && Tiled(s, o) && Ino(s, o) != 0 && NameAt(s, o) == name
    ensures !found ==> NoName(Ents(s, 0), name)
  {
    hide Tiled, Ents, Reaches, Ino, RecLen, NamLen, MinRec;
    o := 0;
    ScanStart(s, name);
    while o + HDR <= SECTOR
      invariant o <= SECTOR && Reaches(s, 0, o) && Tiled(s, o)
      invariant NoName(Ents(s, o), name) ==> NoName(Ents(s, 0), name)
      decreases SECTOR - o
    {
      TiledRec(s, o);
      if RecLen(s, o) == 0 {
        break;
      }
      LiveName(s, o, name);
      if Ino(s, o) != 0 && NamLen(s, o) == |name| {
        var i := 0;
        while i < |name| && s[o + HDR + i] == name[i]
          invariant 0 <= i <= |name|
          invariant forall j :: 0 <= j < i ==> s[o + HDR + j] == name[j]
        {
          i := i + 1;
        }
        if i == |name| {
          NameEqual(s, o, name);
          return true, o;
        }
      }
      ReachesNext(s, 0, o);
      SkipName(s, o, name);
      o := o + RecLen(s, o);
    }
    ScanEnd(s, o, name);
    found := false;
  }

  lemma ScanStart(s: Sector, name: Name)
    ensures Reaches(s, 0, 0)
  {
  }

  lemma ScanEnd(s: Sector, o: nat, name: Name)
    requires SECTOR < o + HDR
    ensures NoName(Ents(s, o), name)
  {
  }

  lemma NameLen(s: Sector, o: nat)
    requires RecOk(s, o) && Ino(s, o) != 0
    ensures o + HDR + NamLen(s, o) <= SECTOR && |NameAt(s, o)| == NamLen(s, o)
    ensures forall j :: 0 <= j < NamLen(s, o) ==> s[o + HDR + j] == NameAt(s, o)[j]
  {
  }

  lemma LiveName(s: Sector, o: nat, name: Name)
    requires RecOk(s, o)
    ensures Ino(s, o) != 0 ==>
      && o + HDR + NamLen(s, o) <= SECTOR && |NameAt(s, o)| == NamLen(s, o)
      && forall j :: 0 <= j < NamLen(s, o) ==> s[o + HDR + j] == NameAt(s, o)[j]
  {
    if Ino(s, o) != 0 {
      NameLen(s, o);
    }
  }

  lemma NameEqual(s: Sector, o: nat, name: Name)
    requires RecOk(s, o) && Ino(s, o) != 0 && NamLen(s, o) == |name|
    requires o + HDR + |name| <= SECTOR && forall j :: 0 <= j < |name| ==> s[o + HDR + j] == name[j]
    ensures NameAt(s, o) == name
  {
  }

  lemma SkipName(s: Sector, o: nat, name: Name)
    requires RecOk(s, o) && !(Ino(s, o) != 0 && NameAt(s, o) == name)
    ensures NoName(Ents(s, o + RecLen(s, o)), name) ==> NoName(Ents(s, o), name)
  {
    TailStep(s, o, Ino(s, o), RecLen(s, o), NameAt(s, o));
  }

  /** The slot search of ufs_dir_add_entry: a deleted record that is long enough, or slack behind a live one. */
  method FindRoom(s: Sector, need: nat) returns (found: bool, o: nat)
    requires Tiled(s, 0)
    ensures found ==> o < SECTOR && Reaches(s, 0, o) && Tiled(s, o) && o + HDR <= SECTOR && Fits(s, o, need)
    ensures !found ==> !HasRoom(s, 0, need)
  {
    hide Tiled, Reaches, Ino, NamLen, MinRec, Fits;
    o := 0;
    ScanStart(s, []);
    while o + HDR <= SECTOR
      invariant o <= SECTOR && Reaches(s, 0, o) && Tiled(s, o)
      invariant HasRoom(s, 0, need) ==> HasRoom(s, o, need)
      decreases SECTOR - o
    {
      TiledRec(s, o);
      if RecLen(s, o) == 0 {
        break;
      }
      if Fits(s, o, need) {
        return true, o;
      }
      ReachesNext(s, 0, o);
      o := o + RecLen(s, o);
    }
    found := false;
  }

  // ---- "." and ".." ----

  const DOT := 0x2E
  const DT_DIR := 4

  /** Sector 0 of a new directory: "." in 12 bytes, ".." in the other 500. */
  function DotsChunk(self: U32, parent: U32): Sector {
    var one := PutRec(PutU16(ZeroSector(), 4, 12), 0, self, [DOT]);
    var two := PutRec(PutU16(one, 12 + 4, 500), 12, parent, [DOT, DOT]);
    two[6 := DT_DIR][12 + 6 := DT_DIR]
  }

  /** A d_type byte is not part of any record's length, inode or name. */
  lemma TypeByte(s: Sector, o: nat)
    requires o + HDR <= SECTOR
    ensures var t: Sector := s[o + 6 := DT_DIR];
            && Ino(t, o) == Ino(s, o) && RecLen(t, o) == RecLen(s, o) && NamLen(t, o) == NamLen(s, o) && NameAt(t, o) == NameAt(s, o)
            && forall i :: 0 <= i < SECTOR && i != o + 6 ==> t[i] == s[i]
  {
  }

  lemma SameRecord(s: Sector, t: Sector, o: nat, n: nat)
    requires o + HDR + n <= SECTOR && NamLen(s, o) == n && forall i :: o <= i < o + HDR + n ==> t[i] == s[i]
    ensures Ino(t, o) == Ino(s, o) && RecLen(t, o) == RecLen(s, o) && NamLen(t, o) == n && NameAt(t, o) == NameAt(s, o)
  {
    SameRec(s, t, o);
  }

  lemma DotsChunkIs(self: U32, parent: U32)
    requires self != 0 && parent != 0
    ensures Tiled(DotsChunk(self, parent), 0)
    ensures Ents(DotsChunk(self, parent), 0) == multiset{Dirent([DOT], self), Dirent([DOT, DOT], parent)}
  {
    hide Ino, RecLen, NamLen, NameAt, Tiled, Ents, PutRec, PutU16, MinRec, RecOk;
    var z: Sector := PutU16(ZeroSector(), 4, 12);
    PutLenIs(ZeroSector(), 0, 12);
    var one := PutRec(z, 0, self, [DOT]);
    PutRecIs(z, 0, self, [DOT]);
    var y: Sector := PutU16(one, 12 + 4, 500);
    PutLenIs(one, 12, 500);
    var two := PutRec(y, 12, parent, [DOT, DOT]);
    PutRecIs(y, 12, parent, [DOT, DOT]);
    SameRecord(one, two, 0, 1);
    var a: Sector := two[6 := DT_DIR];
    TypeByte(two, 0);
    SameRecord(two, a, 12, 2);
    TypeByte(a, 12);
    var t := DotsChunk(self, parent);
    SameRecord(a, t, 0, 1);
    DotsTiles(t, self, parent);
  }

  lemma DotsTiles(t: Sector, self: U32, parent: U32)
    requires self != 0 && parent != 0
    requires Ino(t, 0) == self && RecLen(t, 0) == 12 && NamLen(t, 0) == 1 && NameAt(t, 0) == [DOT]
    requires Ino(t, 12) == parent && RecLen(t, 12) == 500 && NamLen(t, 12) == 2 && NameAt(t, 12) == [DOT, DOT]
    ensures Tiled(t, 0) && Ents(t, 0) == multiset{Dirent([DOT], self), Dirent([DOT, DOT], parent)}
  {
    hide Ino, RecLen, NamLen, NameAt;
    assert RecOk(t, 12) && RecOk(t, 0);
    TailStep(t, 12, parent, 500, [DOT, DOT]);
    TailStep(t, 0, self, 12, [DOT]);
  }

  // ---- ufs_dir_is_empty ----

  predicate IsDots(name: Name) {
    name == [DOT] || name == [DOT, DOT]
  }

  predicate OnlyDots(m: multiset<Dirent>) {
    forall e: Dirent :: e in m ==> IsDots(e.name)
  }

  method DotsInChunk(s: Sector) returns (only: bool)
    requires Tiled(s, 0)
    ensures only == OnlyDots(Ents(s, 0))
  {
    hide Tiled, Ents, Reaches, Ino, RecLen, NamLen, MinRec, NameAt;
    var o := 0;
    ScanStart(s, []);
    while o + HDR <= SECTOR
      invariant o <= SECTOR && Tiled(s, o)
      invariant OnlyDots(Ents(s, 0)) == OnlyDots(Ents(s, o))
      decreases SECTOR - o
    {
      TiledRec(s, o);
      if RecLen(s, o) == 0 {
        break;
      }
      LiveName(s, o, []);
      TailStep(s, o, Ino(s, o), RecLen(s, o), NameAt(s, o));
      if Ino(s, o) != 0 {
        assert Dirent(NameAt(s, o), Ino(s, o)) in Ents(s, o);
        if NamLen(s, o) == 1 && s[o + HDR] == DOT {
          assert s[o + HDR + 0] == NameAt(s, o)[0];
          assert NameAt(s, o) == [DOT];
        } else if NamLen(s, o) == 2 && s[o + HDR] == DOT && s[o + HDR + 1] == DOT {
          assert s[o + HDR + 0] == NameAt(s, o)[0];
          assert NameAt(s, o) == [DOT, DOT];
        } else {
          NotDots(s, o, NameAt(s, o));
          return false;
        }
      }
      o := o + RecLen(s, o);
    }
    ScanEnd(s, o, []);
    OutOfChunk(s, o);
    only := true;
  }

  lemma NotDots(s: Sector, o: nat, name: Name)
    requires o + HDR + |name| <= SECTOR && forall j :: 0 <= j < |name| ==> s[o + HDR + j] == name[j]
    requires |name| == 1 ==> s[o + HDR] != DOT
    requires |name| == 2 ==> s[o + HDR] != DOT || s[o + HDR + 1] != DOT
    ensures !IsDots(name)
  {
    if |name| == 1 {
      assert s[o + HDR + 0] == name[0];
    } else if |name| == 2 {
      assert s[o + HDR + 0] == name[0] && s[o + HDR + 1] == name[1];
    }
  }

  lemma OutOfChunk(s: Sector, o: nat)
    requires SECTOR < o + HDR
    ensures Ents(s, o) == multiset{}
  {
  }
}
