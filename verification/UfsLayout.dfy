/** The on-disk format in bytes: where every field that the volume's meaning rests on stands. */
module UfsLayout {
  import opened Options
  import opened Bytes
  import opened UfsFormat
  import opened UfsTree
  import opened UfsBlocks
  import opened UfsFiles
  import opened UfsDirent
  import opened UfsDirs
  import opened UfsOps
  import opened UfsMkdir

  // ---- bitmaps ----

  /** Block n is free when byte n of the free map is 0xFF; the map begins freeOff bytes into the cylinder group at sector 32. */
  lemma FreeMapAt(g: Geom, d: Disk, n: nat)
    requires g.Valid() && |d| == g.sectors && n < g.Blocks()
    ensures var q := 32 + (g.freeOff + n) / 512; var o := (g.freeOff + n) % 512;
            && q < |d| && (IsFree(g, d, n) <==> d[q][o] == 0xFF)
            && forall v: Byte :: SetMap(g, d, n, v) == d[q := d[q][o := v]]
    ensures g.Blocks() == g.dsize / 8 && g.Frag(n) == g.data + 8 * n
  {
    MapByteAt(g, d, n);
  }

  function PowerOfTwo(k: nat): nat
    requires k < 8
  {
    [1, 2, 4, 8, 16, 32, 64, 128][k]
  }

  lemma {:induction false} BitIs(b: nat, k: nat)
    requires k < 8
    ensures Bit(b, k) <==> b / PowerOfTwo(k) % 2 == 1
  {
    assert b / 2 / 2 == b / 4 && b / 4 / 2 == b / 8 && b / 8 / 2 == b / 16 && b / 16 / 2 == b / 32 && b / 32 / 2 == b / 64 && b / 64 / 2 == b / 128;
    if k == 7 {
      assert Bit(b, 7) == Bit(b / 2, 6) == Bit(b / 4, 5) == Bit(b / 8, 4);
      assert Bit(b / 8, 4) == Bit(b / 16, 3) == Bit(b / 32, 2) == Bit(b / 64, 1) == Bit(b / 128, 0);
    } else if k == 6 {
      assert Bit(b, 6) == Bit(b / 2, 5) == Bit(b / 4, 4) == Bit(b / 8, 3);
      assert Bit(b / 8, 3) == Bit(b / 16, 2) == Bit(b / 32, 1) == Bit(b / 64, 0);
    } else if k == 5 {
      assert Bit(b, 5) == Bit(b / 2, 4) == Bit(b / 4, 3) == Bit(b / 8, 2) == Bit(b / 16, 1) == Bit(b / 32, 0);
    } else if k == 4 {
      assert Bit(b, 4) == Bit(b / 2, 3) == Bit(b / 4, 2) == Bit(b / 8, 1) == Bit(b / 16, 0);
    } else if k == 3 {
      assert Bit(b, 3) == Bit(b / 2, 2) == Bit(b / 4, 1) == Bit(b / 8, 0);
    } else if k == 2 {
      assert Bit(b, 2) == Bit(b / 2, 1) == Bit(b / 4, 0);
    } else if k == 1 {
      assert Bit(b, 1) == Bit(b / 2, 0);
    }
  }

  /** Inode i is in use when bit i % 8 of byte i / 8 of the inode bitmap is set. */
  lemma InodeMapAt(g: Geom, d: Disk, i: nat)
    requires g.Valid() && |d| == g.sectors && i < g.inodes
    ensures var o := g.iusedOff + i / 8;
            32 + o / 512 < |d| && (InoUsed(g, d, i) <==> d[32 + o / 512][o % 512] / PowerOfTwo(i % 8) % 2 == 1)
  {
    BitIs(CgByte(d, g.iusedOff + i / 8), i % 8);
  }

  // ---- inodes and pointers ----

  /** Inode i is the 128 bytes at i % 4 * 128 of sector i / 4 of the table. */
  lemma InodeBytes(g: Geom, d: Disk, i: nat, b: nat)
    requires g.Valid() && |d| == g.sectors && i < g.inodes && b < 128
    ensures g.itable + i / 4 < |d| && Table(g, d)[i][b] == d[g.itable + i / 4][i % 4 * 128 + b]
  {
  }

  lemma FieldsAt(i: Inode)
    ensures Mode(i) == U16At(i, 0) && Nlink(i) == U16At(i, 2) && Size(i) == U32At(i, 8) + 0x1_0000_0000 * U32At(i, 12)
  {
  }

  /** Pointer k of an indirect block at sector p: 128 in a sector. */
  function PointerAt(d: Disk, p: nat, k: nat): U32
    requires p + k / 128 < |d|
  {
    U32At(d[p + k / 128], 4 * (k % 128))
  }

  /** The block of a file that holds logical block l: twelve pointers in the inode from byte 40 on, then 1024 in the block
      that the thirteenth names, then 1024 in each block that is named in the block that the fourteenth names. */
  lemma DirectAt(tab: seq<Inode>, d: Disk, i: nat, l: nat)
    requires i < |tab| && !IsSymlink(tab[i]) && l < 12
    ensures Val(tab, d, DataSlot(i, l)) == U32At(tab[i], 40 + 4 * l)
  {
  }

  lemma IndirectAt(tab: seq<Inode>, d: Disk, i: nat, l: nat)
    requires i < |tab| && !IsSymlink(tab[i]) && 12 <= l < 12 + 1024 && U32At(tab[i], 88) + 8 <= |d|
    ensures Val(tab, d, DataSlot(i, l)) == if U32At(tab[i], 88) == 0 then 0 else PointerAt(d, U32At(tab[i], 88), l - 12)
  {
  }

  lemma DoubleAt(tab: seq<Inode>, d: Disk, i: nat, l: nat)
    requires i < |tab| && !IsSymlink(tab[i]) && 12 + 1024 <= l < 12 + 1024 + 1024 * 1024 && U32At(tab[i], 92) + 8 <= |d|
    requires U32At(tab[i], 92) != 0 ==> PointerAt(d, U32At(tab[i], 92), (l - 1036) / 1024) + 8 <= |d|
    ensures Val(tab, d, DataSlot(i, l)) ==
      if U32At(tab[i], 92) == 0 then 0
      else
        var p := PointerAt(d, U32At(tab[i], 92), (l - 1036) / 1024);
        if p == 0 then 0 else PointerAt(d, p, (l - 1036) % 1024)
  {
  }

  /** Byte pos of a file, in the block that holds it. */
  lemma ByteStands(tab: seq<Inode>, d: Disk, i: nat, pos: nat)
    ensures var v := Val(tab, d, DataSlot(i, pos / 4096));
            v + 8 <= |d| ==> ByteAt(tab, d, i, pos) == if v == 0 then None else Some(d[v + pos % 4096 / 512][pos % 512])
  {
  }

  // ---- directories ----

  /** Chunk c of a directory, in the block that holds it. */
  lemma ChunkStands(tab: seq<Inode>, d: Disk, i: nat, c: nat)
    requires i < |tab| && c < |Dir(tab, d, i)|
    ensures var v := Val(tab, d, DataSlot(i, c / 8));
            v + 8 <= |d| ==> Dir(tab, d, i)[c] == if v == 0 then None else Some(d[v + c % 8])
    ensures Size(tab[i]) % 4096 == 0 && Size(tab[i]) < 0x1_0000_0000 ==> |Dir(tab, d, i)| == Size(tab[i]) / 512
  {
  }

  /** A record: inode at 0, length at 4, type at 6, length of the name at 7, name from 8 on. */
  lemma RecordAt(s: Sector, o: nat)
    requires o + 8 <= 512
    ensures Ino(s, o) == U32At(s, o) && RecLen(s, o) == U16At(s, o + 4) && NamLen(s, o) == s[o + 7]
    ensures o + 8 + s[o + 7] <= 512 ==> NameAt(s, o) == s[o + 8..o + 8 + s[o + 7]]
  {
  }

  /** What is written for a new entry: the type byte is zero, the length stays. */
  lemma RecordPut(s: Sector, o: nat, ino: U32, name: Name)
    requires o + 8 + |name| <= 512 && |name| <= 255
    ensures var t := PutRec(s, o, ino, name);
            && U32At(t, o) == ino && U16At(t, o + 4) == U16At(s, o + 4) && t[o + 6] == 0 && t[o + 7] == |name|
            && t[o + 8..o + 8 + |name|] == name
            && forall i :: 0 <= i < 512 && !(o <= i < o + 8 + |name|) ==> t[i] == s[i]
  {
    PutRecIs(s, o, ino, name);
  }

  /** The room a record needs: header, name and a NUL, up to the next multiple of four. */
  lemma NeedIs(n: nat)
    ensures MinRec(n) % 4 == 0 && n + 9 <= MinRec(n) < n + 13
  {
  }

  lemma CutIs(name: Name)
    ensures |Cut(name)| == (if |name| < 255 then |name| else 255) && Cut(name) == name[..|Cut(name)|]
  {
  }

  /** A listed record is one that the scan from the chunk's start meets, with an inode. */
  ghost predicate Met(s: Sector, p: nat, o: nat, e: Dirent) {
    Reaches(s, p, o) && o + 8 <= 512 && RecLen(s, o) != 0 && Ino(s, o) == e.ino != 0 && NameAt(s, o) == e.name
  }

  lemma {:induction false} ListedIs(s: Sector, p: nat, e: Dirent)
    ensures e in Ents(s, p) <==> exists o :: Met(s, p, o, e)
    decreases 512 - p
  {
    hide Ino, RecLen, NamLen, NameAt;
    if p + 8 <= 512 && RecLen(s, p) != 0 {
      var q := p + RecLen(s, p);
      ListedIs(s, q, e);
      if e in LiveAt(s, p) {
        assert Met(s, p, p, e);
      }
      if o :| Met(s, q, o, e) {
        assert Met(s, p, o, e);
      }
      if o :| Met(s, p, o, e) {
        assert o == p || Met(s, q, o, e);
      }
    }
  }

  /** A record met can take a new entry when so much of it is not used by a live entry of its own. */
  ghost predicate Spare(s: Sector, p: nat, o: nat, need: nat) {
    Reaches(s, p, o) && o + 8 <= 512 && RecLen(s, o) != 0 && need + (if Ino(s, o) == 0 then 0 else MinRec(NamLen(s, o))) <= RecLen(s, o)
  }

  lemma {:induction false} RoomIs(s: Sector, p: nat, need: nat)
    ensures HasRoom(s, p, need) <==> exists o :: Spare(s, p, o, need)
    decreases 512 - p
  {
    hide Ino, RecLen, NamLen, MinRec;
    if p + 8 <= 512 && RecLen(s, p) != 0 {
      var q := p + RecLen(s, p);
      RoomIs(s, q, need);
      if Fits(s, p, need) {
        assert Spare(s, p, p, need);
      }
      if o :| Spare(s, q, o, need) {
        assert Spare(s, p, o, need);
      }
      if o :| Spare(s, p, o, need) {
        assert o == p || Spare(s, q, o, need);
      }
    }
  }

  // ---- new files and directories ----

  /** A regular file with the nine permission bits, one link, and nothing else. */
  lemma NewFileBytes(mode: nat)
    ensures var i := NewFile(mode);
            Mode(i) == 0x8000 + mode % 0x200 && Nlink(i) == 1 && forall b :: 4 <= b < 128 ==> i[b] == 0
  {
    var m: Inode := PutU16(ZeroInode(), 0, 0x8000 + mode % 512);
    PutGet16(ZeroInode(), 0, 0x8000 + mode % 512, 0);
    PutGet16(m, 2, 1, 0);
    PutGet16(m, 2, 1, 2);
  }

  /** A directory with the nine permission bits, two links, 4096 bytes, and its one block. */
  lemma NewDirBytes(mode: nat, f: U32)
    ensures var i := NewDir(mode, f);
            && Mode(i) == 0x4000 + mode % 0x200 && Nlink(i) == 2 && Size(i) == 4096 && TopPtr(i, 0) == f
            && forall k :: 1 <= k < 14 ==> TopPtr(i, k) == 0
  {
    var m: Inode := PutU16(ZeroInode(), 0, 0x4000 + mode % 512);
    PutGet16(ZeroInode(), 0, 0x4000 + mode % 512, 0);
    PutGet16(m, 2, 2, 0);
    BareDirIs(mode);
    SetTopFields(BareDir(mode), 0, f);
    SetSizeFields(SetTopPtr(BareDir(mode), 0, f), BLOCK);
  }

  /** Its first chunk: "." in 12 bytes, ".." in 500, both of type 4; its other chunks are one deleted record each. */
  lemma DotsBytes(self: U32, parent: U32)
    ensures var s := DotsChunk(self, parent);
            && U32At(s, 0) == self && U16At(s, 4) == 12 && s[6] == 4 && s[7] == 1 && s[8] == 0x2E
            && U32At(s, 12) == parent && U16At(s, 16) == 500 && s[18] == 4 && s[19] == 2 && s[20] == 0x2E && s[21] == 0x2E
            && forall b :: 22 <= b < 512 ==> s[b] == 0
  {
    hide U16At, U32At;
    var z: Sector := PutU16(ZeroSector(), 4, 12);
    PutGet16(ZeroSector(), 4, 12, 4);
    var one := PutRec(z, 0, self, [0x2E]);
    RecordPut(z, 0, self, [0x2E]);
    var y: Sector := PutU16(one, 16, 500);
    PutGet16(one, 16, 500, 16);
    PutGet16(one, 16, 500, 4);
    var two := PutRec(y, 12, parent, [0x2E, 0x2E]);
    RecordPut(y, 12, parent, [0x2E, 0x2E]);
    hide PutRec, LE16;
    assert forall b :: 0 <= b < 12 ==> two[b] == one[b];
    Same(two, one, 0);
    Same(DotsChunk(self, parent), two, 0);
    Same(DotsChunk(self, parent), two, 12);
    assert one[8..9] == [0x2E] && one[8] == one[8..9][0];
    assert two[20..22] == [0x2E, 0x2E] && two[20] == two[20..22][0] && two[21] == two[20..22][1];
    DotsRest(z, one, y, two);
  }

  lemma DotsRest(z: Sector, one: Sector, y: Sector, two: Sector)
    requires z == PutU16(ZeroSector(), 4, 12) && y == PutU16(one, 16, 500)
    requires forall b :: 9 <= b < 512 ==> one[b] == z[b]
    requires forall b :: 22 <= b < 512 ==> two[b] == y[b]
    ensures forall b :: 22 <= b < 512 ==> two[b] == 0
  {
  }

  lemma EmptyBytes()
    ensures U16At(EmptyChunk(), 4) == 512 && forall b :: 0 <= b < 512 && b != 4 && b != 5 ==> EmptyChunk()[b] == 0
  {
    PutGet16(ZeroSector(), 4, 512, 4);
  }

  lemma Same(s: Sector, t: Sector, o: nat)
    requires o + 8 <= 512 && forall i :: o <= i < o + 6 ==> s[i] == t[i]
    ensures U32At(s, o) == U32At(t, o) && U16At(s, o + 4) == U16At(t, o + 4)
  {
  }

  // ---- what a write leaves ----

  lemma WrapIs(k: nat)
    requires k < 2 * 0x1_0000_0000
    ensures Wrap(k) == k % 0x1_0000_0000
  {
  }

  /** The blocks of a range that does not wrap around. */
  lemma TouchedIs(off: U32, n: nat)
    requires off + n <= 0x1_0000_0000
    ensures Touched(off, n) == if n == 0 then 0 else (off + n - 1) / 4096 - off / 4096 + 1
  {
  }

  /** A write of `done` bytes at off, position by position, when the range ends at 4 GiB or before. */
  lemma WroteAt(tab: seq<Inode>, d: Disk, tab': seq<Inode>, e: Disk, ino: nat, off: U32, src: seq<Byte>, done: nat, q: U32)
    requires done <= |src| < 0x1_0000_0000 && off + done <= 0x1_0000_0000 && Wrote(tab, d, tab', e, ino, off, src, done)
    ensures ByteAt(tab', e, ino, q) ==
      if off <= q < off + done then Some(src[q - off])
      else if ByteAt(tab, d, ino, q) == None && 0 < done && off / 4096 <= q / 4096 <= (off + done - 1) / 4096 then Some(0)
      else ByteAt(tab, d, ino, q)
  {
    hide ByteAt;
    assert Overwritten(ByteAt(tab, d, ino, q), ByteAt(tab', e, ino, q), off, src, done, q);
    if 0 < done && off / 4096 <= q / 4096 <= (off + done - 1) / 4096 {
      var k := if q / 4096 == off / 4096 then 0 else q / 4096 * 4096 - off;
      assert k < done && InBlockAt(off, k, q / 4096);
    }
    forall k: nat | k < done && InBlockAt(off, k, q / 4096) ensures off / 4096 <= q / 4096 <= (off + done - 1) / 4096 {
    }
  }
}
