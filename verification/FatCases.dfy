/** Particular runs of vfat_write on a volume whose free clusters hold old data. */
module FatCases {
  import opened Bytes
  import opened Arith
  import opened FatCache
  import opened FatChains
  import opened FatFile

  /** Two copies of a one-sector table and two clusters of one sector. */
  function Tiny(): (g: Geom)
    ensures g.Valid() && g.sectors == 4 && Span(g) == SECTOR
  {
    Geom(0, 1, 2, 2, 1, 2, 4)
  }

  function Filled(b: Byte): Sector { seq(SECTOR, _ => b) }

  /** Both clusters are free and full of sevens. */
  function Sevens(): (d: Disk)
    ensures |d| == 4
  {
    [Filled(0), Filled(0), Filled(7), Filled(7)]
  }

  /** An empty file on that volume. */
  method EmptyFile() returns (f: Fat, vn: FatVnode)
    ensures fresh(f) && fresh(vn) && f.Valid() && f.g == Tiny() && f.disk == Sevens()
    ensures Lows(f.View()) == [0, 0, 0, 0]
    ensures !vn.isDir && vn.deSec == 0 && vn.deOff == 0 && vn.cluster == 0 && vn.size == 0
  {
    f := new Fat.Mount(Tiny(), Sevens());
    vn := new FatVnode(false, 0, 0, 0, 0);
    assert |f.View()| == 4 && forall c :: 0 <= c < 4 ==> f.View()[c] == 0;
  }

  /** Cluster 2 is all that a short write at 5 takes. */
  lemma TakesTwo(n: nat)
    requires n <= 1
    ensures var t: Links := [0, 0, 0, 0];
            FreeList(t) == [2, 3] && Need(Tiny(), 5, n) == 1 && Grown(Tiny(), t, [], 5, n) == [2] && Outcome(Tiny(), t, [], 5, n) == Count(n)
  {
    var t: Links := [0, 0, 0, 0];
    assert t[..3] == [0, 0, 0] && t[..3][..2] == [0, 0];
    assert FreeList(t[..3]) == [2];
    QuotIs(5, SECTOR, 0, 5);
    TimesNext(0, SECTOR);
    TimesNext(1, SECTOR);
  }

  lemma SevenAt(pos: nat)
    requires pos < SECTOR
    ensures Times(1, Span(Tiny())) == SECTOR && FileByte(Tiny(), Sevens(), [2], pos) == 7
  {
    TimesNext(0, SECTOR);
    QuotIs(pos, SECTOR, 0, pos);
  }

  /** The clusters of the file as written, ready for reading. */
  lemma ChainOfTwo(u: Links, e: Disk, src: seq<Byte>, total: nat)
    requires FileWritten(Tiny(), [0, 0, 0, 0], Sevens(), [], u, e, [2], 5, src, total, 0)
    ensures |e| == 4 && InClusters(Tiny(), [2]) && Chain(u, 2, [2])
  {
  }

  /** What stands in it. */
  lemma ReadsSevens(u: Links, e: Disk, src: seq<Byte>, total: nat, out: seq<Byte>)
    requires FileWritten(Tiny(), [0, 0, 0, 0], Sevens(), [], u, e, [2], 5, src, total, 0) && total == |src| <= 1
    requires Delivered(Tiny(), e, [2], 0, 5 + |src|, out)
    ensures |out| == 5 + |src| && forall pos :: 0 <= pos < |out| ==> out[pos] == if pos < 5 then 7 else src[pos - 5]
  {
    hide FileWritten, Delivered;
    ChainOfTwo(u, e, src, total);
    DeliveredAll(e, 5 + |src|, out);
    forall pos | 0 <= pos < |out| ensures out[pos] == if pos < 5 then 7 else src[pos - 5] {
      ReadsSeven(u, e, src, total, out, pos);
    }
  }

  lemma DeliveredAll(e: Disk, m: nat, out: seq<Byte>)
    requires |e| == 4 && InClusters(Tiny(), [2]) && Delivered(Tiny(), e, [2], 0, m, out) && m <= SECTOR
    ensures |out| == m
  {
    TimesNext(0, SECTOR);
    hide Times;
  }

  lemma ReadsSeven(u: Links, e: Disk, src: seq<Byte>, total: nat, out: seq<Byte>, pos: nat)
    requires FileWritten(Tiny(), [0, 0, 0, 0], Sevens(), [], u, e, [2], 5, src, total, 0) && total == |src| <= 1
    requires Delivered(Tiny(), e, [2], 0, 5 + |src|, out) && pos < |out|
    ensures out[pos] == if pos < 5 then 7 else src[pos - 5]
  {
    SevenAt(pos);
    hide Times, FileByte, Extends, Sevens, Span, Tiny;
    assert ByteIs(Tiny(), e, [2], 0 + pos, out[pos]);
    assert WrittenAt(Tiny(), Sevens(), 5, src, total, e, [2], pos);
  }

  /** One byte written at 5 of an empty file: the five bytes before it read as what the cluster held. */
  method GapOfSevens() returns (vn: FatVnode, ret: Ret, out: seq<Byte>)
    ensures ret == Count(1) && vn.size == 6 && out == [7, 7, 7, 7, 7, 1]
  {
    hide FileWritten, Grown, Outcome, Delivered, Chain, Lows;
    var f, got;
    f, vn := EmptyFile();
    TakesTwo(1);
    ghost var ds;
    ret, ds := Write(f, vn, [1], 5, []);
    ghost var u, e := Lows(f.View()), f.disk;
    ChainOfTwo(u, e, [1], 1);
    got, out := Read(f, vn, 0, 6, ds);
    ReadsAgain(u, e, f.disk, [1], 1);
    ReadsSevens(u, f.disk, [1], 1, out);
  }

  /** Nothing written at 5 of an empty file: its size is 5 all the same, and it reads as what the cluster held. */
  method NothingWritten() returns (vn: FatVnode, ret: Ret, out: seq<Byte>)
    ensures ret == Count(0) && vn.size == 5 && out == [7, 7, 7, 7, 7]
  {
    hide FileWritten, Grown, Outcome, Delivered, Chain, Lows;
    var f, got;
    f, vn := EmptyFile();
    TakesTwo(0);
    ghost var ds;
    ret, ds := Write(f, vn, [], 5, []);
    ghost var u, e := Lows(f.View()), f.disk;
    ChainOfTwo(u, e, [], 0);
    got, out := Read(f, vn, 0, 5, ds);
    ReadsAgain(u, e, f.disk, [], 0);
    ReadsSevens(u, f.disk, [], 0, out);
  }

  /** Reading moves only the table's sectors. */
  lemma ReadsAgain(u: Links, e: Disk, h: Disk, src: seq<Byte>, total: nat)
    requires FileWritten(Tiny(), [0, 0, 0, 0], Sevens(), [], u, e, [2], 5, src, total, 0) && TableOnly(Tiny(), e, h)
    ensures FileWritten(Tiny(), [0, 0, 0, 0], Sevens(), [], u, h, [2], 5, src, total, 0)
  {
    hide Times, FileByte, Extends, Sevens, Span, Mirrored;
    InSomeData(Tiny(), [2]);
    forall pos | 0 <= pos < Times(1, Span(Tiny())) ensures WrittenAt(Tiny(), Sevens(), 5, src, total, h, [2], pos) {
      FileByteSame(Tiny(), e, h, [2], pos);
      assert WrittenAt(Tiny(), Sevens(), 5, src, total, e, [2], pos);
    }
  }
}
