/** mkromfs, layout and writing: the node table becomes a byte image, in either byte order. */
module RomfsImage {
  import opened Bytes
  import opened RomfsNodes
  import Arith

  const MAGIC := 0x5050_4653
  const SUPER := 16
  const HEADER := 20

  // ---- layout ----

  function Align4(x: nat): (y: nat)
    ensures x <= y < x + 4
  {
    (x + 3) / 4 * 4
  }

  function EntrySize(n: Node): (k: nat)
    ensures HEADER < k
  {
    HEADER + Align4(|n.name| + 1) + Align4(|n.data|)
  }

  /** Where node i's entry stands. */
  function Offset(t: seq<Node>, i: nat): (o: nat)
    requires i <= |t|
    ensures SUPER <= o
  {
    if i == 0 then SUPER else Offset(t, i - 1) + EntrySize(t[i - 1])
  }

  function Total(t: seq<Node>): nat { Offset(t, |t|) }

  /** Entries do not overlap, and a later node stands at a greater offset. */
  lemma {:induction false} OffsetsGrow(t: seq<Node>, i: nat, j: nat)
    requires i < j <= |t|
    ensures Offset(t, i) + EntrySize(t[i]) <= Offset(t, j)
    decreases j
  {
    if i < j - 1 {
      OffsetsGrow(t, i, j - 1);
    }
  }

  /** Entries stand at multiples of four. */
  lemma {:induction false} OffsetsAligned(t: seq<Node>, i: nat)
    requires i <= |t|
    ensures Offset(t, i) % 4 == 0
  {
    if i != 0 {
      OffsetsAligned(t, i - 1);
    }
  }

  // ---- bytes ----

  function Zeros(n: nat): (z: seq<Byte>)
    ensures |z| == n && forall k :: 0 <= k < n ==> z[k] == 0
  {
    seq(n, _ => 0)
  }

  /** A word in the target's byte order. */
  function Word(v: U32, big: bool): (w: seq<Byte>)
    ensures |w| == 4
  {
    var l := LE32(v);
    if big then [l[3], l[2], l[1], l[0]] else l
  }

  function Words(vs: seq<U32>, big: bool): (w: seq<Byte>)
    ensures |w| == 4 * |vs|
  {
    if vs == [] then [] else Words(vs[..|vs| - 1], big) + Word(vs[|vs| - 1], big)
  }

  function Ref(t: seq<Node>, k: int): nat
    requires k < |t|
  {
    if k < 0 then 0 else Offset(t, k)
  }

  /** Nodes as the first pass leaves them. */
  predicate Scanned(t: seq<Node>) {
    && Links(t) && 0 < |t| <= MAX_NODES
    && forall i :: 0 <= i < |t| ==> |t[i].name| < 256 && |t[i].data| < WORD && t[i].kind <= SYMLINK
  }

  /** The sum of the entries does not wrap. */
  predicate Packable(t: seq<Node>) {
    Scanned(t) && Total(t) < WORD
  }

  lemma OffsetSmall(t: seq<Node>, i: nat)
    requires Packable(t) && i <= |t|
    ensures Offset(t, i) < WORD
  {
    if i < |t| {
      OffsetsGrow(t, i, |t|);
    }
  }

  lemma OffsetFirst(t: seq<Node>)
    ensures Offset(t, 0) == SUPER
  {
  }

  function SuperWords(t: seq<Node>): (vs: seq<U32>)
    requires Packable(t)
    ensures |vs| == 4
  {
    OffsetSmall(t, |t|);
    [MAGIC, Total(t), |t|, SUPER]
  }

  /** next_off, type, size, child_off, name_len. */
  function HeaderWords(t: seq<Node>, i: nat): (vs: seq<U32>)
    requires Packable(t) && i < |t|
    ensures |vs| == 5
  {
    RefSmall(t, t[i].next);
    RefSmall(t, t[i].first);
    [Ref(t, t[i].next), t[i].kind, |t[i].data|, Ref(t, t[i].first), |t[i].name|]
  }

  lemma RefSmall(t: seq<Node>, k: int)
    requires Packable(t) && k < |t|
    ensures Ref(t, k) < WORD
  {
    if 0 <= k {
      OffsetSmall(t, k);
    }
  }

  /** What follows the header: the name with its NUL, padded, and the data, padded. */
  function Body(n: Node): (s: seq<Byte>)
    ensures |s| == EntrySize(n) - HEADER
  {
    n.name + [0] + Zeros(Align4(|n.name| + 1) - |n.name| - 1) + n.data + Zeros(Align4(|n.data|) - |n.data|)
  }

  /** The entry of node i stands in its place. */
  ghost predicate EntryAt(b: seq<Byte>, t: seq<Node>, i: nat, big: bool)
    requires Packable(t) && i < |t|
  {
    var o := Offset(t, i);
    o + EntrySize(t[i]) <= |b| && b[o..o + EntrySize(t[i])] == Words(HeaderWords(t, i), big) + Body(t[i])
  }

  /** b is the image of the node table: superblock and entries, nothing between or behind. */
  ghost predicate ImageOf(b: seq<Byte>, t: seq<Node>, big: bool) {
    && Packable(t) && |b| == Total(t)
    && b[..SUPER] == Words(SuperWords(t), big)
    && forall i :: 0 <= i < |t| ==> EntryAt(b, t, i, big)
  }

  // ---- splicing ----

  lemma SpliceTwice(b: seq<Byte>, o: nat, r: seq<Byte>, q: seq<Byte>)
    requires o + |r| + |q| <= |b|
    ensures Splice(Splice(b, o, r), o + |r|, q) == Splice(b, o, r + q)
  {
  }

  lemma SplicePad(b: seq<Byte>, o: nat, r: seq<Byte>, n: nat)
    requires o + |r| + n <= |b| && forall k :: o + |r| <= k < o + |r| + n ==> b[k] == 0
    ensures Splice(b, o, r + Zeros(n)) == Splice(b, o, r)
  {
  }

  lemma SpliceAt(b: seq<Byte>, o: nat, r: seq<Byte>)
    requires o + |r| <= |b|
    ensures Splice(b, o, r)[o..o + |r|] == r
  {
  }

  lemma FrontSub(a: seq<Byte>, b: seq<Byte>, p: nat, q: nat)
    requires p <= q <= |a|
    ensures (a + b)[p..q] == a[p..q]
  {
  }

  lemma CatSub(a: seq<Byte>, b: seq<Byte>)
    ensures (a + b)[..|a|] == a && (a + b)[|a|..|a| + |b|] == b
  {
  }

  lemma SameSub(b: seq<Byte>, c: seq<Byte>, p: nat, q: nat)
    requires p <= q <= |b| && |c| == |b| && forall k :: p <= k < q ==> c[k] == b[k]
    ensures c[p..q] == b[p..q]
  {
  }

  lemma SubSub(b: seq<Byte>, o: nat, w: seq<Byte>, p: nat, q: nat)
    requires o + |w| <= |b| && b[o..o + |w|] == w && p <= q <= |w|
    ensures b[o + p..o + q] == w[p..q]
  {
    forall k | 0 <= k < q - p ensures b[o + p..o + q][k] == w[p..q][k] {
      assert b[o..o + |w|][p + k] == b[o + (p + k)];
    }
  }

  lemma SpliceSub(b: seq<Byte>, o: nat, e: nat, r: seq<Byte>, p: nat, q: nat)
    requires |r| <= p <= q && o + q <= e <= |b|
    ensures Splice(b, o, r)[o + p..o + q] == b[o..e][p..q]
  {
    forall k | 0 <= k < q - p ensures Splice(b, o, r)[o + p..o + q][k] == b[o..e][p..q][k] {
      assert b[o..e][p + k] == b[o + (p + k)];
    }
  }

  lemma SpliceNone(b: seq<Byte>, o: nat)
    requires o <= |b|
    ensures Splice(b, o, []) == b
  {
  }

  /** An entry somewhere else is not touched. */
  lemma EntryApart(b: seq<Byte>, c: seq<Byte>, t: seq<Node>, j: nat, big: bool)
    requires Packable(t) && j < |t| && EntryAt(b, t, j, big) && |c| == |b|
    requires forall k :: Offset(t, j) <= k < Offset(t, j) + EntrySize(t[j]) ==> c[k] == b[k]
    ensures EntryAt(c, t, j, big)
  {
    hide Words, Body, Offset, EntrySize, HeaderWords;
    SameSub(b, c, Offset(t, j), Offset(t, j) + EntrySize(t[j]));
  }

  // ---- writing ----

  method CopyIn(buf: array<Byte>, o: nat, src: seq<Byte>)
    requires o + |src| <= buf.Length
    modifies buf
    ensures buf[..] == Splice(old(buf[..]), o, src)
  {
    var k := 0;
    while k < |src|
      invariant 0 <= k <= |src|
      invariant forall j :: o <= j < o + k ==> buf[j] == src[j - o]
      invariant forall j :: 0 <= j < buf.Length && !(o <= j < o + k) ==> buf[j] == old(buf[j])
    {
      buf[o + k] := src[k];
      k := k + 1;
    }
  }

  /** Fields of a struct, one store after the other. */
  method PutWords(buf: array<Byte>, o: nat, vs: seq<U32>)
    requires o + 4 * |vs| <= buf.Length
    modifies buf
    ensures buf[..] == Splice(old(buf[..]), o, Words(vs, false))
  {
    SpliceNone(buf[..], o);
    for j := 0 to |vs|
      invariant buf[..] == Splice(old(buf[..]), o, Words(vs[..j], false))
    {
      CopyIn(buf, o + 4 * j, Word(vs[j], false));
      SpliceTwice(old(buf[..]), o, Words(vs[..j], false), Word(vs[j], false));
      WordsNext(vs, j, false);
    }
    assert vs[..|vs|] == vs;
  }

  lemma WordsNext(vs: seq<U32>, j: nat, big: bool)
    requires j < |vs|
    ensures Words(vs[..j + 1], big) == Words(vs[..j], big) + Word(vs[j], big)
  {
    assert vs[..j + 1][..j] == vs[..j];
  }

  /** assign_offsets and the sum of write_image, in 32-bit arithmetic. */
  method AssignOffsets(t: seq<Node>) returns (off: seq<U32>, total: U32)
    ensures |off| == |t| && total == Total(t) % WORD
    ensures forall i :: 0 <= i < |t| ==> off[i] == Offset(t, i) % WORD
  {
    hide EntrySize, Offset;
    OffsetFirst(t);
    off, total := [], SUPER;
    for i := 0 to |t|
      invariant |off| == i && total == Offset(t, i) % WORD
      invariant forall j :: 0 <= j < i ==> off[j] == Offset(t, j) % WORD
    {
      OffsetAfter(t, i);
      SumWraps(Offset(t, i), EntrySize(t[i]));
      off := off + [total];
      total := (total + EntrySize(t[i]) % WORD) % WORD;
    }
  }

  lemma OffsetAfter(t: seq<Node>, i: nat)
    requires i < |t|
    ensures Offset(t, i + 1) == Offset(t, i) + EntrySize(t[i])
  {
  }

  lemma SumWraps(a: nat, b: nat)
    ensures (a % WORD + b % WORD) % WORD == (a + b) % WORD
  {
  }

  /** Whether every entry ends inside a buffer of n bytes; when one does not, write_image stores outside of it. */
  method AllInside(t: seq<Node>, off: seq<U32>, n: nat) returns (ok: bool)
    requires |off| == |t| && (forall i :: 0 <= i < |t| ==> off[i] == Offset(t, i) % WORD)
    requires Total(t) % WORD <= n < WORD
    ensures ok <==> Total(t) < WORD
  {
    hide EntrySize, Offset;
    OffsetFirst(t);
    for i := 0 to |t|
      invariant Offset(t, i) < WORD
    {
      OffsetAfter(t, i);
      OffsetsEnd(t, i);
      if n < off[i] + EntrySize(t[i]) {
        return false;
      }
    }
    ok := true;
  }

  lemma NodeOk(t: seq<Node>, i: nat)
    requires Packable(t) && i < |t|
    ensures t[i].next < |t| && t[i].first < |t| && t[i].kind < WORD && |t[i].data| < WORD && |t[i].name| < WORD
  {
  }

  method WriteEntry(t: seq<Node>, off: seq<U32>, i: nat, buf: array<Byte>)
    requires Packable(t) && i < |t| && |off| == |t| && forall j :: 0 <= j < |t| ==> off[j] == Offset(t, j)
    requires Offset(t, i + 1) <= buf.Length && Blank(buf[..], Offset(t, i), Offset(t, i + 1))
    modifies buf
    ensures buf[..] == Splice(old(buf[..]), Offset(t, i), Words(HeaderWords(t, i), false) + Body(t[i]))
  {
    hide Words, Packable, Align4, Splice, Blank, Body;
    var n, o := t[i], off[i];
    NodeOk(t, i);
    ghost var b, h := buf[..], Words(HeaderWords(t, i), false);
    var next := if 0 <= n.next then off[n.next] else 0;
    var child := if 0 <= n.first then off[n.first] else 0;
    PutWords(buf, o, [next, n.kind, |n.data|, child, |n.name|]);
    CopyIn(buf, o + HEADER, n.name + [0]);
    var p := Align4(|n.name| + 1);
    NameWritten(b, o, h, n);
    if n.data != [] {
      CopyIn(buf, o + HEADER + p, n.data);
    }
    DataWritten(b, o, h, n);
  }

  ghost predicate Blank(b: seq<Byte>, p: nat, q: nat) {
    p <= q <= |b| && forall k :: p <= k < q ==> b[k] == 0
  }

  function Named(h: seq<Byte>, n: Node): (s: seq<Byte>)
    ensures |s| == |h| + Align4(|n.name| + 1)
  {
    h + (n.name + [0]) + Zeros(Align4(|n.name| + 1) - |n.name| - 1)
  }

  lemma NameWritten(b: seq<Byte>, o: nat, h: seq<Byte>, n: Node)
    requires |h| == HEADER && Blank(b, o, o + EntrySize(n))
    ensures Splice(Splice(b, o, h), o + HEADER, n.name + [0]) == Splice(b, o, Named(h, n))
  {
    SpliceTwice(b, o, h, n.name + [0]);
    SplicePad(b, o, h + (n.name + [0]), Align4(|n.name| + 1) - |n.name| - 1);
  }

  lemma DataWritten(b: seq<Byte>, o: nat, h: seq<Byte>, n: Node)
    requires |h| == HEADER && Blank(b, o, o + EntrySize(n))
    ensures var c := Splice(b, o, Named(h, n));
      && (n.data == [] ==> c == Splice(b, o, h + Body(n)))
      && (n.data != [] ==> Splice(c, o + HEADER + Align4(|n.name| + 1), n.data) == Splice(b, o, h + Body(n)))
  {
    hide Splice;
    var s, k := Named(h, n), Align4(|n.data|) - |n.data|;
    SpliceTwice(b, o, s, n.data);
    SplicePad(b, o, s + n.data, k);
    assert s + n.data + Zeros(k) == h + Body(n);
    if n.data == [] {
      SpliceNone(Splice(b, o, s), o + |s|);
    }
  }

  /** What comes of packing: an image, a refusal, or stores outside the buffer, where the model stops. */
  datatype Packed = Image(total: U32) | Refused | Overrun

  /** The test compares the sum modulo 2^32 with the buffer, and the sum itself decides what follows. */
  function Outcome(sum: nat, n: nat): Packed {
    if n < sum % WORD then Refused else if WORD <= sum then Overrun else Image(sum)
  }

  /** A tree that does not fit is refused if and only if what the sum leaves modulo 2^32 does not fit either. */
  lemma OutcomeIs(sum: nat, n: nat)
    requires n < WORD
    ensures Outcome(sum, n).Image? <==> sum <= n
    ensures Outcome(sum, n).Overrun? <==> n < sum && sum % WORD <= n
  {
  }

  /** write_image. */
  method WriteImage(t: seq<Node>, buf: array<Byte>) returns (r: Packed)
    requires Scanned(t) && buf.Length < WORD
    modifies buf
    ensures r == Outcome(Total(t), buf.Length)
    ensures !r.Image? ==> buf[..] == old(buf[..])
    ensures r.Image? ==> Packable(t) && ImageOf(buf[..r.total], t, false) && buf[r.total..] == old(buf[r.total..])
  {
    hide Words, EntryAt, Splice, Body, EntrySize, Blank, Offset, SuperWords, HeaderWords, Scanned;
    var off, total := AssignOffsets(t);
    if buf.Length < total {
      return Refused;
    }
    var inside := AllInside(t, off, buf.Length);
    if !inside {
      return Overrun;
    }
    Unwrapped(t, off);
    hide Packable;
    ghost var was := buf[..];
    SomeNodes(t);
    CopyIn(buf, 0, Zeros(total));
    PutWords(buf, 0, [MAGIC, total, |t|, off[0]]);
    SuperWritten(was, t);
    for i := 0 to |t|
      invariant buf[..SUPER] == Words(SuperWords(t), false) && buf[total..] == was[total..]
      invariant Blank(buf[..], Offset(t, i), total)
      invariant forall j :: 0 <= j < i ==> EntryAt(buf[..], t, j, false)
    {
      ghost var b := buf[..];
      OffsetsEnd(t, i);
      BlankPart(b, t, i);
      WriteEntry(t, off, i, buf);
      EntryWritten(b, buf[..], t, i);
    }
    ImageCut(buf[..], t, false);
    r := Image(total);
  }

  lemma Unwrapped(t: seq<Node>, off: seq<U32>)
    requires Packable(t) && |off| == |t| && forall i :: 0 <= i < |t| ==> off[i] == Offset(t, i) % WORD
    ensures forall i :: 0 <= i < |t| ==> off[i] == Offset(t, i)
  {
    hide Packable, Offset;
    forall i | 0 <= i < |t| ensures off[i] == Offset(t, i) {
      OffsetSmall(t, i);
      assert off[i] == Offset(t, i) % WORD;
    }
  }

  lemma SomeNodes(t: seq<Node>)
    requires Packable(t)
    ensures 0 < |t| <= 512
  {
  }

  lemma SuperWritten(was: seq<Byte>, t: seq<Node>)
    requires Packable(t) && Total(t) <= |was|
    ensures SuperWords(t) == [MAGIC, Total(t), |t|, Offset(t, 0)] && SUPER <= Total(t)
    ensures var c := Splice(Splice(was, 0, Zeros(Total(t))), 0, Words(SuperWords(t), false));
      c[..SUPER] == Words(SuperWords(t), false) && c[Total(t)..] == was[Total(t)..] && Blank(c, Offset(t, 0), Total(t))
  {
    OffsetsEnd(t, 0);
    BlankSplice(was, Total(t), Words(SuperWords(t), false));
  }

  lemma BlankSplice(b: seq<Byte>, n: nat, r: seq<Byte>)
    requires |r| <= n <= |b|
    ensures var c := Splice(Splice(b, 0, Zeros(n)), 0, r);
      c[..|r|] == r && c[n..] == b[n..] && Blank(c, |r|, n)
  {
    var c := Splice(Splice(b, 0, Zeros(n)), 0, r);
    assert forall k :: n <= k < |b| ==> c[k] == b[k];
  }

  lemma BlankPart(b: seq<Byte>, t: seq<Node>, i: nat)
    requires i < |t| && Blank(b, Offset(t, i), Total(t))
    ensures Blank(b, Offset(t, i), Offset(t, i + 1))
  {
    OffsetsEnd(t, i);
  }

  lemma ImageCut(b: seq<Byte>, t: seq<Node>, big: bool)
    requires Packable(t) && Total(t) <= |b| && b[..SUPER] == Words(SuperWords(t), big)
    requires forall j :: 0 <= j < |t| ==> EntryAt(b, t, j, big)
    ensures ImageOf(b[..Total(t)], t, big)
  {
    hide EntryAt, Words;
    OffsetsEnd(t, 0);
    forall j | 0 <= j < |t| ensures EntryAt(b[..Total(t)], t, j, big) {
      EntryCut(b, t, j, big);
    }
    assert b[..Total(t)][..SUPER] == b[..SUPER];
  }

  lemma OffsetsEnd(t: seq<Node>, i: nat)
    requires i < |t|
    ensures SUPER <= Offset(t, i) < Offset(t, i + 1) <= Total(t)
  {
    if i + 1 < |t| {
      OffsetsGrow(t, i + 1, |t|);
    }
  }

  lemma EntryWritten(b: seq<Byte>, c: seq<Byte>, t: seq<Node>, i: nat)
    requires Packable(t) && i < |t| && Offset(t, i + 1) <= Total(t) <= |b|
    requires c == Splice(b, Offset(t, i), Words(HeaderWords(t, i), false) + Body(t[i]))
    requires forall j :: 0 <= j < i ==> EntryAt(b, t, j, false)
    ensures forall j :: 0 <= j <= i ==> EntryAt(c, t, j, false)
    ensures c[..SUPER] == b[..SUPER] && c[Total(t)..] == b[Total(t)..]
    ensures Blank(b, Offset(t, i), Total(t)) ==> Blank(c, Offset(t, i + 1), Total(t))
  {
    hide Words, EntryAt;
    OffsetsEnd(t, i);
    SpliceAt(b, Offset(t, i), Words(HeaderWords(t, i), false) + Body(t[i]));
    forall j | 0 <= j <= i ensures EntryAt(c, t, j, false) {
      if j < i {
        OffsetsGrow(t, j, i);
        EntryApart(b, c, t, j, false);
      } else {
        EntryIs(c, t, i, false);
      }
    }
  }

  lemma EntryIs(c: seq<Byte>, t: seq<Node>, i: nat, big: bool)
    requires Packable(t) && i < |t| && Offset(t, i + 1) <= |c|
    requires c[Offset(t, i)..Offset(t, i + 1)] == Words(HeaderWords(t, i), big) + Body(t[i])
    ensures EntryAt(c, t, i, big)
  {
  }

  lemma EntryCut(b: seq<Byte>, t: seq<Node>, j: nat, big: bool)
    requires Packable(t) && j < |t| && EntryAt(b, t, j, big) && Total(t) <= |b|
    ensures EntryAt(b[..Total(t)], t, j, big)
  {
    OffsetsEnd(t, j);
    var o, n := Offset(t, j), EntrySize(t[j]);
    assert b[..Total(t)][o..o + n] == b[o..o + n];
  }

  // ---- the big-endian pass ----

  /** bswap32_inplace. */
  method SwapWord(buf: array<Byte>, p: nat, ghost v: U32)
    requires p + 4 <= buf.Length && buf[p..p + 4] == Word(v, false)
    modifies buf
    ensures buf[..] == Splice(old(buf[..]), p, Word(v, true))
  {
    assert buf[p] == buf[p..p + 4][0] && buf[p + 1] == buf[p..p + 4][1];
    assert buf[p + 2] == buf[p..p + 4][2] && buf[p + 3] == buf[p..p + 4][3];
    buf[p], buf[p + 3] := buf[p + 3], buf[p];
    buf[p + 1], buf[p + 2] := buf[p + 2], buf[p + 1];
  }

  method SwapWords(buf: array<Byte>, o: nat, n: nat, ghost vs: seq<U32>)
    requires n == |vs| && o + 4 * n <= buf.Length && buf[o..o + 4 * n] == Words(vs, false)
    modifies buf
    ensures buf[..] == Splice(old(buf[..]), o, Words(vs, true))
  {
    hide Words, Word, Splice;
    ghost var b := buf[..];
    SpliceNone(b, o);
    NoWords(vs);
    for j := 0 to n
      invariant buf[..] == Splice(b, o, Words(vs[..j], true))
    {
      var p := 4 * j;
      NextWord(b, o, vs, j, p);
      SwapWord(buf, o + p, vs[j]);
      SwappedMore(b, o, vs, j, p);
    }
    assert vs[..n] == vs;
  }

  lemma SwappedMore(b: seq<Byte>, o: nat, vs: seq<U32>, j: nat, p: nat)
    requires j < |vs| && p == 4 * j && o + 4 * |vs| <= |b|
    ensures Splice(Splice(b, o, Words(vs[..j], true)), o + p, Word(vs[j], true)) == Splice(b, o, Words(vs[..j + 1], true))
  {
    hide Words, Word, Splice;
    var r, x := Words(vs[..j], true), Word(vs[j], true);
    assert |r| == p;
    SpliceTwice(b, o, r, x);
    WordsNext(vs, j, true);
  }

  lemma NoWords(vs: seq<U32>)
    ensures Words(vs[..0], true) == []
  {
  }

  /** Word number j, p bytes behind o, after the words before it were swapped. */
  lemma NextWord(b: seq<Byte>, o: nat, vs: seq<U32>, j: nat, p: nat)
    requires j < |vs| && p == 4 * j && o + 4 * |vs| <= |b| && b[o..o + 4 * |vs|] == Words(vs, false)
    ensures Splice(b, o, Words(vs[..j], true))[o + p..o + p + 4] == Word(vs[j], false)
  {
    hide Words, Word, Splice;
    var r: seq<Byte>, e := Words(vs[..j], true), o + 4 * |vs|;
    assert |r| == p && b[o..e] == Words(vs, false);
    WordAt(vs, j, false, p);
    SpliceSub(b, o, e, r, p, p + 4);
  }

  lemma {:induction false} WordAt(vs: seq<U32>, j: nat, big: bool, p: nat)
    requires j < |vs| && p == 4 * j
    ensures p + 4 <= |Words(vs, big)| && Words(vs, big)[p..p + 4] == Word(vs[j], big)
    decreases |vs|
  {
    hide Word;
    var u, w := vs[..|vs| - 1], Word(vs[|vs| - 1], big);
    assert Words(vs, big) == Words(u, big) + w;
    hide Words;
    CatSub(Words(u, big), w);
    if j < |vs| - 1 {
      WordAt(u, j, big, p);
      FrontSub(Words(u, big), w, p, p + 4);
    }
  }

  /** swap_to_big_endian: exactly the image of the same table for a big-endian target. */
  method SwapToBigEndian(t: seq<Node>, off: seq<U32>, buf: array<Byte>)
    requires |off| == |t| && forall j :: 0 <= j < |t| ==> off[j] == Offset(t, j)
    requires Packable(t) && Total(t) <= buf.Length && ImageOf(buf[..Total(t)], t, false)
    modifies buf
    ensures ImageOf(buf[..Total(t)], t, true) && buf[Total(t)..] == old(buf[Total(t)..])
  {
    hide Packable, Words, ImageOf, SwappedTo, Splice, EntrySize, Offset, SuperWords, HeaderWords;
    ghost var n, b := Total(t), buf[..];
    SuperIs(b, t);
    SwapWords(buf, 0, 4, SuperWords(t));
    SuperSwapped(b, t);
    for i := 0 to |t|
      invariant buf[..SUPER] == Words(SuperWords(t), true) && buf[n..] == b[n..]
      invariant SwappedTo(buf[..], t, i)
    {
      ghost var c := buf[..];
      HeaderIs(c, t, i);
      SwapWords(buf, off[i], 5, HeaderWords(t, i));
      EntrySwapped(c, buf[..], t, i);
    }
    AllSwapped(buf[..], t);
    ImageCut(buf[..], t, true);
  }

  lemma SuperIs(b: seq<Byte>, t: seq<Node>)
    requires Packable(t) && Total(t) <= |b| && ImageOf(b[..Total(t)], t, false)
    ensures SUPER <= Total(t) && b[0..0 + 4 * 4] == Words(SuperWords(t), false)
  {
    OffsetsEnd(t, 0);
    assert b[..Total(t)][..SUPER] == b[0..0 + 4 * 4];
  }

  lemma SuperSwapped(b: seq<Byte>, t: seq<Node>)
    requires Packable(t) && Total(t) <= |b| && ImageOf(b[..Total(t)], t, false)
    ensures SUPER <= |b|
    ensures var c := Splice(b, 0, Words(SuperWords(t), true));
      SwappedTo(c, t, 0) && c[..SUPER] == Words(SuperWords(t), true) && c[Total(t)..] == b[Total(t)..]
  {
    hide Words, EntryAt;
    OffsetsEnd(t, 0);
    var c := Splice(b, 0, Words(SuperWords(t), true));
    SpliceAt(b, 0, Words(SuperWords(t), true));
    forall j | 0 <= j < |t| ensures EntryIn(c, t, j, 0) {
      OffsetsEnd(t, j);
      EntryWide(b, Total(t), t, j, false);
      EntryApart(b, c, t, j, false);
    }
  }

  lemma HeaderIs(c: seq<Byte>, t: seq<Node>, i: nat)
    requires Packable(t) && i < |t| && SwappedTo(c, t, i) && Total(t) <= |c|
    ensures Offset(t, i) + HEADER <= |c| && c[Offset(t, i)..Offset(t, i) + 4 * 5] == Words(HeaderWords(t, i), false)
  {
    OffsetsEnd(t, i);
    assert EntryIn(c, t, i, i);
    HeaderAt(c, t, i, false);
  }

  lemma AllSwapped(c: seq<Byte>, t: seq<Node>)
    requires Packable(t) && SwappedTo(c, t, |t|)
    ensures forall j :: 0 <= j < |t| ==> EntryAt(c, t, j, true)
  {
    forall j | 0 <= j < |t| ensures EntryAt(c, t, j, true) {
      assert EntryIn(c, t, j, |t|);
    }
  }

  /** The entries before i are big-endian already. */
  ghost predicate EntryIn(b: seq<Byte>, t: seq<Node>, j: nat, i: nat)
    requires Packable(t) && j < |t|
  {
    EntryAt(b, t, j, j < i)
  }

  ghost predicate SwappedTo(b: seq<Byte>, t: seq<Node>, i: nat)
    requires Packable(t)
  {
    forall j :: 0 <= j < |t| ==> EntryIn(b, t, j, i)
  }

  lemma EntryWide(b: seq<Byte>, n: nat, t: seq<Node>, j: nat, big: bool)
    requires Packable(t) && j < |t| && n <= |b| && EntryAt(b[..n], t, j, big)
    ensures EntryAt(b, t, j, big)
  {
    var o, k := Offset(t, j), EntrySize(t[j]);
    assert b[..n][o..o + k] == b[o..o + k];
  }

  lemma HeaderAt(b: seq<Byte>, t: seq<Node>, i: nat, big: bool)
    requires Packable(t) && i < |t| && EntryAt(b, t, i, big)
    ensures b[Offset(t, i)..Offset(t, i) + HEADER] == Words(HeaderWords(t, i), big)
    ensures b[Offset(t, i) + HEADER..Offset(t, i) + EntrySize(t[i])] == Body(t[i])
  {
    var o := Offset(t, i);
    var e := b[o..o + EntrySize(t[i])];
    assert b[o..o + HEADER] == e[..HEADER];
    assert b[o + HEADER..o + EntrySize(t[i])] == e[HEADER..];
  }

  lemma HeaderTurned(b: seq<Byte>, c: seq<Byte>, t: seq<Node>, i: nat)
    requires Packable(t) && i < |t| && Offset(t, i + 1) <= |b| && EntryAt(b, t, i, false)
    requires Offset(t, i) + HEADER <= |b| && c == Splice(b, Offset(t, i), Words(HeaderWords(t, i), true))
    ensures EntryAt(c, t, i, true)
  {
    hide Words;
    OffsetsEnd(t, i);
    HeaderAt(b, t, i, false);
    assert c[Offset(t, i)..Offset(t, i + 1)] == Words(HeaderWords(t, i), true) + b[Offset(t, i) + HEADER..Offset(t, i + 1)];
    EntryIs(c, t, i, true);
  }

  lemma EntrySwapped(b: seq<Byte>, c: seq<Byte>, t: seq<Node>, i: nat)
    requires Packable(t) && i < |t| && Total(t) <= |b|
    requires SwappedTo(b, t, i)
    requires Offset(t, i) + HEADER <= |b| && c == Splice(b, Offset(t, i), Words(HeaderWords(t, i), true))
    ensures SwappedTo(c, t, i + 1)
    ensures c[..SUPER] == b[..SUPER] && c[Total(t)..] == b[Total(t)..]
  {
    hide Words, EntryAt;
    OffsetsEnd(t, i);
    var i' := i + 1;
    forall j | 0 <= j < |t| ensures EntryIn(c, t, j, i') {
      OffsetsEnd(t, j);
      assert EntryIn(b, t, j, i);
      if j < i {
        OffsetsGrow(t, j, i);
        EntryApart(b, c, t, j, true);
      } else if i < j {
        OffsetsGrow(t, i, j);
        EntryApart(b, c, t, j, false);
      } else {
        HeaderTurned(b, c, t, i);
      }
    }
  }
}
