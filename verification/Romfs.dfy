/** The romfs driver on images made by mkromfs: every path leads to what was packed. */
module Romfs {
  import opened Options
  import opened Bytes
  import opened RomfsNodes
  import opened RomfsImage

  // ---- what may be packed ----

  predicate CString(s: Text) { forall k :: 0 <= k < |s| ==> s[k] != 0 }

  /** What the host's file system allows as names. */
  predicate Hosted(h: Tree) {
    h.Dir? ==> HostedAll(h.entries)
  }

  predicate HostedAll(es: Listing) {
    es.Cons? ==> |es.name| <= 255 && CString(es.name) && Hosted(es.item) && HostedAll(es.rest)
  }

  /** What a tree takes up in an image. */
  function Span(name: Text, h: Tree): nat
    decreases h
  {
    HEADER + Align4(|Cut(name)| + 1) + Align4(|DataOf(h)|) + if h.Dir? then SpanAll(h.entries) else 0
  }

  function SpanAll(es: Listing): nat
    decreases es
  {
    match es
    case Nil => 0
    case Cons(name, h, rest) => Span(name, h) + SpanAll(rest)
  }

  const SLASH: Text := [0x2F]

  /** b is the image of tree h. */
  ghost predicate Packs(b: seq<Byte>, t: seq<Node>, h: Tree, big: bool) {
    ImageOf(b, t, big) && Rep(t, 0, SLASH, h) && |t| == Size(h) && Hosted(h) && Clean(t)
  }

  predicate Clean(t: seq<Node>) { forall i :: 0 <= i < |t| ==> CString(t[i].name) }

  lemma {:induction false} RepClean(t: seq<Node>, i: nat, name: Text, h: Tree, j: nat)
    requires Rep(t, i, name, h) && Hosted(h) && CString(name) && i <= j < i + Size(h)
    ensures CString(t[j].name) && |t[j].name| < 256 && |t[j].data| < WORD && t[j].kind <= SYMLINK
    decreases h
  {
    if i < j {
      KidsClean(t, i + 1, h.entries, j);
    }
  }

  lemma {:induction false} KidsClean(t: seq<Node>, i: nat, es: Listing, j: nat)
    requires Kids(t, i, es, Nil) && HostedAll(es) && i <= j < i + Sizes(es)
    ensures j < |t| && CString(t[j].name) && |t[j].name| < 256 && |t[j].data| < WORD && t[j].kind <= SYMLINK
    decreases es
  {
    var k := i + Size(es.item);
    if j < k {
      RepClean(t, i, es.name, es.item, j);
    } else {
      KidsClean(t, k, es.rest, j);
    }
  }

  /** The bytes of a tree's entries add up. */
  lemma {:induction false} RepBytes(t: seq<Node>, i: nat, name: Text, h: Tree)
    requires Rep(t, i, name, h)
    ensures Offset(t, i + Size(h)) == Offset(t, i) + Span(name, h)
    decreases h
  {
    assert Offset(t, i + 1) == Offset(t, i) + EntrySize(t[i]);
    if h.Dir? {
      KidsBytes(t, i + 1, h.entries);
    }
  }

  lemma {:induction false} KidsBytes(t: seq<Node>, i: nat, es: Listing)
    requires Kids(t, i, es, Nil) && i + Sizes(es) <= |t|
    ensures Offset(t, i + Sizes(es)) == Offset(t, i) + SpanAll(es)
    decreases es
  {
    if es.Cons? {
      RepBytes(t, i, es.name, es.item);
      KidsBytes(t, i + Size(es.item), es.rest);
    }
  }

  /** mkromfs: an image comes out exactly when the tree has at most 512 nodes and fits; a tree that does not fit is
      refused, unless the sum of its entries is small modulo 2^32. */
  method Pack(h: Tree, buf: array<Byte>, big: bool) returns (r: Packed)
    requires Hosted(h) && h.Dir? && buf.Length < WORD
    modifies buf
    ensures r == if MAX_NODES < Size(h) then Refused else Outcome(SUPER + Span(SLASH, h), buf.Length)
    ensures r.Image? <==> Size(h) <= 512 && 16 + Span(SLASH, h) <= buf.Length
    ensures r.Overrun? <==> Size(h) <= MAX_NODES && buf.Length < SUPER + Span(SLASH, h) && (SUPER + Span(SLASH, h)) % WORD <= buf.Length
    ensures r.Image? ==> exists t :: Packs(buf[..r.total], t, h, big)
  {
    hide ImageOf, Rep;
    OutcomeIs(SUPER + Span(SLASH, h), buf.Length);
    var builder := new Builder();
    var root := builder.AddNode(h, SLASH, -1);
    if root < 0 {
      return Refused;
    }
    var t := builder.nodes;
    RootScanned(t, h);
    r := WriteImage(t, buf);
    if r.Image? && big {
      var off, _ := AssignOffsets(t);
      Unwrapped(t, off);
      SwapToBigEndian(t, off, buf);
    }
    assert r.Image? ==> Packs(buf[..r.total], t, h, big);
  }

  lemma RootScanned(t: seq<Node>, h: Tree)
    requires Rep(t, 0, SLASH, h) && |t| == Size(h) <= MAX_NODES && Hosted(h) && Links(t)
    ensures Scanned(t) && Clean(t) && Total(t) == SUPER + Span(SLASH, h)
  {
    forall j | 0 <= j < |t|
      ensures CString(t[j].name) && |t[j].name| < 256 && |t[j].data| < WORD && t[j].kind <= SYMLINK
    {
      RepClean(t, 0, SLASH, h, j);
    }
    RepBytes(t, 0, SLASH, h);
  }

  /** One file f of 4 GiB - 64 bytes: the sum comes to exactly 2^32, so no buffer is too small for the test. */
  lemma TooLargeForTest(c: Text, n: nat)
    requires |c| == WORD - 64 && n < WORD
    ensures var h := Dir(Cons([0x66], File(c), Nil));
            Hosted(h) && Size(h) == 2 && SUPER + Span(SLASH, h) == WORD && Outcome(SUPER + Span(SLASH, h), n) == Overrun
  {
    var f := File(c);
    var es := Cons([0x66], f, Nil);
    assert Size(f) == 1 && Sizes(es) == Size(f) + Sizes(Nil);
    assert Span([0x66], f) == HEADER + 4 + (WORD - 64);
    assert SpanAll(es) == Span([0x66], f) + SpanAll(Nil);
  }

  // ---- fields of an entry ----

  function Get(b: seq<Byte>, o: nat, big: bool): U32
    requires o + 4 <= |b|
  {
    if big then U32At([b[o + 3], b[o + 2], b[o + 1], b[o]], 0) else U32At(b, o)
  }

  lemma GetWord(b: seq<Byte>, o: nat, v: U32, big: bool)
    requires o + 4 <= |b| && b[o..o + 4] == Word(v, big)
    ensures Get(b, o, big) == v
  {
    Digits(v);
    assert b[o] == b[o..o + 4][0] && b[o + 1] == b[o..o + 4][1] && b[o + 2] == b[o..o + 4][2] && b[o + 3] == b[o..o + 4][3];
  }

  lemma Field(b: seq<Byte>, t: seq<Node>, i: nat, big: bool, j: nat, p: nat)
    requires ImageOf(b, t, big) && i < |t| && j < 5 && p == 4 * j
    ensures Packable(t) && Offset(t, i) + HEADER <= |b|
    ensures Get(b, Offset(t, i) + p, big) == HeaderWords(t, i)[j]
  {
    hide Words, Word, Get, HeaderWords, Packable, EntryAt, Offset;
    var o, vs := Offset(t, i), HeaderWords(t, i);
    assert EntryAt(b, t, i, big);
    HeaderAt(b, t, i, big);
    EntryFits(b, t, i, big);
    WordAt(vs, j, big, p);
    SubSub(b, o, Words(vs, big), p, p + 4);
    GetWord(b, o + p, vs[j], big);
  }

  function DataOff(n: Node): nat { HEADER + Align4(|n.name| + 1) }

  /** The name with its NUL, and the data, where get_name and get_data point. */
  lemma BodyAt(b: seq<Byte>, t: seq<Node>, i: nat, big: bool)
    requires ImageOf(b, t, big) && i < |t|
    ensures var n, o := t[i], Offset(t, i); var d := o + DataOff(n);
      && o + HEADER + |n.name| < |b| && b[o + HEADER..o + HEADER + |n.name|] == n.name && b[o + HEADER + |n.name|] == 0
      && d + |n.data| <= |b| && b[d..d + |n.data|] == n.data
  {
    hide Words, Body, EntryAt, Offset, HeaderWords;
    var n, o := t[i], Offset(t, i) + HEADER;
    assert EntryAt(b, t, i, big);
    HeaderAt(b, t, i, big);
    EntryFits(b, t, i, big);
    BodyParts(n);
    var p := Align4(|n.name| + 1);
    SubSub(b, o, Body(n), 0, |n.name|);
    SubSub(b, o, Body(n), |n.name|, |n.name| + 1);
    SubSub(b, o, Body(n), p, p + |n.data|);
    assert b[o + |n.name|..o + |n.name| + 1][0] == b[o + |n.name|];
  }

  lemma EntryFits(b: seq<Byte>, t: seq<Node>, i: nat, big: bool)
    requires Packable(t) && i < |t| && EntryAt(b, t, i, big)
    ensures Offset(t, i) + EntrySize(t[i]) <= |b| && |Body(t[i])| == EntrySize(t[i]) - HEADER
  {
  }

  lemma BodyParts(n: Node)
    ensures var p := Align4(|n.name| + 1); var s := Body(n);
      && p + |n.data| <= |s| && s[..|n.name|] == n.name && s[|n.name|] == 0 && s[p..p + |n.data|] == n.data
  {
    var p, s, z := Align4(|n.name| + 1), n.name + [0], Zeros(Align4(|n.data|) - |n.data|);
    var a := s + Zeros(p - |n.name| - 1);
    assert |a| == p;
    assert Body(n) == a + (n.data + z);
    assert Body(n) == s + (Zeros(p - |n.name| - 1) + n.data + z);
  }

  // ---- vnodes ----

  datatype VType = VFile | VDir | VSymlink
  datatype Vnode = Vnode(ino: nat, size: nat, vtype: VType)

  function TypeOf(kind: nat): VType {
    if kind == DIR then VDir else if kind == SYMLINK then VSymlink else VFile
  }

  /** vn stands for tree h, at node k of table t. */
  ghost predicate Stands(b: seq<Byte>, big: bool, vn: Vnode, h: Tree, t: seq<Node>, k: nat, name: Text) {
    && ImageOf(b, t, big) && Clean(t) && Hosted(h) && k + Size(h) <= |t| && Rep(t, k, name, h)
    && vn == Vnode(Offset(t, k), |t[k].data|, TypeOf(t[k].kind))
  }

  /** vn stands for tree h: same type and size, and the driver's methods find its entries and contents through it. */
  ghost predicate Denotes(b: seq<Byte>, big: bool, vn: Vnode, h: Tree) {
    exists t, k, name :: Stands(b, big, vn, h, t, k, name)
  }

  lemma DenotesMeans(b: seq<Byte>, big: bool, vn: Vnode, h: Tree)
    requires Denotes(b, big, vn, h)
    ensures vn.vtype == (match h case Dir(_) => VDir case File(_) => VFile case Symlink(_) => VSymlink)
    ensures vn.size == |DataOf(h)| && vn.ino % 4 == 0 && vn.ino + HEADER <= |b|
  {
    hide ImageOf, Offset, Get, HeaderWords;
    var t: seq<Node>, k: nat, name: Text :| Stands(b, big, vn, h, t, k, name);
    Field(b, t, k, big, 0, 0);
    OffsetsAligned(t, k);
  }

  method VnodeFromEntry(b: seq<Byte>, big: bool, off: nat, ghost t: seq<Node>, ghost k: nat) returns (vn: Vnode)
    requires ImageOf(b, t, big) && k < |t| && off == Offset(t, k)
    ensures vn == Vnode(Offset(t, k), |t[k].data|, TypeOf(t[k].kind))
  {
    hide ImageOf;
    Field(b, t, k, big, 1, 4);
    Field(b, t, k, big, 2, 8);
    var kind := Get(b, off + 4, big);
    vn := Vnode(off, Get(b, off + 8, big), if kind == DIR then VDir else if kind == SYMLINK then VSymlink else VFile);
  }

  /** romfs_mount. */
  method Mount(b: seq<Byte>, big: bool, ghost t: seq<Node>, ghost h: Tree) returns (root: Option<Vnode>)
    requires Packs(b, t, h, big)
    ensures root.Some? && Denotes(b, big, root.value, h)
  {
    SuperAt(b, t, big);
    if Get(b, 0, big) != MAGIC {
      return None;
    }
    hide ImageOf, Rep;
    var vn := VnodeFromEntry(b, big, Get(b, 12, big), t, 0);
    assert Stands(b, big, vn, h, t, 0, SLASH);
    root := Some(vn);
  }

  lemma SuperAt(b: seq<Byte>, t: seq<Node>, big: bool)
    requires ImageOf(b, t, big)
    ensures SUPER <= |b| && Get(b, 0, big) == MAGIC && Get(b, 4, big) == |b| && Get(b, 8, big) == |t| && Get(b, 12, big) == Offset(t, 0)
  {
    hide Words, Word, Get;
    var vs := SuperWords(t);
    SuperField(b, t, big, vs, 0, 0);
    SuperField(b, t, big, vs, 1, 4);
    SuperField(b, t, big, vs, 2, 8);
    SuperField(b, t, big, vs, 3, 12);
  }

  lemma SuperField(b: seq<Byte>, t: seq<Node>, big: bool, vs: seq<U32>, j: nat, p: nat)
    requires ImageOf(b, t, big) && vs == SuperWords(t) && j < 4 && p == 4 * j
    ensures SUPER <= |b| && Get(b, p, big) == vs[j]
  {
    hide Words, Word, Get;
    OffsetsEnd(t, 0);
    WordAt(vs, j, big, p);
    SubSub(b, 0, Words(vs, big), p, p + 4);
    GetWord(b, p, vs[j], big);
  }

  // ---- lookup ----

  /** The first node named name in the sibling chain from c on. */
  function FindFrom(t: seq<Node>, c: int, name: Text): (k: int)
    requires Links(t) && c < |t|
    ensures k < |t|
    decreases if c < 0 then 0 else |t| - c
  {
    if c < 0 then -1 else if t[c].name == name then c else FindFrom(t, t[c].next, name)
  }

  /** The comparison loop of romfs_lookup. */
  method SameName(b: seq<Byte>, at: nat, name: Text, ghost stored: Text) returns (eq: bool)
    requires at + |stored| < |b| && b[at..at + |stored|] == stored && b[at + |stored|] == 0 && CString(stored) && CString(name)
    ensures eq <==> stored == name
  {
    var j := 0;
    while b[at + j] != 0 && j < |name| && b[at + j] == name[j]
      invariant 0 <= j <= |stored| && j <= |name| && stored[..j] == name[..j]
      decreases |name| - j
    {
      assert b[at + j] == b[at..at + |stored|][j];
      j := j + 1;
    }
    assert j < |stored| ==> b[at + j] == b[at..at + |stored|][j];
    eq := b[at + j] == 0 && j == |name|;
    assert eq ==> stored == stored[..j] && name == name[..j];
  }

  /** romfs_lookup: the bound of 1024 turns never cuts the search short. */
  method LookupNode(b: seq<Byte>, big: bool, dir: Vnode, name: Text, ghost t: seq<Node>, ghost d: nat) returns (r: Option<Vnode>)
    requires ImageOf(b, t, big) && Clean(t) && d < |t| && dir.ino == Offset(t, d) && CString(name)
    ensures var k := FindFrom(t, t[d].first, name);
      r == if k < 0 then None else Some(Vnode(Offset(t, k), |t[k].data|, TypeOf(t[k].kind)))
  {
    hide ImageOf, Align4, Offset, Get, HeaderWords;
    ImageShape(b, t, big);
    Field(b, t, d, big, 3, 12);
    HeaderIs(t, d);
    var child, iter := Get(b, dir.ino + 12, big), 0;
    ghost var c := t[d].first;
    while child != 0 && iter < 1024
      invariant c < |t| && child == Ref(t, c) && (child == 0 <==> c < 0) && iter <= 512 && (0 <= c ==> iter <= c)
      invariant FindFrom(t, c, name) == FindFrom(t, t[d].first, name)
      decreases 1024 - iter
    {
      iter := iter + 1;
      BodyAt(b, t, c, big);
      Field(b, t, c, big, 0, 0);
      HeaderIs(t, c);
      var eq := SameName(b, child + HEADER, name, t[c].name);
      if eq {
        var vn := VnodeFromEntry(b, big, child, t, c);
        return Some(vn);
      }
      child := Get(b, child, big);
      c := t[c].next;
    }
    r := None;
  }

  lemma HeaderIs(t: seq<Node>, i: nat)
    requires Packable(t) && i < |t|
    ensures t[i].next < |t| && t[i].first < |t|
    ensures HeaderWords(t, i) == [Ref(t, t[i].next), t[i].kind, |t[i].data|, Ref(t, t[i].first), |t[i].name|]
  {
  }

  lemma ImageShape(b: seq<Byte>, t: seq<Node>, big: bool)
    requires ImageOf(b, t, big)
    ensures Packable(t) && |t| <= 512
  {
  }

  /** The entry of a directory listing that is found under a name. */
  function Entry(es: Listing, name: Text): Option<Tree> {
    match es
    case Nil => None
    case Cons(n, h, rest) => if n == name then Some(h) else Entry(rest, name)
  }

  function Child(h: Tree, name: Text): Option<Tree> { if h.Dir? then Entry(h.entries, name) else None }

  lemma {:induction false} KidsFind(t: seq<Node>, i: nat, es: Listing, name: Text)
    requires Links(t) && Kids(t, i, es, Nil) && HostedAll(es) && i + Sizes(es) <= |t|
    ensures var k := FindFrom(t, if es.Nil? then -1 else i, name);
      match Entry(es, name)
      case None => k < 0
      case Some(h) => 0 <= k && Rep(t, k, name, h) && Hosted(h)
    decreases es
  {
    if es.Cons? && es.name != name {
      KidsFind(t, i + Size(es.item), es.rest, name);
    }
  }

  /** Looking a name up in the image finds the entry of that name in the packed tree, or ENOENT. */
  method Lookup(b: seq<Byte>, big: bool, dir: Vnode, name: Text, ghost h: Tree) returns (r: Option<Vnode>)
    requires Denotes(b, big, dir, h) && CString(name)
    ensures r.Some? <==> Child(h, name).Some?
    ensures r.Some? ==> Denotes(b, big, r.value, Child(h, name).value)
  {
    hide ImageOf, Rep, Kids;
    ghost var t: seq<Node>, k: nat, at: Text :| Stands(b, big, dir, h, t, k, at);
    ImageShape(b, t, big);
    ChildIs(t, k, at, h, name);
    r := LookupNode(b, big, dir, name, t, k);
    if r.Some? {
      assert Child(h, name).Some?;
      assert Stands(b, big, r.value, Child(h, name).value, t, FindFrom(t, t[k].first, name), name);
    }
  }

  lemma ChildIs(t: seq<Node>, k: nat, at: Text, h: Tree, name: Text)
    requires Links(t) && Rep(t, k, at, h) && Hosted(h)
    ensures var j := FindFrom(t, t[k].first, name);
      match Child(h, name)
      case None => j < 0
      case Some(c) => 0 <= j && j + Size(c) <= |t| && Rep(t, j, name, c) && Hosted(c)
  {
    if h.Dir? {
      KidsFind(t, k + 1, h.entries, name);
    }
  }

  // ---- paths ----

  function Resolve(h: Tree, path: seq<Text>): Option<Tree>
    decreases |path|
  {
    if path == [] then Some(h)
    else match Child(h, path[0])
      case None => None
      case Some(c) => Resolve(c, path[1..])
  }

  /** Component after component from the root: what the tree has there, no more and no less. */
  method LookupPath(b: seq<Byte>, big: bool, path: seq<Text>, ghost t: seq<Node>, ghost h: Tree) returns (r: Option<Vnode>)
    requires Packs(b, t, h, big) && forall i :: 0 <= i < |path| ==> CString(path[i])
    ensures r.Some? <==> Resolve(h, path).Some?
    ensures r.Some? ==> Denotes(b, big, r.value, Resolve(h, path).value)
  {
    hide ImageOf, Rep, Denotes, Child;
    r := Mount(b, big, t, h);
    ghost var g := h;
    for i := 0 to |path|
      invariant r.Some? && Denotes(b, big, r.value, g) && Resolve(g, path[i..]) == Resolve(h, path)
    {
      r := Lookup(b, big, r.value, path[i], g);
      assert path[i..][1..] == path[i + 1..];
      if r.None? {
        return;
      }
      g := Child(g, path[i]).value;
    }
  }

  // ---- contents ----

  datatype Ret = Err(e: nat) | Got(out: seq<Byte>)
  const EISDIR := 21
  const EINVAL := 22

  function Part(s: Text, off: nat, n: nat): Text {
    if |s| <= off then [] else if |s| < off + n then s[off..] else s[off..off + n]
  }

  /** The data an entry's header leads to. */
  method DataAt(b: seq<Byte>, big: bool, vn: Vnode, ghost h: Tree) returns (d: nat)
    requires Denotes(b, big, vn, h)
    ensures d + |DataOf(h)| <= |b| && b[d..d + |DataOf(h)|] == DataOf(h)
    ensures vn.ino + HEADER <= |b| && d == vn.ino + HEADER + Align4(Get(b, vn.ino + 16, big) + 1)
  {
    hide ImageOf, Rep, Align4, Offset, Get;
    ghost var t: seq<Node>, k: nat, name: Text :| Stands(b, big, vn, h, t, k, name);
    RepData(t, k, name, h);
    Field(b, t, k, big, 4, 16);
    BodyAt(b, t, k, big);
    d := vn.ino + HEADER + Align4(Get(b, vn.ino + 16, big) + 1);
  }

  /** romfs_read; n is the size of a transfer within one page. */
  method Read(b: seq<Byte>, big: bool, vn: Vnode, n: nat, off: U32, ghost h: Tree) returns (r: Ret)
    requires Denotes(b, big, vn, h) && n < 0x1_0000
    ensures r == if h.Dir? then Err(EISDIR) else Got(Part(DataOf(h), off, n))
    ensures h.Dir? <==> r == Err(21)
    ensures !h.Dir? ==>
      && r.Got? && |r.out| == (if |DataOf(h)| <= off then 0 else if n < |DataOf(h)| - off then n else |DataOf(h)| - off)
      && forall k :: 0 <= k < |r.out| ==> r.out[k] == DataOf(h)[off + k]
  {
    hide Denotes;
    DenotesMeans(b, big, vn, h);
    if vn.vtype == VDir {
      return Err(EISDIR);
    }
    if vn.size <= off {
      return Got([]);
    }
    var m := if vn.size < off + n then vn.size - off else n;
    var d := DataAt(b, big, vn, h);
    SubSub(b, d, DataOf(h), off, off + m);
    r := Got(b[d + off..d + off + m]);
  }

  lemma RepData(t: seq<Node>, k: nat, name: Text, h: Tree)
    requires Rep(t, k, name, h)
    ensures t[k].data == DataOf(h)
  {
  }

  /** romfs_readlink. */
  method Readlink(b: seq<Byte>, big: bool, vn: Vnode, bufsiz: nat, ghost h: Tree) returns (r: Ret)
    requires Denotes(b, big, vn, h)
    ensures r == if h.Symlink? then Got(Part(Cut(h.target), 0, bufsiz)) else Err(EINVAL)
    ensures !h.Symlink? <==> r == Err(22)
    ensures h.Symlink? ==>
      var m := if |h.target| < 255 then |h.target| else 255;
      r == Got(h.target[..if m < bufsiz then m else bufsiz])
  {
    hide Denotes;
    DenotesMeans(b, big, vn, h);
    if vn.vtype != VSymlink {
      return Err(EINVAL);
    }
    var len := if bufsiz < vn.size then bufsiz else vn.size;
    var d := DataAt(b, big, vn, h);
    SubSub(b, d, DataOf(h), 0, len);
    r := Got(b[d..d + len]);
  }
}
