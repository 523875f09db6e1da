/** The romfs image in bytes: where every field of a packed tree stands. */
module RomfsLayout {
  import opened Options
  import opened Bytes
  import opened RomfsNodes
  import opened RomfsImage
  import opened Romfs

  /** A word in either byte order. */
  lemma WordIs(b: seq<Byte>, o: nat)
    requires o + 4 <= |b|
    ensures Get(b, o, false) == b[o] as int + 0x100 * (b[o + 1] as int) + 0x1_0000 * (b[o + 2] as int) + 0x100_0000 * (b[o + 3] as int)
    ensures Get(b, o, true) == 0x100_0000 * (b[o] as int) + 0x1_0000 * (b[o + 1] as int) + 0x100 * (b[o + 2] as int) + b[o + 3] as int
  {
  }

  /** The superblock: magic number, length, number of entries, root. */
  lemma SuperIs(b: seq<Byte>, t: seq<Node>, big: bool)
    requires ImageOf(b, t, big)
    ensures 16 <= |b| && Get(b, 0, big) == 0x5050_4653 && Get(b, 4, big) == |b| && Get(b, 8, big) == |t| && Get(b, 12, big) == 16
  {
    SuperAt(b, t, big);
    OffsetFirst(t);
  }

  function Pad(n: nat): nat { if n % 4 == 0 then n else n + 4 - n % 4 }

  /** Entries follow each other, the first behind the superblock: a header of 20 bytes, the name with its NUL, the data,
      both up to a multiple of four. */
  lemma OffsetsAre(t: seq<Node>, i: nat)
    requires i < |t|
    ensures Offset(t, 0) == 16 && Offset(t, i + 1) == Offset(t, i) + 20 + Pad(|t[i].name| + 1) + Pad(|t[i].data|)
  {
  }

  /** The entry of a node: next sibling, kind, size, first child, length of the name; 0 stands for no entry. Then the name
      and, behind it, the data. */
  lemma EntryIs(b: seq<Byte>, t: seq<Node>, i: nat, big: bool)
    requires ImageOf(b, t, big) && i < |t|
    ensures var n, o := t[i], Offset(t, i); var d := o + 20 + Pad(|n.name| + 1);
            && n.next < |t| && n.first < |t| && d + |n.data| <= |b|
            && Get(b, o, big) == (if n.next < 0 then 0 else Offset(t, n.next))
            && Get(b, o + 4, big) == n.kind && Get(b, o + 8, big) == |n.data|
            && Get(b, o + 12, big) == (if n.first < 0 then 0 else Offset(t, n.first))
            && Get(b, o + 16, big) == |n.name|
            && b[o + 20..o + 20 + |n.name|] == n.name && b[o + 20 + |n.name|] == 0 && b[d..d + |n.data|] == n.data
  {
    hide Get, Words, Word, EntryAt, Offset;
    Field(b, t, i, big, 0, 0);
    Field(b, t, i, big, 1, 4);
    Field(b, t, i, big, 2, 8);
    Field(b, t, i, big, 3, 12);
    Field(b, t, i, big, 4, 16);
    Romfs.HeaderIs(t, i);
    BodyAt(b, t, i, big);
  }

  /** The node of a tree: 0 for a file, 1 for a directory, 2 for a link; contents modulo 4 GiB, targets to 255 bytes. */
  lemma NodeIs(t: seq<Node>, i: nat, name: Text, h: Tree)
    requires Rep(t, i, name, h)
    ensures var n := t[i];
            && n.name == (if |name| <= 255 then name else name[..255])
            && match h
               case File(c) => n.kind == 0 && n.data == c[..|c| % 0x1_0000_0000]
               case Dir(_) => n.kind == 1 && n.data == []
               case Symlink(target) => n.kind == 2 && n.data == if |target| <= 255 then target else target[..255]
  {
  }

  // ---- listings ----

  function Length(es: Listing): nat {
    match es
    case Nil => 0
    case Cons(_, _, rest) => 1 + Length(rest)
  }

  function Name(es: Listing, k: nat): Text
    requires k < Length(es)
  {
    if k == 0 then es.name else Name(es.rest, k - 1)
  }

  function Item(es: Listing, k: nat): Tree
    requires k < Length(es)
  {
    if k == 0 then es.item else Item(es.rest, k - 1)
  }

  /** Entry k is the first of that name. */
  ghost predicate FirstNamed(es: Listing, name: Text, k: nat, h: Tree) {
    k < Length(es) && Name(es, k) == name && Item(es, k) == h && forall j :: 0 <= j < k ==> Name(es, j) != name
  }

  /** A name stands for the first entry that has it. */
  lemma {:induction false} EntryFound(es: Listing, name: Text) returns (k: nat)
    ensures match Entry(es, name)
            case None => forall j :: 0 <= j < Length(es) ==> Name(es, j) != name
            case Some(h) => FirstNamed(es, name, k, h)
  {
    k := 0;
    if es.Cons? && es.name != name {
      var i := EntryFound(es.rest, name);
      k := i + 1;
      forall j | 0 <= j < Length(es) && (Entry(es, name).Some? ==> j < k) ensures Name(es, j) != name {
        assert 0 < j ==> Name(es, j) == Name(es.rest, j - 1);
      }
    }
  }

  /** A path leads from directory to entry. */
  lemma PathIs(h: Tree, path: seq<Text>, name: Text)
    ensures Resolve(h, []) == Some(h)
    ensures Resolve(h, [name] + path) ==
      if !h.Dir? then None else match Entry(h.entries, name) case None => None case Some(c) => Resolve(c, path)
  {
    assert ([name] + path)[1..] == path;
  }
}
