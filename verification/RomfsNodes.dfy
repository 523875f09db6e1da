/** mkromfs, first pass: a directory tree becomes a table of nodes linked by indices. */
module RomfsNodes {
  import opened Bytes

  type Text = seq<Byte>

  // ---- the tree on the host ----

  datatype Tree = File(contents: Text) | Symlink(target: Text) | Dir(entries: Listing)

  /** What readdir delivers, in its order. */
  datatype Listing = Nil | Cons(name: Text, item: Tree, rest: Listing)

  function Size(h: Tree): (n: nat)
    ensures 1 <= n
  {
    match h
    case Dir(es) => 1 + Sizes(es)
    case _ => 1
  }

  function Sizes(es: Listing): nat {
    match es
    case Nil => 0
    case Cons(_, h, rest) => Size(h) + Sizes(rest)
  }

  // ---- the node table ----

  const MAX_NODES := 512
  const FILE := 0
  const DIR := 1
  const SYMLINK := 2

  /** data: what stands behind the name in the image; first, next: indices, negative for none. */
  datatype Node = Node(name: Text, kind: nat, data: Text, first: int, next: int)

  /** Names and link targets go through buffers of 256 bytes. */
  function Cut(s: Text): Text { if |s| <= 255 then s else s[..255] }

  function KindOf(h: Tree): nat {
    match h
    case File(_) => FILE
    case Dir(_) => DIR
    case Symlink(_) => SYMLINK
  }

  /** A file's size is taken modulo 2^32, and that many bytes are read. */
  function Sized32(c: Text): (s: Text)
    ensures |s| < WORD && (|c| < WORD ==> s == c)
  {
    c[..|c| % WORD]
  }

  function DataOf(h: Tree): Text {
    match h
    case File(c) => Sized32(c)
    case Dir(_) => []
    case Symlink(t) => Cut(t)
  }

  /** Links lead forward. */
  predicate Links(t: seq<Node>) {
    forall i :: 0 <= i < |t| ==> (t[i].first < 0 || i < t[i].first < |t|) && (t[i].next < 0 || i < t[i].next < |t|)
  }

  /** Tree h, named name, occupies the nodes from i on, in preorder and without gaps. */
  predicate Rep(t: seq<Node>, i: nat, name: Text, h: Tree)
    decreases h
  {
    && i + Size(h) <= |t| && t[i].name == Cut(name) && t[i].kind == KindOf(h) && t[i].data == DataOf(h)
    && (h.Dir? ==> t[i].first == (if h.entries.Nil? then -1 else i + 1) && Kids(t, i + 1, h.entries, Nil))
    && (!h.Dir? ==> t[i].first == -1)
  }

  /** The entries of es that come before its suffix rest occupy the nodes from i on and form one sibling chain. */
  predicate Kids(t: seq<Node>, i: nat, es: Listing, rest: Listing)
    decreases es
  {
    es == rest ||
    (&& es.Cons? && Rep(t, i, es.name, es.item)
     && t[i].next == (if es.rest == rest then -1 else i + Size(es.item))
     && Kids(t, i + Size(es.item), es.rest, rest))
  }

  /** The end of the sibling chain that starts at c. */
  function Tail(t: seq<Node>, c: nat): (q: nat)
    requires Links(t) && c < |t|
    ensures c <= q < |t| && t[q].next < 0
    decreases |t| - c
  {
    if t[c].next < 0 then c else Tail(t, t[c].next)
  }

  /** Node idx becomes the last child of p (of none, if p is negative). */
  function Linked(t: seq<Node>, p: int, idx: nat): (t': seq<Node>)
    requires Links(t) && p < |t|
    ensures |t'| == |t|
  {
    if p < 0 then t
    else if t[p].first < 0 then t[p := t[p].(first := idx)]
    else var q := Tail(t, t[p].first); t[q := t[q].(next := idx)]
  }

  // ---- what later nodes leave alone ----

  lemma {:induction false} RepFrame(t: seq<Node>, t': seq<Node>, i: nat, name: Text, h: Tree)
    requires Rep(t, i, name, h) && i + Size(h) <= |t'|
    requires t'[i] == t[i].(next := t'[i].next)
    requires forall j :: i < j < i + Size(h) ==> t'[j] == t[j]
    ensures Rep(t', i, name, h)
    decreases h
  {
    if h.Dir? {
      KidsFrame(t, t', i + 1, h.entries, Nil);
    }
  }

  lemma {:induction false} KidsFrame(t: seq<Node>, t': seq<Node>, i: nat, es: Listing, rest: Listing)
    requires Kids(t, i, es, rest) && i + Sizes(es) <= |t| && i + Sizes(es) <= |t'|
    requires forall j :: i <= j < i + Sizes(es) ==> t'[j] == t[j]
    ensures Kids(t', i, es, rest)
    decreases es
  {
    if es != rest {
      RepFrame(t, t', i, es.name, es.item);
      KidsFrame(t, t', i + Size(es.item), es.rest, rest);
    }
  }

  /** How far the entries before rest reach. */
  lemma {:induction false} KidsReach(t: seq<Node>, i: nat, es: Listing, rest: Listing)
    requires Kids(t, i, es, rest)
    ensures Sizes(rest) <= Sizes(es) && (es != rest ==> Sizes(rest) < Sizes(es))
    decreases es
  {
    if es != rest {
      KidsReach(t, i + Size(es.item), es.rest, rest);
    }
  }

  /** One more entry, linked behind the last. */
  lemma {:induction false} KidsMore(t: seq<Node>, t': seq<Node>, i: nat, es: Listing, rest: Listing)
    requires Links(t) && Kids(t, i, es, rest) && es != rest && rest.Cons? && i + Sizes(es) == |t| + Sizes(rest)
    requires i < |t| && |t'| == |t| + Size(rest.item)
    requires var q := Tail(t, i); t'[q] == t[q].(next := |t|) && forall j :: 0 <= j < |t| && j != q ==> t'[j] == t[j]
    requires Rep(t', |t|, rest.name, rest.item) && t'[|t|].next == -1
    ensures Kids(t', i, es, rest.rest)
    decreases es
  {
    var n, q, k := |t|, Tail(t, i), i + Size(es.item);
    KidsReach(t, i, es, rest);
    KidsReach(t, k, es.rest, rest);
    hide Rep, Links;
    if es.rest == rest {
      RepFrame(t, t', i, es.name, es.item);
      OneKid(t', n, rest);
    } else {
      TailNext(t, i);
      RepFrame(t, t', i, es.name, es.item);
      KidsMore(t, t', k, es.rest, rest);
    }
  }

  lemma TailNext(t: seq<Node>, i: nat)
    requires Links(t) && i < |t| && 0 <= t[i].next
    ensures i < t[i].next < |t| && Tail(t, i) == Tail(t, t[i].next)
  {
  }

  lemma OneKid(t: seq<Node>, n: nat, rest: Listing)
    requires rest.Cons? && Rep(t, n, rest.name, rest.item) && n < |t| && t[n].next == -1
    ensures Kids(t, n, rest, rest.rest)
  {
  }

  // ---- the builder ----

  class Builder {
    var nodes: seq<Node>

    constructor ()
      ensures nodes == []
    {
      nodes := [];
    }

    /** The part of add_node that finds the place in the parent's child list. */
    method LinkChild(parent: nat, idx: nat)
      requires idx < |nodes| && parent < idx && Links(nodes[..idx])
      modifies this
      ensures nodes == Linked(old(nodes[..idx]), parent, idx) + old(nodes[idx..])
    {
      ghost var t := nodes[..idx];
      if nodes[parent].first < 0 {
        nodes := nodes[parent := nodes[parent].(first := idx)];
      } else {
        var sib := nodes[parent].first;
        while 0 <= nodes[sib].next
          invariant 0 <= sib < idx && nodes == old(nodes) && Tail(t, sib) == Tail(t, t[parent].first)
          decreases idx - sib
        {
          assert nodes[sib] == t[sib];
          sib := nodes[sib].next;
        }
        nodes := nodes[sib := nodes[sib].(next := idx)];
      }
    }

    /** add_node: succeeds exactly when the table has room for the whole tree. */
    method AddNode(h: Tree, name: Text, parent: int) returns (idx: int)
      requires Links(nodes) && |nodes| <= MAX_NODES && -1 <= parent < |nodes|
      modifies this
      ensures idx == -1 || idx == old(|nodes|)
      ensures idx != -1 <==> old(|nodes|) + Size(h) <= MAX_NODES
      ensures idx != -1 ==>
        && Links(nodes) && |nodes| == idx + Size(h)
        && nodes[..idx] == Linked(old(nodes), parent, idx)
        && Rep(nodes, idx, name, h) && nodes[idx].next == -1
      decreases h
    {
      if MAX_NODES <= |nodes| {
        return -1;
      }
      idx := |nodes|;
      nodes := nodes + [Node(Cut(name), KindOf(h), [], -1, -1)];
      assert nodes[..idx] == old(nodes);
      if 0 <= parent {
        LinkChild(parent, idx);
      }
      assert nodes[..idx] == Linked(old(nodes), parent, idx);
      match h
      case File(c) =>
        nodes := nodes[idx := nodes[idx].(data := Sized32(c))];
      case Symlink(t) =>
        nodes := nodes[idx := nodes[idx].(data := Cut(t))];
      case Dir(es) =>
        var ok := ScanDir(es, idx);
        if !ok {
          return -1;
        }
    }

    /** scan_dir, for a directory whose node is the last one. */
    method ScanDir(es: Listing, parent: nat) returns (ok: bool)
      requires Links(nodes) && |nodes| <= MAX_NODES && parent == |nodes| - 1 && nodes[parent].first == -1
      modifies this
      ensures ok <==> old(|nodes|) + Sizes(es) <= MAX_NODES
      ensures ok ==>
        && Links(nodes) && |nodes| == old(|nodes|) + Sizes(es)
        && nodes[..parent] == old(nodes[..parent])
        && nodes[parent] == old(nodes[parent]).(first := if es.Nil? then -1 else parent + 1)
        && Kids(nodes, parent + 1, es, Nil)
      decreases es
    {
      var rest := es;
      while rest.Cons?
        invariant Links(nodes) && |nodes| <= MAX_NODES && |nodes| + Sizes(rest) == parent + 1 + Sizes(es)
        invariant parent < |nodes| && nodes[..parent] == old(nodes[..parent])
        invariant nodes[parent] == old(nodes[parent]).(first := if es == rest then -1 else parent + 1)
        invariant Kids(nodes, parent + 1, es, rest)
        decreases rest
      {
        ghost var t := nodes;
        KidsReach(t, parent + 1, es, rest);
        var idx := AddNode(rest.item, rest.name, parent);
        if idx < 0 {
          return false;
        }
        NextEntry(t, nodes, parent, es, rest);
        rest := rest.rest;
      }
      ok := true;
    }
  }

  lemma LinkedIs(t: seq<Node>, t': seq<Node>, p: nat)
    requires Links(t) && p < |t| <= |t'| && t'[..|t|] == Linked(t, p, |t|)
    ensures t'[..p] == t[..p]
    ensures t[p].first < 0 ==> t'[p] == t[p].(first := |t|) && forall j :: 0 <= j < |t| && j != p ==> t'[j] == t[j]
    ensures 0 <= t[p].first ==>
      var q := Tail(t, t[p].first); p < q < |t| && t'[q] == t[q].(next := |t|) && forall j :: 0 <= j < |t| && j != q ==> t'[j] == t[j]
  {
    assert forall j :: 0 <= j < |t| ==> t'[j] == t'[..|t|][j];
  }

  /** One turn of scan_dir's loop. */
  lemma NextEntry(t: seq<Node>, t': seq<Node>, p: nat, es: Listing, rest: Listing)
    requires Links(t) && p < |t| && |t| + Sizes(rest) == p + 1 + Sizes(es) && rest.Cons?
    requires t[p].first == (if es == rest then -1 else p + 1) && Kids(t, p + 1, es, rest)
    requires |t'| == |t| + Size(rest.item) && t'[..|t|] == Linked(t, p, |t|)
    requires Rep(t', |t|, rest.name, rest.item) && t'[|t|].next == -1
    ensures t'[..p] == t[..p] && t'[p] == t[p].(first := p + 1) && Kids(t', p + 1, es, rest.rest)
  {
    hide Rep, Kids, Links, Linked, Tail;
    LinkedIs(t, t', p);
    if es == rest {
      OneKid(t', |t|, rest);
    } else {
      KidsReach(t, p + 1, es, rest);
      KidsMore(t, t', p + 1, es, rest);
    }
  }
}
