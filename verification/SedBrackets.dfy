/** What a bracket expression lists, item by item. */
module SedBrackets {
  import opened Options
  import opened Bytes
  import opened SedRegex
  import opened SedCompile
  import opened SedPattern

  /** A member alone, or all from a to b. */
  datatype Item = One(c: Byte) | Span(a: Byte, b: Byte)

  function SpellItem(i: Item): (s: Text)
    ensures 0 < |s|
  {
    match i
    case One(c) => [c]
    case Span(a, b) => [a, 0x2D, b]
  }

  function SpellItems(items: seq<Item>): Text {
    if items == [] then [] else SpellItem(items[0]) + SpellItems(items[1..])
  }

  /** A member alone is not followed by "-" and something behind that. */
  predicate Apart(items: seq<Item>) {
    items != [] ==>
      && (items[0].One? ==> var s := SpellItems(items[1..]); |s| < 2 || s[0] != 0x2D)
      && Apart(items[1..])
  }

  predicate Lists(i: Item, x: Byte) {
    match i
    case One(c) => x == c
    case Span(a, b) => a <= x <= b
  }

  /** No NUL, and "]" only in first place. */
  predicate Listable(s: Text) {
    forall k :: 0 <= k < |s| ==> s[k] != 0 && (s[k] == 0x5D ==> k == 0)
  }

  /** A bracket expression stands for what its items list, negated for everything else. */
  lemma SetIs(neg: bool, items: seq<Item>, x: Byte)
    requires Apart(items) && Listable(SpellItems(items))
    ensures x in SetOf(neg, SpellItems(items)) <==> (exists i <- items :: Lists(i, x)) != neg
  {
    var s := SpellItems(items);
    assert s[0..] == s;
    MembersAre(s, 0, items, x);
  }

  lemma {:induction false} MembersAre(s: Text, p: nat, items: seq<Item>, x: Byte)
    requires Listable(s) && Apart(items) && p <= |s| && s[p..] == SpellItems(items)
    ensures x in Members(s + [0x5D], p, |s|) <==> exists i <- items :: Lists(i, x)
    decreases |items|
  {
    if items != [] {
      var i, rest := items[0], SpellItems(items[1..]);
      var q := p + |SpellItem(i)|;
      assert s[q..] == s[p..][|SpellItem(i)|..] == rest;
      MembersAre(s, q, items[1..], x);
      MembersStep(s, p, i, rest, x);
      assert items == [i] + items[1..];
    }
  }

  lemma MembersStep(s: Text, p: nat, i: Item, rest: Text, x: Byte)
    requires Listable(s) && p <= |s| && s[p..] == SpellItem(i) + rest && (i.One? ==> |rest| < 2 || rest[0] != 0x2D)
    ensures x in Members(s + [0x5D], p, |s|) <==> Lists(i, x) || x in Members(s + [0x5D], p + |SpellItem(i)|, |s|)
  {
    var t := s + [0x5D];
    assert forall k :: 0 <= k < |s[p..]| ==> s[p..][k] == t[p + k];
    if i.One? {
      assert At(t, p) == i.c;
      if rest != [] {
        assert At(t, p + 1) == rest[0];
        if 1 < |rest| {
          assert At(t, p + 2) == rest[1];
        }
      }
    } else {
      assert At(t, p) == i.a && At(t, p + 1) == 0x2D && At(t, p + 2) == i.b == s[p + 2];
    }
  }

  /** Every body can be read as such items. */
  lemma {:induction false} EveryBody(body: Text) returns (items: seq<Item>)
    ensures body == SpellItems(items) && Apart(items)
    decreases |body|
  {
    if body == [] {
      return [];
    }
    var i := if 3 <= |body| && body[1] == 0x2D then Span(body[0], body[2]) else One(body[0]);
    var rest := EveryBody(body[|SpellItem(i)|..]);
    items := [i] + rest;
    assert items[1..] == rest;
    assert body == SpellItem(i) + body[|SpellItem(i)|..];
  }
}
