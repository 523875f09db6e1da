/** What s/re/r/ does to a line: the replacement item by item, the matches one by one, and which are replaced. */
module SedReplace {
  import opened Bytes
  import opened SedRegex
  import opened SedSubst

  // ---- the replacement ----

  /** A replacement as it is written: "&", "\1" to "\9", "\n", another byte behind a backslash, or a byte alone. */
  datatype Item = Whole | Group(n: int) | Newline | Quoted(c: Byte) | Plain(c: Byte)

  predicate Writable(i: Item) {
    match i
    case Whole => true
    case Group(n) => 1 <= n <= 9
    case Newline => true
    case Quoted(c) => !(0x31 <= c <= 0x39) && c != 0x6E
    case Plain(c) => c != 0x26 && c != 0x5C
  }

  function SpellItem(i: Item): Text
    requires Writable(i)
  {
    match i
    case Whole => [0x26]
    case Group(n) => [0x5C, 0x30 + n]
    case Newline => [0x5C, 0x6E]
    case Quoted(c) => [0x5C, c]
    case Plain(c) => [c]
  }

  /** What an item stands for: a group that took no part in the match stands for nothing. */
  function ItemText(i: Item, src: Text, h: Found): Text
    requires Writable(i) && h.Hit? && h.start <= h.end <= |src| && HitCaps(h)
  {
    match i
    case Whole => src[h.start..h.end]
    case Group(n) =>
      var cap := h.caps[n - 1];
      if cap.start < 0 || cap.end < 0 then [] else src[cap.start..cap.end]
    case Newline => [0x0A]
    case Quoted(c) => [c]
    case Plain(c) => [c]
  }

  function Spelled(items: seq<Item>): Text
    requires forall i <- items :: Writable(i)
  {
    if items == [] then [] else SpellItem(items[0]) + Spelled(items[1..])
  }

  function Meant(items: seq<Item>, src: Text, h: Found): Text
    requires (forall i <- items :: Writable(i)) && h.Hit? && h.start <= h.end <= |src| && HitCaps(h)
  {
    if items == [] then [] else ItemText(items[0], src, h) + Meant(items[1..], src, h)
  }

  /** A replacement stands for what its items stand for; a backslash at the very end stands for itself. */
  lemma {:induction false} ExpandsTo(items: seq<Item>, lone: bool, src: Text, h: Found)
    requires (forall i <- items :: Writable(i)) && h.Hit? && h.start <= h.end <= |src| && HitCaps(h)
    ensures var tail := if lone then [0x5C] else [];
            Expand(Spelled(items) + tail, src, h) == Meant(items, src, h) + tail
  {
    var tail := if lone then [0x5C] else [];
    if items == [] {
      assert Spelled(items) + tail == tail;
      if lone {
        assert tail[1..] == [];
      }
    } else {
      hide HitCaps, ItemText, SpellItem, Expand, Writable;
      var rest := Spelled(items[1..]) + tail;
      assert Spelled(items) + tail == SpellItem(items[0]) + rest;
      ExpandsTo(items[1..], lone, src, h);
      ExpandsItem(items[0], rest, src, h);
      assert ItemText(items[0], src, h) + (Meant(items[1..], src, h) + tail) == Meant(items, src, h) + tail;
    }
  }

  lemma ExpandsItem(i: Item, rest: Text, src: Text, h: Found)
    requires Writable(i) && h.Hit? && h.start <= h.end <= |src| && HitCaps(h)
    ensures Expand(SpellItem(i) + rest, src, h) == ItemText(i, src, h) + Expand(rest, src, h)
  {
    hide HitCaps;
    var r := SpellItem(i) + rest;
    assert r[|SpellItem(i)|..] == rest;
  }

  /** Every replacement can be read as items, with or without a lone backslash at the end. */
  lemma {:induction false} EveryReplacement(r: Text) returns (items: seq<Item>, lone: bool)
    ensures forall i <- items :: Writable(i)
    ensures r == Spelled(items) + if lone then [0x5C] else []
    decreases |r|
  {
    if r == [] || r == [0x5C] {
      return [], r != [];
    }
    var i := if r[0] == 0x26 then Whole
             else if r[0] != 0x5C then Plain(r[0])
             else if 0x31 <= r[1] <= 0x39 then Group(r[1] - 0x30)
             else if r[1] == 0x6E then Newline
             else Quoted(r[1]);
    items, lone := EveryReplacement(r[|SpellItem(i)|..]);
    assert ([i] + items)[1..] == items;
    assert r == SpellItem(i) + r[|SpellItem(i)|..];
    items := [i] + items;
  }

  // ---- which matches are replaced ----

  /** Without flags the first; with g all; with N the Nth; with N and g the Nth and all behind it. */
  lemma {:induction false} Picked(hs: seq<Found>, nth: nat, glob: bool)
    ensures Pick(hs, 1, nth, glob)
            == if nth == 0 then (if glob then hs else if hs == [] then [] else [hs[0]])
               else if |hs| < nth then [] else if glob then hs[nth - 1..] else [hs[nth - 1]]
  {
    PickedFrom(hs, 1, nth, glob);
  }

  /** The new line: exactly those matches are replaced. */
  lemma {:induction false} LineIs(code: Code, src: Text, nth: nat, glob: bool, r: Text)
    requires WellFormed(code)
    ensures var hs := Hits(code, src, 0);
            var ps := if nth == 0 then (if glob then hs else if hs == [] then [] else [hs[0]])
                      else if |hs| < nth then [] else if glob then hs[nth - 1..] else [hs[nth - 1]];
            InSrc(src, ps) && SedSubst.Ordered(ps, 0) && Replaced(code, src, 0, 0, nth, glob, r) == Rebuild(src, 0, ps, r)
  {
    hide WellFormed, Hits, Rebuild, Pick, SedSubst.Ordered;
    Picked(Hits(code, src, 0), nth, glob);
    HitsOrdered(code, src, 0);
    PickOrdered(Hits(code, src, 0), 0, 1, nth, glob);
  }

  /** The same from the mth match on. */
  lemma {:induction false} PickedFrom(hs: seq<Found>, m: nat, nth: nat, glob: bool)
    requires 1 <= m
    ensures Pick(hs, m, nth, glob)
            == if nth == 0 then (if glob then hs else if m == 1 && hs != [] then [hs[0]] else [])
               else if m + |hs| <= nth then []
               else if glob then hs[if m < nth then nth - m else 0..]
               else if m <= nth then [hs[nth - m]] else []
    decreases |hs|
  {
    if hs != [] {
      PickedFrom(hs[1..], m + 1, nth, glob);
      assert hs == [hs[0]] + hs[1..];
    }
  }

  // ---- the rebuilt line ----

  /** Without a match the line stays. The last match is replaced behind what the text before it has become, and what
      stands behind it stays. */
  lemma {:induction false} LastReplaced(src: Text, p: nat, hs: seq<Found>, h: Found, r: Text)
    requires p <= |src| && InSrc(src, hs + [h]) && SedSubst.Ordered(hs + [h], p)
    ensures h.Hit? && p <= h.start <= h.end <= |src| && HitCaps(h) && InSrc(src[..h.start], hs) && SedSubst.Ordered(hs, p)
    ensures Rebuild(src, p, hs + [h], r) == Rebuild(src[..h.start], p, hs, r) + Expand(r, src, h) + src[h.end..]
    ensures SedSubst.Ordered([], p) && Rebuild(src, p, [], r) == src[p..]
    decreases |hs|
  {
    hide HitCaps, Expand, InSrc, SedSubst.Ordered, Rebuild;
    LastApart(src, p, hs, h);
    var cut := src[..h.start];
    RebuildNone(src, p, r);
    RebuildOne(src, p, hs + [h], r);
    if hs == [] {
      RebuildNone(src, h.end, r);
      RebuildNone(cut, p, r);
      assert (hs + [h])[0] == h && (hs + [h])[1..] == [];
      assert cut[p..] == src[p..h.start];
    } else {
      var g := hs[0];
      assert (hs + [h])[0] == g && (hs + [h])[1..] == hs[1..] + [h];
      LastReplaced(src, g.end, hs[1..], h, r);
      RebuildOne(cut, p, hs, r);
      SameExpand(r, src, cut, g);
      assert cut[p..g.start] == src[p..g.start];
      var x, y := src[p..g.start], Expand(r, src, g);
      var z, e := Rebuild(cut, g.end, hs[1..], r), Expand(r, src, h);
      assert x + y + (z + e + src[h.end..]) == x + y + z + e + src[h.end..];
    }
  }

  lemma RebuildOne(src: Text, p: nat, hs: seq<Found>, r: Text)
    requires p <= |src| && InSrc(src, hs) && SedSubst.Ordered(hs, p) && hs != []
    ensures var h := hs[0];
            && h.Hit? && p <= h.start <= h.end <= |src| && HitCaps(h)
            && InSrc(src, hs[1..]) && SedSubst.Ordered(hs[1..], h.end)
            && Rebuild(src, p, hs, r) == src[p..h.start] + Expand(r, src, h) + Rebuild(src, h.end, hs[1..], r)
  {
    hide Expand, HitCaps;
  }

  lemma {:induction false} LastApart(src: Text, p: nat, hs: seq<Found>, h: Found)
    requires p <= |src| && InSrc(src, hs + [h]) && SedSubst.Ordered(hs + [h], p)
    ensures h.Hit? && p <= h.start <= h.end <= |src| && HitCaps(h) && InSrc(src[..h.start], hs) && SedSubst.Ordered(hs, p)
    ensures hs != [] ==> hs[0].Hit? && hs[0].end <= h.start && InSrc(src, hs[1..] + [h]) && SedSubst.Ordered(hs[1..] + [h], hs[0].end)
    decreases |hs|
  {
    hide HitCaps, InSrc;
    InSrcOf(src, hs, h);
    if hs != [] {
      assert (hs + [h])[0] == hs[0] && (hs + [h])[1..] == hs[1..] + [h];
      LastApart(src, hs[0].end, hs[1..], h);
      InSrcMore(src[..h.start], hs);
    } else {
      assert hs + [h] == [h];
      NoneInSrc(src[..h.start]);
    }
  }

  lemma InSrcOf(src: Text, hs: seq<Found>, h: Found)
    requires InSrc(src, hs + [h])
    ensures h.Hit? && h.start <= h.end <= |src| && HitCaps(h)
    ensures hs != [] ==> hs[0].Hit? && hs[0].start <= hs[0].end <= |src| && HitCaps(hs[0]) && InSrc(src, hs[1..] + [h])
  {
    hide HitCaps;
    var all := hs + [h];
    assert all[|hs|] == h;
    if hs != [] {
      assert all[0] == hs[0];
      var rest := hs[1..] + [h];
      forall k | 0 <= k < |rest| ensures rest[k].Hit? && rest[k].start <= rest[k].end <= |src| && HitCaps(rest[k]) {
        assert rest[k] == all[k + 1];
      }
    }
  }

  lemma InSrcMore(src: Text, hs: seq<Found>)
    requires hs != [] && hs[0].Hit? && hs[0].start <= hs[0].end <= |src| && HitCaps(hs[0]) && InSrc(src, hs[1..])
    ensures InSrc(src, hs)
  {
    hide HitCaps;
    forall k | 0 <= k < |hs| ensures hs[k].Hit? && hs[k].start <= hs[k].end <= |src| && HitCaps(hs[k]) {
      assert 0 < k ==> hs[k] == hs[1..][k - 1];
    }
  }

  lemma NoneInSrc(src: Text)
    ensures InSrc(src, [])
  {
  }

  /** What a match becomes does not depend on the text behind it. */
  lemma {:induction false} SameExpand(r: Text, src: Text, cut: Text, h: Found)
    requires h.Hit? && h.start <= h.end <= |cut| <= |src| && cut == src[..|cut|] && HitCaps(h)
    ensures Expand(r, src, h) == Expand(r, cut, h)
    decreases |r|
  {
    if r != [] {
      SameExpand(r[1..], src, cut, h);
      assert src[h.start..h.end] == cut[h.start..h.end];
      if 1 < |r| {
        SameExpand(r[2..], src, cut, h);
        if 0x31 <= r[1] <= 0x39 {
          var c := h.caps[r[1] - 0x31];
          if 0 <= c.start && 0 <= c.end {
            assert src[c.start..c.end] == cut[c.start..c.end];
          }
        }
      }
    }
  }

  // ---- the matches ----

  /** Where the search behind the first k matches begins: at the end of the last, one byte further if it was empty. */
  function From(hs: seq<Found>, k: nat, si: nat): nat
    requires k <= |hs| && forall i :: 0 <= i < |hs| ==> hs[i].Hit?
  {
    if k == 0 then si else if hs[k - 1].start < hs[k - 1].end then hs[k - 1].end else hs[k - 1].end + 1
  }

  /** h is a match in what is left of src from p on, counted from the start of src. */
  ghost predicate MatchBehind(code: Code, src: Text, p: nat, h: Found, caps: Caps)
    requires WellFormed(code) && p <= |src|
  {
    && h.Hit? && p <= h.start <= h.end <= |src| && Ready(code, 0, NoCaps(), h.start - p)
    && Matches(code, 0, src[p..], h.start - p, NoCaps(), h.end - p, caps)
    && forall g :: 0 <= g < 9 ==> h.caps[g] == Cap(if caps[g].start < 0 then caps[g].start else caps[g].start + p,
                                                   if caps[g].end < 0 then caps[g].end else caps[g].end + p)
  }

  /** h is such a match, and no other begins before it. */
  ghost predicate Next(code: Code, src: Text, p: nat, h: Found)
    requires WellFormed(code) && p <= |src|
  {
    && (exists caps :: MatchBehind(code, src, p, h, caps))
    && forall i :: 0 <= i < h.start - p ==> !MatchesAt(code, src[p..], i)
  }

  lemma FirstIsNext(code: Code, src: Text, p: nat)
    requires WellFormed(code) && p <= |src|
    ensures var h := First(code, src, p);
            if h.Hit? then Next(code, src, p, h) else forall i :: 0 <= i <= |src| - p ==> !MatchesAt(code, src[p..], i)
  {
    Leftmost(code, src[p..], 0);
    hide WellFormed, Ready, Matches, MatchesAt, HitCaps;
    var f := Search(code, src[p..], 0);
    if f.Hit? {
      var h := First(code, src, p);
      assert MatchBehind(code, src, p, h, f.caps);
    }
  }

  ghost predicate NextAt(code: Code, src: Text, hs: seq<Found>, si: nat, k: nat)
    requires WellFormed(code) && k < |hs| && forall i :: 0 <= i < |hs| ==> hs[i].Hit?
  {
    From(hs, k, si) <= |src| && Next(code, src, From(hs, k, si), hs[k])
  }

  /** No match in what is left of src from p on. */
  ghost predicate NoneFrom(code: Code, src: Text, p: nat)
    requires WellFormed(code)
  {
    p <= |src| ==> forall i :: 0 <= i <= |src| - p ==> !MatchesAt(code, src[p..], i)
  }

  /** The matches are those that are found one after the other, until none is left. */
  lemma {:induction false} HitsAre(code: Code, src: Text, si: nat)
    requires WellFormed(code) && si <= |src|
    ensures var hs := Hits(code, src, si);
            (forall k :: 0 <= k < |hs| ==> NextAt(code, src, hs, si, k)) && NoneFrom(code, src, From(hs, |hs|, si))
    decreases |src| - si
  {
    hide WellFormed, HitCaps, Search, Next, MatchesAt;
    var h, hs := First(code, src, si), Hits(code, src, si);
    HitsNext(code, src, si);
    FirstIsNext(code, src, si);
    if h.Hit? && After(h) <= |src| {
      HitsAre(code, src, After(h));
      HitsBehind(code, src, hs, si);
    }
  }

  lemma HitsBehind(code: Code, src: Text, hs: seq<Found>, si: nat)
    requires WellFormed(code) && 0 < |hs| && forall i :: 0 <= i < |hs| ==> hs[i].Hit?
    requires var rest, p := hs[1..], After(hs[0]);
             (forall k :: 0 <= k < |rest| ==> NextAt(code, src, rest, p, k)) && NoneFrom(code, src, From(rest, |rest|, p))
    ensures (forall k :: 1 <= k < |hs| ==> NextAt(code, src, hs, si, k)) && NoneFrom(code, src, From(hs, |hs|, si))
  {
    hide WellFormed, Next, NoneFrom;
    forall k | 1 <= k < |hs| ensures NextAt(code, src, hs, si, k) {
      assert NextAt(code, src, hs[1..], After(hs[0]), k - 1);
    }
  }
}
