/** sed's s command: leftmost search, and the rebuilt pattern space. */
module SedSubst {
  import opened Bytes
  import opened SedRegex

  // ---- regex_search ----

  datatype Found = Nothing | Hit(start: nat, end: nat, caps: Caps)

  /** The first start from i on at which the code matches. */
  function Search(code: Code, s: Text, i: nat): (f: Found)
    requires WellFormed(code) && i <= |s| + 1
    ensures f.Hit? ==> i <= f.start <= f.end <= |s| && CapsOk(f.caps, f.end)
    decreases |s| + 1 - i
  {
    if |s| < i then Nothing
    else
      ReadyAtStart(code, i);
      var r := Try(code, 0, s, i, NoCaps());
      if 0 <= r.end then Hit(i, r.end, r.caps)
      else if code[0].op == Bol then Nothing
      else Search(code, s, i + 1)
  }

  /** The code matches somewhere from p on. */
  ghost predicate MatchesAt(code: Code, s: Text, p: nat)
    requires WellFormed(code) && p <= |s|
  {
    ReadyAtStart(code, p);
    exists e: nat, caps: Caps :: Matches(code, 0, s, p, NoCaps(), e, caps)
  }

  /** The search returns the leftmost start of any match, with a genuine match there, and nothing only if
      there is no match anywhere; stopping early behind "^" misses none. */
  lemma {:induction false} Leftmost(code: Code, s: Text, i: nat)
    requires WellFormed(code) && i <= |s| + 1
    requires code[0].op == Bol ==> i == 0
    ensures var f := Search(code, s, i);
            && (f.Hit? ==> Ready(code, 0, NoCaps(), f.start) && Matches(code, 0, s, f.start, NoCaps(), f.end, f.caps))
            && forall p :: i <= p <= |s| && (f.Hit? ==> p < f.start) ==> !MatchesAt(code, s, p)
    decreases |s| + 1 - i
  {
    if i <= |s| {
      ReadyAtStart(code, i);
      TryIff(code, 0, s, i, NoCaps());
      hide Matches, Ready, WellFormed;
      if Try(code, 0, s, i, NoCaps()).end < 0 {
        assert !MatchesAt(code, s, i);
        if code[0].op == Bol {
          forall p | i < p <= |s| ensures !MatchesAt(code, s, p) {
            BolOnlyAtStart(code, s, p);
          }
        } else {
          Leftmost(code, s, i + 1);
        }
      }
    }
  }

  lemma BolOnlyAtStart(code: Code, s: Text, p: nat)
    requires WellFormed(code) && code[0].op == Bol && 0 < p <= |s|
    ensures !MatchesAt(code, s, p)
  {
    ReadyAtStart(code, p);
    OneInstruction(code, s, p);
  }

  lemma OneInstruction(code: Code, s: Text, p: nat)
    requires Ready(code, 0, NoCaps(), p) && code[0].op == Bol && 0 < p <= |s|
    ensures forall e: nat, caps: Caps :: !Matches(code, 0, s, p, NoCaps(), e, caps)
  {
  }

  method RegexSearch(code: Code, s: Text, caps: array<Cap>) returns (start: int, end: int)
    requires WellFormed(code) && caps.Length == MAX_GROUPS
    modifies caps
    ensures match Search(code, s, 0)
            case Nothing => start == -1
            case Hit(a, b, c) => start == a && end == b && caps[..] == c
  {
    hide WellFormed, Ready, Try;
    end := -1;
    var i := 0;
    while i <= |s|
      invariant 0 <= i <= |s| + 1 && Search(code, s, i) == Search(code, s, 0)
    {
      var g := 0;
      while g < MAX_GROUPS
        invariant 0 <= g <= MAX_GROUPS && forall k :: 0 <= k < g ==> caps[k] == Cap(-1, -1)
      {
        caps[g] := Cap(-1, -1);
        g := g + 1;
      }
      assert caps[..] == NoCaps();
      ReadyAtStart(code, i);
      var r := TryMatch(code, 0, s, i, caps);
      if 0 <= r {
        return i, r;
      }
      NotEmptyCode(code);
      if code[0].op == Bol {
        return -1, -1;
      }
      i := i + 1;
    }
    return -1, -1;
  }

  lemma NotEmptyCode(code: Code)
    requires WellFormed(code)
    ensures 0 < |code|
  {
  }

  // ---- what a substitution is ----

  /** The matches found one after the other from si on: each search looks at what is left
      ("^" is relative to it), and after an empty match one byte is passed over. */
  function Hits(code: Code, src: Text, si: nat): (hs: seq<Found>)
    requires WellFormed(code) && si <= |src|
    ensures forall k :: 0 <= k < |hs| ==> hs[k].Hit? && si <= hs[k].start <= hs[k].end <= |src| && HitCaps(hs[k])
    decreases |src| - si
  {
    match Search(code, src[si..], 0)
    case Nothing => []
    case Hit(a, b, caps) =>
      var h := Hit(si + a, si + b, Moved(caps, si));
      if a < b then
        MovedOk(caps, b, si);
        [h] + Hits(code, src, h.end)
      else
        MovedOk(caps, b, si);
        [h] + (if h.end < |src| then Hits(code, src, h.end + 1) else [])
  }

  predicate HitCaps(h: Found)
    requires h.Hit?
  {
    forall g :: 0 <= g < MAX_GROUPS && 0 <= h.caps[g].start && 0 <= h.caps[g].end ==> h.caps[g].start <= h.caps[g].end <= h.end
  }

  /** Captures counted from the start of the pattern space. */
  function Moved(caps: Caps, si: nat): Caps {
    seq(9, g requires 0 <= g < 9 => Cap(if 0 <= caps[g].start then caps[g].start + si else caps[g].start,
                                        if 0 <= caps[g].end then caps[g].end + si else caps[g].end))
  }

  lemma MovedOk(caps: Caps, e: nat, si: nat)
    requires CapsOk(caps, e)
    ensures HitCaps(Hit(0, si + e, Moved(caps, si)))
  {
    forall g | 0 <= g < MAX_GROUPS ensures CapOk(caps[g], e) {
    }
  }

  /** Which matches are replaced: the first; all (g); the Nth (N); the Nth and all after it (N and g). */
  predicate Wanted(nth: nat, glob: bool, m: nat) {
    if nth == 0 then glob || m == 1 else if glob then nth <= m else m == nth
  }

  function Pick(hs: seq<Found>, m: nat, nth: nat, glob: bool): (ps: seq<Found>)
    ensures forall k :: 0 <= k < |ps| ==> ps[k] in hs
  {
    if hs == [] then []
    else (if Wanted(nth, glob, m) then [hs[0]] else []) + Pick(hs[1..], m + 1, nth, glob)
  }

  const AMP := 0x26
  const BACKSLASH := 0x5C
  const NEWLINE := 0x0A

  /** The replacement text for one match. */
  function Expand(r: Text, src: Text, h: Found): Text
    requires h.Hit? && h.start <= h.end <= |src| && HitCaps(h)
    decreases |r|
  {
    if r == [] then []
    else if r[0] == AMP then src[h.start..h.end] + Expand(r[1..], src, h)
    else if r[0] == BACKSLASH && 1 < |r| then Escape(r[1], src, h) + Expand(r[2..], src, h)
    else [r[0]] + Expand(r[1..], src, h)
  }

  function Escape(c: Byte, src: Text, h: Found): Text
    requires h.Hit? && h.start <= h.end <= |src| && HitCaps(h)
  {
    if 0x31 <= c <= 0x39 then
      var cap := h.caps[c - 0x31];
      if 0 <= cap.start && 0 <= cap.end then src[cap.start..cap.end] else []
    else if c == 0x6E then [NEWLINE]
    else [c]
  }

  predicate InSrc(src: Text, hs: seq<Found>) {
    forall k :: 0 <= k < |hs| ==> hs[k].Hit? && hs[k].start <= hs[k].end <= |src| && HitCaps(hs[k])
  }

  /** hs lie behind p, in order and without overlap. */
  predicate Ordered(hs: seq<Found>, p: nat) {
    if hs == [] then true else hs[0].Hit? && p <= hs[0].start <= hs[0].end && Ordered(hs[1..], hs[0].end)
  }

  /** src from p on with exactly the texts of hs replaced, every other byte kept in order. */
  function Rebuild(src: Text, p: nat, hs: seq<Found>, r: Text): Text
    requires p <= |src| && InSrc(src, hs) && Ordered(hs, p)
    decreases |hs|
  {
    if hs == [] then src[p..]
    else src[p..hs[0].start] + Expand(r, src, hs[0]) + Rebuild(src, hs[0].end, hs[1..], r)
  }

  // ---- its laws ----

  lemma {:induction false} HitsOrdered(code: Code, src: Text, si: nat)
    requires WellFormed(code) && si <= |src|
    ensures Ordered(Hits(code, src, si), si) && InSrc(src, Hits(code, src, si))
    decreases |src| - si
  {
    hide WellFormed, HitCaps, Moved, Search;
    var f := Search(code, src[si..], 0);
    if f.Hit? {
      var hs := Hits(code, src, si);
      if f.start < f.end {
        HitsOrdered(code, src, si + f.end);
        assert hs[1..] == Hits(code, src, si + f.end);
      } else if si + f.end < |src| {
        HitsOrdered(code, src, si + f.end + 1);
        assert hs[1..] == Hits(code, src, si + f.end + 1);
        OrderedLess(hs[1..], si + f.end + 1, si + f.end);
      }
    }
  }

  lemma OrderedLess(hs: seq<Found>, p: nat, q: nat)
    requires Ordered(hs, p) && q <= p
    ensures Ordered(hs, q)
  {
  }

  lemma {:induction false} PickOrdered(hs: seq<Found>, p: nat, m: nat, nth: nat, glob: bool)
    requires Ordered(hs, p)
    ensures Ordered(Pick(hs, m, nth, glob), p)
    decreases |hs|
  {
    if hs != [] {
      PickOrdered(hs[1..], hs[0].end, m + 1, nth, glob);
      var rest := Pick(hs[1..], m + 1, nth, glob);
      if Wanted(nth, glob, m) {
        assert Pick(hs, m, nth, glob)[1..] == rest;
      } else {
        assert Pick(hs, m, nth, glob) == rest;
        OrderedLess(rest, hs[0].end, p);
      }
    }
  }

  /** Bytes before the first replaced match are copied. */
  lemma {:induction false} RebuildSkip(src: Text, p: nat, q: nat, hs: seq<Found>, r: Text)
    requires p <= q <= |src| && InSrc(src, hs) && Ordered(hs, q)
    ensures Ordered(hs, p) && Rebuild(src, p, hs, r) == src[p..q] + Rebuild(src, q, hs, r)
  {
    hide Expand, HitCaps;
    OrderedLess(hs, q, p);
    if hs == [] {
      assert src[p..] == src[p..q] + src[q..];
    } else {
      var n := hs[0].start;
      assert src[p..n] == src[p..q] + src[q..n];
      var x, y := Expand(r, src, hs[0]), Rebuild(src, hs[0].end, hs[1..], r);
      assert src[p..q] + src[q..n] + x + y == src[p..q] + (src[q..n] + x + y);
    }
  }

  lemma AmpersandOne(src: Text, h: Found)
    requires h.Hit? && h.start <= h.end <= |src| && HitCaps(h)
    ensures Expand([AMP], src, h) == src[h.start..h.end]
  {
    assert [AMP][1..] == [];
  }

  /** Replacing matches by "&" changes nothing, whichever are picked. */
  lemma {:induction false} AmpersandIdentity(src: Text, p: nat, hs: seq<Found>)
    requires p <= |src| && InSrc(src, hs) && Ordered(hs, p)
    ensures Rebuild(src, p, hs, [AMP]) == src[p..]
    decreases |hs|
  {
    if hs != [] {
      var h := hs[0];
      AmpersandIdentity(src, h.end, hs[1..]);
      AmpersandOne(src, h);
      assert src[p..] == src[p..h.start] + src[h.start..h.end] + src[h.end..];
    }
  }

  /** The pattern space after s/re/r/ with its flags, from si on, m matches having been seen. */
  function Replaced(code: Code, src: Text, si: nat, m: nat, nth: nat, glob: bool, r: Text): Text
    requires WellFormed(code) && si <= |src|
  {
    HitsOrdered(code, src, si);
    PickOrdered(Hits(code, src, si), si, m + 1, nth, glob);
    Rebuild(src, si, Pick(Hits(code, src, si), m + 1, nth, glob), r)
  }

  /** s/re/&/ with any flags leaves every line alone. */
  lemma AmpersandLine(code: Code, src: Text, nth: nat, glob: bool)
    requires WellFormed(code)
    ensures Replaced(code, src, 0, 0, nth, glob, [AMP]) == src
  {
    HitsOrdered(code, src, 0);
    PickOrdered(Hits(code, src, 0), 0, 1, nth, glob);
    AmpersandIdentity(src, 0, Pick(Hits(code, src, 0), 1, nth, glob));
  }

  // ---- do_subst ----

  /** Copies b behind the oi bytes written so far, unless it does not fit. */
  method Emit(out: array<Byte>, oi: nat, b: Text) returns (ok: bool, oi': nat)
    requires oi <= out.Length
    modifies out
    ensures ok <==> oi + |b| <= out.Length
    ensures ok ==> oi' == oi + |b| && out[..oi'] == old(out[..oi]) + b
  {
    if out.Length < oi + |b| {
      return false, oi;
    }
    ghost var was := out[..oi];
    var k := 0;
    while k < |b|
      invariant 0 <= k <= |b| && out[..oi + k] == was + b[..k]
    {
      out[oi + k] := b[k];
      k := k + 1;
      assert b[..k] == b[..k - 1] + [b[k - 1]];
    }
    return true, oi + |b|;
  }

  /** The replacement loop: Expand, written piece by piece. */
  method EmitReplacement(r: Text, src: Text, h: Found, out: array<Byte>, oi: nat) returns (ok: bool, oi': nat)
    requires h.Hit? && h.start <= h.end <= |src| && HitCaps(h) && oi <= out.Length
    modifies out
    ensures ok <==> oi + |Expand(r, src, h)| <= out.Length
    ensures ok ==> oi' == oi + |Expand(r, src, h)| && out[..oi'] == old(out[..oi]) + Expand(r, src, h)
  {
    hide Escape;
    ok, oi' := true, oi;
    var k := 0;
    ghost var was := out[..oi];
    while k < |r|
      invariant 0 <= k <= |r| && oi <= oi' <= out.Length
      invariant out[..oi'] + Expand(r[k..], src, h) == was + Expand(r, src, h)
    {
      var piece := if r[k] == AMP then src[h.start..h.end]
                   else if r[k] == BACKSLASH && k + 1 < |r| then Escape(r[k + 1], src, h) else [r[k]];
      var width := if r[k] == BACKSLASH && k + 1 < |r| then 2 else 1;
      ExpandStep(r, k, src, h, piece, width);
      ghost var before, rest := out[..oi'], Expand(r[k + width..], src, h);
      assert before + (piece + rest) == before + piece + rest;
      ok, oi' := Emit(out, oi', piece);
      if !ok {
        assert |before| + |piece| <= |was| + |Expand(r, src, h)|;
        return;
      }
      k := k + width;
    }
    assert Expand(r[k..], src, h) == [];
  }

  lemma ExpandStep(r: Text, k: nat, src: Text, h: Found, piece: Text, width: nat)
    requires h.Hit? && h.start <= h.end <= |src| && HitCaps(h) && k < |r|
    requires piece == (if r[k] == AMP then src[h.start..h.end]
                       else if r[k] == BACKSLASH && k + 1 < |r| then Escape(r[k + 1], src, h) else [r[k]])
    requires width == if r[k] == BACKSLASH && k + 1 < |r| then 2 else 1
    ensures k + width <= |r| && Expand(r[k..], src, h) == piece + Expand(r[k + width..], src, h)
  {
    var t := r[k..];
    assert t[1..] == r[k + 1..];
    if 1 < |t| {
      assert t[2..] == r[k + 2..] && t[1] == r[k + 1];
    }
  }

  /** The match that a search of what is left finds, in positions of the whole line. */
  function First(code: Code, src: Text, si: nat): (h: Found)
    requires WellFormed(code) && si <= |src|
    ensures h.Hit? ==> si <= h.start <= h.end <= |src| && HitCaps(h)
  {
    match Search(code, src[si..], 0)
    case Nothing => Nothing
    case Hit(a, b, caps) => MovedOk(caps, b, si); Hit(si + a, si + b, Moved(caps, si))
  }

  /** Where the next search starts; beyond the line when there is none. */
  function After(h: Found): nat
    requires h.Hit?
  {
    if h.start < h.end then h.end else h.end + 1
  }

  /** What a match becomes. */
  function Becomes(r: Text, src: Text, h: Found, w: bool): Text
    requires h.Hit? && h.start <= h.end <= |src| && HitCaps(h)
  {
    if w then Expand(r, src, h) else src[h.start..h.end]
  }

  lemma ReplacedNone(code: Code, src: Text, si: nat, m: nat, nth: nat, glob: bool, r: Text)
    requires WellFormed(code) && si <= |src| && First(code, src, si) == Nothing
    ensures Replaced(code, src, si, m, nth, glob, r) == src[si..] && Pick(Hits(code, src, si), m + 1, nth, glob) == []
  {
  }

  /** One match of the loop: what stands before it, what it becomes, and the byte passed over after an empty one. */
  lemma ReplacedMore(code: Code, src: Text, si: nat, m: nat, nth: nat, glob: bool, r: Text)
    requires WellFormed(code) && si <= |src| && First(code, src, si).Hit? && After(First(code, src, si)) <= |src|
    ensures var h := First(code, src, si); var next := After(h); var w := Wanted(nth, glob, m + 1);
            && Replaced(code, src, si, m, nth, glob, r)
               == src[si..h.start] + Becomes(r, src, h, w) + src[h.end..next] + Replaced(code, src, next, m + 1, nth, glob, r)
            && |Pick(Hits(code, src, si), m + 1, nth, glob)|
               == (if w then 1 else 0) + |Pick(Hits(code, src, next), m + 2, nth, glob)|
  {
    hide WellFormed, Expand, Search, Hits, Wanted, Rebuild, Ordered, HitCaps, Pick, Moved;
    var h, next := First(code, src, si), After(First(code, src, si));
    var hs := Hits(code, src, si);
    HitsNext(code, src, si);
    HitsOrdered(code, src, si);
    HitsOrdered(code, src, next);
    PickOrdered(hs, si, m + 1, nth, glob);
    PickOrdered(hs[1..], next, m + 2, nth, glob);
    PickIs(hs, m + 1, nth, glob);
    RebuildStep(src, si, h, next, Pick(hs[1..], m + 2, nth, glob), r, Wanted(nth, glob, m + 1));
  }

  lemma ReplacedLast(code: Code, src: Text, si: nat, m: nat, nth: nat, glob: bool, r: Text)
    requires WellFormed(code) && si <= |src| && First(code, src, si).Hit? && |src| < After(First(code, src, si))
    ensures var h := First(code, src, si); var w := Wanted(nth, glob, m + 1);
            && Replaced(code, src, si, m, nth, glob, r) == src[si..h.start] + Becomes(r, src, h, w)
            && |Pick(Hits(code, src, si), m + 1, nth, glob)| == (if w then 1 else 0)
  {
    hide WellFormed, Expand, Search, Hits, Wanted, Rebuild, Ordered, HitCaps, Moved;
    var h, hs := First(code, src, si), Hits(code, src, si);
    HitsNext(code, src, si);
    assert hs == [h];
    HitsOrdered(code, src, si);
    PickOrdered(hs, si, m + 1, nth, glob);
    PickIs(hs, m + 1, nth, glob);
    NoneOrdered(h.end);
    RebuildNone(src, h.end, r);
    assert src[h.end..] == [] && src[h.end..h.end] == [];
    RebuildStep(src, si, h, h.end, [], r, Wanted(nth, glob, m + 1));
  }

  lemma NoneOrdered(p: nat)
    ensures Ordered([], p)
  {
  }

  lemma RebuildNone(src: Text, p: nat, r: Text)
    requires p <= |src|
    ensures InSrc(src, []) && Ordered([], p) && Rebuild(src, p, [], r) == src[p..]
  {
  }

  lemma RebuildStep(src: Text, p: nat, h: Found, next: nat, rest: seq<Found>, r: Text, w: bool)
    requires h.Hit? && p <= h.start <= h.end <= next <= |src| && HitCaps(h)
    requires InSrc(src, rest) && Ordered(rest, next)
    ensures var ps := if w then [h] + rest else rest;
            && InSrc(src, ps) && Ordered(ps, p)
            && Rebuild(src, p, ps, r) == src[p..h.start] + (if w then Expand(r, src, h) else src[h.start..h.end]) + src[h.end..next] + Rebuild(src, next, rest, r)
  {
    hide Expand;
    RebuildSkip(src, h.end, next, rest, r);
    if w {
      assert ([h] + rest)[1..] == rest;
    } else {
      RebuildSkip(src, p, h.end, rest, r);
      assert src[p..h.end] == src[p..h.start] + src[h.start..h.end];
    }
  }

  /** The first match, and the matches after it. */
  lemma HitsNext(code: Code, src: Text, si: nat)
    requires WellFormed(code) && si <= |src|
    ensures var h := First(code, src, si); var hs := Hits(code, src, si);
            if h.Hit? then
              && 0 < |hs| && hs[0] == h
              && (After(h) <= |src| ==> hs[1..] == Hits(code, src, After(h)))
              && (|src| < After(h) ==> |hs| == 1)
            else hs == []
  {
  }

  lemma PickIs(hs: seq<Found>, m: nat, nth: nat, glob: bool)
    requires hs != []
    ensures var rest := Pick(hs[1..], m + 1, nth, glob);
            Pick(hs, m, nth, glob) == if Wanted(nth, glob, m) then [hs[0]] + rest else rest
  {
  }

  /** After the first match without flags, nothing more is replaced. */
  lemma SingleRest(code: Code, src: Text, si: nat, m: nat, r: Text)
    requires WellFormed(code) && si <= |src| && 1 <= m
    ensures Replaced(code, src, si, m, 0, false, r) == src[si..] && Pick(Hits(code, src, si), m + 1, 0, false) == []
  {
    hide WellFormed, Hits, Pick, Ordered, InSrc, Rebuild;
    RebuildNone(src, si, r);
    PickNothing(Hits(code, src, si), m + 1);
    HitsOrdered(code, src, si);
    PickOrdered(Hits(code, src, si), si, m + 1, 0, false);
  }

  lemma {:induction false} PickNothing(hs: seq<Found>, m: nat)
    requires 2 <= m
    ensures Pick(hs, m, 0, false) == []
  {
    if hs != [] {
      PickNothing(hs[1..], m + 1);
    }
  }

  /** The loop keeps: what is written, then what is still to come, is the whole result. */
  ghost predicate Going(code: Code, src: Text, si: nat, m: nat, nth: nat, glob: bool, r: Text, written: Text, subs: nat) {
    && WellFormed(code) && si <= |src|
    && written + Replaced(code, src, si, m, nth, glob, r) == Replaced(code, src, 0, 0, nth, glob, r)
    && subs + |Pick(Hits(code, src, si), m + 1, nth, glob)| == |Pick(Hits(code, src, 0), 1, nth, glob)|
    && (nth == 0 && !glob ==> (subs == 0 <==> m == 0))
  }

  /** How do_subst tests whether match m is to be replaced. */
  predicate DoSub(nth: nat, glob: bool, m: nat, subs: nat) {
    !(nth > 0 && m != nth && !glob) && !(nth > 0 && glob && m < nth) && !(!glob && nth == 0 && subs > 0)
  }

  lemma DoSubIsWanted(nth: nat, glob: bool, m: nat, subs: nat)
    requires nth == 0 && !glob ==> subs == 0 && m == 0
    ensures DoSub(nth, glob, m + 1, subs) == Wanted(nth, glob, m + 1)
  {
  }

  /** Writing a match and what stands around it. */
  method EmitMatch(r: Text, src: Text, si: nat, h: Found, w: bool, out: array<Byte>, oi: nat) returns (ok: bool, oi': nat)
    requires h.Hit? && si <= h.start <= h.end <= |src| && HitCaps(h) && oi <= out.Length
    modifies out
    ensures var b := MatchText(r, src, si, h, w);
            && (ok <==> oi + |b| <= out.Length)
            && (ok ==> oi' == oi + |b| && out[..oi'] == old(out[..oi]) + b)
  {
    hide HitCaps, Expand, MatchText;
    ghost var was, a, m := out[..oi], src[si..h.start], Becomes(r, src, h, w);
    MatchParts(r, src, si, h, w);
    ok, oi' := Emit(out, oi, src[si..h.start]);
    if !ok {
      return;
    }
    if w {
      ok, oi' := EmitReplacement(r, src, h, out, oi');
    } else {
      ok, oi' := Emit(out, oi', src[h.start..h.end]);
    }
    if !ok {
      return;
    }
    assert out[..oi'] == was + a + m;
    if h.start == h.end && h.end < |src| {
      ok, oi' := Emit(out, oi', [src[h.end]]);
    }
    Append3(was, a, m);
  }

  lemma MatchParts(r: Text, src: Text, si: nat, h: Found, w: bool)
    requires h.Hit? && si <= h.start <= h.end <= |src| && HitCaps(h)
    ensures var b := src[si..h.start] + Becomes(r, src, h, w);
            MatchText(r, src, si, h, w) == if h.start == h.end && h.end < |src| then b + [src[h.end]] else b
  {
    if h.end < |src| {
      assert src[h.end..h.end + 1] == [src[h.end]];
    }
  }

  lemma Append3(x: Text, a: Text, b: Text)
    ensures x + a + b == x + (a + b) && forall c: Text :: x + a + b + c == x + (a + b + c)
  {
    forall c: Text ensures x + a + b + c == x + (a + b + c) {
    }
  }

  method DoSubst(code: Code, r: Text, nth: nat, glob: bool, src: Text, out: array<Byte>) returns (subs: int, outLen: nat)
    requires WellFormed(code)
    modifies out
    ensures var all := Replaced(code, src, 0, 0, nth, glob, r);
            if |all| <= out.Length then
              subs == |Pick(Hits(code, src, 0), 1, nth, glob)| && outLen == |all| && out[..outLen] == all
            else subs == -1
  {
    hide WellFormed, Replaced, Pick, Hits, Search, HitCaps, Wanted, Becomes, Moved, Going, DoSub;
    var oi, si, matches := 0, 0, 0;
    subs := 0;
    ghost var all := Replaced(code, src, 0, 0, nth, glob, r);
    GoingStart(code, src, nth, glob, r, out[..0]);
    var caps := new Cap[9](_ => Cap(-1, -1));
    while si <= |src|
      invariant 0 <= subs && 0 <= matches && 0 <= oi <= out.Length && 0 <= si <= |src|
      invariant nth == 0 && !glob ==> subs == 0
      invariant Going(code, src, si, matches, nth, glob, r, out[..oi], subs)
      decreases |src| + 1 - si
    {
      var start, end := RegexSearch(code, src[si..], caps);
      if start < 0 {
        break;
      }
      var h := Hit(si + start, si + end, Moved(caps[..], si));
      assert h == First(code, src, si);
      matches := matches + 1;
      var doSub := DoSub(nth, glob, matches, subs);
      ghost var was := out[..oi];
      var ok;
      ok, oi := EmitMatch(r, src, si, h, doSub, out, oi);
      GoingOn(code, src, si, matches - 1, nth, glob, r, was, subs);
      if !ok {
        return -1, 0;
      }
      subs := if doSub then subs + 1 else subs;
      if |src| < After(h) {
        return subs, oi;
      }
      si := After(h);
      if !glob && nth == 0 && subs > 0 {
        GoingSingle(code, src, si, matches, r, out[..oi], subs);
        break;
      }
    }
    if First(code, src, si).Nothing? {
      GoingNone(code, src, si, matches, nth, glob, r, out[..oi], subs);
    }
    var ok;
    ok, oi := Emit(out, oi, src[si..]);
    return if ok then subs else -1, oi;
  }

  lemma GoingStart(code: Code, src: Text, nth: nat, glob: bool, r: Text, written: Text)
    requires WellFormed(code) && written == []
    ensures Going(code, src, 0, 0, nth, glob, r, written, 0)
  {
    hide Replaced, Hits, Pick, WellFormed;
  }

  /** What EmitMatch writes for the next match. */
  function MatchText(r: Text, src: Text, si: nat, h: Found, w: bool): Text
    requires h.Hit? && si <= h.start <= h.end <= |src| && HitCaps(h)
  {
    src[si..h.start] + Becomes(r, src, h, w) + src[h.end..if After(h) <= |src| then After(h) else h.end]
  }

  lemma GoingOn(code: Code, src: Text, si: nat, m: nat, nth: nat, glob: bool, r: Text, written: Text, subs: nat)
    requires Going(code, src, si, m, nth, glob, r, written, subs) && First(code, src, si).Hit?
    requires nth == 0 && !glob ==> subs == 0
    ensures var h := First(code, src, si); var w := DoSub(nth, glob, m + 1, subs);
            var t := written + MatchText(r, src, si, h, w); var n := if w then subs + 1 else subs;
            && |t| <= |Replaced(code, src, 0, 0, nth, glob, r)|
            && (After(h) <= |src| ==> Going(code, src, After(h), m + 1, nth, glob, r, t, n))
            && (|src| < After(h) ==> t == Replaced(code, src, 0, 0, nth, glob, r) && n == |Pick(Hits(code, src, 0), 1, nth, glob)|)
  {
    hide Replaced, Hits, Pick, WellFormed, Search, HitCaps, Becomes;
    DoSubIsWanted(nth, glob, m, subs);
    var h := First(code, src, si);
    if After(h) <= |src| {
      ReplacedMore(code, src, si, m, nth, glob, r);
      var a, b := MatchText(r, src, si, h, Wanted(nth, glob, m + 1)), Replaced(code, src, After(h), m + 1, nth, glob, r);
      assert written + (a + b) == written + a + b;
    } else {
      ReplacedLast(code, src, si, m, nth, glob, r);
      assert src[h.end..h.end] == [];
    }
  }

  lemma GoingNone(code: Code, src: Text, si: nat, m: nat, nth: nat, glob: bool, r: Text, written: Text, subs: nat)
    requires Going(code, src, si, m, nth, glob, r, written, subs) && First(code, src, si).Nothing?
    ensures written + src[si..] == Replaced(code, src, 0, 0, nth, glob, r) && subs == |Pick(Hits(code, src, 0), 1, nth, glob)|
  {
    hide WellFormed, Search;
    ReplacedNone(code, src, si, m, nth, glob, r);
  }

  lemma GoingSingle(code: Code, src: Text, si: nat, m: nat, r: Text, written: Text, subs: nat)
    requires Going(code, src, si, m, 0, false, r, written, subs) && 1 <= m
    ensures written + src[si..] == Replaced(code, src, 0, 0, 0, false, r) && subs == |Pick(Hits(code, src, 0), 1, 0, false)|
  {
    hide WellFormed, Search;
    SingleRest(code, src, si, m, r);
  }
}
