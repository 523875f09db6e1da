/** path_normalize: lexical normalisation of a path, in place or into another buffer. */
module PathNormalize {
  import opened Bytes

  const SLASH := 0x2F
  const DOT := 0x2E
  const NAME_MAX := 63       // VFS_NAME_MAX

  type Text = seq<Byte>

  datatype Result = Ok(path: Text) | EINVAL | ENAMETOOLONG

  // ---- the definition: a stack of components ----

  function SkipSlashes(s: Text, i: nat): (j: nat)
    requires i <= |s|
    ensures i <= j <= |s| && (j < |s| ==> s[j] != SLASH) && forall k :: i <= k < j ==> s[k] == SLASH
    decreases |s| - i
  {
    if i < |s| && s[i] == SLASH then SkipSlashes(s, i + 1) else i
  }

  function NameEnd(s: Text, i: nat): (j: nat)
    requires i <= |s|
    ensures i <= j <= |s| && (j < |s| ==> s[j] == SLASH) && forall k :: i <= k < j ==> s[k] != SLASH
    decreases |s| - i
  {
    if i < |s| && s[i] != SLASH then NameEnd(s, i + 1) else i
  }

  /** The components of s from i on. */
  function Comps(s: Text, i: nat): seq<Text>
    requires i <= |s|
    decreases |s| - i
  {
    var a := SkipSlashes(s, i);
    if a == |s| then [] else [s[a..NameEnd(s, a)]] + Comps(s, NameEnd(s, a))
  }

  predicate IsDot(c: Text) { c == [DOT] }
  predicate IsDotDot(c: Text) { c == [DOT, DOT] }

  /** "/a/b" for [a, b]. */
  function Spell(st: seq<Text>): Text {
    if st == [] then [] else Spell(st[..|st| - 1]) + [SLASH] + st[|st| - 1]
  }

  /** Going through the components with the stack: "." is nothing, ".." pops, a name is pushed if it fits. */
  function Run(st: seq<Text>, cs: seq<Text>, cap: nat): Result
    decreases |cs|
  {
    if cs == [] then Ok(if st == [] then [SLASH] else Spell(st))
    else if IsDot(cs[0]) then Run(st, cs[1..], cap)
    else if IsDotDot(cs[0]) then Run(if st == [] then [] else st[..|st| - 1], cs[1..], cap)
    else if NAME_MAX < |cs[0]| || cap <= |Spell(st)| + 1 + |cs[0]| then ENAMETOOLONG
    else Run(st + [cs[0]], cs[1..], cap)
  }

  /** What path_normalize computes of the path s for a buffer of cap bytes. */
  function Normal(s: Text, cap: nat): Result {
    if s == [] || s[0] != SLASH || cap < 2 then EINVAL else Run([], Comps(s, 0), cap)
  }

  // ---- the components of a path put together ----

  lemma CompsStep(s: Text, i: nat, p: nat, e: nat)
    requires i <= p < e <= |s| && (forall k :: i <= k < p ==> s[k] == SLASH)
    requires (forall k :: p <= k < e ==> s[k] != SLASH) && (e < |s| ==> s[e] == SLASH)
    ensures Comps(s, i) == [s[p..e]] + Comps(s, e)
  {
    SkipAt(s, i, p);
    EndAt(s, p, e);
    hide SkipSlashes, NameEnd;
  }

  /** Slashes before a component do not matter. */
  lemma CompsSkip(s: Text, i: nat, j: nat)
    requires i <= j <= |s| && forall k :: i <= k < j ==> s[k] == SLASH
    ensures Comps(s, i) == Comps(s, j)
  {
    var p := SkipSlashes(s, j);
    SkipAt(s, i, p);
    hide SkipSlashes, NameEnd;
  }

  /** Behind a slash the components begin anew. */
  lemma {:induction false} CompsJoin(a: Text, b: Text, i: nat)
    requires i <= |a|
    ensures Comps(a + [SLASH] + b, i) == Comps(a, i) + Comps(b, 0)
    decreases |a| - i
  {
    hide Comps;
    var s := a + [SLASH] + b;
    var p := SkipSlashes(a, i);
    hide SkipSlashes;
    if p == |a| {
      CompsSkip(a, i, p);
      CompsEnd(a);
      CompsSkip(s, i, p + 1);
      CompsShift(a + [SLASH], b, 0);
    } else {
      var e := NameEnd(a, p);
      NameThere(a, p);
      assert s[p..e] == a[p..e];
      CompsStep(a, i, p, e);
      CompsStep(s, i, p, e);
      CompsJoin(a, b, e);
    }
  }

  lemma CompsEnd(s: Text)
    ensures Comps(s, |s|) == []
  {
  }

  lemma NameThere(s: Text, p: nat)
    requires p < |s| && s[p] != SLASH
    ensures p < NameEnd(s, p)
  {
  }

  /** What stands before does not matter. */
  lemma {:induction false} CompsShift(a: Text, b: Text, i: nat)
    requires i <= |b|
    ensures Comps(a + b, |a| + i) == Comps(b, i)
    decreases |b| - i
  {
    hide Comps;
    var s := a + b;
    var p := SkipSlashes(b, i);
    hide SkipSlashes;
    if p < |b| {
      var e := NameEnd(b, p);
      NameThere(b, p);
      CompsStep(b, i, p, e);
      CompsStep(s, |a| + i, |a| + p, |a| + e);
      assert s[|a| + p..|a| + e] == b[p..e];
      CompsShift(a, b, e);
    } else {
      CompsSkip(b, i, p);
      CompsSkip(s, |a| + i, |a| + p);
      CompsEnd(b);
      CompsEnd(s);
    }
  }

  /** A text without slashes is one component; the empty text and a slash have none. */
  lemma CompsOne(c: Text)
    requires SLASH !in c
    ensures Comps(c, 0) == (if c == [] then [] else [c]) && Comps([SLASH], 0) == []
  {
    SkipAt(c, 0, 0);
    SkipAt([SLASH], 0, 1);
    if c != [] {
      EndAt(c, 0, |c|);
      assert c[0..|c|] == c;
      SkipAt(c, |c|, |c|);
    }
  }

  // ---- what is left of the components, read from the right ----

  /** Each ".." takes away the nearest name to its left that is not taken away yet; up of them are still to come from
      the right. */
  function Kept(cs: seq<Text>, up: nat): seq<Text> {
    if cs == [] then []
    else
      var c, init := cs[|cs| - 1], cs[..|cs| - 1];
      if c == [0x2E] then Kept(init, up)
      else if c == [0x2E, 0x2E] then Kept(init, up + 1)
      else if 0 < up then Kept(init, up - 1)
      else Kept(init, 0) + [c]
  }

  predicate IsName(c: Text) { c != [0x2E] && c != [0x2E, 0x2E] }

  lemma {:induction false} KeptDot(a: seq<Text>, b: seq<Text>, up: nat)
    ensures Kept(a + [[0x2E]] + b, up) == Kept(a + b, up)
    decreases |b|
  {
    var s, t := a + [[0x2E]] + b, a + b;
    if b == [] {
      assert s[..|s| - 1] == a && t == a;
    } else {
      var n := |b| - 1;
      assert s[..|s| - 1] == a + [[0x2E]] + b[..n] && t[..|t| - 1] == a + b[..n];
      KeptDot(a, b[..n], up);
      KeptDot(a, b[..n], up + 1);
      KeptDot(a, b[..n], 0);
      if 0 < up {
        KeptDot(a, b[..n], up - 1);
      }
    }
  }

  lemma {:induction false} KeptUp(a: seq<Text>, b: seq<Text>, up: nat)
    requires forall k :: 0 <= k < |a| ==> IsName(a[k])
    ensures Kept(a + [[0x2E, 0x2E]] + b, up) == Kept((if a == [] then [] else a[..|a| - 1]) + b, up)
    decreases |b|
  {
    var a' := if a == [] then [] else a[..|a| - 1];
    var s, t := a + [[0x2E, 0x2E]] + b, a' + b;
    if b == [] {
      assert s[..|s| - 1] == a && t == a';
    } else {
      var n := |b| - 1;
      assert s[..|s| - 1] == a + [[0x2E, 0x2E]] + b[..n] && t[..|t| - 1] == a' + b[..n];
      KeptUp(a, b[..n], up);
      KeptUp(a, b[..n], up + 1);
      KeptUp(a, b[..n], 0);
      if 0 < up {
        KeptUp(a, b[..n], up - 1);
      }
    }
  }

  lemma {:induction false} KeptNames(st: seq<Text>)
    requires forall k :: 0 <= k < |st| ==> IsName(st[k])
    ensures Kept(st, 0) == st
  {
    if st != [] {
      var c, init := st[|st| - 1], st[..|st| - 1];
      KeptNames(init);
      assert IsName(c) && st == init + [c];
      assert Kept(st, 0) == Kept(init, 0) + [c];
    }
  }

  /** Some name is too long, or does not fit behind what is left of those before it. */
  ghost predicate TooLong(st: seq<Text>, cs: seq<Text>, cap: nat) {
    exists k :: 0 <= k < |cs| && TooLongAt(st, cs, k, cap)
  }

  predicate TooLongAt(st: seq<Text>, cs: seq<Text>, k: nat, cap: nat)
    requires k < |cs|
  {
    IsName(cs[k]) && (63 < |cs[k]| || cap <= |Spell(Kept(st + cs[..k], 0))| + 1 + |cs[k]|)
  }

  /** The stack holds what reading from the right leaves; the run fails exactly when a name does not fit. */
  lemma {:induction false} RunIs(st: seq<Text>, cs: seq<Text>, cap: nat)
    requires forall k :: 0 <= k < |st| ==> IsName(st[k])
    ensures Run(st, cs, cap) ==
      if TooLong(st, cs, cap) then ENAMETOOLONG
      else var out := Kept(st + cs, 0); Ok(if out == [] then [SLASH] else Spell(out))
    decreases |cs|
  {
    hide Spell;
    KeptNames(st);
    if cs == [] {
      assert st + cs == st;
    } else {
      var c, rest := cs[0], cs[1..];
      assert cs == [c] + rest && st + cs[..0] == st;
      if IsDot(c) {
        RunIs(st, rest, cap);
        assert st + cs == st + [[0x2E]] + rest;
        KeptDot(st, rest, 0);
      } else if IsDotDot(c) {
        var st' := if st == [] then [] else st[..|st| - 1];
        RunIs(st', rest, cap);
        assert st + cs == st + [[0x2E, 0x2E]] + rest;
        KeptUp(st, rest, 0);
      } else if !(NAME_MAX < |c| || cap <= |Spell(st)| + 1 + |c|) {
        RunIs(st + [c], rest, cap);
        assert st + cs == st + [c] + rest;
      } else {
        assert TooLongAt(st, cs, 0, cap);
      }
      TooLongRest(st, cs, cap);
    }
  }

  /** What path_normalize leaves of an absolute path: the names that no ".." takes away, each behind a slash. */
  lemma NormalLeaves(s: Text, cap: nat)
    requires s != [] && s[0] == 0x2F && 2 <= cap
    ensures Normal(s, cap) ==
      if TooLong([], Comps(s, 0), cap) then ENAMETOOLONG
      else var out := Kept(Comps(s, 0), 0); Ok(if out == [] then [0x2F] else Spell(out))
  {
    RunIs([], Comps(s, 0), cap);
    assert [] + Comps(s, 0) == Comps(s, 0);
  }

  lemma TooLongRest(st: seq<Text>, cs: seq<Text>, cap: nat)
    requires cs != [] && forall k :: 0 <= k < |st| ==> IsName(st[k])
    ensures var c, rest := cs[0], cs[1..];
            var st' := if c == [0x2E] then st else if c != [0x2E, 0x2E] then st + [c] else if st == [] then [] else st[..|st| - 1];
            TooLong(st, cs, cap) <==> TooLongAt(st, cs, 0, cap) || TooLong(st', rest, cap)
  {
    var c, rest := cs[0], cs[1..];
    var st' := if c == [0x2E] then st else if c != [0x2E, 0x2E] then st + [c] else if st == [] then [] else st[..|st| - 1];
    forall k | 0 <= k < |rest| ensures TooLongAt(st', rest, k, cap) <==> TooLongAt(st, cs, k + 1, cap) {
      var b := rest[..k];
      assert cs[..k + 1] == [c] + b;
      if c == [0x2E] {
        assert st + cs[..k + 1] == st + [[0x2E]] + b;
        KeptDot(st, b, 0);
      } else if c == [0x2E, 0x2E] {
        assert st + cs[..k + 1] == st + [[0x2E, 0x2E]] + b;
        KeptUp(st, b, 0);
      } else {
        assert st + cs[..k + 1] == st + [c] + b;
      }
    }
    hide TooLongAt;
    if TooLong(st, cs, cap) {
      var k :| 0 <= k < |cs| && TooLongAt(st, cs, k, cap);
      assert 0 < k ==> TooLongAt(st', rest, k - 1, cap);
    }
    if TooLong(st', rest, cap) {
      var k :| 0 <= k < |rest| && TooLongAt(st', rest, k, cap);
      assert TooLongAt(st, cs, k + 1, cap);
    }
  }

  // ---- what the result looks like ----

  /** A component that normalisation leaves in place. */
  predicate Proper(c: Text) {
    c != [] && SLASH !in c && !IsDot(c) && !IsDotDot(c) && |c| <= NAME_MAX
  }

  predicate AllProper(st: seq<Text>) {
    forall k :: 0 <= k < |st| ==> Proper(st[k])
  }

  lemma SkipAt(s: Text, i: nat, j: nat)
    requires i <= j <= |s| && (j < |s| ==> s[j] != SLASH) && forall k :: i <= k < j ==> s[k] == SLASH
    ensures SkipSlashes(s, i) == j
    decreases |s| - i
  {
  }

  lemma EndAt(s: Text, i: nat, j: nat)
    requires i <= j <= |s| && (j < |s| ==> s[j] == SLASH) && forall k :: i <= k < j ==> s[k] != SLASH
    ensures NameEnd(s, i) == j
    decreases |s| - i
  {
  }

  /** The components of a spelled path, from the k-th on. */
  lemma {:induction false} CompsOfSpell(st: seq<Text>, k: nat)
    requires AllProper(st) && k <= |st|
    ensures |Spell(st[..k])| <= |Spell(st)| && Comps(Spell(st), |Spell(st[..k])|) == st[k..]
    decreases |st| - k
  {
    hide Spell, Comps;
    SpellPrefix(st, k);
    var s, i := Spell(st), |Spell(st[..k])|;
    if k == |st| {
      assert st[..k] == st;
      CompsEnd(s);
    } else {
      SpellAt(st, k);
      var c := st[k];
      var j := i + 1 + |c|;
      assert Proper(c);
      forall m | i + 1 <= m < j ensures s[m] != SLASH {
        assert s[m] == s[i + 1..j][m - (i + 1)];
      }
      CompsStep(s, i, i + 1, j);
      CompsOfSpell(st, k + 1);
      assert st[k..] == [c] + st[k + 1..];
    }
  }

  /** Where the k-th component stands. */
  lemma SpellAt(st: seq<Text>, k: nat)
    requires AllProper(st) && k < |st|
    ensures var s, i := Spell(st), |Spell(st[..k])|; var j := i + 1 + |st[k]|;
            && j == |Spell(st[..k + 1])| && i < j <= |s| && s[i] == SLASH && s[i + 1..j] == st[k]
            && (if k + 1 < |st| then j < |s| && s[j] == SLASH else j == |s|)
            && s[i + 1] != SLASH
  {
    SpellPrefix(st, k);
    SpellPrefix(st, k + 1);
    assert st[..k + 1][..k] == st[..k];
    var s, i := Spell(st), |Spell(st[..k])|;
    var j := i + 1 + |st[k]|;
    assert Spell(st[..k + 1]) == Spell(st[..k]) + [SLASH] + st[k];
    assert s[..j][i] == SLASH && s[..j][i + 1..j] == st[k];
    assert s[i + 1] == st[k][0];
    if k + 1 < |st| {
      SpellPrefix(st, k + 2);
      assert st[..k + 2][..k + 1] == st[..k + 1];
      assert Spell(st[..k + 2]) == Spell(st[..k + 1]) + [SLASH] + st[k + 1];
      assert s[..|Spell(st[..k + 2])|][j] == SLASH;
    } else {
      assert st[..k + 1] == st;
    }
  }

  lemma {:induction false} SpellPrefix(st: seq<Text>, k: nat)
    requires k <= |st|
    ensures |Spell(st[..k])| <= |Spell(st)| && Spell(st)[..|Spell(st[..k])|] == Spell(st[..k])
    decreases |st| - k
  {
    if k < |st| {
      SpellPrefix(st, k + 1);
      assert st[..k + 1][..k] == st[..k];
    } else {
      assert st[..k] == st;
    }
  }

  /** Components of any path hold no slash and are not empty. */
  lemma {:induction false} CompsClean(s: Text, i: nat)
    requires i <= |s|
    ensures forall k :: 0 <= k < |Comps(s, i)| ==> Comps(s, i)[k] != [] && SLASH !in Comps(s, i)[k]
    decreases |s| - i
  {
    var a := SkipSlashes(s, i);
    if a < |s| {
      CompsClean(s, NameEnd(s, a));
    }
  }

  /** A successful run ends in a stack of proper names. */
  lemma {:induction false} RunProper(st: seq<Text>, cs: seq<Text>, cap: nat) returns (out: seq<Text>)
    requires AllProper(st) && (st != [] ==> |Spell(st)| < cap) && 2 <= cap
    requires forall k :: 0 <= k < |cs| ==> cs[k] != [] && SLASH !in cs[k]
    requires Run(st, cs, cap).Ok?
    ensures AllProper(out) && (out != [] ==> |Spell(out)| < cap)
    ensures Run(st, cs, cap) == Ok(if out == [] then [SLASH] else Spell(out))
    decreases |cs|
  {
    if cs == [] {
      out := st;
    } else if IsDot(cs[0]) {
      out := RunProper(st, cs[1..], cap);
    } else if IsDotDot(cs[0]) {
      out := RunProper(if st == [] then [] else st[..|st| - 1], cs[1..], cap);
    } else {
      assert (st + [cs[0]])[..|st|] == st;
      out := RunProper(st + [cs[0]], cs[1..], cap);
    }
  }

  /** Proper names are pushed one after the other. */
  lemma {:induction false} RunPushes(st: seq<Text>, k: nat, cap: nat)
    requires AllProper(st) && k <= |st| && (st != [] ==> |Spell(st)| < cap)
    ensures Run(st[..k], st[k..], cap) == Ok(if st == [] then [SLASH] else Spell(st))
    decreases |st| - k
  {
    if k < |st| {
      SpellPrefix(st, k + 1);
      assert st[..k + 1][..k] == st[..k] && st[..k] + [st[k]] == st[..k + 1] && st[k..][1..] == st[k + 1..];
      RunPushes(st, k + 1, cap);
    } else {
      assert st[..k] == st;
    }
  }

  /** A normal path: "/" alone, or proper names each behind one slash, shorter than the buffer.
      It has no empty, "." or ".." component. */
  lemma NormalIsClean(s: Text, cap: nat)
    requires Normal(s, cap).Ok?
    ensures var t := Normal(s, cap).path;
            && 1 <= |t| < cap && t[0] == SLASH && AllProper(Comps(t, 0))
            && (t == [SLASH] || t == Spell(Comps(t, 0)))
  {
    CompsClean(s, 0);
    var out := RunProper([], Comps(s, 0), cap);
    var t := Normal(s, cap).path;
    if out == [] {
      SkipAt([SLASH], 0, 1);
    } else {
      CompsOfSpell(out, 0);
      assert out[..0] == [] && out[0..] == out;
      SpellPrefix(out, 1);
      assert out[..1][..0] == out[..0];
      assert Spell(out[..1])[0] == SLASH;
    }
  }

  /** Normalising again changes nothing. */
  lemma NormalIdempotent(s: Text, cap: nat)
    requires Normal(s, cap).Ok?
    ensures Normal(Normal(s, cap).path, cap) == Normal(s, cap)
  {
    NormalIsClean(s, cap);
    CompsClean(s, 0);
    var out := RunProper([], Comps(s, 0), cap);
    if out == [] {
      SkipAt([SLASH], 0, 1);
    } else {
      CompsOfSpell(out, 0);
      assert out[..0] == [] && out[0..] == out;
      RunPushes(out, 0, cap);
    }
  }

  // ---- the function in C ----

  /** What stands in memory is the C string s. */
  ghost predicate Holds(b: seq<Byte>, s: Text) {
    |s| < |b| && b[..|s|] == s && b[|s|] == 0 && 0 !in s
  }

  /** What is still to be read of s, from p on. */
  ghost predicate Unread(b: seq<Byte>, s: Text, p: nat) {
    |s| < |b| && b[|s|] == 0 && forall k :: p <= k < |s| ==> b[k] == s[k] != 0
  }

  /** Names as they stand on the stack. */
  predicate Named(st: seq<Text>) {
    forall k :: 0 <= k < |st| ==> SLASH !in st[k]
  }

  lemma StartReading(b: seq<Byte>, s: Text)
    requires Holds(b, s)
    ensures Unread(b, s, 0) && 0 !in s
  {
    assert forall k :: 0 <= k < |s| ==> b[k] == b[..|s|][k] && s[k] in s;
  }

  /** What one component does to the run. */
  lemma RunComp(st: seq<Text>, s: Text, p: nat, a: nat, b: nat, cap: nat)
    requires p <= a < b <= |s| && SkipSlashes(s, p) == a && NameEnd(s, a) == b
    ensures Comps(s, p) == [s[a..b]] + Comps(s, b)
    ensures var c := s[a..b];
            Run(st, Comps(s, p), cap)
            == if IsDot(c) then Run(st, Comps(s, b), cap)
               else if IsDotDot(c) then Run(if st == [] then [] else st[..|st| - 1], Comps(s, b), cap)
               else if NAME_MAX < |c| || cap <= |Spell(st)| + 1 + |c| then ENAMETOOLONG
               else Run(st + [c], Comps(s, b), cap)
  {
    var c := s[a..b];
    assert ([c] + Comps(s, b))[1..] == Comps(s, b);
  }

  lemma RunEnd(st: seq<Text>, s: Text, p: nat, cap: nat)
    requires p <= |s| && SkipSlashes(s, p) == |s|
    ensures Run(st, Comps(s, p), cap) == Ok(if st == [] then [SLASH] else Spell(st))
  {
  }

  /** Removing "/name" from the end of a spelled stack. */
  method Pop(buf: array<Byte>, len0: nat, ghost st: seq<Text>) returns (len: nat)
    requires len0 <= buf.Length && buf[..len0] == Spell(st) && Named(st)
    ensures len <= len0 && buf[..len] == Spell(if st == [] then [] else st[..|st| - 1])
  {
    len := len0;
    ghost var n := if st == [] then 0 else |Spell(st[..|st| - 1])|;
    while 0 < len && buf[len - 1] != SLASH
      invariant 0 <= len <= len0 && (st != [] ==> n < len)
      decreases len
    {
      if st != [] {
        PopSlash(st, buf[..len0], len);
      }
      len := len - 1;
    }
    if st != [] {
      PopAt(st, buf[..len0], len);
    }
    if 0 < len {
      len := len - 1;
    }
    if st != [] {
      assert buf[..len] == buf[..len0][..len];
    }
  }

  lemma PopSlash(st: seq<Text>, b: Text, len: nat)
    requires st != [] && b == Spell(st) && |Spell(st[..|st| - 1])| < len <= |b| && b[len - 1] != SLASH
    ensures |Spell(st[..|st| - 1])| + 1 < len
  {
  }

  lemma PopAt(st: seq<Text>, b: Text, len: nat)
    requires st != [] && b == Spell(st) && Named(st) && |Spell(st[..|st| - 1])| < len <= |b| && b[len - 1] == SLASH
    ensures len == |Spell(st[..|st| - 1])| + 1
    ensures b[..len - 1] == Spell(st[..|st| - 1])
  {
    var n, c := |Spell(st[..|st| - 1])|, st[|st| - 1];
    assert forall m :: n + 1 <= m < |b| ==> b[m] == c[m - n - 1];
  }

  /** memmove of a component to the (earlier or other) place where it goes. */
  method Move(path: array<Byte>, buf: array<Byte>, a: nat, b: nat, to: nat, ghost s: Text, cap: nat)
    requires a <= b <= |s| && to <= a && to + (b - a) <= cap <= buf.Length && Unread(path[..], s, a)
    modifies buf
    ensures buf[..to + (b - a)] == old(buf[..to]) + s[a..b]
    ensures Unread(path[..], s, b)
  {
    ghost var was := buf[..to];
    var k := 0;
    while k < b - a
      invariant 0 <= k <= b - a && buf[..to + k] == was + s[a..a + k]
      invariant Unread(path[..], s, a + k)
    {
      assert path[a + k] == s[a + k];
      buf[to + k] := path[a + k];
      k := k + 1;
      assert s[a..a + k] == s[a..a + k - 1] + [s[a + k - 1]];
    }
  }

  /** The next component: past the slashes, up to the next one. */
  method Scan(path: array<Byte>, p: nat, ghost s: Text) returns (a: nat, b: nat)
    requires p <= |s| && Unread(path[..], s, p)
    ensures p <= a <= b <= |s| < path.Length && SkipSlashes(s, p) == a && NameEnd(s, a) == b
    ensures path[a] == 0 <==> a == |s|
    ensures a < |s| ==> a < b
  {
    a := p;
    while path[a] == SLASH
      invariant p <= a <= |s| && Unread(path[..], s, a) && forall k :: p <= k < a ==> s[k] == SLASH
      decreases |s| - a
    {
      a := a + 1;
    }
    SkipAt(s, p, a);
    b := a;
    while path[b] != 0 && path[b] != SLASH
      invariant a <= b <= |s| && forall k :: a <= k < b ==> s[k] != SLASH
      decreases |s| - b
    {
      b := b + 1;
    }
    EndAt(s, a, b);
  }

  /** path may be buf itself: what is written stays behind what is read. */
  method Normalize(path: array<Byte>, buf: array<Byte>, cap: nat, ghost s: Text) returns (r: Result, len: nat)
    requires Holds(path[..], s) && cap <= buf.Length
    modifies buf
    ensures match Normal(s, cap)
            case Ok(t) => r.Ok? && len == |t| && Holds0(buf[..], t)
            case e => r == e
  {
    hide Spell, Run, Comps, SkipSlashes, NameEnd, Normal, Holds, IsDot, IsDotDot;
    StartReading(path[..], s);
    NormalIs(path[..], s, cap);
    len := 0;
    r := Ok([]);
    if path[0] != SLASH || cap < 2 {
      return EINVAL, 0;
    }
    var p := 0;
    ghost var st: seq<Text> := [];
    SpellNone();
    assert buf[..0] == [];
    while path[p] != 0
      invariant 0 <= len <= p <= |s| && len < cap && (p < |s| ==> s[p] == SLASH)
      invariant Unread(path[..], s, p) && Named(st) && buf[..len] == Spell(st)
      invariant Run(st, Comps(s, p), cap) == Run([], Comps(s, 0), cap)
      decreases |s| - p
    {
      var a, b := Scan(path, p, s);
      if path[a] == 0 {
        break;
      }
      RunComp(st, s, p, a, b, cap);
      NameOf(path[..], s, a, b);
      if b - a == 1 && path[a] == DOT {
        p := b;
        continue;
      }
      if b - a == 2 && path[a] == DOT && path[a + 1] == DOT {
        len := Pop(buf, len, st);
        ghost var st' := if st == [] then [] else st[..|st| - 1];
        ghost var text := buf[..len];
        buf[len] := 0;
        assert buf[..len] == text;
        st := st';
        p := b;
        continue;
      }
      if NAME_MAX < b - a || cap <= len + 1 + (b - a) {
        return ENAMETOOLONG, 0;
      }
      ghost var text := buf[..len];
      buf[len] := SLASH;
      assert buf[..len + 1] == text + [SLASH];
      Move(path, buf, a, b, len + 1, s, cap);
      SpellPush(st, s[a..b]);
      len := len + 1 + (b - a);
      st := st + [s[a..b]];
      p := b;
    }
    SkipEnd(s, p);
    RunEnd(st, s, p, cap);
    ghost var text := buf[..len];
    buf[len] := 0;
    assert buf[..len] == text;
    SpellEmpty(st);
    if len == 0 {
      buf[0] := SLASH;
      buf[1] := 0;
      len := 1;
      assert buf[..1] == [SLASH];
    }
  }

  lemma NormalIs(b: seq<Byte>, s: Text, cap: nat)
    requires Unread(b, s, 0) && 0 !in s
    ensures b[0] != SLASH || cap < 2 ==> Normal(s, cap) == EINVAL
    ensures b[0] == SLASH && 2 <= cap ==> Normal(s, cap) == Run([], Comps(s, 0), cap) && 0 < |s| && s[0] == SLASH
  {
    assert s != [] ==> b[0] == s[0];
  }

  /** The C string t stands at the start of the buffer. */
  ghost predicate Holds0(b: seq<Byte>, t: Text) {
    |t| < |b| && b[..|t|] == t && b[|t|] == 0
  }

  lemma NameOf(b: seq<Byte>, s: Text, i: nat, j: nat)
    requires Unread(b, s, i) && i < j <= |s| && forall k :: i <= k < j ==> s[k] != SLASH
    ensures IsDot(s[i..j]) <==> j - i == 1 && b[i] == DOT
    ensures IsDotDot(s[i..j]) <==> j - i == 2 && b[i] == DOT && b[i + 1] == DOT
    ensures SLASH !in s[i..j]
  {
  }

  lemma SkipEnd(s: Text, p: nat)
    requires p <= |s|
    ensures p == |s| ==> SkipSlashes(s, p) == |s|
  {
  }

  lemma SpellNone()
    ensures Spell([]) == []
  {
  }

  lemma SpellEmpty(st: seq<Text>)
    ensures Spell(st) == [] <==> st == []
  {
  }

  lemma SpellPush(st: seq<Text>, c: Text)
    ensures Spell(st + [c]) == Spell(st) + [SLASH] + c
  {
    assert (st + [c])[..|st|] == st;
  }

  // ---- absolutize ----

  /** The path that is normalised: a relative one is put behind the current directory. */
  function Absolute(path: Text, cwd: Text): Text {
    if path != [] && path[0] == SLASH then path
    else if |cwd| == 1 then [SLASH] + path
    else cwd + [SLASH] + path
  }

  /** Its components: those of the current directory, if the path is relative, and then those of the path. */
  lemma AbsoluteComps(path: Text, cwd: Text)
    requires cwd == [SLASH] || 1 < |cwd|
    ensures Comps(Absolute(path, cwd), 0) == (if path != [] && path[0] == 0x2F then [] else Comps(cwd, 0)) + Comps(path, 0)
    ensures |Absolute(path, cwd)| == |path| + if path != [] && path[0] == 0x2F then 0 else if |cwd| == 1 then 1 else |cwd| + 1
  {
    hide Comps;
    if path == [] || path[0] != SLASH {
      if |cwd| == 1 {
        CompsJoin([], path, 0);
        CompsOne([]);
        assert [] + [SLASH] + path == [SLASH] + path;
      } else {
        CompsJoin(cwd, path, 0);
      }
    }
  }

  /** cwd is current->cwd, or "/" when there is none. */
  method Absolutize(path: array<Byte>, cwd: Text, out: array<Byte>, ghost s: Text) returns (r: Result, len: nat)
    requires Holds(path[..], s) && path != out && 0 < |cwd| && 0 !in cwd
    modifies out
    ensures var t := Absolute(s, cwd);
            if (s == [] || s[0] != SLASH) && out.Length <= |t| then r == ENAMETOOLONG
            else match Normal(t, out.Length)
                 case Ok(u) => r.Ok? && len == |u| && Holds0(out[..], u)
                 case e => r == e
  {
    hide Normal;
    StartReading(path[..], s);
    assert s != [] ==> path[0] == s[0];
    if path[0] == SLASH {
      r, len := Normalize(path, out, out.Length, s);
      return;
    }
    ghost var t := Absolute(s, cwd);
    ghost var head := if |cwd| == 1 then [SLASH] else cwd + [SLASH];
    var n := Strlen(path, s);
    var at := if |cwd| == 1 then 1 else |cwd| + 1;
    if out.Length <= at + n {
      return ENAMETOOLONG, 0;
    }
    if |cwd| == 1 {
      out[0] := SLASH;
    } else {
      Copy(cwd, out, 0);
      out[|cwd|] := SLASH;
    }
    assert out[..at] == head;
    Copy(path[..n + 1], out, at);
    assert out[..at + n + 1] == head + s + [0];
    assert t == head + s && out[..|t|] == out[..at + n + 1][..|t|];
    assert out[at + n] == out[..at + n + 1][at + n] == 0;
    r, len := Normalize(out, out, out.Length, t);
  }

  method Strlen(path: array<Byte>, ghost s: Text) returns (n: nat)
    requires Unread(path[..], s, 0)
    ensures n == |s|
  {
    n := 0;
    while path[n] != 0
      invariant 0 <= n <= |s|
      decreases |s| - n
    {
      n := n + 1;
    }
  }

  /** memcpy. */
  method Copy(b: Text, out: array<Byte>, at: nat)
    requires at + |b| <= out.Length
    modifies out
    ensures out[..at + |b|] == old(out[..at]) + b
  {
    var k := 0;
    while k < |b|
      invariant 0 <= k <= |b| && out[..at + k] == old(out[..at]) + b[..k]
    {
      out[at + k] := b[k];
      k := k + 1;
      assert b[..k] == b[..k - 1] + [b[k - 1]];
    }
  }
}
