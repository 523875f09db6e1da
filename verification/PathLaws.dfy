/** What following a path means, name by name. */
module PathLaws {
  import opened Options
  import opened Bytes
  import opened PathNormalize
  import opened PathWalk

  // ---- text and names ----

  /** A path is a slash and a name for each of its names. */
  lemma SpellIs(st: seq<Text>, c: Text)
    ensures Spell([]) == [] && Spell(st + [c]) == Spell(st) + [0x2F] + c
  {
    SpellPush(st, c);
  }

  /** A mount point other than "/" covers the paths that begin with its names. */
  lemma CoversNames(a: seq<Text>, b: seq<Text>)
    requires AllProper(a) && AllProper(b) && a != []
    ensures Covers(Spell(a), Spell(b)) <==> |a| <= |b| && b[..|a|] == a
  {
    hide Spell, Covers;
    if Covers(Spell(a), Spell(b)) {
      CoveredNames(a, b);
    }
    if |a| <= |b| && b[..|a|] == a {
      NamesCovered(b, |a|);
    }
  }

  lemma CoveredNames(a: seq<Text>, b: seq<Text>)
    requires AllProper(a) && AllProper(b) && a != [] && Covers(Spell(a), Spell(b))
    ensures |a| <= |b| && b[..|a|] == a
  {
    hide Spell, Comps, AllProper;
    var s, t := Spell(a), Spell(b);
    NotRoot(a);
    CompsOfText(a);
    CompsOfText(b);
    if |s| < |t| {
      var rest := t[|s| + 1..];
      assert t == s + [SLASH] + rest;
      CompsJoin(s, rest, 0);
    } else {
      assert t == s;
    }
  }

  lemma NamesCovered(b: seq<Text>, n: nat)
    requires AllProper(b) && 0 < n <= |b|
    ensures Covers(Spell(b[..n]), Spell(b))
  {
    hide Spell;
    SpellPrefix(b, n);
    if n < |b| {
      SpellAt(b, n);
    } else {
      assert b[..n] == b;
    }
  }

  lemma NotRoot(st: seq<Text>)
    requires AllProper(st) && st != []
    ensures Spell(st) != [SLASH]
  {
    SpellAt(st, 0);
    assert Proper(st[0]);
    SpellNothing(st);
  }

  lemma CompsOfText(st: seq<Text>)
    requires AllProper(st)
    ensures Comps(Spell(st), 0) == st
  {
    CompsOfSpell(st, 0);
    SpellNothing(st);
  }

  // ---- one pass ----

  /** Name n leads from directory cur to next: to the root of another mount at that place, or to what the driver finds,
      which is no link to be followed. */
  predicate LeadsTo(w: World, st: seq<Text>, n: nat, nofollow: bool, cur: nat, next: nat)
    requires n < |st|
  {
    && w.isDir(cur)
    && match w.mountAt(Spell(st[..n + 1]))
       case Some((m, root)) => if m != w.mountOf(cur) then next == root else FoundAs(w, st, n, nofollow, cur, next)
       case None => FoundAs(w, st, n, nofollow, cur, next)
  }

  predicate FoundAs(w: World, st: seq<Text>, n: nat, nofollow: bool, cur: nat, next: nat)
    requires n < |st|
  {
    w.hasOp(cur) && w.child(cur, st[n]) == (OK, next) && (w.isLink(next) ==> nofollow && n + 1 == |st|)
  }

  /** Another mount's root stands at name n of st, seen from cur. */
  predicate Crosses(w: World, st: seq<Text>, n: nat, cur: nat)
    requires n < |st|
  {
    w.mountAt(Spell(st[..n + 1])).Some? && w.mountAt(Spell(st[..n + 1])).value.0 != w.mountOf(cur)
  }

  /** cs are the vnodes met on the way along the first names of st. */
  predicate Way(w: World, st: seq<Text>, nofollow: bool, cs: seq<nat>) {
    0 < |cs| <= |st| + 1 && forall n :: 0 <= n < |cs| - 1 ==> LeadsTo(w, st, n, nofollow, cs[n], cs[n + 1])
  }

  /** A pass goes along the names as far as they lead somewhere; at the end it has found the vnode met last. */
  lemma {:induction false} Follows(w: World, st: seq<Text>, nofollow: bool, cs: seq<nat>)
    requires Way(w, st, nofollow, cs)
    ensures var n, cur := |cs| - 1, cs[|cs| - 1];
            WalkFrom(w, st, 0, cs[0], nofollow) == WalkFrom(w, st, n, cur, nofollow)
    ensures |cs| == |st| + 1 ==> WalkFrom(w, st, 0, cs[0], nofollow) == Done(OK, cs[|st|])
    decreases |cs|
  {
    hide WalkFrom, Followed;
    if 1 < |cs| {
      var n := |cs| - 2;
      var front := cs[..n + 1];
      Follows(w, st, nofollow, front);
      WalkTurn(w, st, n, cs[n], nofollow);
      assert LeadsTo(w, st, n, nofollow, cs[n], cs[n + 1]);
    }
    if |cs| == |st| + 1 {
      WalkLast(w, st, cs[|st|], nofollow);
    }
  }

  lemma WalkLast(w: World, st: seq<Text>, cur: nat, nofollow: bool)
    ensures WalkFrom(w, st, |st|, cur, nofollow) == Done(OK, cur)
  {
  }

  /** Where it leads nowhere, the reason is the answer; a link to be followed is followed from there. */
  lemma StopsAt(w: World, st: seq<Text>, nofollow: bool, cs: seq<nat>)
    requires Way(w, st, nofollow, cs) && |cs| <= |st|
    ensures var n, cur := |cs| - 1, cs[|cs| - 1]; var pass := WalkFrom(w, st, 0, cs[0], nofollow);
            && (!w.isDir(cur) ==> pass == Done(ENOTDIR, 0))
            && (w.isDir(cur) && !Crosses(w, st, n, cur) && !w.hasOp(cur) ==> pass == Done(ENOENT, 0))
            && (w.isDir(cur) && !Crosses(w, st, n, cur) && w.hasOp(cur) ==>
                  var (rc, child) := w.child(cur, st[n]);
                  && (rc != OK ==> pass == Done(rc, 0))
                  && (rc == OK && w.isLink(child) && !(nofollow && n + 1 == |st|) ==> pass == Followed(w, child, st, n + 1)))
  {
    hide WalkFrom, Followed;
    Follows(w, st, nofollow, cs);
    WalkTurn(w, st, |cs| - 1, cs[|cs| - 1], nofollow);
  }

  /** A pass along a path begins at the root of the mount at "/". */
  lemma PassFrom(w: World, path: Text, nofollow: bool)
    ensures OnePass(w, path, nofollow) ==
      match w.mountAt([0x2F]) case None => Done(ENOENT, 0) case Some(at) => WalkFrom(w, Comps(path, 0), 0, at.1, nofollow)
  {
  }

  // ---- passes ----

  /** Every link followed is a pass more, and after the fourth the walk gives up. */
  lemma {:induction false} FourPasses(w: World, ps: seq<Text>, nofollow: bool, k: nat)
    requires 0 < |ps| <= 5 - k && forall i :: 0 <= i < |ps| - 1 ==> OnePass(w, ps[i], nofollow) == Restart(ps[i + 1])
    ensures |ps| == 5 - k ==> Resolve(w, ps[0], nofollow, k) == (ELOOP, 0)
    ensures |ps| < 5 - k && OnePass(w, ps[|ps| - 1], nofollow).Done? ==>
      var d := OnePass(w, ps[|ps| - 1], nofollow); Resolve(w, ps[0], nofollow, k) == (d.rc, d.v)
    decreases |ps|
  {
    hide OnePass;
    if 1 < |ps| {
      var rest := ps[1..];
      assert OnePass(w, ps[0], nofollow) == Restart(ps[0 + 1]);
      forall i | 0 <= i < |rest| - 1 ensures OnePass(w, rest[i], nofollow) == Restart(rest[i + 1]) {
        assert rest[i] == ps[i + 1];
      }
      FourPasses(w, rest, nofollow, k + 1);
    }
  }
}
