/** lookup_walk_flags: following a path through mounts and symbolic links, with every reference and every
    scratch buffer accounted for. */
module PathWalk {
  import opened Options
  import opened Bytes
  import opened PathNormalize

  const PATH_MAX := 128
  const SYMLOOP_MAX := 4

  // ---- vfs_mount_find ----

  /** A mount point path matches a path at a component boundary; "/" matches everything. */
  predicate Covers(mount: Text, path: Text) {
    mount == [SLASH]
    || (|mount| <= |path| && path[..|mount|] == mount && (|path| == |mount| || path[|mount|] == SLASH))
  }

  /** The active mounts, None for a free entry. */
  type Table = seq<Option<Text>>

  predicate Matches(t: Table, i: nat, path: Text)
    requires i < |t|
  {
    t[i].Some? && Covers(t[i].value, path)
  }

  /** The longest-prefix search. */
  method MountFind(t: Table, path: Text) returns (best: int)
    requires forall i :: 0 <= i < |t| && t[i].Some? ==> t[i].value != [] && (|t[i].value| == 1 ==> t[i].value == [SLASH])
    ensures best == -1 <==> forall i :: 0 <= i < |t| ==> !Matches(t, i, path)
    ensures best != -1 ==> 0 <= best < |t| && Matches(t, best, path)
    ensures best != -1 ==> forall i :: 0 <= i < |t| && Matches(t, i, path) ==> |t[i].value| <= |t[best].value|
  {
    best := -1;
    var bestLen := 0;
    var i := 0;
    while i < |t|
      invariant 0 <= i <= |t| && -1 <= best < i
      invariant best == -1 ==> bestLen == 0 && forall k :: 0 <= k < i ==> !Matches(t, k, path)
      invariant best != -1 ==> Matches(t, best, path) && bestLen == |t[best].value|
      invariant best != -1 ==> forall k :: 0 <= k < i && Matches(t, k, path) ==> |t[k].value| <= bestLen
    {
      if t[i].Some? {
        var m := t[i].value;
        if |m| == 1 && m[0] == SLASH {
          if best == -1 || |m| > bestLen {
            best, bestLen := i, |m|;
          }
        } else if |m| <= |path| && path[..|m|] == m && (|path| == |m| || path[|m|] == SLASH) {
          if |m| > bestLen {
            best, bestLen := i, |m|;
          }
        }
      }
      i := i + 1;
    }
  }

  /** mount_at_acquire keeps the longest match only if nothing but slashes is left of the path: for a path
      without a trailing slash, exactly when the mount point is the path itself. */
  lemma ExactMount(mount: Text, path: Text)
    requires Covers(mount, path) && |mount| <= |path| && 1 < |path| && path[|path| - 1] != SLASH
    ensures SkipSlashes(path, |mount|) == |path| <==> mount == path
  {
    if |mount| < |path| {
      LastNotSkipped(path, |mount|);
    }
  }

  lemma {:induction false} LastNotSkipped(s: Text, i: nat)
    requires i < |s| && s[|s| - 1] != SLASH
    ensures SkipSlashes(s, i) < |s|
    decreases |s| - i
  {
    if s[i] == SLASH {
      LastNotSkipped(s, i + 1);
    }
  }

  // ---- the rest of the kernel, as one process sees it ----

  datatype Code = OK | ELOOP | ENOENT | ENOTDIR | NAMETOOLONG | ENOMEM | INVAL | OtherError

  /** A tree of files and mounts at rest: what every question about it is answered with. */
  datatype World = World(
    mountAt: Text -> Option<(nat, nat)>,   // the mount at a path, and its root
    mountOf: nat -> nat, isDir: nat -> bool, isLink: nat -> bool, hasOp: nat -> bool,
    child: (nat, Text) -> (Code, nat), link: nat -> (Code, Text))

  /** A link's text; a driver delivers no NUL and no more than was asked for. */
  function LinkText(w: World, v: nat): (Code, Text) {
    var (err, t) := w.link(v);
    if err == OK && (PATH_MAX - 1 < |t| || 0 in t) then (OtherError, t) else (err, t)
  }

  /** held: the vnode references this process owns; scratch: the buffers it has taken.
      What other processes and the drivers do meanwhile shows only in the answers: they are arbitrary, unless
      the world stands still and buffers are left. */
  class Kernel {
    ghost var held: multiset<nat>
    var scratch: nat
    const still: bool
    const w: World

    constructor (atRest: bool, world: World)
      ensures held == multiset{} && scratch == 0 && still == atRest && w == world
    {
      held := multiset{};
      scratch := 0;
      still, w := atRest, world;
    }

    /** vfs_scratch_alloc. */
    method ScratchAlloc() returns (ok: bool)
      modifies this`scratch
      ensures scratch == old(scratch) + if ok then 1 else 0
      ensures still ==> ok
    {
      ok := *;
      ok := ok || still;
      if ok {
        scratch := scratch + 1;
      }
    }

    /** vfs_scratch_free; of NULL it does nothing. */
    method ScratchFree(got: bool)
      requires got ==> 0 < scratch
      modifies this`scratch
      ensures scratch == old(scratch) - if got then 1 else 0
    {
      if got {
        scratch := scratch - 1;
      }
    }

    /** mount_at_acquire: perhaps a mount, with a reference on its root. */
    method MountAt(resolved: Text) returns (found: bool, mount: nat, root: nat)
      modifies this`held
      ensures held == if found then old(held) + multiset{root} else old(held)
      ensures still ==> if found then w.mountAt(resolved) == Some((mount, root)) else w.mountAt(resolved) == None
    {
      found, mount, root := *, *, *;
      if still {
        var at := w.mountAt(resolved);
        found := at.Some?;
        if found {
          mount, root := at.value.0, at.value.1;
        }
      }
      if found {
        held := held + multiset{root};
      }
    }

    /** The driver's lookup, on a directory this process holds. */
    method Lookup(cur: nat, comp: Text) returns (err: Code, child: nat)
      requires cur in held
      modifies this`held
      ensures held == if err == OK then old(held) + multiset{child} else old(held)
      ensures still ==> (err, child) == w.child(cur, comp)
    {
      err, child := *, *;
      if still {
        var answer := w.child(cur, comp);
        err, child := answer.0, answer.1;
      }
      if err == OK {
        held := held + multiset{child};
      }
    }

    method Release(v: nat)
      requires v in held
      modifies this`held
      ensures held == old(held) - multiset{v}
    {
      held := held - multiset{v};
    }

    /** The driver's readlink: at most 127 bytes of a path, or an error. */
    method ReadLink(v: nat) returns (err: Code, target: Text)
      requires v in held
      ensures err == OK ==> |target| < PATH_MAX && 0 !in target
      ensures still ==> (err, target) == LinkText(w, v)
    {
      var t: Text;
      err, t := *, *;
      if still {
        var answer := w.link(v);
        err, t := answer.0, answer.1;
      }
      if err == OK && (PATH_MAX - 1 < |t| || 0 in t) {
        err := OtherError;
      }
      target := t;
    }

    /** Facts about a vnode this process holds. */
    method IsDirectory(v: nat) returns (b: bool)
      requires v in held
      ensures still ==> b == w.isDir(v)
    {
      b := *;
      if still {
        b := w.isDir(v);
      }
    }

    method IsSymlink(v: nat) returns (b: bool)
      requires v in held
      ensures still ==> b == w.isLink(v)
    {
      b := *;
      if still {
        b := w.isLink(v);
      }
    }

    /** Does its mount's driver have lookup (or readlink)? */
    method HasOp(v: nat) returns (b: bool)
      requires v in held
      ensures still ==> b == w.hasOp(v)
    {
      b := *;
      if still {
        b := w.hasOp(v);
      }
    }

    method MountOf(v: nat) returns (m: nat)
      requires v in held
      ensures still ==> m == w.mountOf(v)
    {
      m := *;
      if still {
        m := w.mountOf(v);
      }
    }
  }

  // ---- one pass along a path ----

  /** A pass ends with a result, or with a new path to start over from. */
  datatype Pass = Done(rc: Code, v: nat) | Restart(path: Text)

  /** Where a symbolic link leads: its own path if absolute, else behind the directory it stands in; then the rest. */
  function Redirect(resolved: Text, target: Text, rest: Text): Text {
    var head := if target != [] && target[0] == SLASH then target else Parent(resolved, |resolved|) + target;
    if rest == [] then head else head + [SLASH] + rest
  }

  /** resolved up to and with its last slash; "/" if it has none. */
  function Parent(resolved: Text, n: nat): Text
    requires n <= |resolved|
  {
    if n == 0 then [SLASH] else if resolved[n - 1] == SLASH then resolved[..n] else Parent(resolved, n - 1)
  }

  // ---- what a path leads to ----

  /** Going on from cur with the components st[n..]. */
  function WalkFrom(w: World, st: seq<Text>, n: nat, cur: nat, nofollow: bool): Pass
    requires n <= |st|
    decreases |st| - n
  {
    if n == |st| then Done(OK, cur)
    else if !w.isDir(cur) then Done(ENOTDIR, 0)
    else
      var there := w.mountAt(Spell(st[..n + 1]));
      if there.Some? && there.value.0 != w.mountOf(cur) then WalkFrom(w, st, n + 1, there.value.1, nofollow)
      else if !w.hasOp(cur) then Done(ENOENT, 0)
      else
        var (rc, child) := w.child(cur, st[n]);
        if rc != OK then Done(rc, 0)
        else if !w.isLink(child) then WalkFrom(w, st, n + 1, child, nofollow)
        else if nofollow && n + 1 == |st| then Done(OK, child)
        else Followed(w, child, st, n + 1)
  }

  predicate IsAbsolute(path: Text) { path != [] && path[0] == SLASH }

  /** The components in place of st when st[n - 1] is a link: those of its target, from the root or in the directory
      it stands in, then the rest. */
  function Relinked(st: seq<Text>, n: nat, target: Text): seq<Text>
    requires 0 < n <= |st|
  {
    (if IsAbsolute(target) then [] else st[..n - 1]) + Comps(target, 0) + st[n..]
  }

  /** The bytes that takes to write down, which must fit the buffer. */
  function RelinkedLength(st: seq<Text>, n: nat, target: Text): nat
    requires 0 < n <= |st|
  {
    (if IsAbsolute(target) then |target| else |Spell(st[..n - 1])| + 1 + |target|)
    + if n == |st| then 0 else 1 + |Spell(st[n..])|
  }

  /** st[n - 1] is a link. */
  function Followed(w: World, child: nat, st: seq<Text>, n: nat): Pass
    requires 0 < n <= |st|
  {
    if !w.hasOp(child) then Done(INVAL, 0)
    else
      var (err, target) := LinkText(w, child);
      if err != OK then Done(err, 0)
      else if PATH_MAX <= RelinkedLength(st, n, target) then Done(NAMETOOLONG, 0)
      else match Run([], Relinked(st, n, target), PATH_MAX)
        case Ok(norm) => Restart(norm)
        case EINVAL => Done(INVAL, 0)
        case ENAMETOOLONG => Done(NAMETOOLONG, 0)
  }

  /** Of a world at rest: where a link leads, in names. */
  lemma LinkLeads(w: World, child: nat, st: seq<Text>, n: nat)
    requires 0 < n <= |st|
    ensures !w.hasOp(child) ==> Followed(w, child, st, n) == Done(INVAL, 0)
    ensures w.hasOp(child) && w.link(child).0 != OK ==> Followed(w, child, st, n) == Done(w.link(child).0, 0)
    ensures w.hasOp(child) && w.link(child).0 == OK && |w.link(child).1| < 128 && 0 !in w.link(child).1 ==>
            var target := w.link(child).1;
            var absolute := target != [] && target[0] == 0x2F;
            var cs := (if absolute then [] else st[..n - 1]) + Comps(target, 0) + st[n..];
            var length := (if absolute then 0 else |Spell(st[..n - 1])| + 1) + |target| + (if n == |st| then 0 else 1 + |Spell(st[n..])|);
            Followed(w, child, st, n) ==
              if 128 <= length || TooLong([], cs, 128) then Done(NAMETOOLONG, 0)
              else Restart(if Kept(cs, 0) == [] then [0x2F] else Spell(Kept(cs, 0)))
  {
    var cs := Relinked(st, n, w.link(child).1);
    RunIs([], cs, 128);
    assert [] + cs == cs;
  }

  lemma {:induction false} ParentIs(a: Text, c: Text, n: nat)
    requires SLASH !in c && |a| < n <= |a| + 1 + |c|
    ensures Parent(a + [SLASH] + c, n) == a + [SLASH]
    decreases n
  {
    var s := a + [SLASH] + c;
    if n == |a| + 1 {
      assert s[..n] == a + [SLASH];
    } else {
      assert s[n - 1] == c[n - 2 - |a|];
      ParentIs(a, c, n - 1);
    }
  }

  /** What is put together in the buffer has these components. */
  lemma RedirectIs(st: seq<Text>, n: nat, target: Text)
    requires AllProper(st) && 0 < n <= |st|
    ensures var whole := Redirect(Spell(st[..n]), target, Spell(st[n..]));
            && |whole| == RelinkedLength(st, n, target) && whole != [] && whole[0] == SLASH && Comps(whole, 0) == Relinked(st, n, target)
  {
    hide Comps, Spell;
    var up, c, rest := st[..n - 1], st[n - 1], st[n..];
    assert st[..n] == up + [c];
    SpellPush(up, c);
    assert Proper(c);
    ParentIs(Spell(up), c, |Spell(st[..n])|);
    hide Parent;
    SpellEmpty(rest);
    var head := if IsAbsolute(target) then target else Spell(up) + [SLASH] + target;
    CompsJoin(Spell(up), target, 0);
    CompsOfSpell(up, 0);
    SpellNothing(up);
    CompsJoin(head, Spell(rest), 0);
    CompsOfSpell(rest, 0);
    SpellNothing(rest);
    SpellStarts(up);
    assert rest == [] ==> Relinked(st, n, target) == (if IsAbsolute(target) then [] else up) + Comps(target, 0);
  }

  lemma SpellNothing(st: seq<Text>)
    ensures Spell(st[..0]) == [] && st[0..] == st
  {
  }

  lemma {:induction false} SpellStarts(st: seq<Text>)
    ensures st != [] ==> Spell(st) != [] && Spell(st)[0] == SLASH
    decreases |st|
  {
    if 1 < |st| {
      SpellStarts(st[..|st| - 1]);
    }
  }

  lemma WalkTurn(w: World, st: seq<Text>, n: nat, cur: nat, nofollow: bool)
    requires n < |st|
    ensures var there := w.mountAt(Spell(st[..n + 1])); var (rc, child) := w.child(cur, st[n]);
      WalkFrom(w, st, n, cur, nofollow) ==
        if !w.isDir(cur) then Done(ENOTDIR, 0)
        else if there.Some? && there.value.0 != w.mountOf(cur) then WalkFrom(w, st, n + 1, there.value.1, nofollow)
        else if !w.hasOp(cur) then Done(ENOENT, 0)
        else if rc != OK then Done(rc, 0)
        else if !w.isLink(child) then WalkFrom(w, st, n + 1, child, nofollow)
        else if nofollow && n + 1 == |st| then Done(OK, child)
        else Followed(w, child, st, n + 1)
  {
  }

  function OnePass(w: World, path: Text, nofollow: bool): Pass {
    match w.mountAt([SLASH])
    case None => Done(ENOENT, 0)
    case Some(at) => WalkFrom(w, Comps(path, 0), 0, at.1, nofollow)
  }

  /** What a normal path leads to, links being followed; the vnode counts only with OK. */
  function Resolve(w: World, path: Text, nofollow: bool, links: nat): (Code, nat)
    decreases SYMLOOP_MAX - links
  {
    if SYMLOOP_MAX <= links then (ELOOP, 0)
    else match OnePass(w, path, nofollow)
      case Done(rc, v) => (rc, v)
      case Restart(next) => Resolve(w, next, nofollow, links + 1)
  }

  lemma ResolvePass(w: World, path: Text, nofollow: bool, links: nat)
    ensures Resolve(w, path, nofollow, links) ==
      if SYMLOOP_MAX <= links then (ELOOP, 0)
      else match OnePass(w, path, nofollow) case Done(rc, v) => (rc, v) case Restart(next) => Resolve(w, next, nofollow, links + 1)
  {
  }

  lemma {:induction false} SpellSplit(st: seq<Text>, n: nat)
    requires n <= |st|
    ensures Spell(st) == Spell(st[..n]) + Spell(st[n..])
    decreases |st|
  {
    if n == |st| {
      assert st[..n] == st && st[n..] == [];
    } else {
      var k := |st| - 1;
      SpellSplit(st[..k], n);
      assert st[..k][..n] == st[..n] && st[..k][n..] == st[n..][..k - n] && st[n..][k - n] == st[k];
    }
  }

  lemma CompsOfNormal(path: Text, st: seq<Text>)
    requires NormalPath(path, st)
    ensures Comps(path, 0) == st
  {
    if st != [] {
      CompsOfSpell(st, 0);
      assert st[..0] == [] && st[0..] == st;
    }
  }

  /** The text read so far and the text to come, in components. */
  lemma AtText(path: Text, st: seq<Text>, n: nat, p: nat, resolved: Text)
    requires At(path, st, n, p, resolved)
    ensures n <= |st| && p <= |path| && resolved == path[..p] == Spell(st[..n]) && path[p..] == Spell(st[n..])
    ensures p == |path| <==> n == |st|
  {
    SpellSplit(st, n);
    SpellEmpty(st[n..]);
  }

  /** A path as path_normalize leaves it. */
  ghost predicate NormalPath(path: Text, st: seq<Text>) {
    AllProper(st) && path == (if st == [] then [SLASH] else Spell(st)) && 0 < |path| < PATH_MAX
  }

  /** Where the walk stands after n components. */
  ghost predicate At(path: Text, st: seq<Text>, n: nat, p: nat, resolved: Text) {
    && path == Spell(st) && AllProper(st) && |path| < PATH_MAX
    && n <= |st| && p == |Spell(st[..n])| && p <= |path| && resolved == path[..p]
  }

  lemma AtStart(path: Text, st: seq<Text>)
    requires NormalPath(path, st) && path != [SLASH]
    ensures At(path, st, 0, 0, [])
  {
    assert st[..0] == [];
  }

  lemma NotAll(st: seq<Text>, n: nat)
    requires n <= |st| && |Spell(st[..n])| < |Spell(st)|
    ensures n < |st|
  {
    assert st[..|st|] == st;
  }

  /** One slash, then the next component. */
  lemma AtNext(path: Text, st: seq<Text>, n: nat, p: nat, resolved: Text)
    requires At(path, st, n, p, resolved) && p < |path|
    ensures n < |st|
    ensures var q := p + 1 + |st[n]|;
            && q <= |path| && path[p] == SLASH && path[p + 1..q] == st[n] && path[p + 1] != SLASH
            && (forall k :: p + 1 <= k < q ==> path[k] != SLASH) && (q < |path| ==> path[q] == SLASH) && |st[n]| <= NAME_MAX
            && At(path, st, n + 1, q, resolved + [SLASH] + st[n])
  {
    NotAll(st, n);
    SpellAt(st, n);
    SpellPrefix(st, n);
    var q := p + 1 + |st[n]|;
    assert Proper(st[n]);
    forall k | p + 1 <= k < q ensures path[k] != SLASH {
      assert path[k] == path[p + 1..q][k - (p + 1)];
      assert path[k] in st[n];
    }
    assert path[..q] == path[..p] + [path[p]] + path[p + 1..q];
  }

  /** Copying a component out of the path: it ends at a slash or at the end, before the name limit. */
  method Component(path: Text, a: nat, ghost c: Text) returns (comp: Text)
    requires a + |c| <= |path| && path[a..a + |c|] == c && |c| <= NAME_MAX
    requires (forall k :: a <= k < a + |c| ==> path[k] != SLASH) && (a + |c| < |path| ==> path[a + |c|] == SLASH)
    ensures comp == c
  {
    var i := 0;
    while a + i < |path| && path[a + i] != SLASH && i < NAME_MAX
      invariant 0 <= i <= |c|
    {
      i := i + 1;
    }
    comp := path[a..a + i];
  }

  method WalkOnce(k: Kernel, path: Text, nofollow: bool, ghost st: seq<Text>) returns (r: Pass, ghost st': seq<Text>)
    requires NormalPath(path, st)
    modifies k
    ensures k.scratch == old(k.scratch)
    ensures r.Done? ==> k.held == if r.rc == OK then old(k.held) + multiset{r.v} else old(k.held)
    ensures r.Restart? ==> k.held == old(k.held) && NormalPath(r.path, st') && Redirected(path, r.path)
    ensures k.still ==> r == OnePass(k.w, path, nofollow)
  {
    hide AllProper, Spell, Normal, At, Redirected, WalkFrom, Comps, Followed;
    CompsOfNormal(path, st);
    st' := [];
    var found, mnt, cur := k.MountAt([SLASH]);
    if !found {
      return Done(ENOENT, 0), st';
    }
    if path == [SLASH] {
      OnlyRoot(path, st);
      WalkEnd(k.w, st, cur, nofollow);
      return Done(OK, cur), st';
    }
    AtStart(path, st);
    ghost var base, n := old(k.held), 0;
    var resolved: Text, p := [], 0;
    while p < |path|
      invariant 0 <= p <= |path| && 0 <= n && k.scratch == old(k.scratch) && k.held == base + multiset{cur}
      invariant At(path, st, n, p, resolved) && n <= |st|
      invariant k.still ==> WalkFrom(k.w, st, n, cur, nofollow) == OnePass(k.w, path, nofollow)
      decreases |path| - p
    {
      var stop;
      stop, r, cur, p, resolved, st' := Step(k, path, nofollow, cur, p, resolved, st, n, base);
      if stop {
        return;
      }
      n := n + 1;
      AtText(path, st, n, p, resolved);
    }
    AtText(path, st, n, p, resolved);
    WalkEnd(k.w, st, cur, nofollow);
    return Done(OK, cur), st';
  }

  lemma OnlyRoot(path: Text, st: seq<Text>)
    requires NormalPath(path, st) && path == [SLASH]
    ensures st == []
  {
  }

  lemma WalkEnd(w: World, st: seq<Text>, cur: nat, nofollow: bool)
    ensures WalkFrom(w, st, |st|, cur, nofollow) == Done(OK, cur)
  {
  }

  /** Past the slash, over the next component, which is appended to what is resolved. */
  method Advance(path: Text, p0: nat, resolved0: Text, ghost st: seq<Text>, ghost n: nat) returns (p: nat, resolved: Text, comp: Text)
    requires At(path, st, n, p0, resolved0) && p0 < |path|
    ensures p0 < p <= |path| && At(path, st, n + 1, p, resolved) && n < |st| && comp == st[n]
  {
    hide At, AllProper;
    AtNext(path, st, n, p0, resolved0);
    AtBounds(path, st, n, p0, resolved0);
    p := p0;
    while p < |path| && path[p] == SLASH
      invariant p0 <= p <= p0 + 1
      decreases |path| - p
    {
      p := p + 1;
    }
    comp := Component(path, p, st[n]);
    AtBounds(path, st, n + 1, p + |comp|, resolved0 + [SLASH] + comp);
    // The check for a full buffer never fires: what is resolved is a prefix of the path.
    assert |resolved0| + 1 + |comp| < PATH_MAX;
    resolved := resolved0 + [SLASH] + comp;
    p := p + |comp|;
  }

  /** One component: a mount is crossed, or the driver finds the child; a link ends the pass. */
  method Step(k: Kernel, path: Text, nofollow: bool, cur0: nat, p0: nat, resolved0: Text, ghost st: seq<Text>, ghost n: nat, ghost base: multiset<nat>)
    returns (stop: bool, r: Pass, cur: nat, p: nat, resolved: Text, ghost st': seq<Text>)
    requires At(path, st, n, p0, resolved0) && p0 < |path| && k.held == base + multiset{cur0}
    modifies k
    ensures k.scratch == old(k.scratch) && p0 <= p <= |path|
    ensures !stop ==> k.held == base + multiset{cur} && p0 < p && At(path, st, n + 1, p, resolved)
    ensures stop && r.Done? ==> k.held == if r.rc == OK then base + multiset{r.v} else base
    ensures stop && r.Restart? ==> k.held == base && NormalPath(r.path, st') && Redirected(path, r.path)
    ensures n < |st|
    ensures k.still ==> WalkFrom(k.w, st, n, cur0, nofollow) == if stop then r else WalkFrom(k.w, st, n + 1, cur, nofollow)
  {
    hide NormalPath, Normal, At, Redirected, Followed, Spell, WalkFrom;
    NotAtEnd(path, st, n, p0, resolved0);
    WalkTurn(k.w, st, n, cur0, nofollow);
    DropLast(base, cur0);
    stop, r, cur, st' := true, Done(ENOTDIR, 0), cur0, [];
    p, resolved := p0, resolved0;
    var dir := k.IsDirectory(cur);
    if !dir {
      k.Release(cur);
      return;
    }
    var comp;
    p, resolved, comp := Advance(path, p0, resolved0, st, n);
    AtText(path, st, n + 1, p, resolved);
    stop, r, cur, st' := Onward(k, path, nofollow, cur, comp, p, resolved, st, n, base);
  }

  /** From a directory over its entry comp, whose path is resolved. */
  method Onward(k: Kernel, path: Text, nofollow: bool, cur0: nat, comp: Text, p: nat, resolved: Text,
                ghost st: seq<Text>, ghost n: nat, ghost base: multiset<nat>)
    returns (stop: bool, r: Pass, cur: nat, ghost st': seq<Text>)
    requires n < |st| && comp == st[n] && At(path, st, n + 1, p, resolved) && p <= |path| && resolved == Spell(st[..n + 1])
    requires k.held == base + multiset{cur0} && (k.still ==> k.w.isDir(cur0))
    modifies k
    ensures k.scratch == old(k.scratch)
    ensures !stop ==> k.held == base + multiset{cur}
    ensures stop && r.Done? ==> k.held == if r.rc == OK then base + multiset{r.v} else base
    ensures stop && r.Restart? ==> k.held == base && NormalPath(r.path, st') && Redirected(path, r.path)
    ensures k.still ==> WalkFrom(k.w, st, n, cur0, nofollow) == if stop then r else WalkFrom(k.w, st, n + 1, cur, nofollow)
  {
    hide NormalPath, Normal, At, Redirected, Followed, Spell, WalkFrom;
    WalkTurn(k.w, st, n, cur0, nofollow);
    stop, r, st' := true, Done(OK, 0), [];
    var crossed;
    crossed, cur := Cross(k, resolved, cur0, base);
    if crossed {
      stop := false;
      return;
    }
    var rc, child := Descend(k, cur, comp, base);
    if rc != OK {
      r := Done(rc, 0);
      return;
    }
    DropLast(base, child);
    stop, r, cur, st' := LinkOrNot(k, path, nofollow, child, p, resolved, st, n + 1);
  }

  lemma NotAtEnd(path: Text, st: seq<Text>, n: nat, p: nat, resolved: Text)
    requires At(path, st, n, p, resolved) && p < |path|
    ensures n < |st|
  {
    AtText(path, st, n, p, resolved);
  }

  lemma DropLast(base: multiset<nat>, a: nat)
    ensures base + multiset{a} - multiset{a} == base
  {
  }

  lemma DropFirst(base: multiset<nat>, a: nat, b: nat)
    ensures base + multiset{a} + multiset{b} - multiset{a} == base + multiset{b}
  {
  }

  /** Does another mount begin here? Its root then takes the place of the current directory. */
  method Cross(k: Kernel, resolved: Text, cur0: nat, ghost base: multiset<nat>) returns (crossed: bool, cur: nat)
    requires k.held == base + multiset{cur0}
    modifies k
    ensures k.scratch == old(k.scratch) && k.held == base + multiset{cur} && (!crossed ==> cur == cur0)
    ensures k.still ==>
      var there := k.w.mountAt(resolved);
      (crossed <==> there.Some? && there.value.0 != k.w.mountOf(cur0)) && (crossed ==> cur == there.value.1)
  {
    crossed, cur := false, cur0;
    var covered, m, root := k.MountAt(resolved);
    if covered {
      DropFirst(base, cur, root);
      DropLast(base + multiset{cur}, root);
      var here := k.MountOf(cur);
      if m != here {
        k.Release(cur);
        return true, root;
      }
      k.Release(root);
    }
  }

  /** The driver's lookup; the directory is let go once the child is held. */
  method Descend(k: Kernel, cur: nat, comp: Text, ghost base: multiset<nat>) returns (rc: Code, child: nat)
    requires k.held == base + multiset{cur}
    modifies k
    ensures k.scratch == old(k.scratch) && k.held == if rc == OK then base + multiset{child} else base
    ensures k.still ==>
      if !k.w.hasOp(cur) then rc == ENOENT else rc == k.w.child(cur, comp).0 && (rc == OK ==> child == k.w.child(cur, comp).1)
  {
    DropLast(base, cur);
    child := 0;
    var ops := k.HasOp(cur);
    if !ops {
      k.Release(cur);
      return ENOENT, 0;
    }
    rc, child := k.Lookup(cur, comp);
    DropFirst(base, cur, child);
    k.Release(cur);
  }

  lemma AtBounds(path: Text, st: seq<Text>, n: nat, p: nat, resolved: Text)
    requires At(path, st, n, p, resolved)
    ensures |path| < PATH_MAX && p <= |path| && |resolved| == p
  {
  }

  /** The child is held instead of its directory: go on from it, unless it is a link to follow. */
  method LinkOrNot(k: Kernel, path: Text, nofollow: bool, child: nat, p: nat, resolved: Text, ghost st: seq<Text>, ghost n: nat)
    returns (stop: bool, r: Pass, cur: nat, ghost st': seq<Text>)
    requires At(path, st, n, p, resolved) && p <= |path| && child in k.held && 0 < n
    modifies k
    ensures k.scratch == old(k.scratch)
    ensures !stop ==> k.held == old(k.held) && cur == child
    ensures stop && r.Done? ==> k.held == (if r.rc == OK then old(k.held) else old(k.held) - multiset{child}) && (r.rc == OK ==> r.v == child)
    ensures stop && r.Restart? ==> k.held == old(k.held) - multiset{child} && NormalPath(r.path, st') && Redirected(path, r.path)
    ensures n <= |st| && (k.still ==> (stop <==> k.w.isLink(child)))
    ensures k.still && stop ==>
      r == if nofollow && n == |st| then Done(OK, child) else Followed(k.w, child, st, n)
  {
    hide NormalPath, Normal, At, Redirected, Followed, Spell;
    AtText(path, st, n, p, resolved);
    stop, r, cur, st' := false, Done(OK, child), child, [];
    var link := k.IsSymlink(child);
    if link {
      stop := true;
      var trail := p;
      NameFollows(path, st, n, p, resolved);
      while nofollow && trail < |path| && path[trail] == SLASH
        invariant p <= trail <= |path| && (p < |path| ==> trail <= p + 1 < |path|)
      {
        trail := trail + 1;
      }
      if nofollow && trail == |path| {
        return;
      }
      r, st' := Follow(k, child, path, resolved, p, st, n);
    }
  }

  lemma NameFollows(path: Text, st: seq<Text>, n: nat, p: nat, resolved: Text)
    requires At(path, st, n, p, resolved)
    ensures p < |path| ==> p + 1 < |path| && path[p + 1] != SLASH
  {
    if p < |path| {
      AtNext(path, st, n, p, resolved);
      SpellAt(st, n);
    }
  }

  /** The path restarted from is the normal form of where a link in the old path leads. */
  ghost predicate Redirected(path: Text, path': Text) {
    exists n, target :: IsRedirect(path, n, target, path')
  }

  ghost predicate IsRedirect(path: Text, n: nat, target: Text, path': Text) {
    0 < n <= |Comps(path, 0)| && Run([], Relinked(Comps(path, 0), n, target), PATH_MAX) == PathNormalize.Ok(path')
  }

  /** The new path in its buffer, if it fits. */
  method Compose(resolved: Text, target: Text, rest: Text) returns (fits: bool, whole: Text)
    requires |target| < PATH_MAX
    ensures fits <==> |Redirect(resolved, target, rest)| < PATH_MAX
    ensures fits ==> whole == Redirect(resolved, target, rest)
  {
    whole := target;
    if target == [] || target[0] != SLASH {
      var n := |resolved|;
      while 0 < n && resolved[n - 1] != SLASH
        invariant 0 <= n <= |resolved| && Parent(resolved, n) == Parent(resolved, |resolved|)
      {
        n := n - 1;
      }
      var head := if n == 0 then [SLASH] else resolved[..n];
      if PATH_MAX <= |head| + |target| {
        return false, [];
      }
      whole := head + target;
    }
    if rest != [] {
      if PATH_MAX <= |whole| + 1 + |rest| {
        return false, [];
      }
      whole := whole + [SLASH] + rest;
    }
    fits := true;
  }

  /** A link stands at the end of resolved; rest is what follows it in the path. */
  method Follow(k: Kernel, child: nat, path: Text, resolved: Text, p: nat, ghost st: seq<Text>, ghost n: nat) returns (r: Pass, ghost st': seq<Text>)
    requires child in k.held && At(path, st, n, p, resolved) && 0 < n
    modifies k
    ensures k.scratch == old(k.scratch)
    ensures r.Done? ==> r.rc != OK && k.held == old(k.held) - multiset{child}
    ensures r.Restart? ==> k.held == old(k.held) - multiset{child} && NormalPath(r.path, st') && Redirected(path, r.path)
    ensures n <= |st| && (k.still ==> r == Followed(k.w, child, st, n))
  {
    hide AllProper, Spell, Normal, Redirect, At, Relinked, RelinkedLength, Run, Comps;
    AtText(path, st, n, p, resolved);
    st' := [];
    var a := k.ScratchAlloc();
    var b := k.ScratchAlloc();
    if !a || !b {
      k.ScratchFree(b);
      k.ScratchFree(a);
      k.Release(child);
      return Done(ENOMEM, 0), st';
    }
    var ops := k.HasOp(child);
    if !ops {
      k.Release(child);
      k.ScratchFree(b);
      k.ScratchFree(a);
      return Done(INVAL, 0), st';
    }
    var err, target := k.ReadLink(child);
    k.Release(child);
    if err != OK {
      k.ScratchFree(b);
      k.ScratchFree(a);
      return Done(err, 0), st';
    }
    ComposedIs(path, st, n, p, resolved, target);
    var fits, whole := Compose(resolved, target, path[p..]);
    if !fits {
      k.ScratchFree(b);
      k.ScratchFree(a);
      return Done(NAMETOOLONG, 0), st';
    }
    k.ScratchFree(b);
    k.ScratchFree(a);
    match Normal(whole, PATH_MAX)
    case Ok(norm) =>
      st' := NormalStack(whole, norm);
      assert IsRedirect(path, n, target, norm);
      r := Restart(norm);
    case EINVAL => r := Done(INVAL, 0);
    case ENAMETOOLONG => r := Done(NAMETOOLONG, 0);
  }

  /** The text put together stands for the components that the link leads to. */
  lemma ComposedIs(path: Text, st: seq<Text>, n: nat, p: nat, resolved: Text, target: Text)
    requires At(path, st, n, p, resolved) && 0 < n
    ensures n <= |st| && p <= |path| && Comps(path, 0) == st
    ensures var whole := Redirect(resolved, target, path[p..]);
            |whole| == RelinkedLength(st, n, target) && Normal(whole, PATH_MAX) == Run([], Relinked(st, n, target), PATH_MAX)
  {
    AtText(path, st, n, p, resolved);
    RedirectIs(st, n, target);
    CompsOfSpell(st, 0);
    SpellNothing(st);
  }

  lemma NormalStack(s: Text, t: Text) returns (st: seq<Text>)
    requires Normal(s, PATH_MAX) == PathNormalize.Ok(t)
    ensures NormalPath(t, st)
  {
    CompsClean(s, 0);
    st := RunProper([], Comps(s, 0), PATH_MAX);
  }

  // ---- lookup_walk_flags ----

  /** Exactly one reference is handed over on success and none on an error; all scratch buffers come back;
      at most four links are followed. While nothing else changes, the path leads where Resolve says. */
  method LookupWalk(k: Kernel, path: Text, nofollow: bool, ghost st0: seq<Text>) returns (rc: Code, v: nat)
    requires NormalPath(path, st0)
    modifies k
    ensures k.scratch == old(k.scratch)
    ensures k.held == if rc == OK then old(k.held) + multiset{v} else old(k.held)
    ensures k.still ==> (rc, v) == Resolve(k.w, path, nofollow, 0)
  {
    hide NormalPath, Redirected, OnePass, Resolve;
    var a := k.ScratchAlloc();
    var b := k.ScratchAlloc();
    var c := k.ScratchAlloc();
    if !a || !b || !c {
      k.ScratchFree(c);
      k.ScratchFree(b);
      k.ScratchFree(a);
      return ENOMEM, 0;
    }
    var normalized := path;
    ghost var st := st0;
    var symloop := 0;
    rc, v := ELOOP, 0;
    while symloop < SYMLOOP_MAX
      invariant 0 <= symloop <= SYMLOOP_MAX && rc == ELOOP
      invariant k.scratch == old(k.scratch) + 3 && k.held == old(k.held) && NormalPath(normalized, st) && v == 0
      invariant k.still ==> Resolve(k.w, normalized, nofollow, symloop) == Resolve(k.w, path, nofollow, 0)
    {
      ResolvePass(k.w, normalized, nofollow, symloop);
      var r;
      r, st := WalkOnce(k, normalized, nofollow, st);
      if r.Done? {
        rc, v := r.rc, r.v;
        break;
      }
      normalized := r.path;
      symloop := symloop + 1;
    }
    ResolvePass(k.w, normalized, nofollow, symloop);
    k.ScratchFree(c);
    k.ScratchFree(b);
    k.ScratchFree(a);
  }

  // ---- vfs_lookup_parent's split ----

  /** The parent's path and the last name of a normal path other than "/". */
  method SplitLast(path: Text, ghost st: seq<Text>) returns (parent: Text, name: Text)
    requires NormalPath(path, st) && path != [SLASH]
    ensures st != [] && name == st[|st| - 1] && NormalPath(parent, st[..|st| - 1])
  {
    hide Spell;
    var i := |path| - 1;
    ghost var n := |st| - 1;
    assert st[..n + 1] == st;
    SpellAt(st, n);
    SpellPrefix(st, n);
    ghost var at := |Spell(st[..n])|;
    assert Proper(st[n]);
    forall k | at + 1 <= k < |path| ensures path[k] != SLASH {
      assert path[k] == path[at + 1..|path|][k - (at + 1)];
      assert path[k] in st[n];
    }
    while 0 < i && path[i] != SLASH
      invariant at <= i < |path|
    {
      i := i - 1;
    }
    name := path[i + 1..];
    parent := if i == 0 then [SLASH] else path[..i];
    SpellEmpty(st[..n]);
    if n == 0 {
      assert st[..0] == [];
    }
  }
}
