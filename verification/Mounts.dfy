/** Mounting, unmounting and vnode references: every interleaving of the critical sections of vfs.c. */
module Mounts {
  import opened Sums
  import opened Options
  import opened Bytes

  // ---- states ----

  datatype Stage = Free | Mounting | Active

  type Text = seq<Byte>
  const SLASH: Byte := 0x2F

  /** The mount point's path loses its trailing slashes, "/" excepted. */
  function Stripped(path: Text): Text {
    if 1 < |path| && path[|path| - 1] == SLASH then Stripped(path[..|path| - 1]) else path
  }

  /** Only trailing slashes are taken off, and all of them except that "/" stays. */
  lemma {:induction false} StrippedIs(path: Text)
    ensures var p := Stripped(path);
            && |p| <= |path| && path[..|p|] == p && (forall k :: |p| <= k < |path| ==> path[k] == 0x2F)
            && (path != [] ==> p != []) && (1 < |p| ==> p[|p| - 1] != 0x2F)
  {
    if 1 < |path| && path[|path| - 1] == SLASH {
      StrippedIs(path[..|path| - 1]);
    }
  }

  /** mount_entry_t: its stage, its root vnode and its path. */
  datatype Mount = Mount(stage: Stage, root: Option<nat>, path: Text)

  /** vnode_t: free when refcnt is 0. */
  datatype Vnode = Vnode(refcnt: nat, mount: nat)

  /** Between two critical sections a process may be inside vfs_mount; held: the references it owns. */
  datatype Who = Who(mounting: Option<nat>, held: multiset<nat>)

  datatype Vfs = Vfs(mounts: seq<Mount>, vnodes: seq<Vnode>, procs: seq<Who>)

  datatype Event =
    | MountStart(m: nat, path: Text)   // the entry is reserved
    | MountRoot(v: nat)            // the driver's callback allocates the root
    | MountDone
    | MountFail                    // the callback failed before it had a root
    | Find(m: nat)                 // vfs_mount_find: a reference on the root
    | Lookup(cur: nat, v: nat)     // the driver's lookup in a directory held: a new vnode
    | Acquire(v: nat)
    | Release(v: nat)
    | Umount(m: nat)

  predicate UmountOk(s: Vfs, m: nat)
    requires m < |s.mounts|
  {
    && s.mounts[m].stage == Active && s.mounts[m].path != [SLASH]
    && (s.mounts[m].root.Some? ==> s.mounts[m].root.value < |s.vnodes| && s.vnodes[s.mounts[m].root.value].refcnt <= 1)
    && forall v :: 0 <= v < |s.vnodes| && Some(v) != s.mounts[m].root ==> !(0 < s.vnodes[v].refcnt && s.vnodes[v].mount == m)
  }

  predicate Enabled(s: Vfs, i: nat, ev: Event) {
    i < |s.procs| && var pr := s.procs[i];
    match ev
    case MountStart(m, path) => pr.mounting == None && m < |s.mounts| && s.mounts[m].stage == Free
                                && forall j :: 0 <= j < |s.mounts| && s.mounts[j].stage != Free ==> s.mounts[j].path != Stripped(path)
    case MountRoot(v) => pr.mounting.Some? && pr.mounting.value < |s.mounts| && s.mounts[pr.mounting.value].root == None
                         && v < |s.vnodes| && s.vnodes[v].refcnt == 0
    case MountDone => pr.mounting.Some? && pr.mounting.value < |s.mounts|
    case MountFail => pr.mounting.Some? && pr.mounting.value < |s.mounts| && s.mounts[pr.mounting.value].root == None
    case Find(m) => m < |s.mounts| && s.mounts[m].stage == Active && s.mounts[m].root.Some? && s.mounts[m].root.value < |s.vnodes|
    case Lookup(cur, v) => cur in pr.held && cur < |s.vnodes| && v < |s.vnodes| && s.vnodes[v].refcnt == 0
    case Acquire(v) => v in pr.held && v < |s.vnodes|
    case Release(v) => v in pr.held && v < |s.vnodes|
    case Umount(m) => m < |s.mounts| && UmountOk(s, m)
  }

  function SetMount(s: Vfs, m: nat, e: Mount): Vfs
    requires m < |s.mounts|
  {
    s.(mounts := s.mounts[m := e])
  }

  function SetVnode(s: Vfs, v: nat, x: Vnode): Vfs
    requires v < |s.vnodes|
  {
    s.(vnodes := s.vnodes[v := x])
  }

  function SetProc(s: Vfs, i: nat, w: Who): Vfs
    requires i < |s.procs|
  {
    s.(procs := s.procs[i := w])
  }

  function Cleared(e: Mount): Mount { e.(stage := Free, root := None) }

  function Less(n: nat): nat { if 0 < n then n - 1 else 0 }

  function Next(s: Vfs, i: nat, ev: Event): Vfs
    requires Enabled(s, i, ev)
  {
    var pr := s.procs[i];
    match ev
    case MountStart(m, path) => SetProc(SetMount(s, m, Mount(Mounting, None, Stripped(path))), i, pr.(mounting := Some(m)))
    case MountRoot(v) => SetVnode(SetMount(s, pr.mounting.value, s.mounts[pr.mounting.value].(root := Some(v))), v, Vnode(1, pr.mounting.value))
    case MountDone => SetProc(SetMount(s, pr.mounting.value, s.mounts[pr.mounting.value].(stage := Active)), i, pr.(mounting := None))
    case MountFail => SetProc(SetMount(s, pr.mounting.value, Cleared(s.mounts[pr.mounting.value])), i, pr.(mounting := None))
    case Find(m) =>
      var r := s.mounts[m].root.value;
      SetProc(SetVnode(s, r, s.vnodes[r].(refcnt := s.vnodes[r].refcnt + 1)), i, pr.(held := pr.held + multiset{r}))
    case Lookup(cur, v) =>
      SetProc(SetVnode(s, v, Vnode(1, s.vnodes[cur].mount)), i, pr.(held := pr.held + multiset{v}))
    case Acquire(v) =>
      SetProc(SetVnode(s, v, s.vnodes[v].(refcnt := s.vnodes[v].refcnt + 1)), i, pr.(held := pr.held + multiset{v}))
    case Release(v) =>
      SetProc(SetVnode(s, v, s.vnodes[v].(refcnt := Less(s.vnodes[v].refcnt))), i, pr.(held := pr.held - multiset{v}))
    case Umount(m) =>
      var t := SetMount(s, m, Cleared(s.mounts[m]));
      match s.mounts[m].root
      case None => t
      case Some(r) => SetVnode(t, r, s.vnodes[r].(refcnt := Less(s.vnodes[r].refcnt)))
  }

  // ---- the invariant ----

  function HeldOf(v: nat): Who -> nat { (w: Who) => w.held[v] }
  function RootOf(v: nat): Mount -> nat { (m: Mount) => One(m.root == Some(v)) }
  function MountingOf(m: nat): Who -> nat { (w: Who) => One(w.mounting == Some(m)) }

  /** refcnt counts the references of processes and the one a mount has on its root; a vnode in use belongs
      to a mount that has its root and is not free. */
  ghost predicate VnodeInv(s: Vfs, v: nat)
    requires v < |s.vnodes|
  {
    && s.vnodes[v].refcnt == Sum(s.procs, HeldOf(v)) + Sum(s.mounts, RootOf(v))
    && (0 < s.vnodes[v].refcnt ==> Rooted(s, s.vnodes[v].mount))
  }

  /** Entry m is mounted, or being mounted, and has its root. */
  predicate Rooted(s: Vfs, m: nat) {
    m < |s.mounts| && s.mounts[m].root.Some? && s.mounts[m].stage != Free
  }

  /** A root belongs to its own mount; an entry being mounted has one process at it. */
  ghost predicate MountInv(s: Vfs, m: nat)
    requires m < |s.mounts|
  {
    && (s.mounts[m].root.Some? ==>
          s.mounts[m].stage != Free && s.mounts[m].root.value < |s.vnodes| && s.vnodes[s.mounts[m].root.value].mount == m)
    && Sum(s.procs, MountingOf(m)) == One(s.mounts[m].stage == Mounting)
  }

  predicate WhoInv(s: Vfs, i: nat)
    requires i < |s.procs|
  {
    && (forall v :: v in s.procs[i].held ==> v < |s.vnodes|)
    && (s.procs[i].mounting.Some? ==> s.procs[i].mounting.value < |s.mounts|)
  }

  ghost predicate Inv(s: Vfs) {
    && (forall v :: 0 <= v < |s.vnodes| ==> VnodeInv(s, v))
    && (forall m :: 0 <= m < |s.mounts| ==> MountInv(s, m))
    && (forall i :: 0 <= i < |s.procs| ==> WhoInv(s, i))
  }

  // ---- each step keeps it ----

  /** A vnode some process holds is in use, so its mount is not free. */
  lemma HeldInUse(s: Vfs, i: nat, v: nat)
    requires Inv(s) && i < |s.procs| && v in s.procs[i].held
    ensures v < |s.vnodes| && 0 < s.vnodes[v].refcnt
    ensures Rooted(s, s.vnodes[v].mount)
  {
    assert WhoInv(s, i) && VnodeInv(s, v);
    SumAt(s.procs, i, HeldOf(v));
  }

  lemma RootInUse(s: Vfs, m: nat)
    requires Inv(s) && m < |s.mounts| && s.mounts[m].root.Some?
    ensures var r := s.mounts[m].root.value; r < |s.vnodes| && 0 < s.vnodes[r].refcnt && s.vnodes[r].mount == m
  {
    assert MountInv(s, m);
    var r := s.mounts[m].root.value;
    assert VnodeInv(s, r);
    SumAt(s.mounts, m, RootOf(r));
  }

  /** One reference more on vnode v, owned by process i from now on. */
  lemma MoreStep(s: Vfs, i: nat, v: nat)
    requires Inv(s) && i < |s.procs| && v < |s.vnodes| && 0 < s.vnodes[v].refcnt
    ensures Inv(SetProc(SetVnode(s, v, s.vnodes[v].(refcnt := s.vnodes[v].refcnt + 1)), i, s.procs[i].(held := s.procs[i].held + multiset{v})))
  {
    var w := s.procs[i].(held := s.procs[i].held + multiset{v});
    var t := SetProc(SetVnode(s, v, s.vnodes[v].(refcnt := s.vnodes[v].refcnt + 1)), i, w);
    assert WhoInv(s, i);
    forall x | 0 <= x < |s.vnodes| ensures 0 < s.vnodes[x].refcnt ==> Rooted(s, s.vnodes[x].mount) {
      assert VnodeInv(s, x);
    }
    HeldStep(s, t, i, w);
  }

  /** What is left to check when a process's references and vnodes change, the mounts staying. */
  lemma HeldStep(s: Vfs, t: Vfs, i: nat, w: Who)
    requires Inv(s) && i < |s.procs| && t.mounts == s.mounts && t.procs == s.procs[i := w] && |t.vnodes| == |s.vnodes|
    requires w.mounting == s.procs[i].mounting && forall v :: v in w.held ==> v < |s.vnodes|
    requires forall v :: 0 <= v < |s.vnodes| ==>
      && t.vnodes[v].refcnt + s.procs[i].held[v] == s.vnodes[v].refcnt + w.held[v]
      && (0 < t.vnodes[v].refcnt ==> Rooted(s, t.vnodes[v].mount))
      && (0 < s.vnodes[v].refcnt ==> t.vnodes[v].mount == s.vnodes[v].mount)
    ensures Inv(t)
  {
    forall v | 0 <= v < |t.vnodes| ensures VnodeInv(t, v) {
      assert VnodeInv(s, v);
      SumPut(s.procs, i, w, HeldOf(v));
    }
    forall m | 0 <= m < |t.mounts| ensures MountInv(t, m) {
      assert MountInv(s, m);
      SumPut(s.procs, i, w, MountingOf(m));
      if s.mounts[m].root.Some? {
        RootInUse(s, m);
      }
    }
    forall j | 0 <= j < |t.procs| ensures WhoInv(t, j) {
      assert WhoInv(s, j);
    }
  }

  lemma LookupStep(s: Vfs, i: nat, cur: nat, v: nat)
    requires Inv(s) && Enabled(s, i, Lookup(cur, v))
    ensures Inv(Next(s, i, Lookup(cur, v)))
  {
    HeldInUse(s, i, cur);
    var w := s.procs[i].(held := s.procs[i].held + multiset{v});
    var t := Next(s, i, Lookup(cur, v));
    assert VnodeInv(s, v);
    SumAt(s.procs, i, HeldOf(v));
    assert WhoInv(s, i);
    forall x | 0 <= x < |s.vnodes| ensures 0 < s.vnodes[x].refcnt ==> Rooted(s, s.vnodes[x].mount) {
      assert VnodeInv(s, x);
    }
    HeldStep(s, t, i, w);
  }

  lemma ReleaseStep(s: Vfs, i: nat, v: nat)
    requires Inv(s) && Enabled(s, i, Release(v))
    ensures Inv(Next(s, i, Release(v)))
  {
    HeldInUse(s, i, v);
    var w := s.procs[i].(held := s.procs[i].held - multiset{v});
    var t := Next(s, i, Release(v));
    assert WhoInv(s, i);
    forall x | 0 <= x < |s.vnodes| ensures 0 < s.vnodes[x].refcnt ==> Rooted(s, s.vnodes[x].mount) {
      assert VnodeInv(s, x);
    }
    HeldStep(s, t, i, w);
  }

  /** An entry changes its stage while it has no root, or becomes active. */
  lemma StageStep(s: Vfs, i: nat, m: nat, e: Mount, w: Who)
    requires Inv(s) && i < |s.procs| && m < |s.mounts| && w.held == s.procs[i].held
    requires e.root == s.mounts[m].root && (e.stage == Free ==> e.root == None && s.mounts[m].stage == Mounting)
    requires s.mounts[m].stage == Free ==> s.mounts[m].root == None
    requires w.mounting == (if e.stage == Mounting then Some(m) else None)
    requires s.procs[i].mounting == (if s.mounts[m].stage == Mounting then Some(m) else None)
    requires e.stage != s.mounts[m].stage && (e.stage == Mounting || s.mounts[m].stage == Mounting)
    ensures Inv(SetProc(SetMount(s, m, e), i, w))
  {
    var t := SetProc(SetMount(s, m, e), i, w);
    forall v | 0 <= v < |t.vnodes| ensures VnodeInv(t, v) {
      assert VnodeInv(s, v);
      SumPut(s.procs, i, w, HeldOf(v));
      SumPut(s.mounts, m, e, RootOf(v));
    }
    forall k | 0 <= k < |t.mounts| ensures MountInv(t, k) {
      assert MountInv(s, k);
      SumPut(s.procs, i, w, MountingOf(k));
    }
    forall j | 0 <= j < |t.procs| ensures WhoInv(t, j) {
      assert WhoInv(s, j);
    }
  }

  lemma MountStartStep(s: Vfs, i: nat, m: nat, path: Text)
    requires Inv(s) && Enabled(s, i, MountStart(m, path))
    ensures Inv(Next(s, i, MountStart(m, path)))
  {
    assert MountInv(s, m);
    StageStep(s, i, m, Mount(Mounting, None, Stripped(path)), s.procs[i].(mounting := Some(m)));
  }

  /** An entry being mounted is at exactly the process that mounts it. */
  lemma AtMounting(s: Vfs, i: nat)
    requires Inv(s) && i < |s.procs| && s.procs[i].mounting.Some?
    ensures var m := s.procs[i].mounting.value; m < |s.mounts| && s.mounts[m].stage == Mounting
  {
    assert WhoInv(s, i);
    var m := s.procs[i].mounting.value;
    assert MountInv(s, m);
    SumAt(s.procs, i, MountingOf(m));
  }

  lemma MountDoneStep(s: Vfs, i: nat)
    requires Inv(s) && Enabled(s, i, MountDone)
    ensures Inv(Next(s, i, MountDone))
  {
    AtMounting(s, i);
    var m := s.procs[i].mounting.value;
    StageStep(s, i, m, s.mounts[m].(stage := Active), s.procs[i].(mounting := None));
  }

  lemma MountFailStep(s: Vfs, i: nat)
    requires Inv(s) && Enabled(s, i, MountFail)
    ensures Inv(Next(s, i, MountFail))
  {
    AtMounting(s, i);
    StageStep(s, i, s.procs[i].mounting.value, Cleared(s.mounts[s.procs[i].mounting.value]), s.procs[i].(mounting := None));
  }

  lemma MountRootStep(s: Vfs, i: nat, v: nat)
    requires Inv(s) && Enabled(s, i, MountRoot(v))
    ensures Inv(Next(s, i, MountRoot(v)))
  {
    AtMounting(s, i);
    var m := s.procs[i].mounting.value;
    var t := Next(s, i, MountRoot(v));
    forall x | 0 <= x < |t.vnodes| ensures VnodeInv(t, x) {
      assert VnodeInv(s, x);
      SumPut(s.mounts, m, t.mounts[m], RootOf(x));
    }
    forall k | 0 <= k < |t.mounts| ensures MountInv(t, k) {
      assert MountInv(s, k);
      if s.mounts[k].root.Some? {
        RootInUse(s, k);
      }
    }
    forall j | 0 <= j < |t.procs| ensures WhoInv(t, j) {
      assert WhoInv(s, j);
    }
  }

  lemma UmountStep(s: Vfs, i: nat, m: nat)
    requires Inv(s) && Enabled(s, i, Umount(m))
    ensures Inv(Next(s, i, Umount(m)))
  {
    var t := Next(s, i, Umount(m));
    assert MountInv(s, m);
    if s.mounts[m].root.Some? {
      RootInUse(s, m);
    }
    forall v | 0 <= v < |t.vnodes| ensures VnodeInv(t, v) {
      assert VnodeInv(s, v);
      SumPut(s.mounts, m, Cleared(s.mounts[m]), RootOf(v));
    }
    forall k | 0 <= k < |t.mounts| ensures MountInv(t, k) {
      assert MountInv(s, k);
    }
    forall j | 0 <= j < |t.procs| ensures WhoInv(t, j) {
      assert WhoInv(s, j);
    }
  }

  /** Process j holds a vnode of mount m. */
  predicate Holds(s: Vfs, j: nat, m: nat)
    requires j < |s.procs|
  {
    exists v <- s.procs[j].held :: v < |s.vnodes| && s.vnodes[v].mount == m
  }

  /** umount of an active mount other than "/" succeeds exactly when nobody refers to its root or to any other of its vnodes.
      The entry is free then and the root is given back. */
  lemma UmountAlone(s: Vfs, i: nat, m: nat)
    requires Inv(s) && i < |s.procs| && m < |s.mounts|
    ensures Enabled(s, i, Umount(m)) <==>
      s.mounts[m].stage == Active && s.mounts[m].path != [0x2F] && forall j :: 0 <= j < |s.procs| ==> !Holds(s, j, m)
    ensures Enabled(s, i, Umount(m)) ==>
      var t := Next(s, i, Umount(m));
      && t.mounts == s.mounts[m := s.mounts[m].(stage := Free, root := None)] && t.procs == s.procs
      && (s.mounts[m].root.Some? ==> t.vnodes[s.mounts[m].root.value].refcnt == 0)
      && forall v :: 0 <= v < |s.vnodes| && Some(v) != s.mounts[m].root ==> t.vnodes[v] == s.vnodes[v]
  {
    assert MountInv(s, m);
    if s.mounts[m].root.Some? {
      RootInUse(s, m);
    }
    if Enabled(s, i, Umount(m)) {
      forall j | 0 <= j < |s.procs| ensures !Holds(s, j, m) {
        forall v | v in s.procs[j].held ensures v < |s.vnodes| && s.vnodes[v].mount != m {
          HeldInUse(s, j, v);
          assert VnodeInv(s, v);
          SumAt(s.procs, j, HeldOf(v));
          SumAt(s.mounts, m, RootOf(v));
        }
      }
    }
    if forall j :: 0 <= j < |s.procs| ==> !Holds(s, j, m) {
      hide VnodeInv;
      forall v | 0 <= v < |s.vnodes| && s.vnodes[v].mount == m ensures s.vnodes[v].refcnt == One(s.mounts[m].root == Some(v)) {
        OnlyRoot(s, m, v);
      }
    }
  }

  /** What is left of a count when nobody refers to the mount. */
  lemma OnlyRoot(s: Vfs, m: nat, v: nat)
    requires Inv(s) && m < |s.mounts| && v < |s.vnodes| && s.vnodes[v].mount == m && forall j :: 0 <= j < |s.procs| ==> !Holds(s, j, m)
    ensures s.vnodes[v].refcnt == One(s.mounts[m].root == Some(v))
  {
    assert VnodeInv(s, v);
    forall j | 0 <= j < |s.procs| ensures HeldOf(v)(s.procs[j]) == 0 {
      assert !Holds(s, j, m);
    }
    SumZero(s.procs, HeldOf(v));
    var e := s.mounts[m].(root := None);
    var ms := s.mounts[m := e];
    SumPut(s.mounts, m, e, RootOf(v));
    forall k | 0 <= k < |ms| ensures RootOf(v)(ms[k]) == 0 {
      assert MountInv(s, k);
    }
    SumZero(ms, RootOf(v));
  }

  lemma StepOk(s: Vfs, i: nat, ev: Event)
    requires Inv(s) && Enabled(s, i, ev)
    ensures Inv(Next(s, i, ev))
  {
    match ev
    case MountStart(m, path) => MountStartStep(s, i, m, path);
    case MountRoot(v) => MountRootStep(s, i, v);
    case MountDone => MountDoneStep(s, i);
    case MountFail => MountFailStep(s, i);
    case Find(m) =>
      RootInUse(s, m);
      MoreStep(s, i, s.mounts[m].root.value);
    case Lookup(cur, v) => LookupStep(s, i, cur, v);
    case Acquire(v) =>
      HeldInUse(s, i, v);
      MoreStep(s, i, v);
    case Release(v) => ReleaseStep(s, i, v);
    case Umount(m) => UmountStep(s, i, m);
  }

  /** A path names the same mount point with and without a slash at its end. */
  lemma SamePoint(s: Vfs, i: nat, m: nat, path: Text)
    requires path != []
    ensures Enabled(s, i, MountStart(m, path + [0x2F])) <==> Enabled(s, i, MountStart(m, path))
    ensures Enabled(s, i, MountStart(m, path)) ==> Next(s, i, MountStart(m, path + [0x2F])) == Next(s, i, MountStart(m, path))
  {
    assert (path + [0x2F])[..|path|] == path;
  }

  /** p with n slashes behind it. */
  function Slashed(p: Text, n: nat): Text { p + seq(n, _ => 0x2F) }

  lemma {:induction false} StrippedOf(p: Text, n: nat)
    requires (p == [] ==> n == 0) && (1 < |p| ==> p[|p| - 1] != 0x2F)
    ensures Stripped(Slashed(p, n)) == p
    decreases n
  {
    if 0 < n {
      var path := Slashed(p, n);
      assert path[|path| - 1] == 0x2F && path[..|path| - 1] == Slashed(p, n - 1);
      StrippedOf(p, n - 1);
    } else {
      assert Slashed(p, n) == p;
    }
  }

  /** A free entry can be taken for p exactly when no entry in use has that path, however many slashes stand at the end. */
  lemma MountIff(s: Vfs, i: nat, m: nat, p: Text, n: nat)
    requires i < |s.procs| && s.procs[i].mounting == None && m < |s.mounts| && s.mounts[m].stage == Free
    requires (p == [] ==> n == 0) && (1 < |p| ==> p[|p| - 1] != 0x2F)
    ensures Enabled(s, i, MountStart(m, Slashed(p, n))) <==> forall j :: 0 <= j < |s.mounts| && s.mounts[j].stage != Free ==> s.mounts[j].path != p
    ensures Enabled(s, i, MountStart(m, Slashed(p, n))) ==>
      Next(s, i, MountStart(m, Slashed(p, n))) == s.(mounts := s.mounts[m := Mount(Mounting, None, p)], procs := s.procs[i := s.procs[i].(mounting := Some(m))])
  {
    StrippedOf(p, n);
  }

  /** vfs_mount_find gives exactly the active mounts that have a root, each with a reference on the root. */
  lemma FoundActive(s: Vfs, i: nat, m: nat)
    requires Inv(s) && i < |s.procs| && m < |s.mounts|
    ensures Enabled(s, i, Find(m)) <==> s.mounts[m].stage == Active && s.mounts[m].root.Some?
    ensures Enabled(s, i, Find(m)) ==>
      var r := s.mounts[m].root.value; var t := Next(s, i, Find(m));
      && r < |s.vnodes| && t.mounts == s.mounts && t.vnodes == s.vnodes[r := Vnode(s.vnodes[r].refcnt + 1, m)]
      && t.procs == s.procs[i := Who(s.procs[i].mounting, s.procs[i].held + multiset{r})]
  {
    assert MountInv(s, m);
  }

  /** A mount that was begun can be ended: made active at any time, or given up as long as it has no root. */
  lemma MountingEnds(s: Vfs, i: nat, v: nat)
    requires Inv(s) && i < |s.procs| && s.procs[i].mounting.Some?
    ensures var m := s.procs[i].mounting.value;
      && m < |s.mounts|
      && (Enabled(s, i, MountRoot(v)) <==> s.mounts[m].root == None && v < |s.vnodes| && s.vnodes[v].refcnt == 0)
      && (Enabled(s, i, MountFail) <==> s.mounts[m].root == None)
      && Enabled(s, i, MountDone)
      && Next(s, i, MountDone).mounts == s.mounts[m := s.mounts[m].(stage := Active)]
      && Next(s, i, MountDone).procs == s.procs[i := s.procs[i].(mounting := None)]
      && (Enabled(s, i, MountFail) ==> Next(s, i, MountFail).mounts == s.mounts[m := s.mounts[m].(stage := Free)])
  {
    AtMounting(s, i);
  }

  /** A vnode that is held can be given back, shared, and searched for any vnode slot that is free. */
  lemma HeldUsable(s: Vfs, i: nat, v: nat, w: nat)
    requires Inv(s) && i < |s.procs| && v in s.procs[i].held
    ensures Enabled(s, i, Acquire(v)) && Enabled(s, i, Release(v))
    ensures Enabled(s, i, Lookup(v, w)) <==> w < |s.vnodes| && s.vnodes[w].refcnt == 0
    ensures Enabled(s, i, Lookup(v, w)) ==> Next(s, i, Lookup(v, w)).vnodes[w] == Vnode(1, s.vnodes[v].mount)
  {
    HeldInUse(s, i, v);
  }

  // ---- runs ----

  /** Nothing mounted, nobody holding anything. */
  predicate Initial(s: Vfs) {
    && (forall m :: 0 <= m < |s.mounts| ==> s.mounts[m].stage == Free && s.mounts[m].root == None)
    && (forall v :: 0 <= v < |s.vnodes| ==> s.vnodes[v].refcnt == 0)
    && (forall i :: 0 <= i < |s.procs| ==> s.procs[i] == Who(None, multiset{}))
  }

  ghost predicate Steps(s: Vfs, t: Vfs) {
    exists i, ev :: Enabled(s, i, ev) && t == Next(s, i, ev)
  }

  ghost predicate Run(run: seq<Vfs>) {
    0 < |run| && Initial(run[0]) && forall k :: 0 <= k < |run| - 1 ==> Steps(run[k], run[k + 1])
  }

  lemma InitInv(s: Vfs)
    requires Initial(s)
    ensures Inv(s)
  {
    forall v | 0 <= v < |s.vnodes| ensures VnodeInv(s, v) {
      SumZero(s.procs, HeldOf(v));
      SumZero(s.mounts, RootOf(v));
    }
    forall m | 0 <= m < |s.mounts| ensures MountInv(s, m) {
      SumZero(s.procs, MountingOf(m));
    }
  }

  lemma LastStep(run: seq<Vfs>, k: nat) returns (i: nat, ev: Event)
    requires Run(run) && 0 < k < |run|
    ensures Enabled(run[k - 1], i, ev) && run[k] == Next(run[k - 1], i, ev)
  {
    var j := k - 1;
    assert Steps(run[j], run[j + 1]);
    i, ev :| Enabled(run[j], i, ev) && run[j + 1] == Next(run[j], i, ev);
  }

  lemma {:induction false} RunInv(run: seq<Vfs>, k: nat)
    requires Run(run) && k < |run|
    ensures Inv(run[k])
  {
    if k == 0 {
      InitInv(run[0]);
    } else {
      hide Inv, Enabled, Next, Run;
      RunInv(run, k - 1);
      var i, ev := LastStep(run, k);
      StepOk(run[k - 1], i, ev);
    }
  }

  /** In every reachable state a vnode that some process refers to is allocated, and its mount is neither
      free nor without a root; so no mount goes away under a reference. */
  lemma MountsPinned(run: seq<Vfs>, k: nat, i: nat, v: nat)
    requires Run(run) && k < |run| && i < |run[k].procs| && v in run[k].procs[i].held
    ensures var s := run[k];
            v < |s.vnodes| && 0 < s.vnodes[v].refcnt && Rooted(s, s.vnodes[v].mount)
  {
    RunInv(run, k);
    HeldInUse(run[k], i, v);
  }

  /** A vnode slot is free exactly when no process refers to it and it is no mount's root. */
  lemma FreeUnreferenced(run: seq<Vfs>, k: nat, v: nat)
    requires Run(run) && k < |run| && v < |run[k].vnodes|
    ensures run[k].vnodes[v].refcnt == 0 <==>
      && (forall i :: 0 <= i < |run[k].procs| ==> v !in run[k].procs[i].held)
      && (forall m :: 0 <= m < |run[k].mounts| ==> run[k].mounts[m].root != Some(v))
  {
    RunInv(run, k);
    var s := run[k];
    assert VnodeInv(s, v);
    if s.vnodes[v].refcnt == 0 {
      forall i | 0 <= i < |s.procs| ensures v !in s.procs[i].held {
        SumAt(s.procs, i, HeldOf(v));
      }
      forall m | 0 <= m < |s.mounts| ensures s.mounts[m].root != Some(v) {
        SumAt(s.mounts, m, RootOf(v));
      }
    } else if (forall i :: 0 <= i < |s.procs| ==> v !in s.procs[i].held) && (forall m :: 0 <= m < |s.mounts| ==> s.mounts[m].root != Some(v)) {
      SumZero(s.procs, HeldOf(v));
      SumZero(s.mounts, RootOf(v));
    }
  }

  /** No two entries that are mounted, or being mounted, have the same path. */
  predicate PathsDiffer(s: Vfs) {
    forall a, b :: 0 <= a < b < |s.mounts| && s.mounts[a].stage != Free && s.mounts[b].stage != Free ==> s.mounts[a].path != s.mounts[b].path
  }

  lemma {:induction false} PathsDistinct(run: seq<Vfs>, k: nat)
    requires Run(run) && k < |run|
    ensures PathsDiffer(run[k])
  {
    if k != 0 {
      hide Inv, Enabled, Next, Run;
      PathsDistinct(run, k - 1);
      RunInv(run, k - 1);
      var i, ev := LastStep(run, k);
      PathsStep(run[k - 1], i, ev);
    }
  }

  lemma PathsStep(s: Vfs, i: nat, ev: Event)
    requires Inv(s) && Enabled(s, i, ev) && PathsDiffer(s)
    ensures PathsDiffer(Next(s, i, ev))
  {
    StagesStep(s, i, ev);
    if ev.MountStart? {
      FreshPath(s, i, ev);
    }
    hide Inv, Next, Stripped, Enabled;
  }

  lemma FreshPath(s: Vfs, i: nat, ev: Event)
    requires ev.MountStart? && Enabled(s, i, ev)
    ensures forall j :: 0 <= j < |s.mounts| && s.mounts[j].stage != Free ==> s.mounts[j].path != Stripped(ev.path)
  {
  }

  /** What a step does to stages and paths: an entry is reserved under a new path, or keeps its own. */
  lemma StagesStep(s: Vfs, i: nat, ev: Event)
    requires Inv(s) && Enabled(s, i, ev)
    ensures |Next(s, i, ev).mounts| == |s.mounts|
    ensures forall a :: 0 <= a < |s.mounts| && Next(s, i, ev).mounts[a].stage != Free ==>
      || (s.mounts[a].stage != Free && Next(s, i, ev).mounts[a].path == s.mounts[a].path)
      || (ev.MountStart? && ev.m == a && Next(s, i, ev).mounts[a].path == Stripped(ev.path))
    ensures forall a :: 0 <= a < |s.mounts| && s.mounts[a].stage == Active && s.mounts[a].path == [SLASH] ==>
      Next(s, i, ev).mounts[a].stage == Active && Next(s, i, ev).mounts[a].path == [SLASH]
  {
    hide VnodeInv, Stripped;
    assert WhoInv(s, i);
    if ev.MountDone? || ev.MountFail? || ev.MountRoot? {
      assert MountInv(s, s.procs[i].mounting.value);
      SumAt(s.procs, i, MountingOf(s.procs[i].mounting.value));
    }
  }

  /** The path of an entry in use ends in no slash unless it is "/". */
  predicate PathsClean(s: Vfs) {
    forall m :: 0 <= m < |s.mounts| && s.mounts[m].stage != Free && 1 < |s.mounts[m].path| ==> s.mounts[m].path[|s.mounts[m].path| - 1] != 0x2F
  }

  lemma {:induction false} PathsStripped(run: seq<Vfs>, k: nat)
    requires Run(run) && k < |run|
    ensures PathsClean(run[k])
  {
    if k != 0 {
      hide Inv, Enabled, Next, Run, Stripped;
      PathsStripped(run, k - 1);
      RunInv(run, k - 1);
      var i, ev := LastStep(run, k);
      StagesStep(run[k - 1], i, ev);
      if ev.MountStart? {
        StrippedIs(ev.path);
      }
    }
  }

  /** Entry m is the active mount of "/". */
  predicate RootMount(s: Vfs, m: nat) {
    m < |s.mounts| && s.mounts[m].stage == Active && s.mounts[m].path == [SLASH]
  }

  lemma RootStep(s: Vfs, i: nat, ev: Event, m: nat)
    requires Inv(s) && Enabled(s, i, ev) && RootMount(s, m)
    ensures RootMount(Next(s, i, ev), m)
  {
    StagesStep(s, i, ev);
  }

  /** The root mount, once there, stays: umount refuses "/". */
  lemma {:induction false} RootStays(run: seq<Vfs>, j: nat, k: nat, m: nat)
    requires Run(run) && j <= k < |run| && RootMount(run[j], m)
    ensures RootMount(run[k], m)
    decreases k
  {
    hide Inv, Enabled, Next, Run, RootMount;
    if j < k {
      RootStays(run, j, k - 1, m);
      RunInv(run, k - 1);
      var i, ev := LastStep(run, k);
      RootStep(run[k - 1], i, ev, m);
    }
  }
}
