/** What every step keeps, whatever flags F_SETFL sets: references, openings, and the bytes in flight. The counts of
    a pipe's ends play no part in it. */
module PipeCore {
  import opened Sums
  import opened Options
  import opened Bytes
  import opened Pipe
  import opened FdPool
  import opened PipeProtocol
  import opened PipeInvariant

  // ---- the invariant ----

  /** refcnt counts the references; a slot without any is cleared; one not yet opened has one. */
  ghost predicate CoreSlot(s: Sys, d: nat)
    requires d < |s.slots|
  {
    var f := s.slots[d].file;
    && f.refcnt == Sum(s.procs, RefsTo(d)) + One(d < 3)
    && (f.refcnt == 0 ==> f.ops == NoOps)
    && (f.ops == NoOps ==> f.refcnt <= 1 && 3 <= d)
    && f.priv < PIPE_MAX
  }

  predicate CorePc(s: Sys, pc: Pc) {
    match pc
    case Closing(f, _, undo) => f.ops != NoOps && f.priv < PIPE_MAX && (undo.Some? ==> undo.value < PIPE_MAX)
    case _ => PcOk(s, pc)
  }

  predicate CoreProc(s: Sys, i: nat)
    requires i < |s.procs|
  {
    && (forall d :: d in s.procs[i].held ==> OpenSlot(s, d))
    && CorePc(s, s.procs[i].pc)
  }

  ghost predicate Core(s: Sys) {
    && Shape(s)
    && (forall d :: 0 <= d < FILE_MAX ==> CoreSlot(s, d))
    && (forall p :: 0 <= p < PIPE_MAX ==> StreamOk(s.pipes[p]))
    && (forall i :: 0 <= i < |s.procs| ==> CoreProc(s, i))
    && (forall g :: 0 <= g ==> GenInv(s, g))
  }

  lemma InvCore(s: Sys)
    requires Inv(s)
    ensures Core(s)
  {
    forall d | 0 <= d < FILE_MAX ensures CoreSlot(s, d) {
      assert SlotInv(s, d);
    }
    forall p | 0 <= p < PIPE_MAX ensures StreamOk(s.pipes[p]) {
      assert PipeInv(s, p);
    }
    forall i | 0 <= i < |s.procs| ensures CoreProc(s, i) {
      assert ProcInv(s, i);
    }
    hide SlotInv, PipeInv, ProcInv;
  }

  // ---- a local step ----

  /** The slot is left in order, and other references to it still find what they refer to. */
  ghost predicate CoreKept(s: Sys, c: Change)
    requires ChangeOk(s, c)
  {
    var u, y := s.slots[c.d], c.y;
    && (y.file.refcnt == 0 ==> y.file.ops == NoOps)
    && (y.file.ops == NoOps ==> y.file.refcnt <= 1 && 3 <= c.d)
    && y.file.priv < PIPE_MAX
    && (Shared(s, c.i, c.d) ==> y.file.ops == u.file.ops && y.file.priv == u.file.priv && y.gen == u.gen)
  }

  lemma CoreSlots(s: Sys, c: Change, d: nat)
    requires Core(s) && ChangeOk(s, c) && Balanced(s, c) && CoreKept(s, c) && d < FILE_MAX
    ensures CoreSlot(Changed(s, c), d)
  {
    assert CoreSlot(s, d);
    SumPut(s.procs, c.i, c.x, RefsTo(d));
  }

  lemma CoreGens(s: Sys, c: Change, g: nat)
    requires Core(s) && ChangeOk(s, c) && Balanced(s, c)
    ensures GenInv(Changed(s, c), g)
  {
    assert GenInv(s, g);
    SumPut(s.procs, c.i, c.x, GenOf(g));
    SumPut(s.slots, c.d, c.y, GenSlot(g));
    hide Refs;
  }

  /** What another process refers to is still there. */
  lemma CoreSees(s: Sys, c: Change, j: nat, d: nat)
    requires Core(s) && ChangeOk(s, c) && CoreKept(s, c) && j < |s.procs| && j != c.i
    requires d < |s.slots| && 0 < Refs(s.procs[j], d)
    ensures var a, b := s.slots[d], Changed(s, c).slots[d];
            a.file.ops == b.file.ops && a.file.priv == b.file.priv && a.gen == b.gen
  {
    if d == c.d {
      assert CoreSlot(s, d);
      SumTwo(s.procs, if c.i < j then c.i else j, if c.i < j then j else c.i, RefsTo(d));
    }
  }

  lemma CoreOther(s: Sys, c: Change, j: nat)
    requires Core(s) && ChangeOk(s, c) && CoreKept(s, c) && j < |s.procs| && j != c.i
    ensures CoreProc(Changed(s, c), j)
  {
    var t, pr := Changed(s, c), s.procs[j];
    assert CoreProc(s, j);
    forall d: nat | d < |s.slots| && 0 < Refs(pr, d)
      ensures var a, b := s.slots[d], t.slots[d]; a.file.ops == b.file.ops && a.file.priv == b.file.priv && a.gen == b.gen
    {
      CoreSees(s, c, j, d);
    }
    hide Core, CoreKept;
    forall d | d in pr.held ensures OpenSlot(t, d) {
      assert OpenSlot(s, d) && 0 < Refs(pr, d);
    }
    forall d: nat | d < |s.slots| && 0 < PcRefs(pr.pc, d)
      ensures var a, b := s.slots[d], t.slots[d]; a.file.ops == b.file.ops && a.file.priv == b.file.priv && a.gen == b.gen
    {
      assert 0 < Refs(pr, d);
    }
    hide Refs;
  }

  /** A balanced change of one process, one slot and one pipe keeps the core. */
  lemma CoreStep(s: Sys, c: Change)
    requires Core(s) && ChangeOk(s, c) && Balanced(s, c) && CoreKept(s, c) && StreamOk(c.z)
    requires CoreProc(Changed(s, c), c.i)
    ensures Core(Changed(s, c))
  {
    hide CoreSlot, CoreProc, GenInv, Balanced, CoreKept, StreamOk;
    var t := Changed(s, c);
    forall d | 0 <= d < FILE_MAX ensures CoreSlot(t, d) {
      CoreSlots(s, c, d);
    }
    forall g | 0 <= g ensures GenInv(t, g) {
      CoreGens(s, c, g);
    }
    forall i | 0 <= i < |t.procs| ensures CoreProc(t, i) {
      if i != c.i {
        CoreOther(s, c, i);
      }
    }
  }

  lemma CoreKnown(s: Sys, i: nat)
    requires Core(s) && i < |s.procs|
    ensures Shape(s) && CoreProc(s, i)
    ensures forall d :: 0 <= d < FILE_MAX ==> CoreSlot(s, d)
    ensures forall p :: 0 <= p < PIPE_MAX ==> StreamOk(s.pipes[p])
  {
  }

  // ---- the kinds of steps ----

  /** A step that leaves all slots alone. */
  lemma CoreMove(s: Sys, i: nat, pc: Pc, p: nat, z: PipeV, closed: multiset<nat>)
    requires Core(s) && i < |s.procs| && p < PIPE_MAX && StreamOk(z) && CorePc(s, pc)
    requires var o := s.procs[i].pc;
             && (forall d: nat :: PcRefs(pc, d) == PcRefs(o, d))
             && (forall g: nat :: PcGen(pc, g) + closed[g] == PcGen(o, g) + s.closed[g])
    ensures Core(Changed(s, PipeTo(Move(s, i, pc), p, z).(closed := closed)))
  {
    var c := PipeTo(Move(s, i, pc), p, z).(closed := closed);
    CoreKnown(s, i);
    assert CoreSlot(s, c.d);
    hide Core, PcRefs, PcGen, StreamOk;
    assert Changed(s, c).slots == s.slots;
    CoreStep(s, c);
  }

  /** fd_pool_alloc took slot d. */
  lemma CoreTake(s: Sys, i: nat, d: nat, pc: Pc)
    requires Core(s) && i < |s.procs| && d < FILE_MAX && FdPool.IsFree(s.slots[d].file)
    requires var o := s.procs[i].pc;
             (forall e: nat :: PcRefs(pc, e) == PcRefs(o, e) + One(e == d)) && !pc.Closing? && !o.Closing?
    requires CorePc(Changed(s, SlotTo(Move(s, i, pc), d, Taken(), s)), pc)
    ensures Core(Changed(s, SlotTo(Move(s, i, pc), d, Taken(), s)))
  {
    var c := SlotTo(Move(s, i, pc), d, Taken(), s);
    CoreKnown(s, i);
    assert CoreSlot(s, d) && StreamOk(s.pipes[0]);
    hide Core, PcRefs, StreamOk, CorePc;
    assert forall e :: e in s.procs[i].held ==> OpenSlot(s, e) && e != d;
    CoreStep(s, c);
  }

  /** One more reference to an open slot. */
  lemma CoreMore(s: Sys, j: nat, x: Proc, d: nat)
    requires Core(s) && j < |s.procs| && OpenSlot(s, d)
    requires forall e: nat :: Refs(x, e) == Refs(s.procs[j], e) + One(e == d)
    requires forall e :: e in x.held ==> e == d || e in s.procs[j].held
    requires x.pc == s.procs[j].pc || (s.procs[j].pc.Idle? && x.pc.Begun? && x.pc.d == d && x.pc.gen == s.slots[d].gen)
    ensures Core(Changed(s, SlotTo(Move(s, j, x.pc).(x := x), d, OneMore(s.slots[d].file), s)))
  {
    var c := SlotTo(Move(s, j, x.pc).(x := x), d, OneMore(s.slots[d].file), s);
    CoreKnown(s, j);
    assert CoreSlot(s, d) && StreamOk(s.pipes[0]);
    hide Core, Refs, StreamOk;
    var t := Changed(s, c);
    assert forall e :: 0 <= e < |s.slots| ==>
      t.slots[e].gen == s.slots[e].gen && t.slots[e].file.ops == s.slots[e].file.ops && t.slots[e].file.priv == s.slots[e].file.priv;
    CoreStep(s, c);
  }

  /** The process that took slot d opens it. */
  lemma CoreInit(s: Sys, i: nat, x: Proc, d: nat, f: File)
    requires Core(s) && i < |s.procs| && NewSlot(s, d) && f.refcnt == s.slots[d].file.refcnt && f.ops != NoOps && f.priv < PIPE_MAX
    requires var o := s.procs[i];
             0 < PcRefs(o.pc, d) && (forall e: nat :: Refs(x, e) == Refs(o, e)) && !x.pc.Closing? && !o.pc.Closing?
    requires var t := Changed(s, Opened(Move(s, i, x.pc).(x := x), d, f)); CorePc(t, x.pc) && forall e :: e in x.held ==> OpenSlot(t, e)
    ensures Core(Changed(s, Opened(Move(s, i, x.pc).(x := x), d, f)))
  {
    var c := Opened(Move(s, i, x.pc).(x := x), d, f);
    CoreKnown(s, i);
    assert CoreSlot(s, d) && StreamOk(s.pipes[0]);
    SumAt(s.procs, i, RefsTo(d));
    assert PcRefs(s.procs[i].pc, d) <= Refs(s.procs[i], d);
    hide Core, PcRefs, Refs, StreamOk, CorePc;
    CoreStep(s, c);
  }

  /** vfs_fd_release. */
  lemma CoreRelease(s: Sys, i: nat, held: multiset<nat>, d: nat, undo: Option<nat>)
    requires Core(s) && i < |s.procs| && OpenSlot(s, d)
    requires var o := s.procs[i];
             && (forall e: nat :: held[e] + One(e == d) == Refs(o, e))
             && held <= o.held && !o.pc.Closing? && (undo.Some? ==> undo.value < PIPE_MAX)
    ensures var r := Released(s.slots[d].file);
            Core(Changed(s, SlotTo(Move(s, i, Idle).(x := Proc(AfterRelease(r.1, s.slots[d].gen, undo), held)), d, r.0, s)))
  {
    var r := Released(s.slots[d].file);
    var c := SlotTo(Move(s, i, Idle).(x := Proc(AfterRelease(r.1, s.slots[d].gen, undo), held)), d, r.0, s);
    CoreKnown(s, i);
    assert CoreSlot(s, d) && StreamOk(s.pipes[0]);
    SumAt(s.procs, i, RefsTo(d));
    ReleasedPc(s.slots[d].file, s.slots[d].gen, undo);
    hide Core, Refs, StreamOk, Sum;
    CoreReleased(s, c, held);
    hide PcRefs, PcGen, AfterRelease;
    CoreStep(s, c);
  }

  lemma CoreReleased(s: Sys, c: Change, held: multiset<nat>)
    requires ChangeOk(s, c) && CoreProc(s, c.i) && held <= s.procs[c.i].held && c.x.held == held
    requires held[c.d] + 1 == Refs(s.procs[c.i], c.d) && s.slots[c.d].file.refcnt >= Refs(s.procs[c.i], c.d)
    requires c.y == s.slots[c.d].(file := Released(s.slots[c.d].file).0)
    requires CorePc(Changed(s, c), c.x.pc)
    ensures CoreProc(Changed(s, c), c.i)
  {
    hide CorePc;
    var t := Changed(s, c);
    forall e | e in held ensures OpenSlot(t, e) {
      assert e in s.procs[c.i].held;
    }
  }

  lemma ReleasedPc(f: File, gen: nat, undo: Option<nat>)
    requires f.ops != NoOps && 0 < f.refcnt && f.priv < PIPE_MAX && (undo.Some? ==> undo.value < PIPE_MAX)
    ensures var r := Released(f); var pc := AfterRelease(r.1, gen, undo);
            && (forall e: nat :: PcRefs(pc, e) == 0)
            && (forall g: nat :: PcGen(pc, g) == if r.1.Some? then One(gen == g) else 0)
            && (forall s :: CorePc(s, pc))
  {
  }

  lemma CoreSetFl(s: Sys, i: nat, d: nat, arg: nat)
    requires Core(s) && Enabled(s, i, SetFl(d, arg))
    ensures Core(Changed(s, Local(s, i, SetFl(d, arg))))
  {
    var c := Local(s, i, SetFl(d, arg));
    CoreKnown(s, i);
    assert CoreSlot(s, d) && OpenSlot(s, d) && StreamOk(s.pipes[0]);
    hide Core, StreamOk, SetFlags;
    assert forall e :: OpenSlot(s, e) ==> OpenSlot(Changed(s, c), e);
    CoreStep(s, c);
  }

  // ---- all steps ----

  /** What is read leaves the front of the ring; what is written joins its end. */
  lemma ReadStream(v: PipeV, n: nat)
    requires StreamOk(v)
    ensures StreamOk(PipeV(AfterRead(v.st, n), v.accepted, v.delivered + ReadBytes(v.st, n)))
    ensures var st := AfterRead(v.st, n); st.readers == v.st.readers && st.writers == v.st.writers && st.inUse == v.st.inUse
  {
    var k := Min(n, |v.st.ring|);
    assert v.st.ring[..k] + v.st.ring[k..] == v.st.ring;
    assert v.delivered + v.st.ring[..k] + v.st.ring[k..] == v.delivered + v.st.ring;
  }

  lemma WriteStream(v: PipeV, src: seq<Byte>)
    requires StreamOk(v)
    ensures StreamOk(PipeV(AfterWrite(v.st, src), v.accepted + src[..Accepted(v.st, |src|)], v.delivered))
    ensures var st := AfterWrite(v.st, src); st.readers == v.st.readers && st.writers == v.st.writers && st.inUse == v.st.inUse
  {
    var b := src[..Accepted(v.st, |src|)];
    assert v.delivered + (v.st.ring + b) == v.delivered + v.st.ring + b;
  }

  lemma IoStream(s: Sys, i: nat, sleep: bool)
    requires Core(s) && Enabled(s, i, DoIo(sleep))
    ensures StreamOk(Io(s, i, sleep).z)
  {
    var pc := s.procs[i].pc;
    var v := s.pipes[s.slots[pc.d].file.priv];
    CoreKnown(s, i);
    hide Core, CoreSlot, CoreProc, AfterRead, AfterWrite, ReadBytes, Accepted, StreamOk;
    if pc.op.Read? {
      ReadStream(v, pc.op.n);
    } else {
      WriteStream(v, pc.op.src);
    }
  }

  lemma CoreIo(s: Sys, i: nat, sleep: bool)
    requires Core(s) && Enabled(s, i, DoIo(sleep))
    ensures Core(Changed(s, Local(s, i, DoIo(sleep))))
  {
    CoreKnown(s, i);
    IoStream(s, i, sleep);
    hide Core, CoreSlot, AfterRead, AfterWrite, ReadBytes, Accepted, StreamOk, ReadOutcome, WriteOutcome;
    var c := Io(s, i, sleep);
    CoreMove(s, i, c.x.pc, c.p, c.z, s.closed);
  }

  lemma CoreInitSlot(s: Sys, i: nat)
    requires Core(s) && Enabled(s, i, InitSlot)
    ensures Core(Changed(s, Local(s, i, InitSlot)))
  {
    var pr := s.procs[i];
    var pc := pr.pc;
    CoreKnown(s, i);
    hide Core, StreamOk, CoreSlot;
    if pc.HasRd? {
      CoreInit(s, i, pr.(pc := RdReady(pc.p, pc.rd)), pc.rd, File(PipeRead, pc.p, O_RDONLY, s.slots[pc.rd].file.refcnt));
    } else if pc.HasWd? {
      CoreInit(s, i, Proc(Idle, pr.held + multiset{pc.rd, pc.wd}), pc.wd, File(PipeWrite, pc.p, O_WRONLY, s.slots[pc.wd].file.refcnt));
    } else {
      CoreInit(s, i, Proc(Idle, pr.held + multiset{pc.d}), pc.d, File(Driver, 0, 0, s.slots[pc.d].file.refcnt));
    }
  }

  lemma CoreTakeSlot(s: Sys, i: nat, d: nat)
    requires Core(s) && Enabled(s, i, TakeSlot(d))
    ensures Core(Changed(s, Local(s, i, TakeSlot(d))))
  {
    var pc := s.procs[i].pc;
    CoreKnown(s, i);
    hide Core, StreamOk, CoreSlot;
    CoreTake(s, i, d, if pc.HasPipe? then HasRd(pc.p, d) else HasWd(pc.p, pc.rd, d));
  }

  lemma CoreDrop(s: Sys, i: nat, ev: Event)
    requires Core(s) && Enabled(s, i, ev) && (ev.UndoRelease? || ev.Leave? || ev.CloseFd?)
    ensures Core(Changed(s, Local(s, i, ev)))
  {
    var pr := s.procs[i];
    CoreKnown(s, i);
    hide Core, StreamOk, CoreSlot;
    match ev
    case UndoRelease => CoreRelease(s, i, pr.held, pr.pc.rd, Some(pr.pc.p));
    case Leave => CoreRelease(s, i, pr.held, pr.pc.d, None);
    case CloseFd(d) => CoreRelease(s, i, pr.held - multiset{d}, d, None);
  }

  lemma CoreAdd(s: Sys, i: nat, ev: Event)
    requires Core(s) && Enabled(s, i, ev) && (ev.Dup? || ev.Stdio? || ev.StartIo?)
    ensures Core(Changed(s, Local(s, i, ev)))
  {
    var pr := s.procs[i];
    CoreKnown(s, i);
    hide Core, StreamOk;
    match ev
    case Dup(j, d) => CoreMore(s, j, s.procs[j].(held := s.procs[j].held + multiset{d}), d);
    case Stdio(d) =>
      assert CoreSlot(s, d);
      CoreMore(s, i, Proc(Idle, pr.held + multiset{d}), d);
    case StartIo(d, op) => CoreMore(s, i, pr.(pc := Begun(d, s.slots[d].gen, op)), d);
  }

  lemma CoreClose(s: Sys, i: nat)
    requires Core(s) && Enabled(s, i, RunClose)
    ensures Core(Changed(s, Local(s, i, RunClose)))
  {
    CoreKnown(s, i);
    hide Core, CoreSlot, AfterClose;
    var c := Local(s, i, RunClose);
    CoreMove(s, i, c.x.pc, c.p, c.z, c.closed);
  }

  /** The steps that leave all slots and all closes alone. */
  lemma CoreStay(s: Sys, i: nat, ev: Event)
    requires Core(s) && Enabled(s, i, ev)
    requires ev.CreatePipe? || ev.NoSlot? || ev.FreeAgain? || ev.ReadFlags? || ev.Signal? || ev.Wake? || ev.FreeLast?
    ensures Core(Changed(s, Local(s, i, ev)))
  {
    CoreKnown(s, i);
    hide Core, CoreSlot;
    var c := Local(s, i, ev);
    CoreMove(s, i, c.x.pc, c.p, c.z, s.closed);
  }

  lemma CoreWoken(s: Sys, p: nat)
    requires Core(s)
    ensures Core(Woken(s, p))
  {
    var t := Woken(s, p);
    WokenSums(s, p);
    hide Sum, StreamOk;
    forall d | 0 <= d < FILE_MAX ensures CoreSlot(t, d) {
      assert CoreSlot(s, d);
    }
    forall g | 0 <= g ensures GenInv(t, g) {
      assert GenInv(s, g);
    }
    forall i | 0 <= i < |t.procs| ensures CoreProc(t, i) {
      assert CoreProc(s, i);
      forall d | d in t.procs[i].held ensures OpenSlot(t, d) {
        assert OpenSlot(s, d);
      }
    }
  }

  /** Every step keeps the core. */
  lemma CoreNext(s: Sys, i: nat, ev: Event)
    requires Core(s) && Enabled(s, i, ev)
    ensures Shape(s) && Core(Next(s, i, ev))
  {
    CoreKnown(s, i);
    if ev.Wake? {
      CoreStay(s, i, ev);
      CoreWoken(Changed(s, Local(s, i, ev)), s.procs[i].pc.p);
      return;
    }
    hide Core, Enabled, Changed, Local, CoreSlot, CoreProc, StreamOk;
    match ev
    case TakeSlot(d) => CoreTakeSlot(s, i, d);
    case InitSlot => CoreInitSlot(s, i);
    case OpenFile(d) => CoreOpen(s, i, d);
    case Dup(j, d) => CoreAdd(s, i, ev);
    case Stdio(d) => CoreAdd(s, i, ev);
    case StartIo(d, op) => CoreAdd(s, i, ev);
    case DoIo(sleep) => CoreIo(s, i, sleep);
    case UndoRelease => CoreDrop(s, i, ev);
    case Leave => CoreDrop(s, i, ev);
    case CloseFd(d) => CoreDrop(s, i, ev);
    case RunClose => CoreClose(s, i);
    case SetFl(d, arg) => CoreSetFl(s, i, d, arg);
    case _ => CoreStay(s, i, ev);
  }

  lemma CoreOpen(s: Sys, i: nat, d: nat)
    requires Core(s) && Enabled(s, i, OpenFile(d))
    ensures Core(Changed(s, Local(s, i, OpenFile(d))))
  {
    CoreTake(s, i, d, HasFile(d));
  }
}
