/** All runs of the pipe and descriptor protocol: safety of every reachable state. */
module PipeRuns {
  import opened Sums
  import opened Options
  import opened Bytes
  import opened Pipe
  import opened FdPool
  import opened PipeProtocol
  import opened PipeInvariant
  import opened PipeCore

  // ---- each step keeps the invariant ----

  /** The slot at c.d and the pipe at c.p as the invariant knows them. */
  lemma Known(s: Sys, c: Change)
    requires Inv(s) && ChangeOk(s, c)
    ensures SlotInv(s, c.d) && PipeInv(s, c.p) && ProcInv(s, c.i) && Shape(s)
  {
  }

  /** A step that changes only where a process stands. */
  lemma MoveOk(s: Sys, i: nat, pc: Pc)
    requires Inv(s) && i < |s.procs|
    requires var o := s.procs[i].pc;
             && (forall d: nat :: PcRefs(pc, d) == PcRefs(o, d))
             && (forall q: nat :: PcReads(pc, q) == PcReads(o, q) && PcWrites(pc, q) == PcWrites(o, q) && PcFrees(pc, q) == PcFrees(o, q))
             && (forall g: nat :: PcGen(pc, g) == PcGen(o, g))
             && (forall q: nat :: Pends(o, q) ==> Pends(pc, q) || NoSleeper(s, q))
    requires PcOk(s, pc) && UndoOk(s, pc) && SleepOk(Changed(s, Move(s, i, pc)), pc)
    ensures Inv(Changed(s, Move(s, i, pc)))
  {
    var c := Move(s, i, pc);
    Known(s, c);
    hide Inv, PcRefs, PcReads, PcWrites, PcFrees, PcGen, Pends, SlotInv, PcOk, SleepOk, UndoOk, Excl;
    assert SlotKept(s, c) by { SlotStays(s, c); }
    PcOkSame(s, c, pc);
    assert Changed(s, c).procs[i].held == s.procs[i].held;
    assert forall d :: d in s.procs[i].held ==> OpenSlot(s, d);
    LocalStep(s, c);
  }

  lemma SlotStays(s: Sys, c: Change)
    requires ChangeOk(s, c) && c.y == s.slots[c.d] && SlotInv(s, c.d)
    ensures SlotKept(s, c)
  {
  }

  lemma PcOkSame(s: Sys, c: Change, pc: Pc)
    requires ChangeOk(s, c) && c.y == s.slots[c.d] && PcOk(s, pc) && UndoOk(s, pc) && c.z == s.pipes[c.p]
    ensures PcOk(Changed(s, c), pc) && UndoOk(Changed(s, c), pc)
  {
    assert Changed(s, c).slots == s.slots && Changed(s, c).pipes == s.pipes;
  }

  /** A pipe without ends in slots has no sleepers. */
  lemma NoEndsNoSleepers(s: Sys, p: nat)
    requires Inv(s) && Sum(s.slots, ReadSlot(p)) == 0 && Sum(s.slots, WriteSlot(p)) == 0
    ensures NoSleeper(s, p)
  {
    forall j | 0 <= j < |s.procs| ensures !SleepsOn(s, s.procs[j], p) {
      if SleepsOn(s, s.procs[j], p) {
        assert ProcInv(s, j);
        SumAt(s.slots, s.procs[j].pc.d, ReadSlot(p));
        SumAt(s.slots, s.procs[j].pc.d, WriteSlot(p));
        assert false;
      }
    }
  }

  /** Nobody else refers to a slot that a vfs_fd_pipe_create in progress relies on. */
  lemma ExclAlone(s: Sys, k: nat, i: nat, d: nat)
    requires Inv(s) && k < |s.procs| && i < |s.procs| && k != i && d < |s.slots| && Excl(s.procs[k].pc, d)
    ensures Refs(s.procs[i], d) == 0 && 3 <= d
  {
    assert ProcInv(s, k) && SlotInv(s, d);
    SumTwo(s.procs, if i < k then i else k, if i < k then k else i, RefsTo(d));
  }

  lemma NotExcl(s: Sys, i: nat, d: nat)
    requires Inv(s) && i < |s.procs| && d < |s.slots| && (0 < Refs(s.procs[i], d) || d < 3)
    ensures forall k :: 0 <= k < |s.procs| && k != i ==> !Excl(s.procs[k].pc, d)
  {
    forall k | 0 <= k < |s.procs| && k != i ensures !Excl(s.procs[k].pc, d) {
      if Excl(s.procs[k].pc, d) {
        ExclAlone(s, k, i, d);
        assert false;
      }
    }
  }

  lemma FreeNotExcl(s: Sys, d: nat)
    requires Inv(s) && d < |s.slots| && s.slots[d].file.refcnt == 0
    ensures forall k :: 0 <= k < |s.procs| ==> !Excl(s.procs[k].pc, d)
  {
    forall k | 0 <= k < |s.procs| ensures !Excl(s.procs[k].pc, d) {
      assert ProcInv(s, k);
    }
  }

  lemma CreatePipeOk(s: Sys, i: nat, p: nat)
    requires Inv(s) && Enabled(s, i, CreatePipe(p))
    ensures Inv(Changed(s, Local(s, i, CreatePipe(p))))
  {
    var c := Local(s, i, CreatePipe(p));
    Known(s, c);
    NoEndsNoSleepers(s, p);
    hide Inv, PcOk, SleepOk, UndoOk;
    SlotStays(s, c);
    assert Changed(s, c).slots == s.slots;
    assert PcOk(Changed(s, c), c.x.pc);
    assert SleepOk(Changed(s, c), c.x.pc);
    assert UndoOk(Changed(s, c), c.x.pc);
    LocalStep(s, c);
  }

  /** fd_pool_alloc took slot d. */
  lemma TakeOk(s: Sys, i: nat, d: nat, pc: Pc)
    requires Inv(s) && i < |s.procs| && d < FILE_MAX && FdPool.IsFree(s.slots[d].file)
    requires var o := s.procs[i].pc;
             && (forall e: nat :: PcRefs(pc, e) == PcRefs(o, e) + One(e == d))
             && (forall q: nat :: PcReads(pc, q) == PcReads(o, q) && PcWrites(pc, q) == PcWrites(o, q) && PcFrees(pc, q) == PcFrees(o, q))
             && !pc.Closing? && !o.Closing? && (forall q: nat :: !Pends(o, q))
    requires var c := SlotTo(Move(s, i, pc), d, Taken(), s); PcOk(Changed(s, c), pc) && UndoOk(Changed(s, c), pc) && !pc.Asleep?
    ensures Inv(Changed(s, SlotTo(Move(s, i, pc), d, Taken(), s)))
  {
    var c := SlotTo(Move(s, i, pc), d, Taken(), s);
    Known(s, c);
    FreeNotExcl(s, d);
    hide Inv, PcOk, PcRefs, PcReads, PcWrites, PcFrees, Pends, UndoOk, Excl;
    assert forall e :: e in s.procs[i].held ==> OpenSlot(s, e) && e != d;
    LocalStep(s, c);
  }

  lemma TakeSlotOk(s: Sys, i: nat, d: nat)
    requires Inv(s) && Enabled(s, i, TakeSlot(d))
    ensures Inv(Changed(s, Local(s, i, TakeSlot(d))))
  {
    var pc := s.procs[i].pc;
    assert ProcInv(s, i);
    TakeOk(s, i, d, if pc.HasPipe? then HasRd(pc.p, d) else HasWd(pc.p, pc.rd, d));
  }

  lemma OpenFileOk(s: Sys, i: nat, d: nat)
    requires Inv(s) && Enabled(s, i, OpenFile(d))
    ensures Inv(Changed(s, Local(s, i, OpenFile(d))))
  {
    TakeOk(s, i, d, HasFile(d));
  }

  lemma NoSlotOk(s: Sys, i: nat)
    requires Inv(s) && Enabled(s, i, NoSlot)
    ensures Inv(Changed(s, Local(s, i, NoSlot)))
  {
    var pc := s.procs[i].pc;
    assert ProcInv(s, i);
    MoveOk(s, i, if pc.HasPipe? then FreePipe(pc.p, true) else UndoRd(pc.p, pc.rd));
  }

  lemma SignalOk(s: Sys, i: nat)
    requires Inv(s) && Enabled(s, i, Signal)
    ensures Inv(Changed(s, Local(s, i, Signal)))
  {
    var pc := s.procs[i].pc;
    assert ProcInv(s, i);
    MoveOk(s, i, Top(pc.d, pc.gen, pc.op, false));
  }

  lemma ReadFlagsOk(s: Sys, i: nat)
    requires Inv(s) && Enabled(s, i, ReadFlags)
    ensures Inv(Changed(s, Local(s, i, ReadFlags)))
  {
    assert ProcInv(s, i);
    MoveOk(s, i, Local(s, i, ReadFlags).x.pc);
  }

  /** One more reference to an open slot, held by process j or by its step in progress. */
  lemma MoreOk(s: Sys, j: nat, x: Proc, d: nat)
    requires Inv(s) && j < |s.procs| && OpenSlot(s, d)
    requires forall e: nat :: Refs(x, e) == Refs(s.procs[j], e) + One(e == d)
    requires forall e :: e in x.held ==> e == d || e in s.procs[j].held
    requires x.pc == s.procs[j].pc || (s.procs[j].pc.Idle? && x.pc.Begun? && x.pc.d == d && x.pc.gen == s.slots[d].gen)
    requires forall k :: 0 <= k < |s.procs| ==> !Excl(s.procs[k].pc, d)
    ensures Inv(Changed(s, SlotTo(Move(s, j, x.pc).(x := x), d, OneMore(s.slots[d].file), s)))
  {
    var c := SlotTo(Move(s, j, x.pc).(x := x), d, OneMore(s.slots[d].file), s);
    Known(s, c);
    hide Inv, Refs, Excl, UndoOk, PcOk, SleepOk, CountsOk, StreamOk, Sum, ReadEnds, WriteEnds, PcReads, PcWrites, PcFrees, Pends, PcGen;
    MoreTokens(s.procs[j].pc, x.pc);
    MorePc(s, c, x.pc);
    EndsSame(s, c);
    hide EndsKept;
    LocalStep(s, c);
  }

  lemma MoreTokens(o: Pc, pc: Pc)
    requires pc == o || (o.Idle? && pc.Begun?)
    ensures forall q: nat :: PcReads(pc, q) == PcReads(o, q) && PcWrites(pc, q) == PcWrites(o, q) && PcFrees(pc, q) == PcFrees(o, q)
    ensures forall q: nat :: PcGen(pc, q) == PcGen(o, q) && Pends(pc, q) == Pends(o, q)
  {
  }

  lemma MorePc(s: Sys, c: Change, pc: Pc)
    requires ChangeOk(s, c) && c.y == s.slots[c.d].(file := c.y.file) && OpenSlot(s, c.d)
    requires c.y.file.ops == s.slots[c.d].file.ops && c.y.file.priv == s.slots[c.d].file.priv && c.p < |s.pipes| && c.z == s.pipes[c.p]
    requires ProcInv(s, c.i) && c.x.pc == pc
    requires pc == s.procs[c.i].pc || (pc.Begun? && pc.d == c.d && pc.gen == c.y.gen)
    requires !Excl(s.procs[c.i].pc, c.d)
    ensures PcOk(Changed(s, c), pc) && SleepOk(Changed(s, c), pc) && UndoOk(Changed(s, c), pc)
    ensures forall e :: OpenSlot(s, e) ==> OpenSlot(Changed(s, c), e)
  {
    var t := Changed(s, c);
    assert t.pipes == s.pipes;
    assert forall e :: 0 <= e < |s.slots| ==> t.slots[e].gen == s.slots[e].gen && t.slots[e].file.ops == s.slots[e].file.ops && t.slots[e].file.priv == s.slots[e].file.priv;
    if pc.Asleep? {
      var p := s.slots[pc.d].file.priv;
      if p < |s.pipes| && Pending(s, p) {
        var k :| 0 <= k < |s.procs| && Pends(s.procs[k].pc, p);
        assert Pends(t.procs[k].pc, p);
      }
    }
  }

  lemma DupOk(s: Sys, i: nat, j: nat, d: nat)
    requires Inv(s) && Enabled(s, i, Dup(j, d))
    ensures Inv(Changed(s, Local(s, i, Dup(j, d))))
  {
    assert ProcInv(s, i);
    NotExcl(s, i, d);
    MoreOk(s, j, s.procs[j].(held := s.procs[j].held + multiset{d}), d);
  }

  lemma StdioOk(s: Sys, i: nat, d: nat)
    requires Inv(s) && Enabled(s, i, Stdio(d))
    ensures Inv(Changed(s, Local(s, i, Stdio(d))))
  {
    assert SlotInv(s, d);
    NotExcl(s, i, d);
    MoreOk(s, i, Proc(Idle, s.procs[i].held + multiset{d}), d);
  }

  lemma StartIoOk(s: Sys, i: nat, d: nat, op: Op)
    requires Inv(s) && Enabled(s, i, StartIo(d, op))
    ensures Inv(Changed(s, Local(s, i, StartIo(d, op))))
  {
    NotExcl(s, i, d);
    MoreOk(s, i, s.procs[i].(pc := Begun(d, s.slots[d].gen, op)), d);
  }

  /** The process that took slot d opens it: a new opening, and the reference moves to where it is kept. */
  lemma InitOk(s: Sys, i: nat, x: Proc, d: nat, f: File)
    requires Inv(s) && i < |s.procs| && NewSlot(s, d) && f.refcnt == s.slots[d].file.refcnt && f.ops != NoOps && FlagsOk(f)
    requires var o := s.procs[i];
             && 0 < PcRefs(o.pc, d)
             && (forall e: nat :: Refs(x, e) == Refs(o, e))
             && (forall q: nat :: PcReads(x.pc, q) + One(f.ops == PipeRead && f.priv == q) == PcReads(o.pc, q))
             && (forall q: nat :: PcWrites(x.pc, q) + One(f.ops == PipeWrite && f.priv == q) == PcWrites(o.pc, q))
             && (forall q: nat :: PcFrees(x.pc, q) == PcFrees(o.pc, q))
             && !x.pc.Closing? && !o.pc.Closing? && !x.pc.Asleep? && (forall q: nat :: !Pends(o.pc, q))
    requires var c := Opened(Move(s, i, x.pc).(x := x), d, f);
             PcOk(Changed(s, c), x.pc) && UndoOk(Changed(s, c), x.pc) && forall e :: e in x.held ==> OpenSlot(Changed(s, c), e)
    ensures Inv(Changed(s, Opened(Move(s, i, x.pc).(x := x), d, f)))
  {
    var c := Opened(Move(s, i, x.pc).(x := x), d, f);
    Known(s, c);
    SumAt(s.procs, i, RefsTo(d));
    hide Inv, PcOk, PcRefs, PcReads, PcWrites, PcFrees, Pends, Refs, FlagsOk, UndoOk, Excl, EndsKept;
    InitEnds(s, c);
    hide CountsOk, StreamOk;
    LocalStep(s, c);
  }

  lemma InitEnds(s: Sys, c: Change)
    requires ChangeOk(s, c) && PipeInv(s, c.p) && NewSlot(s, c.d) && c.z == s.pipes[c.p]
    requires var o, x, f := s.procs[c.i].pc, c.x.pc, c.y.file;
             && (forall q: nat :: PcReads(x, q) + One(f.ops == PipeRead && f.priv == q) == PcReads(o, q))
             && (forall q: nat :: PcWrites(x, q) + One(f.ops == PipeWrite && f.priv == q) == PcWrites(o, q))
             && (forall q: nat :: PcFrees(x, q) == PcFrees(o, q))
    ensures EndsKept(s, c)
  {
    EndsBefore(s, c, c.p);
    hide Inv, PcReads, PcWrites, PcFrees, CountsOk, StreamOk, Sum, ReadEnds, WriteEnds, OtherReads, OtherWrites, OtherFrees;
    OthersNat(s, c, c.p);
  }

  /** A step that moves no end and leaves the pipe alone. */
  lemma EndsSame(s: Sys, c: Change)
    requires ChangeOk(s, c) && PipeInv(s, c.p) && c.z == s.pipes[c.p]
    requires c.y.file.ops == s.slots[c.d].file.ops && c.y.file.priv == s.slots[c.d].file.priv
    requires forall q: nat :: PcReads(c.x.pc, q) == PcReads(s.procs[c.i].pc, q)
    requires forall q: nat :: PcWrites(c.x.pc, q) == PcWrites(s.procs[c.i].pc, q)
    requires forall q: nat :: PcFrees(c.x.pc, q) == PcFrees(s.procs[c.i].pc, q)
    ensures EndsKept(s, c)
  {
    EndsBefore(s, c, c.p);
    hide Inv, PcReads, PcWrites, PcFrees, CountsOk, StreamOk, Sum, ReadEnds, WriteEnds, OtherReads, OtherWrites, OtherFrees;
    OthersNat(s, c, c.p);
  }

  lemma OthersNat(s: Sys, c: Change, q: nat)
    requires ChangeOk(s, c)
    ensures 0 <= OtherReads(s, c, q) && 0 <= OtherWrites(s, c, q) && 0 <= OtherFrees(s, c, q)
  {
    hide PcReads, PcWrites, PcFrees, SlotRead, SlotWrite, Sum;
    SumAt(s.procs, c.i, ReadsOf(q));
    SumAt(s.procs, c.i, WritesOf(q));
    SumAt(s.procs, c.i, FreesOf(q));
    SumAt(s.slots, c.d, ReadSlot(q));
    SumAt(s.slots, c.d, WriteSlot(q));
  }

  lemma InitSlotOk(s: Sys, i: nat)
    requires Inv(s) && Enabled(s, i, InitSlot)
    ensures Inv(Changed(s, Local(s, i, InitSlot)))
  {
    var pr := s.procs[i];
    var pc := pr.pc;
    assert ProcInv(s, i);
    assert pc.HasRd? ==> SlotInv(s, pc.rd);
    hide Inv, SleepOk;
    if pc.HasRd? {
      SumAt(s.procs, i, RefsTo(pc.rd));
      InitOk(s, i, pr.(pc := RdReady(pc.p, pc.rd)), pc.rd, File(PipeRead, pc.p, O_RDONLY, s.slots[pc.rd].file.refcnt));
    } else if pc.HasWd? {
      InitOk(s, i, Proc(Idle, pr.held + multiset{pc.rd, pc.wd}), pc.wd, File(PipeWrite, pc.p, O_WRONLY, s.slots[pc.wd].file.refcnt));
    } else {
      InitOk(s, i, Proc(Idle, pr.held + multiset{pc.d}), pc.d, File(Driver, 0, 0, s.slots[pc.d].file.refcnt));
    }
  }

  /** The change vfs_fd_release makes, x being the process with one reference less. */
  function Release(s: Sys, i: nat, held: multiset<nat>, d: nat, undo: Option<nat>): Change
    requires Shape(s) && i < |s.procs| && d < |s.slots|
  {
    var r := Released(s.slots[d].file);
    SlotTo(Move(s, i, Idle).(x := Proc(AfterRelease(r.1, s.slots[d].gen, undo), held)), d, r.0, s)
  }

  lemma ReleaseOk(s: Sys, i: nat, held: multiset<nat>, d: nat, undo: Option<nat>)
    requires Inv(s) && i < |s.procs| && OpenSlot(s, d)
    requires var o := s.procs[i];
             && (forall e: nat :: held[e] + One(e == d) == Refs(o, e))
             && held <= o.held
             && (forall q: nat :: PcReads(o.pc, q) == 0 && PcFrees(o.pc, q) == 0 && !Pends(o.pc, q) && PcWrites(o.pc, q) == One(undo == Some(q)))
             && (forall g: nat :: PcGen(o.pc, g) == 0)
             && (undo.Some? ==> undo.value < PIPE_MAX && s.slots[d].file.refcnt == 1 && EndSlot(s, d, PipeRead, undo.value))
    ensures Inv(Changed(s, Release(s, i, held, d, undo)))
  {
    hide Inv, PcRefs, PcReads, PcWrites, PcFrees, Pends, Refs, PcGen, Excl, ProcInv, SlotInv, PipeInv;
    InvShape(s);
    var c := Release(s, i, held, d, undo);
    Known(s, c);
    ReleaseHeld(s, i, held, d, undo);
    NotExcl(s, i, d);
    HasRefs(s, i, d);
    ReleaseTokens(s.slots[d].file, s.slots[d].gen, undo);
    ReleaseEnds(s, c, undo);
    assert SlotKept(s, c) by { ReleaseSlot(s, c); }
    ReleaseBalanced(s, c, undo);
    LocalStep(s, c);
  }

  lemma InvShape(s: Sys)
    requires Inv(s)
    ensures Shape(s)
  {
  }

  lemma ReleaseBalanced(s: Sys, c: Change, undo: Option<nat>)
    requires ChangeOk(s, c) && s.slots[c.d].file.ops != NoOps && 0 < s.slots[c.d].file.refcnt
    requires var f := s.slots[c.d].file;
             && c.y == s.slots[c.d].(file := Released(f).0) && c.x.pc == AfterRelease(Released(f).1, s.slots[c.d].gen, undo)
    requires c.next == s.next && c.closed == s.closed
    requires forall e: nat :: c.x.held[e] + One(e == c.d) == Refs(s.procs[c.i], e)
    requires forall g: nat :: PcGen(s.procs[c.i].pc, g) == 0
    ensures Balanced(s, c)
  {
    hide PcRefs, PcGen;
    ReleaseTokens(s.slots[c.d].file, s.slots[c.d].gen, undo);
  }

  lemma HasRefs(s: Sys, i: nat, d: nat)
    requires Inv(s) && i < |s.procs| && d < |s.slots| && 0 < Refs(s.procs[i], d)
    ensures Refs(s.procs[i], d) + One(d < 3) <= s.slots[d].file.refcnt
  {
    assert SlotInv(s, d);
    SumAt(s.procs, i, RefsTo(d));
  }

  lemma ReleaseSlot(s: Sys, c: Change)
    requires ChangeOk(s, c) && SlotInv(s, c.d) && c.y == s.slots[c.d].(file := Released(s.slots[c.d].file).0)
    requires s.slots[c.d].file.ops != NoOps && 0 < Refs(s.procs[c.i], c.d)
    requires Refs(s.procs[c.i], c.d) + One(c.d < 3) <= s.slots[c.d].file.refcnt
    ensures SlotKept(s, c)
  {
    hide Refs, Sum;
  }

  lemma ReleaseEnds(s: Sys, c: Change, undo: Option<nat>)
    requires ChangeOk(s, c) && PipeInv(s, c.p) && c.z == s.pipes[c.p] && s.slots[c.d].file.ops != NoOps && 0 < s.slots[c.d].file.refcnt
    requires var f := s.slots[c.d].file; var o := s.procs[c.i].pc;
             && c.y == s.slots[c.d].(file := Released(f).0) && c.x.pc == AfterRelease(Released(f).1, s.slots[c.d].gen, undo)
             && (forall q: nat :: PcReads(o, q) == 0 && PcFrees(o, q) == 0 && PcWrites(o, q) == One(undo == Some(q)))
    ensures EndsKept(s, c)
  {
    hide PcReads, PcWrites, PcFrees, Sum, CountsOk, StreamOk;
    ReleaseTokens(s.slots[c.d].file, s.slots[c.d].gen, undo);
  }

  lemma ReleaseTokens(f: File, gen: nat, undo: Option<nat>)
    requires f.ops != NoOps && 0 < f.refcnt
    ensures var r := Released(f); var pc := AfterRelease(r.1, gen, undo);
            && (forall e: nat :: PcRefs(pc, e) == 0)
            && (forall q: nat :: PcReads(pc, q) == if r.1.Some? then One(f.ops == PipeRead && f.priv == q) else 0)
            && (forall q: nat :: PcWrites(pc, q) == One(undo == Some(q)) + if r.1.Some? then One(f.ops == PipeWrite && f.priv == q) else 0)
            && (forall q: nat :: PcFrees(pc, q) == 0)
            && (forall g: nat :: PcGen(pc, g) == if r.1.Some? then One(gen == g) else 0)
  {
  }

  lemma ReleaseHeld(s: Sys, i: nat, held: multiset<nat>, d: nat, undo: Option<nat>)
    requires Inv(s) && i < |s.procs| && OpenSlot(s, d) && held <= s.procs[i].held && held[d] + 1 == Refs(s.procs[i], d)
    requires undo.Some? ==> undo.value < PIPE_MAX && s.slots[d].file.refcnt == 1 && EndSlot(s, d, PipeRead, undo.value)
    ensures ProcInv(Changed(s, Release(s, i, held, d, undo)), i)
  {
    var t := Changed(s, Release(s, i, held, d, undo));
    assert ProcInv(s, i) && SlotInv(s, d);
    SumAt(s.procs, i, RefsTo(d));
    forall e | e in held ensures OpenSlot(t, e) {
      assert e in s.procs[i].held;
    }
  }

  lemma UndoReleaseOk(s: Sys, i: nat)
    requires Inv(s) && Enabled(s, i, UndoRelease)
    ensures Inv(Changed(s, Local(s, i, UndoRelease)))
  {
    var pr := s.procs[i];
    assert ProcInv(s, i);
    ReleaseOk(s, i, pr.held, pr.pc.rd, Some(pr.pc.p));
  }

  lemma LeaveOk(s: Sys, i: nat)
    requires Inv(s) && Enabled(s, i, Leave)
    ensures Inv(Changed(s, Local(s, i, Leave)))
  {
    var pr := s.procs[i];
    assert ProcInv(s, i);
    ReleaseOk(s, i, pr.held, pr.pc.d, None);
  }

  lemma CloseFdOk(s: Sys, i: nat, d: nat)
    requires Inv(s) && Enabled(s, i, CloseFd(d))
    ensures Inv(Changed(s, Local(s, i, CloseFd(d))))
  {
    var pr := s.procs[i];
    assert ProcInv(s, i);
    ReleaseOk(s, i, pr.held - multiset{d}, d, None);
  }

  /** pipe_free: the process held all that was left of the pipe. */
  lemma FreeOk(s: Sys, i: nat, p: nat)
    requires Inv(s) && i < |s.procs| && p < PIPE_MAX
    requires s.procs[i].pc.FreePipe? || s.procs[i].pc.CloseFree?
    requires s.procs[i].pc.p == p
    ensures Inv(Changed(s, PipeTo(Move(s, i, Idle), p, s.pipes[p].(st := s.pipes[p].st.(inUse := false)))))
  {
    var c := PipeTo(Move(s, i, Idle), p, s.pipes[p].(st := s.pipes[p].st.(inUse := false)));
    Known(s, c);
    SumAt(s.procs, i, WritesOf(p));
    SumAt(s.procs, i, FreesOf(p));
    SumAt(s.procs, i, ReadsOf(p));
    assert forall e :: e in s.procs[i].held ==> OpenSlot(s, e);
    FreeEnds(s, c);
    hide Inv, PcOk, SleepOk, ReadEnds, WriteEnds, UndoOk, CountsOk;
    SlotStays(s, c);
    assert Changed(s, c).slots == s.slots;
    assert PcOk(Changed(s, c), Idle) && SleepOk(Changed(s, c), Idle) && UndoOk(Changed(s, c), Idle);
    LocalStep(s, c);
  }

  lemma FreeEnds(s: Sys, c: Change)
    requires Inv(s) && ChangeOk(s, c) && c.x == s.procs[c.i].(pc := Idle) && c.y == s.slots[c.d]
    requires s.procs[c.i].pc.FreePipe? || s.procs[c.i].pc.CloseFree?
    requires s.procs[c.i].pc.p == c.p && c.z == s.pipes[c.p].(st := s.pipes[c.p].st.(inUse := false))
    ensures EndsKept(s, c) && UndoKept(s, c)
  {
    Known(s, c);
    var pc := s.procs[c.i].pc;
    SumAt(s.procs, c.i, WritesOf(c.p));
    SumAt(s.procs, c.i, FreesOf(c.p));
    SumAt(s.procs, c.i, ReadsOf(c.p));
    hide Inv, PcOk, SleepOk;
    assert UndoOk(s, pc);
    assert OtherReads(s, c, c.p) + SlotRead(c.y, c.p) == 0;
    assert OtherWrites(s, c, c.p) + SlotWrite(c.y, c.p) == 0;
  }

  lemma SetFlOk(s: Sys, i: nat, d: nat, arg: nat)
    requires Inv(s) && Enabled(s, i, SetFl(d, arg))
    ensures Inv(Changed(s, Local(s, i, SetFl(d, arg)))) <==> Harmless(s, SetFl(d, arg))
  {
    var c := Local(s, i, SetFl(d, arg));
    Known(s, c);
    assert OpenSlot(s, d);
    SetFlagsEnd(s.slots[d].file.flags, arg);
    if !Harmless(s, SetFl(d, arg)) {
      assert !FlagsOk(c.y.file);
      assert !SlotInv(Changed(s, c), d);
      return;
    }
    hide Inv, PcRefs, PcReads, PcWrites, PcFrees, Pends, Excl, PcGen, SetFlags, CountsOk, StreamOk, Sum, ReadEnds, WriteEnds;
    EndsSame(s, c);
    hide EndsKept;
    assert forall e :: e in s.procs[i].held ==> OpenSlot(s, e);
    assert forall e :: OpenSlot(s, e) ==> OpenSlot(Changed(s, c), e);
    LocalStep(s, c);
  }

  /** Bytes went through the pipe; the wakeup is still to come. */
  lemma TransferOk(s: Sys, i: nat, z: PipeV)
    requires Inv(s) && i < |s.procs| && s.procs[i].pc.Top?
    requires var d := s.procs[i].pc.d; d < FILE_MAX && s.slots[d].file.priv < PIPE_MAX
    requires var v := s.pipes[s.slots[s.procs[i].pc.d].file.priv];
             StreamOk(z) && z.st.readers == v.st.readers && z.st.writers == v.st.writers && z.st.inUse == v.st.inUse
    ensures var pc := s.procs[i].pc; var p := s.slots[pc.d].file.priv;
            Inv(Changed(s, PipeTo(Move(s, i, Waking(pc.d, pc.gen, p)), p, z)))
  {
    var pc := s.procs[i].pc;
    var p := s.slots[pc.d].file.priv;
    var c := PipeTo(Move(s, i, Waking(pc.d, pc.gen, p)), p, z);
    Known(s, c);
    hide Inv, StreamOk, CountsOk, SlotInv, SleepOk;
    SlotStays(s, c);
    assert forall e :: e in s.procs[i].held ==> OpenSlot(s, e);
    assert Changed(s, c).slots == s.slots;
    assert PcOk(Changed(s, c), c.x.pc) && UndoOk(Changed(s, c), c.x.pc);
    assert CountsOk(z.st, ReadEnds(s, p), WriteEnds(s, p), Sum(s.procs, FreesOf(p))) by { CountsSame(s, p, z.st); }
    hide PcOk, UndoOk, ReadEnds, WriteEnds, Sum;
    assert SleepOk(Changed(s, c), c.x.pc) by { AwakeOk(Changed(s, c), c.x.pc); }
    LocalStep(s, c);
  }

  lemma AwakeOk(s: Sys, pc: Pc)
    requires !pc.Asleep?
    ensures SleepOk(s, pc)
  {
  }

  lemma CountsSame(s: Sys, p: nat, st: Pipe.State)
    requires p < |s.pipes| && PipeInv(s, p)
    requires var v := s.pipes[p].st; st.readers == v.readers && st.writers == v.writers && st.inUse == v.inUse
    ensures CountsOk(st, ReadEnds(s, p), WriteEnds(s, p), Sum(s.procs, FreesOf(p)))
  {
  }

  predicate MaySleep(s: Sys, o: Pc, pc: Pc)
    requires o.Top? && o.d < |s.slots| && s.slots[o.d].file.priv < |s.pipes|
  {
    && pc == Asleep(o.d, o.gen, o.op)
    && (ReadsPipe(s.slots[o.d].file, o.op) || WritesPipe(s.slots[o.d].file, o.op))
    && Blocked(s.pipes[s.slots[o.d].file.priv].st, o.op)
  }

  /** No bytes went through: the process gives up, or sleeps for a reason. */
  lemma StayOk(s: Sys, i: nat, pc: Pc)
    requires Inv(s) && i < |s.procs| && s.procs[i].pc.Top?
    requires s.procs[i].pc.d < FILE_MAX && s.slots[s.procs[i].pc.d].file.priv < PIPE_MAX
    requires pc == Leaving(s.procs[i].pc.d, s.procs[i].pc.gen) || MaySleep(s, s.procs[i].pc, pc)
    ensures Inv(Changed(s, Move(s, i, pc)))
  {
    assert ProcInv(s, i);
    assert Changed(s, Move(s, i, pc)).pipes == s.pipes && Changed(s, Move(s, i, pc)).slots == s.slots;
    hide Inv;
    MoveOk(s, i, pc);
  }

  lemma DoIoOk(s: Sys, i: nat, sleep: bool)
    requires Inv(s) && Enabled(s, i, DoIo(sleep))
    ensures Inv(Changed(s, Local(s, i, DoIo(sleep))))
  {
    var pc := s.procs[i].pc;
    var f := s.slots[pc.d].file;
    var v := s.pipes[f.priv];
    assert PipeInv(s, f.priv);
    hide Inv, AfterRead, AfterWrite, ReadBytes, Accepted, ReadEnds, WriteEnds, Sum, CountsOk;
    var c := Io(s, i, sleep);
    if ReadsPipe(f, pc.op) && ReadOutcome(v.st).Done? {
      ReadStream(v, pc.op.n);
      TransferOk(s, i, c.z);
    } else if WritesPipe(f, pc.op) && WriteOutcome(v.st).Done? {
      WriteStream(v, pc.op.src);
      TransferOk(s, i, c.z);
    } else {
      StayOk(s, i, c.x.pc);
    }
  }

  lemma FreeAgainOk(s: Sys, i: nat)
    requires Inv(s) && Enabled(s, i, FreeAgain)
    ensures Inv(Changed(s, Local(s, i, FreeAgain)))
  {
    FreeOk(s, i, s.procs[i].pc.p);
  }

  lemma FreeLastOk(s: Sys, i: nat)
    requires Inv(s) && Enabled(s, i, FreeLast)
    ensures Inv(Changed(s, Local(s, i, FreeLast)))
  {
    assert ProcInv(s, i);
    FreeOk(s, i, s.procs[i].pc.p);
  }

  /** The close of a driver that is not a pipe. */
  lemma DriverCloseOk(s: Sys, i: nat)
    requires Inv(s) && i < |s.procs| && s.procs[i].pc.Closing? && s.procs[i].pc.f.ops == Driver
    ensures Inv(Changed(s, DriverClose(s, i)))
  {
    hide Inv, StreamOk, CountsOk, SlotInv, PcReads, PcWrites, PcFrees, PcRefs, PcGen, ProcInv, UndoOk, Pends;
    InvShape(s);
    var c := DriverClose(s, i);
    Known(s, c);
    ClosingDriver(s, c);
    SlotStays(s, c);
    LocalStep(s, c);
  }

  lemma ClosingDriver(s: Sys, c: Change)
    requires Inv(s) && c.i < |s.procs| && s.procs[c.i].pc.Closing? && s.procs[c.i].pc.f.ops == Driver && c == DriverClose(s, c.i)
    ensures c.x.pc == Idle && ProcInv(Changed(s, c), c.i) && !Pends(s.procs[c.i].pc, 0)
    ensures Balanced(s, c) && EndsKept(s, c) && SleepersKept(s, c) && UndoKept(s, c)
  {
    Known(s, c);
    hide Inv, StreamOk, CountsOk;
    assert s.procs[c.i].pc.undo == None;
    assert Changed(s, c).slots == s.slots;
    assert forall e :: e in s.procs[c.i].held ==> OpenSlot(s, e);
    assert c.closed == s.closed + multiset{s.procs[c.i].pc.gen};
  }

  lemma PipeCloseOk(s: Sys, i: nat)
    requires Inv(s) && i < |s.procs| && s.procs[i].pc.Closing? && s.procs[i].pc.f.ops != Driver && s.procs[i].pc.f.priv < PIPE_MAX
    ensures Inv(Changed(s, PipeClose(s, i)))
  {
    hide Inv, StreamOk, CountsOk, SlotInv, PcReads, PcWrites, PcFrees, PcRefs, PcGen, ProcInv, UndoOk, Pends, EndsKept, UndoKept, Balanced, SleepersKept;
    InvShape(s);
    var c := PipeClose(s, i);
    Known(s, c);
    CloseCounts(s, i);
    CloseEnds(s, i);
    CloseProc(s, i);
    CloseRest(s, i);
    SlotStays(s, c);
    LocalStep(s, c);
  }

  /** The closed end was counted, and the other count is what it was. */
  lemma CloseCounts(s: Sys, i: nat)
    requires Inv(s) && i < |s.procs| && s.procs[i].pc.Closing? && s.procs[i].pc.f.ops != Driver && s.procs[i].pc.f.priv < PIPE_MAX
    ensures var f := s.procs[i].pc.f; var v := s.pipes[f.priv].st; var z := AfterClose(v, f.flags);
            && v.inUse
            && (f.ops == PipeRead ==> ReadEnds(s, f.priv) == 1 == v.readers && z == v.(readers := 0) && v.writers == WriteEnds(s, f.priv))
            && (f.ops == PipeWrite ==> WriteEnds(s, f.priv) == 1 == v.writers && z == v.(writers := 0) && v.readers == ReadEnds(s, f.priv))
            && Sum(s.procs, FreesOf(f.priv)) == 0
            && (f.ops == PipeRead || f.ops == PipeWrite)
            && (s.procs[i].pc.undo.Some? ==> f.ops == PipeRead && s.procs[i].pc.undo.value == f.priv && 1 == v.writers)
  {
    var pc := s.procs[i].pc;
    var p := pc.f.priv;
    assert ProcInv(s, i) && PipeInv(s, p);
    SumAt(s.procs, i, ReadsOf(p));
    SumAt(s.procs, i, WritesOf(p));
    hide Inv, SleepOk;
    assert PcOk(s, pc) && UndoOk(s, pc);
  }

  lemma CloseEnds(s: Sys, i: nat)
    requires Inv(s) && i < |s.procs| && s.procs[i].pc.Closing? && s.procs[i].pc.f.ops != Driver && s.procs[i].pc.f.priv < PIPE_MAX
    ensures var c := PipeClose(s, i); ChangeOk(s, c) && EndsKept(s, c) && UndoKept(s, c)
  {
    CloseCounts(s, i);
    var p := s.procs[i].pc.f.priv;
    assert PipeInv(s, p);
    hide Inv, ReadEnds, WriteEnds, Sum, AfterClose;
  }

  lemma CloseProc(s: Sys, i: nat)
    requires Inv(s) && i < |s.procs| && s.procs[i].pc.Closing? && s.procs[i].pc.f.ops != Driver && s.procs[i].pc.f.priv < PIPE_MAX
    ensures ProcInv(Changed(s, PipeClose(s, i)), i)
  {
    CloseCounts(s, i);
    var c := PipeClose(s, i);
    assert ProcInv(s, i);
    hide Inv, ReadEnds, WriteEnds, Sum, AfterClose;
    assert Changed(s, c).slots == s.slots;
    assert forall e :: e in s.procs[i].held ==> OpenSlot(s, e);
  }

  lemma CloseRest(s: Sys, i: nat)
    requires Shape(s) && i < |s.procs| && s.procs[i].pc.Closing? && s.procs[i].pc.f.priv < PIPE_MAX
    ensures var c := PipeClose(s, i); Balanced(s, c) && SleepersKept(s, c)
  {
    hide AfterClose;
    assert PipeClose(s, i).closed == s.closed + multiset{s.procs[i].pc.gen};
  }

  lemma RunCloseOk(s: Sys, i: nat)
    requires Inv(s) && Enabled(s, i, RunClose)
    ensures Inv(Changed(s, Local(s, i, RunClose)))
  {
    if s.procs[i].pc.f.ops == Driver {
      DriverCloseOk(s, i);
    } else {
      PipeCloseOk(s, i);
    }
  }

  lemma WakeOk(s: Sys, i: nat)
    requires Inv(s) && Enabled(s, i, PipeProtocol.Wake)
    ensures Inv(Next(s, i, PipeProtocol.Wake))
  {
    var p := s.procs[i].pc.p;
    var w := Woken(s, p);
    WokenInv(s, p);
    assert ProcInv(w, i);
    var pc := Local(s, i, PipeProtocol.Wake).x.pc;
    assert w.procs[i] == s.procs[i];
    AwakeOk(Changed(w, Move(w, i, pc)), pc);
    MoveOk(w, i, pc);
    var a, b := Changed(w, Move(w, i, pc)), Next(s, i, PipeProtocol.Wake);
    assert a.slots == b.slots && a.pipes == b.pipes && a.procs == b.procs;
  }

  /** A step keeps the invariant, unless it sets a flag on a read end. */
  lemma StepOk(s: Sys, i: nat, ev: Event)
    requires Inv(s) && Enabled(s, i, ev)
    ensures Inv(Next(s, i, ev)) <==> Harmless(s, ev)
  {
    hide Inv, Enabled, Changed, Local;
    match ev
    case CreatePipe(p) => CreatePipeOk(s, i, p);
    case TakeSlot(d) => TakeSlotOk(s, i, d);
    case NoSlot => NoSlotOk(s, i);
    case InitSlot => InitSlotOk(s, i);
    case UndoRelease => UndoReleaseOk(s, i);
    case FreeAgain => FreeAgainOk(s, i);
    case OpenFile(d) => OpenFileOk(s, i, d);
    case Dup(j, d) => DupOk(s, i, j, d);
    case Stdio(d) => StdioOk(s, i, d);
    case StartIo(d, op) => StartIoOk(s, i, d, op);
    case ReadFlags => ReadFlagsOk(s, i);
    case DoIo(sleep) => DoIoOk(s, i, sleep);
    case Signal => SignalOk(s, i);
    case Wake => WakeOk(s, i);
    case Leave => LeaveOk(s, i);
    case CloseFd(d) => CloseFdOk(s, i, d);
    case RunClose => RunCloseOk(s, i);
    case FreeLast => FreeLastOk(s, i);
    case SetFl(d, arg) => SetFlOk(s, i, d, arg);
  }

  // ---- runs ----

  lemma InitInv(n: nat)
    ensures Inv(PipeProtocol.Init(n))
  {
    var s := PipeProtocol.Init(n);
    forall f: Proc -> nat | f(Proc(Idle, multiset{})) == 0 ensures Sum(s.procs, f) == 0 {
      SumZero(s.procs, f);
    }
    forall d | 0 <= d < FILE_MAX ensures SlotInv(s, d) {
      assert RefsTo(d)(Proc(Idle, multiset{})) == 0;
    }
    forall p | 0 <= p < PIPE_MAX ensures PipeInv(s, p) {
      SumZero(s.slots, ReadSlot(p));
      SumZero(s.slots, WriteSlot(p));
      assert ReadsOf(p)(Proc(Idle, multiset{})) == 0 && WritesOf(p)(Proc(Idle, multiset{})) == 0 && FreesOf(p)(Proc(Idle, multiset{})) == 0;
    }
    forall g | 0 <= g ensures GenInv(s, g) {
      assert GenOf(g)(Proc(Idle, multiset{})) == 0;
      InitGens(s.slots, g, FILE_MAX);
      assert s.slots[..FILE_MAX] == s.slots;
    }
  }

  lemma {:induction false} InitGens(slots: seq<Slot>, g: nat, n: nat)
    requires n <= |slots|
    requires forall d :: 0 <= d < n ==> slots[d].gen == (if d < 3 then d else 0) && (slots[d].file.ops == NoOps <==> 3 <= d)
    ensures Sum(slots[..n], GenSlot(g)) == One(g < 3 && g < n)
  {
    if n > 0 {
      InitGens(slots, g, n - 1);
      assert slots[..n][..n - 1] == slots[..n - 1];
    }
  }

  /** A run: states, each the next of the one before by some process's step. */
  ghost predicate Run(run: seq<Sys>) {
    && 0 < |run| && run[0] == PipeProtocol.Init(|run[0].procs|)
    && forall k :: 0 <= k < |run| - 1 ==> Steps(run[k], run[k + 1])
  }

  ghost predicate Steps(s: Sys, t: Sys) {
    Shape(s) && exists i, ev :: Enabled(s, i, ev) && t == Next(s, i, ev)
  }

  /** A run without a step that sets a flag on a read end. */
  ghost predicate OrderlyRun(run: seq<Sys>) {
    Run(run) && forall k :: 0 <= k < |run| - 1 ==> OrderlySteps(run[k], run[k + 1])
  }

  ghost predicate OrderlySteps(s: Sys, t: Sys) {
    Shape(s) && exists i, ev :: Enabled(s, i, ev) && Harmless(s, ev) && t == Next(s, i, ev)
  }

  /** Every state of every run satisfies the core of the invariant. */
  lemma {:induction false} RunCore(run: seq<Sys>, k: nat)
    requires Run(run) && k < |run|
    ensures Core(run[k])
  {
    if k == 0 {
      InitInv(|run[0].procs|);
      InvCore(run[0]);
    } else {
      RunCore(run, k - 1);
      assert Steps(run[k - 1], run[k - 1 + 1]);
      var i, ev :| Enabled(run[k - 1], i, ev) && run[k] == Next(run[k - 1], i, ev);
      CoreNext(run[k - 1], i, ev);
    }
  }

  /** Every state of every orderly run satisfies all of it. */
  lemma {:induction false} RunInv(run: seq<Sys>, k: nat)
    requires OrderlyRun(run) && k < |run|
    ensures Inv(run[k])
  {
    if k == 0 {
      InitInv(|run[0].procs|);
    } else {
      RunInv(run, k - 1);
      assert OrderlySteps(run[k - 1], run[k - 1 + 1]);
      var i, ev :| Enabled(run[k - 1], i, ev) && Harmless(run[k - 1], ev) && run[k] == Next(run[k - 1], i, ev);
      StepOk(run[k - 1], i, ev);
    }
  }

  // ---- what that means ----

  /** No lost wakeup: unless a wakeup on the pipe is still to come, a process asleep in pipe_read faces an
      empty ring with a live writer, and one asleep in pipe_write a full ring with a live reader. */
  lemma NoLostWakeup(run: seq<Sys>, k: nat, i: nat)
    requires OrderlyRun(run) && k < |run| && i < |run[k].procs| && run[k].procs[i].pc.Asleep?
    ensures var s := run[k]; var pc := s.procs[i].pc;
            && pc.d < |s.slots| && s.slots[pc.d].file.priv < |s.pipes|
            && var p := s.slots[pc.d].file.priv; var v := s.pipes[p].st;
               v.inUse && (Pending(s, p) || if pc.op.Read? then v.ring == [] && v.writers == 1 else |v.ring| == SIZE - 1 && v.readers == 1)
  {
    RunInv(run, k);
    var s := run[k];
    var pc := s.procs[i].pc;
    assert ProcInv(s, i) && SlotInv(s, pc.d);
    var p := s.slots[pc.d].file.priv;
    SumAt(s.slots, pc.d, ReadSlot(p));
    SumAt(s.slots, pc.d, WriteSlot(p));
    assert PipeInv(s, p);
  }

  /** What pipe_read or pipe_write found in the flags; false for a sleeper. */
  predicate Flagged(pc: Pc) { pc.Top? && pc.nonblock }

  /** Between the first look at the flags and the end of the waiting. */
  predicate Waits(pc: Pc, d: nat, g: nat, op: Op) {
    (pc.Top? || pc.Asleep?) && pc.d == d && pc.gen == g && pc.op == op
  }

  predicate FlagSet(s: Sys, d: nat) {
    d < |s.slots| && s.slots[d].file.flags / 0x800 % 2 == 1
  }

  /** A process gets there by looking at the flags, and stays with what it found. */
  predicate Looks(s: Sys, o: Pc, pc: Pc) {
    pc.Top? || pc.Asleep? ==>
      if o == Begun(pc.d, pc.gen, pc.op) then pc.Top? && pc.d < |s.slots| && (pc.nonblock <==> FlagSet(s, pc.d))
      else Waits(o, pc.d, pc.gen, pc.op) && Flagged(pc) == Flagged(o)
  }

  lemma IoLooks(s: Sys, a: nat, sleep: bool)
    requires Shape(s) && Enabled(s, a, DoIo(sleep))
    ensures var c := Io(s, a, sleep); c.i == a && Looks(s, s.procs[a].pc, c.x.pc)
  {
    hide AfterRead, AfterWrite, ReadOutcome, WriteOutcome, Accepted, ReadBytes;
  }

  lemma CloseLooks(s: Sys, a: nat)
    requires Shape(s) && Enabled(s, a, RunClose)
    ensures var c := Local(s, a, RunClose); c.i == a && Looks(s, s.procs[a].pc, c.x.pc)
  {
    hide AfterClose;
  }

  lemma DropLooks(s: Sys, a: nat, ev: Event)
    requires Shape(s) && Enabled(s, a, ev) && (ev.UndoRelease? || ev.Leave? || ev.CloseFd?)
    ensures var c := Local(s, a, ev); c.i == a && Looks(s, s.procs[a].pc, c.x.pc)
  {
    hide Released;
  }

  lemma MakeLooks(s: Sys, a: nat, ev: Event)
    requires Shape(s) && Enabled(s, a, ev)
    requires ev.CreatePipe? || ev.TakeSlot? || ev.NoSlot? || ev.InitSlot? || ev.OpenFile? || ev.FreeAgain?
    ensures var c := Local(s, a, ev); c.i == a && Looks(s, s.procs[a].pc, c.x.pc)
  {
    hide FdPool.IsFree, Released, AfterRelease, Io, PipeClose, DriverClose;
  }

  lemma LocalLooks(s: Sys, a: nat, ev: Event)
    requires Shape(s) && Enabled(s, a, ev)
    ensures var c := Local(s, a, ev); c.i < |s.procs| && Looks(s, s.procs[c.i].pc, c.x.pc)
  {
    if ev.DoIo? {
      IoLooks(s, a, ev.sleep);
    } else if ev.RunClose? {
      CloseLooks(s, a);
    } else if ev.UndoRelease? || ev.Leave? || ev.CloseFd? {
      DropLooks(s, a, ev);
    } else if ev.CreatePipe? || ev.TakeSlot? || ev.NoSlot? || ev.InitSlot? || ev.OpenFile? || ev.FreeAgain? {
      MakeLooks(s, a, ev);
    } else {
      hide Released, AfterRelease, SetFlags, Io, PipeClose, DriverClose, FdPool.IsFree, CanGet;
    }
  }

  lemma WaitStep(s: Sys, a: nat, ev: Event, i: nat)
    requires Shape(s) && Enabled(s, a, ev) && i < |s.procs|
    ensures |Next(s, a, ev).procs| == |s.procs| && Looks(s, s.procs[i].pc, Next(s, a, ev).procs[i].pc)
  {
    LocalLooks(s, a, ev);
    hide Enabled, Local;
    var t := Changed(s, Local(s, a, ev));
    assert Looks(s, s.procs[i].pc, t.procs[i].pc);
  }

  lemma StepBefore(run: seq<Sys>, k: nat, i: nat) returns (a: nat, ev: Event)
    requires Run(run) && k < |run| && i < |run[k].procs| && !run[k].procs[i].pc.Idle?
    ensures 0 < k && Shape(run[k - 1]) && Enabled(run[k - 1], a, ev) && run[k] == Next(run[k - 1], a, ev) && i < |run[k - 1].procs|
  {
    assert run[0].procs == PipeProtocol.Init(|run[0].procs|).procs;
    assert Steps(run[k - 1], run[k - 1 + 1]);
    hide Enabled, Local, Shape;
    a, ev :| Enabled(run[k - 1], a, ev) && run[k] == Next(run[k - 1], a, ev);
  }

  /** Process i has been waiting in this operation since state j. */
  predicate WaitsSince(run: seq<Sys>, i: nat, j: nat, k: nat, d: nat, g: nat, op: Op)
    requires k < |run|
  {
    forall m :: j < m <= k ==> i < |run[m].procs| && Waits(run[m].procs[i].pc, d, g, op)
  }

  lemma WaitsMore(run: seq<Sys>, i: nat, j: nat, k: nat, d: nat, g: nat, op: Op)
    requires 0 < k < |run| && j < k && WaitsSince(run, i, j, k - 1, d, g, op)
    requires i < |run[k].procs| && Waits(run[k].procs[i].pc, d, g, op)
    ensures WaitsSince(run, i, j, k, d, g, op)
  {
  }

  /** Where the process looked: from then on it has been waiting in this read or write. */
  lemma {:induction false} LookedAt(run: seq<Sys>, k: nat, i: nat) returns (j: nat)
    requires Run(run) && k < |run| && i < |run[k].procs| && (run[k].procs[i].pc.Top? || run[k].procs[i].pc.Asleep?)
    ensures var pc := run[k].procs[i].pc;
            && j < k && i < |run[j].procs| && run[j].procs[i].pc == Begun(pc.d, pc.gen, pc.op) && pc.d < |run[j].slots|
            && (Flagged(pc) <==> FlagSet(run[j], pc.d)) && WaitsSince(run, i, j, k, pc.d, pc.gen, pc.op)
    decreases k
  {
    hide Enabled, Next, Run, WaitsSince, FlagSet;
    var pc := run[k].procs[i].pc;
    var a, ev := StepBefore(run, k, i);
    var s := run[k - 1];
    WaitStep(s, a, ev, i);
    if s.procs[i].pc == Begun(pc.d, pc.gen, pc.op) {
      j := k - 1;
      assert WaitsSince(run, i, j, j, pc.d, pc.gen, pc.op) by { WaitsNone(run, i, j, pc.d, pc.gen, pc.op); }
    } else {
      j := LookedAt(run, k - 1, i);
    }
    WaitsMore(run, i, j, k, pc.d, pc.gen, pc.op);
  }

  lemma WaitsNone(run: seq<Sys>, i: nat, j: nat, d: nat, g: nat, op: Op)
    requires j < |run|
    ensures WaitsSince(run, i, j, j, d, g, op)
  {
  }

  /** An end with O_NONBLOCK never puts its process to sleep: who is asleep found the flag clear when its read or write began,
      and has been in that read or write since. */
  lemma NonblockNeverSleeps(run: seq<Sys>, k: nat, i: nat) returns (j: nat)
    requires Run(run) && k < |run| && i < |run[k].procs| && run[k].procs[i].pc.Asleep?
    ensures var pc := run[k].procs[i].pc;
            && j < k && i < |run[j].procs| && run[j].procs[i].pc == Begun(pc.d, pc.gen, pc.op)
            && pc.d < |run[j].slots| && run[j].slots[pc.d].file.flags / 0x800 % 2 == 0
            && WaitsSince(run, i, j, k, pc.d, pc.gen, pc.op)
  {
    hide Run, WaitsSince;
    j := LookedAt(run, k, i);
  }

  /** One pass of pipe_read or pipe_write: bytes go through whenever there are any, or room for some; otherwise nothing changes
      but the process, which sleeps exactly at an empty ring with a writer or a full one with a reader, if it may. */
  lemma PassIs(s: Sys, i: nat, sleep: bool)
    requires Shape(s) && Enabled(s, i, DoIo(sleep))
    ensures var pc := s.procs[i].pc; var f := s.slots[pc.d].file; var v := s.pipes[f.priv]; var st := v.st;
            var t := Next(s, i, DoIo(sleep));
            var reading := f.ops == PipeRead && pc.op.Read?; var writing := f.ops == PipeWrite && pc.op.Write?;
            && t.slots == s.slots && t.next == s.next && t.closed == s.closed
            && (forall j :: 0 <= j < |s.procs| && j != i ==> t.procs[j] == s.procs[j]) && t.procs[i].held == s.procs[i].held
            && (if reading && st.ring != [] then
                  && (var m := if pc.op.n < |st.ring| then pc.op.n else |st.ring|;
                      t.pipes == s.pipes[f.priv := PipeV(st.(ring := st.ring[m..]), v.accepted, v.delivered + st.ring[..m])])
                  && t.procs[i].pc == Waking(pc.d, pc.gen, f.priv)
                else if writing && st.readers != 0 && |st.ring| < 511 then
                  && (var m := if |pc.op.src| < 511 - |st.ring| then |pc.op.src| else 511 - |st.ring|;
                      t.pipes == s.pipes[f.priv := PipeV(st.(ring := st.ring + pc.op.src[..m]), v.accepted + pc.op.src[..m], v.delivered)])
                  && t.procs[i].pc == Waking(pc.d, pc.gen, f.priv)
                else
                  && t.pipes == s.pipes
                  && t.procs[i].pc == if sleep && !pc.nonblock && ((reading && st.writers != 0) || (writing && st.readers != 0))
                                      then Asleep(pc.d, pc.gen, pc.op) else Leaving(pc.d, pc.gen))
  {
  }

  /** The bytes delivered, followed by the ring, are the bytes accepted, in order; at most 511 are in the ring. */
  lemma StreamIntact(run: seq<Sys>, k: nat, p: nat)
    requires Run(run) && k < |run| && p < PIPE_MAX
    ensures var s := run[k];
            p < |s.pipes| && var v := s.pipes[p]; v.delivered + v.st.ring == v.accepted && |v.st.ring| <= SIZE - 1
  {
    RunCore(run, k);
    assert StreamOk(run[k].pipes[p]);
  }

  /** While a process is inside a read or write, its descriptor is the one it started with: not recycled,
      its close neither run nor pending. */
  lemma InFlightSafe(run: seq<Sys>, k: nat, i: nat)
    requires Run(run) && k < |run| && i < |run[k].procs|
    requires var pc := run[k].procs[i].pc; pc.Begun? || pc.Top? || pc.Asleep? || pc.Waking? || pc.Leaving?
    ensures var s := run[k]; var pc := s.procs[i].pc;
            && pc.d < |s.slots| && 0 < s.slots[pc.d].file.refcnt && s.slots[pc.d].gen == pc.gen
            && s.closed[pc.gen] == 0
            && forall j :: 0 <= j < |s.procs| ==> !(s.procs[j].pc.Closing? && s.procs[j].pc.gen == pc.gen)
  {
    RunCore(run, k);
    var s := run[k];
    var pc := s.procs[i].pc;
    assert CoreProc(s, i) && CoreSlot(s, pc.d) && GenInv(s, pc.gen);
    SumAt(s.slots, pc.d, GenSlot(pc.gen));
    forall j | 0 <= j < |s.procs| ensures !(s.procs[j].pc.Closing? && s.procs[j].pc.gen == pc.gen) {
      SumAt(s.procs, j, GenOf(pc.gen));
    }
  }

  /** The driver's close runs at most once per opening, and exactly once when the opening is in no slot
      and no close of it is pending. */
  lemma ClosedOnce(run: seq<Sys>, k: nat, g: nat)
    requires Run(run) && k < |run|
    ensures var s := run[k];
            && s.closed[g] <= 1
            && (s.closed[g] == 1 <==>
                  && g < s.next
                  && (forall d :: 0 <= d < |s.slots| ==> !(s.slots[d].file.ops != NoOps && s.slots[d].gen == g))
                  && (forall j :: 0 <= j < |s.procs| ==> !(s.procs[j].pc.Closing? && s.procs[j].pc.gen == g)))
  {
    RunCore(run, k);
    var s := run[k];
    assert GenInv(s, g);
    if s.closed[g] == 1 {
      forall d | 0 <= d < |s.slots| ensures !(s.slots[d].file.ops != NoOps && s.slots[d].gen == g) {
        SumAt(s.slots, d, GenSlot(g));
      }
      forall j | 0 <= j < |s.procs| ensures !(s.procs[j].pc.Closing? && s.procs[j].pc.gen == g) {
        SumAt(s.procs, j, GenOf(g));
      }
    }
    if (forall d :: 0 <= d < |s.slots| ==> !(s.slots[d].file.ops != NoOps && s.slots[d].gen == g))
      && (forall j :: 0 <= j < |s.procs| ==> !(s.procs[j].pc.Closing? && s.procs[j].pc.gen == g)) {
      SumZero(s.slots, GenSlot(g));
      SumZero(s.procs, GenOf(g));
    }
  }

  /** A slot is taken for a new descriptor only when nobody refers to it. */
  lemma RecycledUnreferenced(run: seq<Sys>, k: nat, d: nat)
    requires Run(run) && k < |run| && d < FILE_MAX
    ensures d < |run[k].slots|
    ensures FdPool.IsFree(run[k].slots[d].file) <==>
      3 <= d && forall j :: 0 <= j < |run[k].procs| ==> Refs(run[k].procs[j], d) == 0
  {
    RunCore(run, k);
    var s := run[k];
    assert CoreSlot(s, d);
    if FdPool.IsFree(s.slots[d].file) {
      forall j | 0 <= j < |s.procs| ensures Refs(s.procs[j], d) == 0 {
        SumAt(s.procs, j, RefsTo(d));
      }
    } else if forall j :: 0 <= j < |s.procs| ==> Refs(s.procs[j], d) == 0 {
      SumZero(s.procs, RefsTo(d));
    }
  }

  /** With no open, close or clean-up of it in progress, a pipe in use has readers == 1 exactly while
      its read descriptor is referenced, and likewise for writers; never more than one of either. */
  lemma EndCount(run: seq<Sys>, k: nat, p: nat)
    requires OrderlyRun(run) && k < |run| && p < PIPE_MAX && p < |run[k].pipes| && run[k].pipes[p].st.inUse
    requires forall j :: 0 <= j < |run[k].procs| ==> PcReads(run[k].procs[j].pc, p) == 0 && PcWrites(run[k].procs[j].pc, p) == 0
    ensures var s := run[k]; var v := s.pipes[p].st;
            && v.readers <= 1 && v.writers <= 1
            && (v.readers == 1 <==> exists d :: 0 <= d < |s.slots| && EndSlot(s, d, PipeRead, p) && 0 < s.slots[d].file.refcnt)
            && (v.writers == 1 <==> exists d :: 0 <= d < |s.slots| && EndSlot(s, d, PipeWrite, p) && 0 < s.slots[d].file.refcnt)
  {
    RunInv(run, k);
    var s := run[k];
    assert PipeInv(s, p);
    SumZero(s.procs, ReadsOf(p));
    SumZero(s.procs, WritesOf(p));
    HasOne(s.slots, ReadSlot(p));
    HasOne(s.slots, WriteSlot(p));
    forall d | 0 <= d < |s.slots| ensures 1 <= SlotRead(s.slots[d], p) + SlotWrite(s.slots[d], p) ==> 0 < s.slots[d].file.refcnt {
      assert SlotInv(s, d);
      SumAt(s.slots, d, ReadSlot(p));
      SumAt(s.slots, d, WriteSlot(p));
    }
  }

  lemma {:induction false} HasOne<T>(s: seq<T>, f: T -> nat)
    ensures 0 < Sum(s, f) <==> exists i :: 0 <= i < |s| && 0 < f(s[i])
  {
    if 0 < Sum(s, f) {
      if forall i :: 0 <= i < |s| ==> f(s[i]) == 0 {
        SumZero(s, f);
      }
    } else if exists i :: 0 <= i < |s| && 0 < f(s[i]) {
      var i :| 0 <= i < |s| && 0 < f(s[i]);
      SumAt(s, i, f);
    }
  }

  /** A pipe that is not in use has no descriptor and no operation in progress, so opening it disturbs nobody. */
  lemma FreePipeUnreferenced(run: seq<Sys>, k: nat, p: nat)
    requires OrderlyRun(run) && k < |run| && p < PIPE_MAX && p < |run[k].pipes| && !run[k].pipes[p].st.inUse
    ensures var s := run[k];
            && (forall d :: 0 <= d < |s.slots| ==> !EndSlot(s, d, PipeRead, p) && !EndSlot(s, d, PipeWrite, p))
            && NoSleeper(s, p)
  {
    RunInv(run, k);
    var s := run[k];
    assert PipeInv(s, p);
    forall d | 0 <= d < |s.slots| ensures !EndSlot(s, d, PipeRead, p) && !EndSlot(s, d, PipeWrite, p) {
      SumAt(s.slots, d, ReadSlot(p));
      SumAt(s.slots, d, WriteSlot(p));
    }
    NoEndsNoSleepers(s, p);
  }

  lemma {:induction false} FirstFree(slots: seq<Slot>, n: nat) returns (d: nat)
    requires n <= |slots|
    ensures d <= n && (forall e :: 0 <= e < d ==> !FdPool.IsFree(slots[e].file)) && (d < n ==> FdPool.IsFree(slots[d].file))
  {
    if n == 0 {
      return 0;
    }
    d := FirstFree(slots, n - 1);
    if d == n - 1 && !FdPool.IsFree(slots[d].file) {
      d := n;
    }
  }

  /** A process in the middle of an operation, and not asleep, can always take its next step:
      no state the code meets is left out of the steps above. */
  lemma NeverStuck(run: seq<Sys>, k: nat, i: nat) returns (ev: Event)
    requires Run(run) && k < |run| && i < |run[k].procs| && !run[k].procs[i].pc.Idle?
    ensures Shape(run[k]) && Enabled(run[k], i, ev)
  {
    RunCore(run, k);
    var s := run[k];
    var pc := s.procs[i].pc;
    assert CoreProc(s, i);
    match pc
    case HasPipe(_) =>
      var d := FirstFree(s.slots, FILE_MAX);
      ev := if d < FILE_MAX then TakeSlot(d) else NoSlot;
    case RdReady(_, _) =>
      var d := FirstFree(s.slots, FILE_MAX);
      ev := if d < FILE_MAX then TakeSlot(d) else NoSlot;
    case HasRd(_, _) => ev := InitSlot;
    case HasWd(_, _, _) => ev := InitSlot;
    case HasFile(_) => ev := InitSlot;
    case UndoRd(_, _) => ev := UndoRelease;
    case FreePipe(_, _) => ev := FreeAgain;
    case Begun(_, _, _) => ev := ReadFlags;
    case Top(d, _, _, _) =>
      assert CoreSlot(s, d);
      ev := DoIo(true);
    case Asleep(_, _, _) => ev := Signal;
    case Waking(_, _, _) => ev := PipeProtocol.Wake;
    case Leaving(_, _) => ev := Leave;
    case Closing(_, _, _) => ev := RunClose;
    case CloseWake(_, _, _) => ev := PipeProtocol.Wake;
    case CloseFree(_, _) => ev := FreeLast;
  }

  /** A descriptor that an idle process holds can be used: read or written, shared with any process, given other flags, closed. */
  lemma HeldUsable(run: seq<Sys>, k: nat, i: nat, d: nat, op: Op, j: nat, arg: nat)
    requires Run(run) && k < |run| && i < |run[k].procs| && run[k].procs[i].pc == Idle && d in run[k].procs[i].held && j < |run[k].procs|
    ensures var s := run[k];
            && Shape(s)
            && Enabled(s, i, StartIo(d, op)) && Enabled(s, i, Dup(j, d)) && Enabled(s, i, CloseFd(d)) && Enabled(s, i, SetFl(d, arg))
  {
    RunCore(run, k);
    assert CoreProc(run[k], i) && CoreSlot(run[k], d);
    hide CoreSlot, CoreProc;
    CanGetOpen(run[k], d);
  }

  lemma CanGetOpen(s: Sys, d: nat)
    requires Core(s) && OpenSlot(s, d)
    ensures CanGet(s.slots[d].file)
  {
    assert CoreSlot(s, d);
  }

  /** What an idle process can always do, and a new pipe: empty, with one reader and one writer, nothing accepted or delivered. */
  lemma Beginnings(s: Sys, i: nat, d: nat, p: nat)
    requires Shape(s) && i < |s.procs| && s.procs[i].pc == Idle
    ensures d < 3 ==> Enabled(s, i, Stdio(d))
    ensures Enabled(s, i, CreatePipe(p)) <==> p < 4 && !s.pipes[p].st.inUse && forall q :: 0 <= q < p ==> s.pipes[q].st.inUse
    ensures Enabled(s, i, CreatePipe(p)) ==> Next(s, i, CreatePipe(p)).pipes == s.pipes[p := PipeV(State([], 1, 1, true), [], [])]
  {
  }

  // ---- a flag on a read end ----

  /** Process 0 takes these steps one after the other. */
  predicate Script(s: Sys, evs: seq<Event>, t: Sys)
    decreases |evs|
  {
    if evs == [] then t == s
    else Shape(s) && Enabled(s, 0, evs[0]) && Script(Next(s, 0, evs[0]), evs[1..], t)
  }

  lemma ScriptStep(s: Sys, ev: Event, evs: seq<Event>, t: Sys)
    requires Shape(s) && Enabled(s, 0, ev) && Script(Next(s, 0, ev), evs, t)
    ensures Script(s, [ev] + evs, t)
  {
    assert ([ev] + evs)[1..] == evs;
  }

  /** A process makes a pipe: first its read end. */
  lemma HalfMade() returns (s: Sys)
    ensures Script(PipeProtocol.Init(1), [CreatePipe(0), TakeSlot(3), InitSlot], s)
    ensures Shape(s) && s.procs == [Proc(RdReady(0, 3), multiset{})] && s.pipes[0].st == Pipe.State([], 1, 1, true)
    ensures s.slots == PipeProtocol.Init(1).slots[3 := Slot(File(PipeRead, 0, O_RDONLY, 1), 3)]
  {
    var s0 := PipeProtocol.Init(1);
    var s1 := Next(s0, 0, CreatePipe(0));
    var s2 := Next(s1, 0, TakeSlot(3));
    s := Next(s2, 0, InitSlot);
    ScriptStep(s2, InitSlot, [], s);
    ScriptStep(s1, TakeSlot(3), [InitSlot], s);
    ScriptStep(s0, CreatePipe(0), [TakeSlot(3), InitSlot], s);
  }

  /** Then its write end. */
  lemma Made(s: Sys) returns (t: Sys)
    requires Shape(s) && s.procs == [Proc(RdReady(0, 3), multiset{})] && s.pipes[0].st == Pipe.State([], 1, 1, true)
    requires s.slots == PipeProtocol.Init(1).slots[3 := Slot(File(PipeRead, 0, O_RDONLY, 1), 3)]
    ensures Script(s, [TakeSlot(4), InitSlot], t)
    ensures Shape(t) && t.procs == [Proc(Idle, multiset{3, 4})] && t.pipes == s.pipes
    ensures t.slots[3] == s.slots[3] && t.slots[4].file == File(PipeWrite, 0, O_WRONLY, 1)
    ensures forall d :: 0 <= d < FILE_MAX && d != 3 && d != 4 ==> t.slots[d].file.ops != PipeRead
  {
    var s' := Next(s, 0, TakeSlot(4));
    t := Next(s', 0, InitSlot);
    assert s'.procs == [Proc(HasWd(0, 3, 4), multiset{})];
    assert t.procs[0].held == multiset{} + multiset{3, 4} == multiset{3, 4};
    ScriptStep(s', InitSlot, [], t);
    ScriptStep(s, TakeSlot(4), [InitSlot], t);
  }

  /** It sets O_NONBLOCK on the read end and calls close. */
  lemma Marked(s: Sys) returns (t: Sys)
    requires Shape(s) && |s.procs| == 1 && s.procs[0] == Proc(Idle, multiset{3, 4}) && s.slots[3].file == File(PipeRead, 0, O_RDONLY, 1)
    ensures Script(s, [SetFl(3, O_NONBLOCK), CloseFd(3)], t)
    ensures Shape(t) && t.procs == [Proc(Closing(File(PipeRead, 0, O_NONBLOCK, 0), s.slots[3].gen, None), multiset{4})]
    ensures t.slots == s.slots[3 := Slot(ZEROED, s.slots[3].gen)] && t.pipes == s.pipes
  {
    var s' := Next(s, 0, SetFl(3, O_NONBLOCK));
    t := Next(s', 0, CloseFd(3));
    assert s'.procs == s.procs && s'.slots[3].file == File(PipeRead, 0, O_NONBLOCK, 1);
    assert multiset{3, 4} - multiset{3} == multiset{4};
    ScriptStep(s', CloseFd(3), [], t);
    ScriptStep(s, SetFl(3, O_NONBLOCK), [CloseFd(3)], t);
  }

  /** The rest of that close. */
  lemma Closed(s: Sys) returns (t: Sys)
    requires Shape(s) && |s.procs| == 1 && s.procs[0].pc.Closing? && s.procs[0].pc.f == File(PipeRead, 0, O_NONBLOCK, 0) && s.procs[0].pc.undo == None
    requires s.pipes[0].st == Pipe.State([], 1, 1, true)
    ensures Script(s, [RunClose, PipeProtocol.Wake], t)
    ensures Shape(t) && |t.procs| == 1 && t.procs[0].pc == Idle && t.slots == s.slots && t.pipes[0].st == Pipe.State([], 1, 0, true)
  {
    var s' := Next(s, 0, RunClose);
    assert s'.procs[0].pc == CloseWake(0, false, None);
    t := Next(s', 0, PipeProtocol.Wake);
    ScriptStep(s', PipeProtocol.Wake, [], t);
    ScriptStep(s, RunClose, [PipeProtocol.Wake], t);
  }

  lemma {:induction false} ScriptOn(s: Sys, a: seq<Event>, t: Sys, b: seq<Event>, u: Sys)
    requires Script(s, a, t) && Script(t, b, u)
    ensures Script(s, a + b, u)
    decreases |a|
  {
    hide Next, Enabled;
    if a == [] {
      assert a + b == b;
    } else {
      ScriptOn(Next(s, 0, a[0]), a[1..], t, b, u);
      assert (a + b)[1..] == a[1..] + b;
    }
  }

  /** A pipe is made, and its read end gets O_NONBLOCK and is closed: the pipe now counts a reader, though there is
      no read end, and no writer, though the write end is open. */
  lemma Misled() returns (t: Sys)
    ensures Script(PipeProtocol.Init(1), [CreatePipe(0), TakeSlot(3), InitSlot] + [TakeSlot(4), InitSlot]
                                         + [SetFl(3, O_NONBLOCK), CloseFd(3)] + [RunClose, PipeProtocol.Wake], t)
    ensures Shape(t) && |t.procs| == 1 && t.procs[0].pc == Idle && t.pipes[0].st == Pipe.State([], 1, 0, true)
    ensures t.slots[4].file == File(PipeWrite, 0, O_WRONLY, 1)
    ensures forall d :: 0 <= d < FILE_MAX ==> t.slots[d].file.ops != PipeRead
  {
    hide Script;
    var s := PipeProtocol.Init(1);
    var making, making', marking, closing := [CreatePipe(0), TakeSlot(3), InitSlot], [TakeSlot(4), InitSlot],
                                             [SetFl(3, O_NONBLOCK), CloseFd(3)], [RunClose, PipeProtocol.Wake];
    var s1 := HalfMade();
    var s2 := Made(s1);
    var s3 := Marked(s2);
    t := Closed(s3);
    ScriptOn(s, making, s1, making', s2);
    ScriptOn(s, making + making', s2, marking, s3);
    ScriptOn(s, making + making' + marking, s3, closing, t);
  }
}
