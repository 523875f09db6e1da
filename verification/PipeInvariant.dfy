/** What every interleaving of the pipe and descriptor code keeps, as long as no flag is set on a read end. */
module PipeInvariant {
  import opened Sums
  import opened Options
  import opened Bytes
  import opened Pipe
  import opened FdPool
  import opened PipeProtocol

  // ---- who refers to what ----

  /** References to slot d held by a step in progress. */
  function PcRefs(pc: Pc, d: nat): nat {
    match pc
    case HasRd(_, rd) => One(rd == d)
    case RdReady(_, rd) => One(rd == d)
    case HasWd(_, rd, wd) => One(rd == d) + One(wd == d)
    case UndoRd(_, rd) => One(rd == d)
    case HasFile(e) => One(e == d)
    case Begun(e, _, _) => One(e == d)
    case Top(e, _, _, _) => One(e == d)
    case Asleep(e, _, _) => One(e == d)
    case Waking(e, _, _) => One(e == d)
    case Leaving(e, _) => One(e == d)
    case _ => 0
  }

  function Refs(pr: Proc, d: nat): nat { pr.held[d] + PcRefs(pr.pc, d) }
  function RefsTo(d: nat): Proc -> nat { (pr: Proc) => Refs(pr, d) }

  /** Ends of pipe p that are not in a slot: not there yet, or already taken out to be closed. */
  function PcReads(pc: Pc, p: nat): nat {
    match pc
    case HasPipe(q) => One(q == p)
    case HasRd(q, _) => One(q == p)
    case FreePipe(q, both) => One(q == p && both)
    case Closing(f, _, _) => One(f.ops == PipeRead && f.priv == p)
    case _ => 0
  }

  function PcWrites(pc: Pc, p: nat): nat {
    match pc
    case HasPipe(q) => One(q == p)
    case HasRd(q, _) => One(q == p)
    case RdReady(q, _) => One(q == p)
    case HasWd(q, _, _) => One(q == p)
    case UndoRd(q, _) => One(q == p)
    case FreePipe(q, _) => One(q == p)
    case Closing(f, _, undo) => One(f.ops == PipeWrite && f.priv == p) + One(undo == Some(p))
    case CloseWake(_, _, undo) => One(undo == Some(p))
    case CloseFree(_, undo) => One(undo == Some(p))
    case _ => 0
  }

  /** The process that found both counts at zero and has to free pipe p. */
  function PcFrees(pc: Pc, p: nat): nat {
    match pc
    case CloseWake(q, free, _) => One(q == p && free)
    case CloseFree(q, _) => One(q == p)
    case _ => 0
  }

  function ReadsOf(p: nat): Proc -> nat { (pr: Proc) => PcReads(pr.pc, p) }
  function WritesOf(p: nat): Proc -> nat { (pr: Proc) => PcWrites(pr.pc, p) }
  function FreesOf(p: nat): Proc -> nat { (pr: Proc) => PcFrees(pr.pc, p) }
  function SlotRead(x: Slot, p: nat): nat { One(x.file.ops == PipeRead && x.file.priv == p) }
  function SlotWrite(x: Slot, p: nat): nat { One(x.file.ops == PipeWrite && x.file.priv == p) }
  function ReadSlot(p: nat): Slot -> nat { (x: Slot) => SlotRead(x, p) }
  function WriteSlot(p: nat): Slot -> nat { (x: Slot) => SlotWrite(x, p) }

  ghost function ReadEnds(s: Sys, p: nat): nat { Sum(s.slots, ReadSlot(p)) + Sum(s.procs, ReadsOf(p)) }
  ghost function WriteEnds(s: Sys, p: nat): nat { Sum(s.slots, WriteSlot(p)) + Sum(s.procs, WritesOf(p)) }

  /** Where opening g is: in a slot, or on its way to the driver's close. */
  function SlotGen(x: Slot, g: nat): nat { One(x.file.ops != NoOps && x.gen == g) }
  function PcGen(pc: Pc, g: nat): nat { One(pc.Closing? && pc.gen == g) }
  function GenSlot(g: nat): Slot -> nat { (x: Slot) => SlotGen(x, g) }
  function GenOf(g: nat): Proc -> nat { (pr: Proc) => PcGen(pr.pc, g) }

  // ---- the invariant ----

  predicate FlagsOk(f: File) {
    && (f.ops == PipeRead ==> f.flags == O_RDONLY)
    && (f.ops == PipeWrite ==> f.flags % 4 == O_WRONLY)
    && f.priv < PIPE_MAX
  }

  /** refcnt counts the references; a slot without any is cleared; one not yet opened has one. */
  ghost predicate SlotInv(s: Sys, d: nat)
    requires d < |s.slots|
  {
    var f := s.slots[d].file;
    && f.refcnt == Sum(s.procs, RefsTo(d)) + One(d < 3)
    && (f.refcnt == 0 ==> f.ops == NoOps)
    && (f.ops == NoOps ==> f.refcnt <= 1 && 3 <= d)
    && FlagsOk(f)
  }

  predicate CountsOk(st: Pipe.State, r: nat, w: nat, frees: nat) {
    && r <= 1 && w <= 1
    && (st.inUse ==> st.readers == r && st.writers == w)
    && (!st.inUse ==> r == 0 && w == 0)
    && frees == One(st.inUse && r == 0 && w == 0)
  }

  predicate StreamOk(v: PipeV) {
    |v.st.ring| < SIZE && v.delivered + v.st.ring == v.accepted
  }

  /** The counts of a pipe are the numbers of its ends; exactly one process is to free it when both are zero;
      what was delivered, then the ring, is what was accepted. */
  ghost predicate PipeInv(s: Sys, p: nat)
    requires p < |s.pipes|
  {
    && CountsOk(s.pipes[p].st, ReadEnds(s, p), WriteEnds(s, p), Sum(s.procs, FreesOf(p)))
    && StreamOk(s.pipes[p])
  }

  predicate OpenSlot(s: Sys, d: nat) { d < |s.slots| && s.slots[d].file.ops != NoOps }
  predicate NewSlot(s: Sys, d: nat) { d < |s.slots| && s.slots[d].file.ops == NoOps }
  predicate EndSlot(s: Sys, d: nat, ops: Ops, p: nat) { d < |s.slots| && s.slots[d].file.ops == ops && s.slots[d].file.priv == p }
  predicate GenAt(s: Sys, d: nat, g: nat) { OpenSlot(s, d) && s.slots[d].gen == g }

  predicate PcOk(s: Sys, pc: Pc) {
    match pc
    case Idle => true
    case HasPipe(p) => p < PIPE_MAX
    case HasRd(p, rd) => p < PIPE_MAX && NewSlot(s, rd)
    case RdReady(p, rd) => p < PIPE_MAX && EndSlot(s, rd, PipeRead, p)
    case HasWd(p, rd, wd) => p < PIPE_MAX && EndSlot(s, rd, PipeRead, p) && NewSlot(s, wd)
    case UndoRd(p, rd) => p < PIPE_MAX && EndSlot(s, rd, PipeRead, p)
    case FreePipe(p, _) => p < PIPE_MAX
    case HasFile(d) => NewSlot(s, d)
    case Begun(d, g, _) => GenAt(s, d, g)
    case Top(d, g, _, _) => GenAt(s, d, g)
    case Asleep(d, g, op) => GenAt(s, d, g) && (ReadsPipe(s.slots[d].file, op) || WritesPipe(s.slots[d].file, op))
    case Waking(d, g, p) => GenAt(s, d, g) && p < PIPE_MAX
    case Leaving(d, g) => GenAt(s, d, g)
    case Closing(f, _, undo) => f.ops != NoOps && FlagsOk(f) && (undo.Some? ==> undo.value < PIPE_MAX)
    case CloseWake(p, _, undo) => p < PIPE_MAX && (undo.Some? ==> undo.value < PIPE_MAX)
    case CloseFree(p, undo) => p < PIPE_MAX && (undo.Some? ==> undo.value < PIPE_MAX)
  }

  /** Slot d belongs to a vfs_fd_pipe_create in progress alone. */
  predicate Excl(pc: Pc, d: nat) {
    match pc
    case RdReady(_, rd) => rd == d
    case HasWd(_, rd, _) => rd == d
    case UndoRd(_, rd) => rd == d
    case _ => false
  }

  /** A pipe whose read end is gone while its writing side is still being made. */
  predicate NoReader(s: Sys, p: nat) {
    p < |s.pipes| && s.pipes[p].st.inUse && s.pipes[p].st.readers == 0
  }

  /** What a failing vfs_fd_pipe_create relies on. */
  predicate UndoOk(s: Sys, pc: Pc) {
    && (forall d :: 0 <= d < |s.slots| && Excl(pc, d) ==> s.slots[d].file.refcnt == 1)
    && (pc.Closing? && pc.undo.Some? ==> pc.f.ops == PipeRead && pc.f.priv == pc.undo.value)
    && (pc.CloseWake? && pc.undo.Some? ==> pc.undo.value == pc.p && !pc.free && NoReader(s, pc.p))
    && (pc.CloseFree? ==> pc.undo == None)
    && (pc.FreePipe? && !pc.both ==> NoReader(s, pc.p))
  }

  /** A sleeper's reason to sleep. */
  predicate Blocked(st: Pipe.State, op: Op) {
    if op.Read? then st.ring == [] && 0 < st.writers
    else |st.ring| == SIZE - 1 && 0 < st.readers
  }

  predicate Pends(pc: Pc, p: nat) {
    (pc.Waking? && pc.p == p) || (pc.CloseWake? && pc.p == p)
  }

  /** A wakeup on pipe p is still to come. */
  predicate Pending(s: Sys, p: nat) {
    exists k :: 0 <= k < |s.procs| && Pends(s.procs[k].pc, p)
  }

  predicate SleepOk(s: Sys, pc: Pc) {
    pc.Asleep? && pc.d < |s.slots| && s.slots[pc.d].file.priv < |s.pipes| ==>
      var p := s.slots[pc.d].file.priv;
      Blocked(s.pipes[p].st, pc.op) || Pending(s, p)
  }

  predicate ProcInv(s: Sys, i: nat)
    requires i < |s.procs|
  {
    && (forall d :: d in s.procs[i].held ==> OpenSlot(s, d))
    && PcOk(s, s.procs[i].pc)
    && UndoOk(s, s.procs[i].pc)
    && SleepOk(s, s.procs[i].pc)
  }

  /** Every opening is in exactly one place: a slot, a pending close, or closed. */
  ghost predicate GenInv(s: Sys, g: nat) {
    Sum(s.slots, GenSlot(g)) + Sum(s.procs, GenOf(g)) + s.closed[g] == One(g < s.next)
  }

  ghost predicate Inv(s: Sys) {
    && Shape(s)
    && (forall d :: 0 <= d < FILE_MAX ==> SlotInv(s, d))
    && (forall p :: 0 <= p < PIPE_MAX ==> PipeInv(s, p))
    && (forall i :: 0 <= i < |s.procs| ==> ProcInv(s, i))
    && (forall g :: 0 <= g ==> GenInv(s, g))
  }

  // ---- a local step ----

  /** References and openings balance. */
  ghost predicate Balanced(s: Sys, c: Change)
    requires ChangeOk(s, c)
  {
    var o, u := s.procs[c.i], s.slots[c.d];
    && (forall e: nat :: Refs(c.x, e) + (if e == c.d then u.file.refcnt else 0) == Refs(o, e) + (if e == c.d then c.y.file.refcnt else 0))
    && (forall g: nat :: SlotGen(c.y, g) + PcGen(c.x.pc, g) + c.closed[g] + One(g < s.next)
                         == SlotGen(u, g) + PcGen(o.pc, g) + s.closed[g] + One(g < c.next))
  }

  /** The slot is left in order, and other references to it still find what they refer to. */
  ghost predicate SlotKept(s: Sys, c: Change)
    requires ChangeOk(s, c)
  {
    var u, y := s.slots[c.d], c.y;
    && (y.file.refcnt == 0 ==> y.file.ops == NoOps)
    && (y.file.ops == NoOps ==> y.file.refcnt <= 1 && 3 <= c.d)
    && FlagsOk(y.file)
    && (Shared(s, c.i, c.d) ==> y.file.ops == u.file.ops && y.file.priv == u.file.priv && y.gen == u.gen)
  }

  /** The ends of pipe q outside this slot and process. */
  ghost function OtherReads(s: Sys, c: Change, q: nat): int
    requires ChangeOk(s, c)
  {
    ReadEnds(s, q) - SlotRead(s.slots[c.d], q) - PcReads(s.procs[c.i].pc, q)
  }

  ghost function OtherWrites(s: Sys, c: Change, q: nat): int
    requires ChangeOk(s, c)
  {
    WriteEnds(s, q) - SlotWrite(s.slots[c.d], q) - PcWrites(s.procs[c.i].pc, q)
  }

  ghost function OtherFrees(s: Sys, c: Change, q: nat): int
    requires ChangeOk(s, c)
  {
    Sum(s.procs, FreesOf(q)) - PcFrees(s.procs[c.i].pc, q)
  }

  /** The ends of every pipe still agree with its counts. */
  ghost predicate EndsKept(s: Sys, c: Change)
    requires ChangeOk(s, c)
  {
    var o, u := s.procs[c.i], s.slots[c.d];
    && (forall q :: 0 <= q < PIPE_MAX && q != c.p ==>
          && SlotRead(c.y, q) + PcReads(c.x.pc, q) == SlotRead(u, q) + PcReads(o.pc, q)
          && SlotWrite(c.y, q) + PcWrites(c.x.pc, q) == SlotWrite(u, q) + PcWrites(o.pc, q)
          && PcFrees(c.x.pc, q) == PcFrees(o.pc, q))
    && var r, w, f := OtherReads(s, c, c.p) + SlotRead(c.y, c.p) + PcReads(c.x.pc, c.p),
                      OtherWrites(s, c, c.p) + SlotWrite(c.y, c.p) + PcWrites(c.x.pc, c.p),
                      OtherFrees(s, c, c.p) + PcFrees(c.x.pc, c.p);
       0 <= r && 0 <= w && 0 <= f && CountsOk(c.z.st, r, w, f) && StreamOk(c.z)
  }

  predicate NoSleeper(s: Sys, q: nat) {
    forall j :: 0 <= j < |s.procs| ==> !SleepsOn(s, s.procs[j], q)
  }

  /** Nobody is left asleep without a reason and without a wakeup to come. */
  ghost predicate SleepersKept(s: Sys, c: Change)
    requires ChangeOk(s, c)
  {
    && (forall q: nat :: Pends(s.procs[c.i].pc, q) ==> Pends(c.x.pc, q) || NoSleeper(s, q))
    && (Pends(c.x.pc, c.p) || NoSleeper(s, c.p) || forall op: Op :: Blocked(s.pipes[c.p].st, op) ==> Blocked(c.z.st, op))
  }

  /** A pipe being made by another process is not disturbed. */
  ghost predicate UndoKept(s: Sys, c: Change)
    requires ChangeOk(s, c)
  {
    && (c.y.file.refcnt == s.slots[c.d].file.refcnt || forall k :: 0 <= k < |s.procs| && k != c.i ==> !Excl(s.procs[k].pc, c.d))
    && (NoReader(s, c.p) ==> c.z.st.readers == 0 && (c.z.st.inUse || OtherWrites(s, c, c.p) <= 0))
  }

  /** References other than process i's own. */
  ghost predicate Shared(s: Sys, i: nat, d: nat)
    requires i < |s.procs| && d < |s.slots|
  {
    Refs(s.procs[i], d) + One(d < 3) < s.slots[d].file.refcnt
  }

  /** Another process's reference shows in refcnt. */
  lemma OthersShare(s: Sys, i: nat, j: nat, d: nat)
    requires i < |s.procs| && j < |s.procs| && i != j && d < |s.slots| && SlotInv(s, d) && 0 < Refs(s.procs[j], d)
    ensures Shared(s, i, d)
  {
    SumTwo(s.procs, if i < j then i else j, if i < j then j else i, RefsTo(d));
  }

  lemma LocalSlots(s: Sys, c: Change, d: nat)
    requires Inv(s) && ChangeOk(s, c) && Balanced(s, c) && SlotKept(s, c) && d < FILE_MAX
    ensures SlotInv(Changed(s, c), d)
  {
    assert SlotInv(s, d);
    SumPut(s.procs, c.i, c.x, RefsTo(d));
  }

  lemma EndsAfter(s: Sys, c: Change, q: nat)
    requires ChangeOk(s, c)
    ensures var t := Changed(s, c);
            && ReadEnds(t, q) == OtherReads(s, c, q) + SlotRead(c.y, q) + PcReads(c.x.pc, q)
            && WriteEnds(t, q) == OtherWrites(s, c, q) + SlotWrite(c.y, q) + PcWrites(c.x.pc, q)
            && Sum(t.procs, FreesOf(q)) == OtherFrees(s, c, q) + PcFrees(c.x.pc, q)
  {
    hide PcReads, PcWrites, PcFrees, SlotRead, SlotWrite, Sum;
    SumPut(s.procs, c.i, c.x, ReadsOf(q));
    SumPut(s.procs, c.i, c.x, WritesOf(q));
    SumPut(s.procs, c.i, c.x, FreesOf(q));
    SumPut(s.slots, c.d, c.y, ReadSlot(q));
    SumPut(s.slots, c.d, c.y, WriteSlot(q));
  }

  lemma LocalPipes(s: Sys, c: Change, q: nat)
    requires Inv(s) && ChangeOk(s, c) && EndsKept(s, c) && q < PIPE_MAX
    ensures PipeInv(Changed(s, c), q)
  {
    hide PcReads, PcWrites, PcFrees, SlotRead, SlotWrite, ReadEnds, WriteEnds, Sum, StreamOk, CountsOk;
    assert PipeInv(s, q);
    EndsAfter(s, c, q);
    EndsBefore(s, c, q);
  }

  lemma EndsBefore(s: Sys, c: Change, q: nat)
    requires ChangeOk(s, c)
    ensures ReadEnds(s, q) == OtherReads(s, c, q) + SlotRead(s.slots[c.d], q) + PcReads(s.procs[c.i].pc, q)
    ensures WriteEnds(s, q) == OtherWrites(s, c, q) + SlotWrite(s.slots[c.d], q) + PcWrites(s.procs[c.i].pc, q)
    ensures Sum(s.procs, FreesOf(q)) == OtherFrees(s, c, q) + PcFrees(s.procs[c.i].pc, q)
  {
  }

  lemma LocalGens(s: Sys, c: Change, g: nat)
    requires Inv(s) && ChangeOk(s, c) && Balanced(s, c)
    ensures GenInv(Changed(s, c), g)
  {
    assert GenInv(s, g);
    SumPut(s.procs, c.i, c.x, GenOf(g));
    SumPut(s.slots, c.d, c.y, GenSlot(g));
    hide Refs;
  }

  /** What another process refers to is still there. */
  lemma OtherSees(s: Sys, c: Change, j: nat, d: nat)
    requires Inv(s) && ChangeOk(s, c) && SlotKept(s, c) && j < |s.procs| && j != c.i
    requires d < |s.slots| && 0 < Refs(s.procs[j], d)
    ensures var a, b := s.slots[d], Changed(s, c).slots[d];
            a.file.ops == b.file.ops && a.file.priv == b.file.priv && a.gen == b.gen
  {
    if d == c.d {
      assert SlotInv(s, d);
      OthersShare(s, c.i, j, d);
    }
  }

  lemma PendingKept(s: Sys, c: Change, q: nat)
    requires ChangeOk(s, c) && SleepersKept(s, c) && Pending(s, q)
    ensures Pending(Changed(s, c), q) || NoSleeper(s, q)
  {
    var k :| 0 <= k < |s.procs| && Pends(s.procs[k].pc, q);
    if k == c.i {
      assert Pends(c.x.pc, q) ==> Pends(Changed(s, c).procs[k].pc, q);
    } else {
      assert Pends(Changed(s, c).procs[k].pc, q);
    }
  }

  lemma OtherUndo(s: Sys, c: Change, j: nat)
    requires Inv(s) && ChangeOk(s, c) && UndoKept(s, c) && j < |s.procs| && j != c.i
    ensures UndoOk(Changed(s, c), s.procs[j].pc)
  {
    assert ProcInv(s, j);
    var t, pc := Changed(s, c), s.procs[j].pc;
    forall d | 0 <= d < |t.slots| && Excl(pc, d) ensures t.slots[d].file.refcnt == 1 {
      assert s.slots[d].file.refcnt == 1;
    }
    if (pc.CloseWake? && pc.undo.Some?) || (pc.FreePipe? && !pc.both) {
      assert 1 <= PcWrites(pc, pc.p);
      SumTwo(s.procs, if c.i < j then c.i else j, if c.i < j then j else c.i, WritesOf(pc.p));
      if c.p == pc.p {
        SumAt(s.slots, c.d, WriteSlot(c.p));
        assert 0 < OtherWrites(s, c, c.p);
      }
    }
  }

  lemma OtherProc(s: Sys, c: Change, j: nat)
    requires Inv(s) && ChangeOk(s, c) && SlotKept(s, c) && SleepersKept(s, c) && UndoKept(s, c) && j < |s.procs| && j != c.i
    ensures ProcInv(Changed(s, c), j)
  {
    var t, pr := Changed(s, c), s.procs[j];
    assert ProcInv(s, j);
    forall d | d in pr.held ensures OpenSlot(t, d) {
      assert OpenSlot(s, d);
      OtherSees(s, c, j, d);
    }
    OtherPc(s, c, j);
    OtherSleep(s, c, j);
    OtherUndo(s, c, j);
    hide PcOk, UndoOk, SleepOk, SlotKept, SleepersKept, UndoKept, Inv;
  }

  lemma OtherPc(s: Sys, c: Change, j: nat)
    requires Inv(s) && ChangeOk(s, c) && SlotKept(s, c) && j < |s.procs| && j != c.i
    ensures PcOk(Changed(s, c), s.procs[j].pc)
  {
    var pc := s.procs[j].pc;
    assert ProcInv(s, j);
    forall d: nat | d < |s.slots| && 0 < PcRefs(pc, d)
      ensures var a, b := s.slots[d], Changed(s, c).slots[d];
              a.file.ops == b.file.ops && a.file.priv == b.file.priv && a.gen == b.gen
    {
      OtherSees(s, c, j, d);
    }
    hide Inv, SlotKept, ProcInv, SleepOk;
  }

  lemma OtherSleep(s: Sys, c: Change, j: nat)
    requires Inv(s) && ChangeOk(s, c) && SlotKept(s, c) && SleepersKept(s, c) && j < |s.procs| && j != c.i
    ensures SleepOk(Changed(s, c), s.procs[j].pc)
  {
    var t, pc := Changed(s, c), s.procs[j].pc;
    assert ProcInv(s, j);
    if pc.Asleep? {
      OtherSees(s, c, j, pc.d);
      var p := s.slots[pc.d].file.priv;
      assert SlotInv(s, pc.d);
      assert SleepsOn(s, s.procs[j], p);
      if Pending(s, p) {
        PendingKept(s, c, p);
      } else if p == c.p && Pends(c.x.pc, p) {
        assert Pends(t.procs[c.i].pc, p);
      }
    }
  }

  /** A balanced change of one process, one slot and one pipe keeps the invariant. */
  lemma LocalStep(s: Sys, c: Change)
    requires Inv(s) && ChangeOk(s, c) && Balanced(s, c) && SlotKept(s, c) && EndsKept(s, c) && SleepersKept(s, c) && UndoKept(s, c)
    requires ProcInv(Changed(s, c), c.i)
    ensures Inv(Changed(s, c))
  {
    hide SlotInv, PipeInv, ProcInv, GenInv, Balanced, SlotKept, EndsKept, SleepersKept, UndoKept;
    var t := Changed(s, c);
    forall d | 0 <= d < FILE_MAX ensures SlotInv(t, d) {
      LocalSlots(s, c, d);
    }
    forall p | 0 <= p < PIPE_MAX ensures PipeInv(t, p) {
      LocalPipes(s, c, p);
    }
    forall g | 0 <= g ensures GenInv(t, g) {
      LocalGens(s, c, g);
    }
    forall i | 0 <= i < |t.procs| ensures ProcInv(t, i) {
      if i != c.i {
        OtherProc(s, c, i);
      }
    }
  }

  // ---- a wakeup ----

  lemma WokenSums(s: Sys, p: nat)
    ensures var t := Woken(s, p);
            && (forall d: nat :: Sum(t.procs, RefsTo(d)) == Sum(s.procs, RefsTo(d)))
            && (forall q: nat :: Sum(t.procs, ReadsOf(q)) == Sum(s.procs, ReadsOf(q)))
            && (forall q: nat :: Sum(t.procs, WritesOf(q)) == Sum(s.procs, WritesOf(q)))
            && (forall q: nat :: Sum(t.procs, FreesOf(q)) == Sum(s.procs, FreesOf(q)))
            && (forall g: nat :: Sum(t.procs, GenOf(g)) == Sum(s.procs, GenOf(g)))
  {
    var t := Woken(s, p);
    forall d: nat ensures Sum(t.procs, RefsTo(d)) == Sum(s.procs, RefsTo(d)) {
      SumSame(t.procs, s.procs, RefsTo(d));
    }
    forall q: nat
      ensures Sum(t.procs, ReadsOf(q)) == Sum(s.procs, ReadsOf(q))
      ensures Sum(t.procs, WritesOf(q)) == Sum(s.procs, WritesOf(q))
      ensures Sum(t.procs, FreesOf(q)) == Sum(s.procs, FreesOf(q))
      ensures Sum(t.procs, GenOf(q)) == Sum(s.procs, GenOf(q))
    {
      SumSame(t.procs, s.procs, ReadsOf(q));
      SumSame(t.procs, s.procs, WritesOf(q));
      SumSame(t.procs, s.procs, FreesOf(q));
      SumSame(t.procs, s.procs, GenOf(q));
    }
  }

  /** Waking everybody on pipe p keeps the invariant; nobody sleeps on p afterwards. */
  lemma WokenInv(s: Sys, p: nat)
    requires Inv(s)
    ensures Inv(Woken(s, p)) && NoSleeper(Woken(s, p), p)
  {
    var t := Woken(s, p);
    WokenSums(s, p);
    hide Sum, CountsOk, StreamOk, PcReads, PcWrites, PcFrees;
    forall d | 0 <= d < FILE_MAX ensures SlotInv(t, d) {
      assert SlotInv(s, d);
    }
    forall q | 0 <= q < PIPE_MAX ensures PipeInv(t, q) {
      assert PipeInv(s, q);
    }
    forall g | 0 <= g ensures GenInv(t, g) {
      assert GenInv(s, g);
    }
    forall i | 0 <= i < |t.procs| ensures ProcInv(t, i) {
      WokenProc(s, p, i);
    }
  }

  lemma WokenProc(s: Sys, p: nat, i: nat)
    requires Inv(s) && i < |s.procs|
    ensures ProcInv(Woken(s, p), i)
  {
    var t := Woken(s, p);
    assert ProcInv(s, i);
    forall d | d in t.procs[i].held ensures OpenSlot(t, d) {
      assert OpenSlot(s, d);
    }
    var pc := t.procs[i].pc;
    if pc.Asleep? {
      var q := s.slots[pc.d].file.priv;
      if Pending(s, q) {
        var k :| 0 <= k < |s.procs| && Pends(s.procs[k].pc, q);
        assert Pends(t.procs[k].pc, q);
      }
    }
  }
}
