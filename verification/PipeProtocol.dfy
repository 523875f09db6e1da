/** Processes opening, sharing, using and closing pipes and files: every interleaving of the critical
    sections of fd.c and pipe.c. */
module PipeProtocol {
  import opened Options
  import opened Bytes
  import opened Pipe
  import opened FdPool

  // ---- states ----

  datatype Op = Read(n: nat) | Write(src: seq<Byte>)

  /** Where a process stands between two critical sections. */
  datatype Pc =
    | Idle
    // vfs_fd_pipe_create
    | HasPipe(p: nat)
    | HasRd(p: nat, rd: nat)
    | RdReady(p: nat, rd: nat)
    | HasWd(p: nat, rd: nat, wd: nat)
    | UndoRd(p: nat, rd: nat)
    | FreePipe(p: nat, both: bool)
    // vfs_fd_open
    | HasFile(d: nat)
    // vfs_fd_read, vfs_fd_write; gen tells which opening of slot d is meant, nonblock what pipe_read or
    // pipe_write found in the flags when it began; only where that was false does a process sleep
    | Begun(d: nat, gen: nat, op: Op)
    | Top(d: nat, gen: nat, op: Op, nonblock: bool)
    | Asleep(d: nat, gen: nat, op: Op)
    | Waking(d: nat, gen: nat, p: nat)
    | Leaving(d: nat, gen: nat)
    // vfs_fd_release after the slot was cleared
    | Closing(f: File, gen: nat, undo: Option<nat>)
    | CloseWake(p: nat, free: bool, undo: Option<nat>)
    | CloseFree(p: nat, undo: Option<nat>)

  /** held: the descriptors in the process's fd_map, with multiplicity. */
  datatype Proc = Proc(pc: Pc, held: multiset<nat>)

  /** gen numbers the openings of all slots. */
  datatype Slot = Slot(file: File, gen: nat)

  /** A pipe with all bytes ever accepted from writers and delivered to readers since it was opened. */
  datatype PipeV = PipeV(st: Pipe.State, accepted: seq<Byte>, delivered: seq<Byte>)

  /** next: openings so far; closed: openings whose driver's close has run. */
  datatype Sys = Sys(slots: seq<Slot>, pipes: seq<PipeV>, procs: seq<Proc>, next: nat, closed: multiset<nat>)

  const PIPE_MAX := 4

  // ---- steps ----

  datatype Event =
    | CreatePipe(p: nat)
    | TakeSlot(d: nat)         // fd_pool_alloc finds d
    | NoSlot                   // fd_pool_alloc fails
    | InitSlot
    | UndoRelease
    | FreeAgain                // pipe_free at the end of a failed vfs_fd_pipe_create
    | OpenFile(d: nat)
    | Dup(j: nat, d: nat)      // vfs_fd_acquire on behalf of process j (itself, or a child)
    | Stdio(d: nat)            // vfs_fd_stdio_desc
    | StartIo(d: nat, op: Op)  // fd_get
    | ReadFlags                // the first line of pipe_read and pipe_write
    | DoIo(sleep: bool)        // the driver's critical section; sleep, or give up with EAGAIN or EINTR
    | Signal                   // a sleeper is made runnable without a wakeup
    | Wake                     // sched_wakeup at the end of pipe_read, pipe_write or pipe_close
    | Leave                    // vfs_fd_release at the end of vfs_fd_read, vfs_fd_write
    | CloseFd(d: nat)          // vfs_fd_release of an fd_map entry
    | RunClose                 // the driver's close
    | FreeLast                 // pipe_free at the end of pipe_close
    | SetFl(d: nat, arg: nat)

  /** A step changes the acting process, at most one slot and at most one pipe. */
  datatype Change = Change(i: nat, x: Proc, d: nat, y: Slot, p: nat, z: PipeV, next: nat, closed: multiset<nat>)

  predicate Shape(s: Sys) {
    |s.slots| == FILE_MAX && |s.pipes| == PIPE_MAX
  }

  /** Nothing but the process changes. */
  function Move(s: Sys, i: nat, pc: Pc): Change
    requires Shape(s) && i < |s.procs|
  {
    Change(i, s.procs[i].(pc := pc), 0, s.slots[0], 0, s.pipes[0], s.next, s.closed)
  }

  function SlotTo(c: Change, d: nat, f: File, s: Sys): Change
    requires d < |s.slots|
  {
    c.(d := d, y := s.slots[d].(file := f))
  }

  function PipeTo(c: Change, p: nat, z: PipeV): Change {
    c.(p := p, z := z)
  }

  function Opened(c: Change, d: nat, f: File): Change {
    c.(d := d, y := Slot(f, c.next), next := c.next + 1)
  }

  predicate ReadsPipe(f: File, op: Op) { f.ops == PipeRead && op.Read? }
  predicate WritesPipe(f: File, op: Op) { f.ops == PipeWrite && op.Write? }

  predicate Enabled(s: Sys, i: nat, ev: Event)
    requires Shape(s)
  {
    i < |s.procs| && var pc, held := s.procs[i].pc, s.procs[i].held;
    match ev
    case CreatePipe(p) => pc.Idle? && p < PIPE_MAX && !s.pipes[p].st.inUse && forall q :: 0 <= q < p ==> s.pipes[q].st.inUse
    case TakeSlot(d) => (pc.HasPipe? || pc.RdReady?) && d < FILE_MAX && FdPool.IsFree(s.slots[d].file)
                        && forall e :: 0 <= e < d ==> !FdPool.IsFree(s.slots[e].file)
    case NoSlot => (pc.HasPipe? || pc.RdReady?) && forall e :: 0 <= e < FILE_MAX ==> !FdPool.IsFree(s.slots[e].file)
    case InitSlot => (pc.HasRd? && pc.rd < FILE_MAX) || (pc.HasWd? && pc.wd < FILE_MAX) || (pc.HasFile? && pc.d < FILE_MAX)
    case UndoRelease => pc.UndoRd? && pc.rd < FILE_MAX
    case FreeAgain => pc.FreePipe? && pc.p < PIPE_MAX
    case OpenFile(d) => pc.Idle? && d < FILE_MAX && FdPool.IsFree(s.slots[d].file)
                        && forall e :: 0 <= e < d ==> !FdPool.IsFree(s.slots[e].file)
    case Dup(j, d) => pc.Idle? && d in held && d < FILE_MAX && j < |s.procs|
    case Stdio(d) => pc.Idle? && d < 3
    case StartIo(d, op) => pc.Idle? && d in held && d < FILE_MAX && CanGet(s.slots[d].file)
    case ReadFlags => pc.Begun? && pc.d < FILE_MAX
    case DoIo(_) => pc.Top? && pc.d < FILE_MAX && s.slots[pc.d].file.priv < PIPE_MAX
    case Signal => pc.Asleep?
    case Wake => (pc.Waking? || pc.CloseWake?)
    case Leave => pc.Leaving? && pc.d < FILE_MAX
    case CloseFd(d) => pc.Idle? && d in held && d < FILE_MAX
    case RunClose => pc.Closing? && pc.f.priv < PIPE_MAX
    case FreeLast => pc.CloseFree? && pc.p < PIPE_MAX
    case SetFl(d, _) => pc.Idle? && d in held && d < FILE_MAX
  }

  /** Every step but an F_SETFL that sets a flag on a pipe's read end. */
  predicate Harmless(s: Sys, ev: Event) {
    ev.SetFl? && ev.d < |s.slots| && s.slots[ev.d].file.ops == PipeRead ==> ev.arg < 4
  }

  /** The process after vfs_fd_release's critical section: it still has to close the copy, or is done. */
  function AfterRelease(copy: Option<File>, gen: nat, undo: Option<nat>): Pc {
    match copy
    case Some(f) => Closing(f, gen, undo)
    case None => if undo.Some? then FreePipe(undo.value, false) else Idle
  }

  function AfterClosing(undo: Option<nat>): Pc {
    if undo.Some? then FreePipe(undo.value, false) else Idle
  }

  /** One critical section of pipe_read or pipe_write (or of another driver, which touches no pipe). */
  function Io(s: Sys, i: nat, sleep: bool): Change
    requires Shape(s) && Enabled(s, i, DoIo(sleep))
  {
    var pc := s.procs[i].pc;
    var f := s.slots[pc.d].file;
    var v := s.pipes[f.priv];
    var stop := if sleep && !pc.nonblock then Asleep(pc.d, pc.gen, pc.op) else Leaving(pc.d, pc.gen);
    if ReadsPipe(f, pc.op) then
      match ReadOutcome(v.st)
      case Done =>
        PipeTo(Move(s, i, Waking(pc.d, pc.gen, f.priv)), f.priv,
               PipeV(AfterRead(v.st, pc.op.n), v.accepted, v.delivered + ReadBytes(v.st, pc.op.n)))
      case Block => Move(s, i, stop)
      case _ => Move(s, i, Leaving(pc.d, pc.gen))
    else if WritesPipe(f, pc.op) then
      match WriteOutcome(v.st)
      case Done =>
        PipeTo(Move(s, i, Waking(pc.d, pc.gen, f.priv)), f.priv,
               PipeV(AfterWrite(v.st, pc.op.src), v.accepted + pc.op.src[..Accepted(v.st, |pc.op.src|)], v.delivered))
      case Block => Move(s, i, stop)
      case _ => Move(s, i, Leaving(pc.d, pc.gen))
    else Move(s, i, Leaving(pc.d, pc.gen))
  }

  /** The close of another driver: nothing of this is touched. */
  function DriverClose(s: Sys, i: nat): Change
    requires Shape(s) && i < |s.procs| && s.procs[i].pc.Closing?
  {
    var pc := s.procs[i].pc;
    Move(s, i, AfterClosing(pc.undo)).(closed := s.closed + multiset{pc.gen})
  }

  /** The critical section of pipe_close. */
  function PipeClose(s: Sys, i: nat): Change
    requires Shape(s) && i < |s.procs| && s.procs[i].pc.Closing? && s.procs[i].pc.f.priv < PIPE_MAX
  {
    var pc := s.procs[i].pc;
    var st := AfterClose(s.pipes[pc.f.priv].st, pc.f.flags);
    PipeTo(Move(s, i, CloseWake(pc.f.priv, st.readers == 0 && st.writers == 0, pc.undo)), pc.f.priv,
           s.pipes[pc.f.priv].(st := st)).(closed := s.closed + multiset{pc.gen})
  }

  /** All steps but the effect of a wakeup on the sleepers. */
  function Local(s: Sys, i: nat, ev: Event): Change
    requires Shape(s) && Enabled(s, i, ev)
  {
    var pr := s.procs[i];
    var pc := pr.pc;
    match ev
    case CreatePipe(p) => PipeTo(Move(s, i, HasPipe(p)), p, PipeV(Pipe.State([], 1, 1, true), [], []))
    case TakeSlot(d) =>
      SlotTo(Move(s, i, if pc.HasPipe? then HasRd(pc.p, d) else HasWd(pc.p, pc.rd, d)), d, Taken(), s)
    case NoSlot => Move(s, i, if pc.HasPipe? then FreePipe(pc.p, true) else UndoRd(pc.p, pc.rd))
    case InitSlot =>
      (if pc.HasRd? then Opened(Move(s, i, RdReady(pc.p, pc.rd)), pc.rd, File(PipeRead, pc.p, O_RDONLY, s.slots[pc.rd].file.refcnt))
       else if pc.HasWd? then
         var c := Move(s, i, Idle).(x := Proc(Idle, pr.held + multiset{pc.rd, pc.wd}));
         Opened(c, pc.wd, File(PipeWrite, pc.p, O_WRONLY, s.slots[pc.wd].file.refcnt))
       else
         var c := Move(s, i, Idle).(x := Proc(Idle, pr.held + multiset{pc.d}));
         Opened(c, pc.d, File(Driver, 0, 0, s.slots[pc.d].file.refcnt)))
    case UndoRelease =>
      var r := Released(s.slots[pc.rd].file);
      SlotTo(Move(s, i, AfterRelease(r.1, s.slots[pc.rd].gen, Some(pc.p))), pc.rd, r.0, s)
    case FreeAgain => PipeTo(Move(s, i, Idle), pc.p, s.pipes[pc.p].(st := s.pipes[pc.p].st.(inUse := false)))
    case OpenFile(d) => SlotTo(Move(s, i, HasFile(d)), d, Taken(), s)
    case Dup(j, d) =>
      var c := Move(s, j, s.procs[j].pc).(x := s.procs[j].(held := s.procs[j].held + multiset{d}));
      SlotTo(c, d, OneMore(s.slots[d].file), s)
    case Stdio(d) =>
      SlotTo(Move(s, i, Idle).(x := Proc(Idle, pr.held + multiset{d})), d, OneMore(s.slots[d].file), s)
    case StartIo(d, op) => SlotTo(Move(s, i, Begun(d, s.slots[d].gen, op)), d, OneMore(s.slots[d].file), s)
    case ReadFlags => Move(s, i, Top(pc.d, pc.gen, pc.op, s.slots[pc.d].file.flags / O_NONBLOCK % 2 == 1))
    case DoIo(sleep) => Io(s, i, sleep)
    case Signal => Move(s, i, Top(pc.d, pc.gen, pc.op, false))
    case Wake =>
      Move(s, i, if pc.Waking? then Leaving(pc.d, pc.gen)
                 else if pc.free then CloseFree(pc.p, pc.undo) else AfterClosing(pc.undo))
    case Leave =>
      var r := Released(s.slots[pc.d].file);
      SlotTo(Move(s, i, AfterRelease(r.1, s.slots[pc.d].gen, None)), pc.d, r.0, s)
    case CloseFd(d) =>
      var r := Released(s.slots[d].file);
      SlotTo(Move(s, i, Idle).(x := Proc(AfterRelease(r.1, s.slots[d].gen, None), pr.held - multiset{d})), d, r.0, s)
    case RunClose => if pc.f.ops == Driver then DriverClose(s, i) else PipeClose(s, i)
    case FreeLast => PipeTo(Move(s, i, AfterClosing(pc.undo)), pc.p, s.pipes[pc.p].(st := s.pipes[pc.p].st.(inUse := false)))
    case SetFl(d, arg) =>
      SlotTo(Move(s, i, Idle), d, s.slots[d].file.(flags := SetFlags(s.slots[d].file.flags, arg)), s)
  }

  predicate ChangeOk(s: Sys, c: Change) {
    c.i < |s.procs| && c.d < |s.slots| && c.p < |s.pipes|
  }

  function Changed(s: Sys, c: Change): (t: Sys)
    requires ChangeOk(s, c)
  {
    Sys(s.slots[c.d := c.y], s.pipes[c.p := c.z], s.procs[c.i := c.x], c.next, c.closed)
  }

  /** The pipe a sleeper sleeps on. */
  predicate SleepsOn(s: Sys, pr: Proc, p: nat) {
    pr.pc.Asleep? && pr.pc.d < |s.slots| && s.slots[pr.pc.d].file.priv == p
  }

  /** sched_wakeup(p). */
  function Woken(s: Sys, p: nat): (t: Sys)
    ensures |t.procs| == |s.procs|
  {
    s.(procs := seq(|s.procs|, j requires 0 <= j < |s.procs| =>
      if SleepsOn(s, s.procs[j], p) then s.procs[j].(pc := Top(s.procs[j].pc.d, s.procs[j].pc.gen, s.procs[j].pc.op, false)) else s.procs[j]))
  }

  function Next(s: Sys, i: nat, ev: Event): Sys
    requires Shape(s) && Enabled(s, i, ev)
  {
    var t := Changed(s, Local(s, i, ev));
    if ev.Wake? then Woken(t, s.procs[i].pc.p) else t
  }

  function Init(n: nat): Sys {
    Sys(seq(FILE_MAX, d requires 0 <= d => if d < 3 then Slot(File(Driver, 0, if d == 0 then O_RDONLY else O_WRONLY, 1), d) else Slot(ZEROED, 0)),
        seq(PIPE_MAX, _ => PipeV(Pipe.State([], 0, 0, false), [], [])),
        seq(n, _ => Proc(Idle, multiset{})), 3, multiset{})
  }
}
