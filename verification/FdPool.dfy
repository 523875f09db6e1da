/** The system-wide descriptor pool: reference-counted struct file slots. */
module FdPool {
  import opened Options
  import opened Pipe

  const FILE_MAX := 32
  const O_NONBLOCK := 0x800

  /** Which vtable a slot has: none, the pipe ends, or any other driver. */
  datatype Ops = NoOps | PipeRead | PipeWrite | Driver

  /** struct file; priv is the pipe's index for a pipe end. */
  datatype File = File(ops: Ops, priv: nat, flags: nat, refcnt: nat)

  const ZEROED := File(NoOps, 0, 0, 0)

  // ---- what each critical section does to one slot ----

  predicate IsFree(f: File) { f.refcnt == 0 && f.ops == NoOps }

  /** fd_pool_alloc, for the slot it takes. */
  function Taken(): File { ZEROED.(refcnt := 1) }

  /** fd_get succeeds. */
  predicate CanGet(f: File) { 0 < f.refcnt && f.ops != NoOps }

  /** fd_get and vfs_fd_acquire. */
  function OneMore(f: File): File { f.(refcnt := f.refcnt + 1) }

  /** vfs_fd_release: the slot that stays, and the copy to close if this was the last reference. */
  function Released(f: File): (File, Option<File>) {
    var g := if 0 < f.refcnt then f.(refcnt := f.refcnt - 1) else f;
    if g.refcnt == 0 then (ZEROED, Some(g)) else (g, None)
  }

  /** F_SETFL keeps the access mode. */
  function SetFlags(flags: nat, arg: nat): nat {
    flags % 4 + (arg - arg % 4)
  }

  // ---- the pool ----

  class Pool {
    const slots: array<File>

    ghost predicate Valid()
      reads this
    {
      slots.Length == FILE_MAX
    }

    constructor ()
      ensures Valid() && fresh(slots) && forall i :: 0 <= i < FILE_MAX ==> slots[i] == ZEROED
    {
      slots := new File[FILE_MAX](_ => ZEROED);
    }

    /** fd_pool_alloc: the first free slot, or -1 when there is none. */
    method Alloc() returns (d: int)
      requires Valid()
      modifies slots
      ensures d == -1 <==> forall i :: 0 <= i < FILE_MAX ==> !IsFree(old(slots[i]))
      ensures d == -1 ==> slots[..] == old(slots[..])
      ensures d != -1 ==>
        && 0 <= d < FILE_MAX && IsFree(old(slots[d])) && (forall i :: 0 <= i < d ==> !IsFree(old(slots[i])))
        && slots[..] == old(slots[..])[d := Taken()]
      ensures d == -1 <==> forall i :: 0 <= i < 32 ==> 0 < old(slots[i]).refcnt || old(slots[i]).ops != NoOps
      ensures d != -1 ==> slots[d] == File(NoOps, 0, 0, 1)
    {
      d := 0;
      while d < FILE_MAX
        invariant 0 <= d <= FILE_MAX && slots[..] == old(slots[..])
        invariant forall i :: 0 <= i < d ==> !IsFree(old(slots[i]))
      {
        if slots[d].refcnt == 0 && slots[d].ops == NoOps {
          slots[d] := ZEROED;
          slots[d] := slots[d].(refcnt := 1);
          return;
        }
        d := d + 1;
      }
      d := -1;
    }

    /** fd_get. */
    method Get(desc: int) returns (ok: bool)
      requires Valid()
      modifies slots
      ensures ok <==> 0 <= desc < FILE_MAX && CanGet(old(slots[desc]))
      ensures slots[..] == if ok then old(slots[..])[desc := OneMore(old(slots[desc]))] else old(slots[..])
      ensures ok <==> 0 <= desc < 32 && 0 < old(slots[desc]).refcnt && old(slots[desc]).ops != NoOps
      ensures ok ==> slots[desc] == old(slots[desc]).(refcnt := old(slots[desc]).refcnt + 1)
    {
      if desc < 0 || FILE_MAX <= desc {
        return false;
      }
      ok := 0 < slots[desc].refcnt && slots[desc].ops != NoOps;
      if ok {
        slots[desc] := slots[desc].(refcnt := slots[desc].refcnt + 1);
      }
    }

    /** vfs_fd_acquire. */
    method Acquire(desc: int)
      requires Valid()
      modifies slots
      ensures slots[..] == if 0 <= desc < FILE_MAX && 0 < old(slots[desc]).refcnt
                           then old(slots[..])[desc := old(slots[desc]).(refcnt := old(slots[desc]).refcnt + 1)] else old(slots[..])
    {
      if 0 <= desc < FILE_MAX && 0 < slots[desc].refcnt {
        slots[desc] := slots[desc].(refcnt := slots[desc].refcnt + 1);
      }
    }

    /** The critical section of vfs_fd_release; the caller then runs the driver's close on the copy. */
    method Release(desc: int) returns (closing: Option<File>)
      requires Valid()
      modifies slots
      ensures !(0 <= desc < FILE_MAX) ==> closing == None && slots[..] == old(slots[..])
      ensures 0 <= desc < FILE_MAX ==>
        && slots[..] == old(slots[..])[desc := Released(old(slots[desc])).0]
        && closing == Released(old(slots[desc])).1
      ensures 0 <= desc < FILE_MAX ==>
        && (closing.Some? <==> old(slots[desc]).refcnt <= 1)
        && (closing.Some? ==> slots[desc] == File(NoOps, 0, 0, 0) && closing == Some(old(slots[desc]).(refcnt := 0)))
        && (closing.None? ==> slots[desc] == old(slots[desc]).(refcnt := old(slots[desc]).refcnt - 1))
    {
      closing := None;
      if desc < 0 || FILE_MAX <= desc {
        return;
      }
      if 0 < slots[desc].refcnt {
        slots[desc] := slots[desc].(refcnt := slots[desc].refcnt - 1);
      }
      if slots[desc].refcnt == 0 {
        closing := Some(slots[desc]);
        slots[desc] := ZEROED;
      }
    }
  }

  /** F_SETFL leaves a write end a write end, but a read end closes rightly only if no flag was set. */
  lemma SetFlagsEnd(flags: nat, arg: nat)
    ensures SetFlags(flags, arg) % 4 == flags % 4 && SetFlags(flags, arg) / 4 == arg / 4
    ensures flags % 4 == O_WRONLY ==> SetFlags(flags, arg) % 4 == O_WRONLY
    ensures flags == O_RDONLY ==> (SetFlags(flags, arg) == O_RDONLY <==> arg < 4)
  {
  }
}
