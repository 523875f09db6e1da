/** The kernel pipe: a 512-byte ring and the counts of its two ends. */
module Pipe {
  import opened Bytes

  const SIZE := 512          // PIPE_BUF_SIZE
  const O_RDONLY := 0
  const O_WRONLY := 1

  /** What the rest of the kernel sees of a pipe_t. */
  datatype State = State(ring: seq<Byte>, readers: nat, writers: nat, inUse: bool)

  /** How one pass through the critical section of pipe_read or pipe_write ends.
      Block: EAGAIN, EINTR or sleep, as the caller's flags and signals say. */
  datatype Outcome = Done | Eof | Epipe | Block

  function Min(a: nat, b: nat): nat { if a < b then a else b }

  // ---- what one critical section does ----

  function ReadOutcome(s: State): Outcome {
    if s.ring != [] then Done else if s.writers == 0 then Eof else Block
  }

  function ReadBytes(s: State, n: nat): seq<Byte> {
    s.ring[..Min(n, |s.ring|)]
  }

  function AfterRead(s: State, n: nat): State {
    s.(ring := s.ring[Min(n, |s.ring|)..])
  }

  function WriteOutcome(s: State): Outcome {
    if s.readers == 0 then Epipe else if |s.ring| < SIZE - 1 then Done else Block
  }

  /** How many of n bytes are accepted. */
  function Accepted(s: State, n: nat): nat {
    if WriteOutcome(s).Done? then Min(n, SIZE - 1 - |s.ring|) else 0
  }

  function AfterWrite(s: State, src: seq<Byte>): State {
    s.(ring := s.ring + src[..Accepted(s, |src|)])
  }

  /** pipe_close: the whole flag word tells the end; the counts are bytes. */
  function AfterClose(s: State, flags: nat): State {
    if flags == O_RDONLY then s.(readers := (s.readers + 255) % 256)
    else s.(writers := (s.writers + 255) % 256)
  }

  // ---- the ring ----

  type Buf = b: seq<Byte> | |b| == 512 witness seq(512, _ => 0)

  /** pipe_used: (head - tail) & PIPE_MASK. */
  function UsedOf(h: nat, t: nat): nat { (h - t) % SIZE }

  /** The bytes between tail and head, in order. */
  function RingOf(b: Buf, h: nat, t: nat): (r: seq<Byte>)
    ensures |r| == UsedOf(h, t) < SIZE
  {
    seq(UsedOf(h, t), k requires 0 <= k => b[Step(t, k)])
  }

  /** Advancing the tail takes the first byte off. */
  lemma RingPop(b: Buf, h: nat, t: nat)
    requires h < SIZE && t < SIZE && UsedOf(h, t) != 0
    ensures RingOf(b, h, t) == [b[t]] + RingOf(b, h, Step(t, 1))
  {
    var r, q := RingOf(b, h, t), RingOf(b, h, Step(t, 1));
    UsedStep(h, t);
    forall k | 0 <= k < |q| ensures q[k] == r[k + 1] {
      StepStep(t, 1, k);
    }
  }

  lemma UsedStep(h: nat, t: nat)
    requires h < SIZE && t < SIZE
    ensures UsedOf(h, t) != 0 ==> UsedOf(h, Step(t, 1)) == UsedOf(h, t) - 1
    ensures UsedOf(h, t) != SIZE - 1 ==> UsedOf(Step(h, 1), t) == UsedOf(h, t) + 1
    ensures h == Step(t, UsedOf(h, t))
  {
    UsedIs(h, t);
    UsedIs(h, Step(t, 1));
    UsedIs(Step(h, 1), t);
    StepIs(t);
    StepIs(h);
  }

  lemma UsedIs(h: nat, t: nat)
    requires h < SIZE && t < SIZE
    ensures UsedOf(h, t) == if t <= h then h - t else h - t + SIZE
    ensures Step(t, UsedOf(h, t)) == h
  {
    if h < t {
      assert h - t == SIZE * (-1) + (h - t + SIZE);
    }
  }

  lemma StepIs(t: nat)
    requires t < SIZE
    ensures Step(t, 1) == if t + 1 == SIZE then 0 else t + 1
  {
  }

  /** Storing at the head and advancing it appends a byte, unless the ring is full. */
  lemma RingPush(b: Buf, h: nat, t: nat, x: Byte)
    requires h < SIZE && t < SIZE && UsedOf(h, t) != SIZE - 1
    ensures RingOf(b[h := x], Step(h, 1), t) == RingOf(b, h, t) + [x]
  {
    var r, q := RingOf(b, h, t), RingOf(b[h := x], Step(h, 1), t);
    UsedStep(h, t);
    forall k | 0 <= k < |r| ensures q[k] == r[k] {
      StepApart(t, k, UsedOf(h, t));
    }
  }

  // ---- pipe_t ----

  /** k steps around the ring from position t. */
  function Step(t: nat, k: nat): nat { (t + k) % SIZE }

  class PipeT {
    const buf: array<Byte>
    var head: nat
    var tail: nat
    var readers: nat
    var writers: nat
    var inUse: bool

    ghost predicate Valid()
      reads this
    {
      buf.Length == SIZE && head < SIZE && tail < SIZE && readers < 256 && writers < 256
    }

    function Used(): nat
      reads this
    {
      UsedOf(head, tail)
    }

    function Space(): int
      reads this
    {
      SIZE - 1 - Used()
    }

    ghost function Ring(): (r: seq<Byte>)
      requires Valid()
      reads this, buf
    {
      RingOf(buf[..], head, tail)
    }

    ghost function Abs(): State
      requires Valid()
      reads this, buf
    {
      State(Ring(), readers, writers, inUse)
    }

    constructor ()
      ensures Valid() && fresh(buf) && Abs() == State([], 0, 0, false)
    {
      buf := new Byte[SIZE](_ => 0);
      head, tail, readers, writers, inUse := 0, 0, 0, 0, false;
    }

    /** What pipe_alloc does to the entry it found. */
    method Open()
      requires Valid()
      modifies this, buf
      ensures Valid() && Abs() == State([], 1, 1, true)
    {
      forall i | 0 <= i < buf.Length {
        buf[i] := 0;
      }
      head, tail, readers, writers, inUse := 0, 0, 1, 1, true;
    }

    /** The copying loop of pipe_read. */
    method Take(count: nat) returns (out: seq<Byte>)
      requires Valid() && count <= |Ring()|
      modifies this`tail
      ensures Valid() && out == old(Ring())[..count] && Ring() == old(Ring())[count..]
    {
      hide RingOf, UsedOf;
      out := [];
      ghost var was := Ring();
      var i := 0;
      while i < count
        invariant 0 <= i <= count && |out| == i && Valid()
        invariant was == out + Ring()
      {
        RingPop(buf[..], head, tail);
        out := out + [buf[tail]];
        tail := (tail + 1) % SIZE;
        i := i + 1;
      }
    }

    /** The critical section of pipe_read. */
    method TryRead(n: nat) returns (r: Outcome, out: seq<Byte>)
      requires Valid()
      modifies this`tail
      ensures Valid()
      ensures r == ReadOutcome(old(Abs()))
      ensures out == ReadBytes(old(Abs()), n)
      ensures Abs() == AfterRead(old(Abs()), n)
      ensures out + Abs().ring == old(Abs()).ring
      ensures r.Eof? <==> old(Abs()).ring == [] && writers == 0
      ensures r.Block? <==> old(Abs()).ring == [] && writers != 0
      ensures |out| == if n < |old(Abs()).ring| then n else |old(Abs()).ring|
      ensures readers == old(readers) && writers == old(writers) && inUse == old(inUse)
    {
      hide RingOf, UsedOf;
      if 0 < n {
        ReadZero(Abs(), n);
      }
      out := [];
      ghost var was := Ring();
      var avail := Used();
      if 0 < avail {
        out := Take(if n < avail then n else avail);
        return Done, out;
      }
      assert was == [];
      r := if writers == 0 then Eof else Block;
    }

    /** The critical section of pipe_write. */
    method TryWrite(src: seq<Byte>) returns (r: Outcome, count: nat)
      requires Valid()
      modifies this`head, buf
      ensures Valid()
      ensures r == WriteOutcome(old(Abs())) && count == Accepted(old(Abs()), |src|)
      ensures Abs() == AfterWrite(old(Abs()), src)
      ensures Abs().ring == old(Abs()).ring + src[..count] && |Abs().ring| < SIZE
      ensures r.Epipe? <==> readers == 0
      ensures r.Block? <==> readers != 0 && |old(Abs()).ring| == SIZE - 1
      ensures count == if readers == 0 then 0 else if |src| < 511 - |old(Abs()).ring| then |src| else 511 - |old(Abs()).ring|
      ensures readers == old(readers) && writers == old(writers) && inUse == old(inUse)
    {
      hide RingOf, UsedOf;
      if src != [] {
        WriteZero(Abs(), src);
      }
      count := 0;
      ghost var was := Ring();
      assert was + src[..0] == was;
      if readers == 0 {
        return Epipe, 0;
      }
      if 0 < Space() {
        count := if |src| < Space() then |src| else Space();
        var i := 0;
        while i < count
          invariant 0 <= i <= count && Valid() && |was| + count < SIZE
          invariant Ring() == was + src[..i]
        {
          RingPush(buf[..], head, tail, src[i]);
          ghost var b := buf[..];
          buf[head] := src[i];
          assert buf[..] == b[head := src[i]];
          head := (head + 1) % SIZE;
          i := i + 1;
          assert src[..i] == src[..i - 1] + [src[i - 1]];
        }
        return Done, count;
      }
      r := Block;
    }

    /** The critical section of pipe_close: true when the caller has to free the pipe. */
    method CloseEnd(flags: nat) returns (free: bool)
      requires Valid()
      modifies this`readers, this`writers
      ensures Valid() && Abs() == AfterClose(old(Abs()), flags)
      ensures flags == 0 ==> readers == (if old(readers) == 0 then 255 else old(readers) - 1) && writers == old(writers)
      ensures flags != 0 ==> writers == (if old(writers) == 0 then 255 else old(writers) - 1) && readers == old(readers)
      ensures free <==> Abs().readers == 0 && Abs().writers == 0
    {
      if flags == O_RDONLY {
        readers := (readers + 255) % 256;
      } else {
        writers := (writers + 255) % 256;
      }
      free := readers == 0 && writers == 0;
    }
  }

  lemma StepStep(t: nat, a: nat, b: nat)
    ensures Step(Step(t, a), b) == Step(t, a + b)
  {
  }

  lemma StepApart(t: nat, a: nat, b: nat)
    requires a < b < SIZE
    ensures Step(t, a) != Step(t, b)
  {
  }

  // ---- what the outcomes mean ----

  /** A read of n > 0 bytes delivers nothing exactly when the ring is empty; it is an end of file
      exactly when, besides, there is no writer. */
  lemma ReadZero(s: State, n: nat)
    requires 0 < n
    ensures ReadBytes(s, n) == [] <==> s.ring == []
    ensures ReadOutcome(s).Eof? <==> s.ring == [] && s.writers == 0
    ensures ReadOutcome(s).Done? ==> 0 < |ReadBytes(s, n)| <= n
    ensures ReadBytes(s, n) + AfterRead(s, n).ring == s.ring
  {
    assert s.ring[..Min(n, |s.ring|)] + s.ring[Min(n, |s.ring|)..] == s.ring;
  }

  /** A write is refused exactly when there is no reader, and takes at least one byte when there is room. */
  lemma WriteZero(s: State, src: seq<Byte>)
    requires |s.ring| < SIZE && src != []
    ensures WriteOutcome(s).Epipe? <==> s.readers == 0
    ensures WriteOutcome(s).Block? <==> s.readers != 0 && |s.ring| == SIZE - 1
    ensures WriteOutcome(s).Done? ==> 0 < Accepted(s, |src|) <= |src|
    ensures |AfterWrite(s, src).ring| < SIZE
  {
  }

  /** Setting any flag on a read end makes its close count down the writers. */
  lemma FlagsMisleadClose(s: State, flags: nat)
    requires 0 < s.readers < 256 && s.writers < 256
    ensures AfterClose(s, flags).readers == s.readers - 1 <==> flags == O_RDONLY
    ensures flags != O_RDONLY && s.writers == 0 ==> AfterClose(s, flags).writers == 255
  {
  }
}
