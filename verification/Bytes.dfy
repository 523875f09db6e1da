/** Bytes, 32-bit words and their little-endian encoding inside byte buffers. */
module Bytes {

  type Byte = x: int | 0 <= x < 0x100
  type U16 = x: int | 0 <= x < 0x1_0000
  type U32 = x: int | 0 <= x < 0x1_0000_0000

  const WORD := 0x1_0000_0000

  /** Overwrites |r| bytes of b from offset o on. */
  function Splice(b: seq<Byte>, o: nat, r: seq<Byte>): (c: seq<Byte>)
    requires o + |r| <= |b|
    ensures |c| == |b|
    ensures forall i :: 0 <= i < |b| ==> c[i] == if o <= i < o + |r| then r[i - o] else b[i]
  {
    b[..o] + r + b[o + |r|..]
  }

  function U16At(b: seq<Byte>, o: nat): U16
    requires o + 2 <= |b|
  {
    b[o] as int + 0x100 * (b[o + 1] as int)
  }

  function U32At(b: seq<Byte>, o: nat): U32
    requires o + 4 <= |b|
  {
    b[o] as int + 0x100 * (b[o + 1] as int) + 0x1_0000 * (b[o + 2] as int) + 0x100_0000 * (b[o + 3] as int)
  }

  /** The first byte is the lowest. */
  lemma LowFirst(b: seq<Byte>, o: nat)
    requires o + 4 <= |b|
    ensures U16At(b, o) % 0x100 == b[o] && U16At(b, o) / 0x100 == b[o + 1]
    ensures U32At(b, o) % 0x1_0000 == U16At(b, o) && U32At(b, o) / 0x1_0000 == U16At(b, o + 2)
  {
  }

  function LE16(v: U16): seq<Byte> {
    [v % 0x100, v / 0x100]
  }

  function LE32(v: U32): seq<Byte> {
    [v % 0x100, v / 0x100 % 0x100, v / 0x1_0000 % 0x100, v / 0x100_0000]
  }

  function PutU16(b: seq<Byte>, o: nat, v: U16): (c: seq<Byte>)
    requires o + 2 <= |b|
    ensures |c| == |b|
  {
    Splice(b, o, LE16(v))
  }

  function PutU32(b: seq<Byte>, o: nat, v: U32): (c: seq<Byte>)
    requires o + 4 <= |b|
    ensures |c| == |b|
  {
    Splice(b, o, LE32(v))
  }

  /** Storing a word makes exactly that word read back; words beside it keep their value. */
  lemma PutGet32(b: seq<Byte>, o: nat, v: U32, p: nat)
    requires o + 4 <= |b| && p + 4 <= |b|
    requires p == o || p + 4 <= o || o + 4 <= p
    ensures U32At(PutU32(b, o, v), p) == if p == o then v else U32At(b, p)
  {
    var c := PutU32(b, o, v);
    if p == o {
      assert c[o] == v % 0x100 && c[o + 1] == v / 0x100 % 0x100;
      assert c[o + 2] == v / 0x1_0000 % 0x100 && c[o + 3] == v / 0x100_0000;
      Digits(v);
    } else {
      assert forall k :: p <= k < p + 4 ==> c[k] == b[k];
    }
  }

  lemma Digits(v: U32)
    ensures v == v % 0x100 + 0x100 * (v / 0x100 % 0x100) + 0x1_0000 * (v / 0x1_0000 % 0x100) + 0x100_0000 * (v / 0x100_0000)
  {
    var a := v / 0x100;
    var b := a / 0x100;
    assert b == v / 0x1_0000 && b / 0x100 == v / 0x100_0000;
  }

  lemma PutGet16(b: seq<Byte>, o: nat, v: U16, p: nat)
    requires o + 2 <= |b| && p + 2 <= |b|
    requires p == o || p + 2 <= o || o + 2 <= p
    ensures U16At(PutU16(b, o, v), p) == if p == o then v else U16At(b, p)
  {
    var c := PutU16(b, o, v);
    if p == o {
      assert c[o] == v % 0x100 && c[o + 1] == v / 0x100;
    }
  }
}
