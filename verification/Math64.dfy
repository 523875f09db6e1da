/** The 64-bit helpers of the compiler run-time, in terms of 64- and 32-bit words. */
module Math64 {
  import opened Arith

  const M32 := 0x1_0000_0000
  const M64 := 0x1_0000_0000_0000_0000
  const H64 := 0x8000_0000_0000_0000     // 2^63

  type U64 = x: int | 0 <= x < 0x1_0000_0000_0000_0000
  type U32 = x: int | 0 <= x < 0x1_0000_0000
  type S64 = x: int | -0x8000_0000_0000_0000 <= x < 0x8000_0000_0000_0000

  // ---- __udivmoddi4 ----

  /** x shifted left i times, without losing bits. */
  function Scale(x: nat, i: nat): nat {
    if i == 0 then x else 2 * Scale(x, i - 1)
  }

  lemma {:induction false} ScaleAdd(x: nat, a: nat, b: nat)
    ensures Scale(x, a + b) == Scale(Scale(x, a), b)
  {
    if 0 < b {
      ScaleAdd(x, a, b - 1);
    }
  }

  lemma Scale8(y: nat)
    ensures Scale(y, 8) == 0x100 * y
  {
    assert Scale(y, 0) == y;
    assert Scale(y, 1) == 2 * y;
    assert Scale(y, 2) == 4 * y;
    assert Scale(y, 3) == 8 * y;
    assert Scale(y, 4) == 16 * y;
    assert Scale(y, 5) == 32 * y;
    assert Scale(y, 6) == 64 * y;
    assert Scale(y, 7) == 128 * y;
  }

  lemma Scale64(x: nat)
    ensures Scale(x, 64) == x * M64
  {
    Scale8(x);
    Scale8(0x100 * x);
    Scale8(0x1_0000 * x);
    Scale8(0x100_0000 * x);
    Scale8(0x1_0000_0000 * x);
    Scale8(0x100_0000_0000 * x);
    Scale8(0x1_0000_0000_0000 * x);
    Scale8(0x100_0000_0000_0000 * x);
    ScaleAdd(x, 8, 8);
    ScaleAdd(x, 16, 8);
    ScaleAdd(x, 24, 8);
    ScaleAdd(x, 32, 8);
    ScaleAdd(x, 40, 8);
    ScaleAdd(x, 48, 8);
    ScaleAdd(x, 56, 8);
  }

  /** Before step i: hi are the i top bits of n0, n the others moved to the top of the word. */
  ghost predicate Split(n0: nat, i: nat, hi: nat, n: nat) {
    Scale(n0, i) == hi * M64 + n && n < M64 && hi < Scale(1, i)
  }

  /** The next bit moves over; below step 64 there is room for it. */
  lemma SplitStep(n0: nat, i: nat, hi: nat, n: nat)
    requires Split(n0, i, hi, n) && i < 64
    ensures n / H64 <= 1 && Split(n0, i + 1, 2 * hi + n / H64, n * 2 % M64) && hi < H64
  {
    ScaleMono(i);
  }

  lemma ScaleMono(i: nat)
    requires i < 64
    ensures Scale(1, i) <= H64
  {
    Scale64(1);
    ScaleUp(i, 63);
    assert Scale(1, 64) == 2 * Scale(1, 63);
  }

  lemma {:induction false} ScaleUp(a: nat, b: nat)
    requires a <= b
    ensures 0 < Scale(1, a) <= Scale(1, b)
    decreases b
  {
    if a < b {
      ScaleUp(a, b - 1);
    } else if 0 < a {
      ScaleUp(a - 1, a - 1);
    }
  }

  lemma SplitEnd(n0: nat, hi: nat, n: nat)
    requires Split(n0, 64, hi, n)
    ensures hi == n0
  {
    Scale64(n0);
  }

  /** Quotient and remainder, for every n and every d but 0; the shifted remainder never loses a bit. */
  method UDivMod(n0: U64, d: U64) returns (q: U64, r: U64)
    requires d != 0
    ensures q == n0 / d && r == n0 % d
  {
    hide Times, Split;
    q, r := 0, 0;
    var n: U64 := n0;
    ghost var hi: nat := 0;
    TimesNext(0, d);
    assert Split(n0, 0, 0, n0) by { SplitStart(n0); }
    var i := 0;
    while i < 64
      invariant 0 <= i <= 64 && Split(n0, i, hi, n) && r < d && Times(q, d) + r == hi
    {
      SplitStep(n0, i, hi, n);
      TimesDouble(q, d);
      TimesAtLeast(q, d);
      hi := 2 * hi + n / H64;
      r := r * 2 + n / H64;
      n := n * 2 % M64;
      if d <= r {
        r := r - d;
        q := q * 2 + 1;
      } else {
        q := q * 2;
      }
      i := i + 1;
    }
    SplitEnd(n0, hi, n);
    QuotIs(n0, d, q, r);
    QuotAre(n0, d);
  }

  lemma SplitStart(n0: U64)
    ensures Split(n0, 0, 0, n0)
  {
  }

  lemma QuotAre(n: nat, d: nat)
    requires d != 0
    ensures Quot(n, d) == n / d && Rest(n, d) == n % d
  {
  }

  // ---- the signed forms ----

  /** Truncation to 64 bits, seen as two's complement. */
  function Wrap(x: int): S64 {
    var y := x % M64;
    if y < H64 then y else y - M64
  }

  /** Division as C defines it: toward zero; the remainder has the dividend's sign. */
  function Trunc(a: int, b: int): int
    requires b != 0
  {
    var q := Abs(a) / Abs(b);
    if (a < 0) != (b < 0) then -q else q
  }

  function Rem(a: int, b: int): int
    requires b != 0
  {
    var r := Abs(a) % Abs(b);
    if a < 0 then -r else r
  }

  function Abs(x: int): nat { if x < 0 then -x else x }

  /** x >> 63 of a signed word: all sign bits. */
  function SignOf(x: S64): S64 { if x < 0 then -1 else 0 }

  /** x ^ s for s = 0 or -1: complement. */
  function XorSign(x: int, s: S64): int {
    if s == 0 then x else -x - 1
  }

  /** ((du_int)((x ^ s) - s)). */
  function Magnitude(x: S64): U64 {
    (XorSign(x, SignOf(x)) - SignOf(x)) % M64
  }

  lemma MagnitudeIs(x: S64)
    ensures Magnitude(x) == Abs(x)
  {
  }

  /** (w ^ s) - s of the word w: negated when s is -1, wrapping around. */
  lemma SignedBack(u: U64, s: S64)
    requires s == 0 || s == -1
    ensures Wrap(XorSign(Wrap(u), s) - s) == Wrap(if s == 0 then u as int else -(u as int))
  {
  }

  method DivDi3(a: S64, b: S64) returns (q: S64)
    requires b != 0
    ensures q == Wrap(Trunc(a, b))
  {
    MagnitudeIs(a);
    MagnitudeIs(b);
    hide Magnitude, Wrap, XorSign;
    var s := if SignOf(a) == SignOf(b) then 0 else -1;
    var uq, r := UDivMod(Magnitude(a), Magnitude(b));
    SignedBack(uq, s);
    q := Wrap(XorSign(Wrap(uq), s) - s);
  }

  method ModDi3(a: S64, b: S64) returns (r: S64)
    requires b != 0
    ensures r == Rem(a, b)
  {
    MagnitudeIs(a);
    MagnitudeIs(b);
    hide Magnitude, XorSign, Wrap;
    var uq, ur := UDivMod(Magnitude(a), Magnitude(b));
    SignedBack(ur, SignOf(a));
    RemSmall(a, b);
    WrapIs(Rem(a, b));
    r := Wrap(XorSign(Wrap(ur), SignOf(a)) - SignOf(a));
  }

  lemma RemSmall(a: S64, b: S64)
    requires b != 0
    ensures Abs(a) % Abs(b) < Abs(b) <= H64
  {
  }

  /** The two belong together: a is quotient times divisor plus remainder, the remainder is the smaller one,
      and the quotient is exact except for the one that does not fit. */
  lemma TruncRem(a: S64, b: S64)
    requires b != 0
    ensures a == Trunc(a, b) * b + Rem(a, b)
    ensures Abs(Rem(a, b)) < Abs(b) && (Rem(a, b) != 0 ==> (Rem(a, b) < 0 <==> a < 0))
    ensures Wrap(Trunc(a, b)) == Trunc(a, b) <==> !(a == -H64 && b == -1)
  {
    hide Wrap, Trunc, Rem, Abs;
    TruncSum(a, b);
    TruncSize(a, b);
    WrapIs(Trunc(a, b));
  }

  lemma NegProduct(q: int, b: int)
    ensures (-q) * b == -(q * b) && q * (-b) == -(q * b)
  {
  }

  lemma TruncSum(a: int, b: int)
    requires b != 0
    ensures a == Trunc(a, b) * b + Rem(a, b)
    ensures Abs(Rem(a, b)) < Abs(b) && (Rem(a, b) != 0 ==> (Rem(a, b) < 0 <==> a < 0))
  {
    hide Trunc, Rem;
    TruncParts(a, b);
    var x, y := Abs(a), Abs(b);
    DivParts(x, y);
    Signs(x, y, x / y, x % y);
  }

  lemma TruncParts(a: int, b: int)
    requires b != 0
    ensures Trunc(a, b) == if (a < 0) != (b < 0) then -(Abs(a) / Abs(b)) else Abs(a) / Abs(b)
    ensures Rem(a, b) == if a < 0 then -(Abs(a) % Abs(b)) else Abs(a) % Abs(b)
  {
  }

  lemma Signs(x: int, y: int, q: int, r: int)
    requires x == q * y + r
    ensures -x == (-q) * y - r && x == (-q) * (-y) + r && -x == q * (-y) - r
  {
    NegProduct(q, y);
    NegProduct(-q, y);
  }

  lemma TruncSize(a: S64, b: S64)
    requires b != 0
    ensures -H64 <= Trunc(a, b) <= H64 && (Trunc(a, b) == H64 <==> a == -H64 && b == -1)
  {
    DivParts(Abs(a), Abs(b));
  }

  lemma DivParts(x: nat, y: nat)
    requires 0 < y
    ensures x == x / y * y + x % y && x % y < y && x / y <= x && (x / y == x && 0 < x <==> y == 1 && 0 < x)
  {
    var q := x / y;
    assert x == q * y + x % y;
    MulLe(1, y, q);
    assert y * q == q * y;
    if 1 < y {
      MulLe(2, y, q);
    }
  }

  lemma WrapIs(x: int)
    requires -H64 <= x <= H64
    ensures Wrap(x) == x <==> x != H64
  {
  }

  // ---- __muldi3 ----

  /** The product modulo 2^64, from 32-bit halves. */
  function MulDi3(a: U64, b: U64): (p: U64)
    ensures p == a * b % M64
  {
    var al, ah, bl, bh := a % M32, a / M32, b % M32, b / M32;
    var lolo := al * bl;
    var cross := (al * bh % M32 + ah * bl % M32) % M32;
    var outLo := lolo % M32;
    var outHi := (lolo / M32 % M32 + cross) % M32;
    Halves(al, ah, bl, bh);
    outHi * M32 + outLo
  }

  lemma Halves(al: nat, ah: nat, bl: nat, bh: nat)
    requires al < M32 && ah < M32 && bl < M32 && bh < M32
    ensures var lolo := al * bl; var cross := (al * bh % M32 + ah * bl % M32) % M32;
            (lolo / M32 % M32 + cross) % M32 * M32 + lolo % M32 == (ah * M32 + al) * (bh * M32 + bl) % M64
  {
    var x, y, z, w := al * bl, al * bh, ah * bl, ah * bh;
    Expand(al, ah, bl, bh);
    HalfSum(x, y, z, w);
  }

  lemma Expand(al: nat, ah: nat, bl: nat, bh: nat)
    ensures (ah * M32 + al) * (bh * M32 + bl) == ah * bh * M64 + (al * bh + ah * bl) * M32 + al * bl
  {
    var b := bh * M32 + bl;
    assert (ah * M32 + al) * b == ah * M32 * b + al * b;
    assert al * b == al * (bh * M32) + al * bl == al * bh * M32 + al * bl;
    assert ah * M32 * b == M32 * (ah * b);
    assert ah * b == ah * (bh * M32) + ah * bl == ah * bh * M32 + ah * bl;
  }

  lemma HalfSum(x: nat, y: nat, z: nat, w: nat)
    ensures var cross := (y % M32 + z % M32) % M32;
            (x / M32 % M32 + cross) % M32 * M32 + x % M32 == (w * M64 + (y + z) * M32 + x) % M64
  {
    var c := (y % M32 + z % M32) % M32;
    ModSum(x / M32, y, z, c);
    var h := (x / M32 + y + z) % M32;
    var k := (x / M32 + y + z) / M32;
    assert w * M64 + (y + z) * M32 + x == (w + k) * M64 + (h * M32 + x % M32);
  }

  lemma ModSum(x: nat, y: nat, z: nat, c: nat)
    requires c == (y % M32 + z % M32) % M32
    ensures (x % M32 + c) % M32 == (x + y + z) % M32
  {
    ModShift(y / M32 + z / M32, y % M32 + z % M32);
    assert (y + z) % M32 == c;
    ModShift(x / M32 + (y + z) / M32, x % M32 + c);
  }

  lemma ModShift(k: nat, t: nat)
    ensures (k * M32 + t) % M32 == t % M32
  {
  }
}
