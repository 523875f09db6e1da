/** Products and quotients, kept out of the way of the solver. */
module Arith {

  lemma MulLe(a: nat, b: nat, k: nat)
    requires a <= b
    ensures a * k <= b * k
  {
    assert b * k == a * k + (b - a) * k;
  }

  lemma MulSucc(a: nat, k: nat)
    ensures (a + 1) * k == a * k + k
  {
  }

  /** Quotient and remainder are determined. */
  lemma DivUnique(pos: nat, b: nat, q: nat, r: nat)
    requires r < b && pos == q * b + r
    ensures pos / b == q && pos % b == r
  {
    var p, s := pos / b, pos % b;
    assert pos == p * b + s;
    if p < q {
      MulLe(p + 1, q, b);
      MulSucc(p, b);
      assert false;
    } else if q < p {
      MulLe(q + 1, p, b);
      MulSucc(q, b);
      assert false;
    }
  }

  lemma DivLess(pos: nat, b: nat, n: nat)
    requires pos < n * b
    ensures 0 < b && pos / b < n && pos % b < b && pos == pos / b * b + pos % b
  {
    if b == 0 {
      assert false;
    }
    var q := pos / b;
    assert pos == q * b + pos % b;
    if n <= q {
      MulLe(n, q, b);
      assert false;
    }
  }

  /** Whether a position lies in a piece of block i. */
  lemma InBlock(i: nat, o: nat, n: nat, j: nat, k: nat, b: nat)
    requires o + n <= b && k < b
    ensures i * b + o <= j * b + k < i * b + o + n <==> j == i && o <= k < o + n
  {
    if i < j {
      MulLe(i + 1, j, b);
      MulSucc(i, b);
    } else if j < i {
      MulLe(j + 1, i, b);
      MulSucc(j, b);
    }
  }

  /** a * b, for the solver to take as it stands. */
  function Times(a: nat, b: nat): nat { a * b }
  function Quot(a: nat, b: nat): nat { if b == 0 then 0 else a / b }
  function Rest(a: nat, b: nat): nat { if b == 0 then 0 else a % b }

  lemma QuotRest(pos: nat, b: nat, n: nat)
    requires pos < Times(n, b)
    ensures 0 < b && Quot(pos, b) < n && Rest(pos, b) < b && pos == Times(Quot(pos, b), b) + Rest(pos, b)
  {
    DivLess(pos, b, n);
  }

  lemma QuotIs(pos: nat, b: nat, q: nat, r: nat)
    requires r < b && pos == Times(q, b) + r
    ensures Quot(pos, b) == q && Rest(pos, b) == r
  {
    DivUnique(pos, b, q, r);
  }

  lemma QuotWhere(pos: nat, b: nat)
    requires 0 < b
    ensures Times(Quot(pos, b), b) <= pos < Times(Quot(pos, b), b) + b
  {
    assert pos == pos / b * b + pos % b;
  }

  lemma BlockIs(i: nat, o: nat, n: nat, j: nat, k: nat, b: nat)
    requires o + n <= b && k < b
    ensures Times(i, b) + o <= Times(j, b) + k < Times(i, b) + o + n <==> j == i && o <= k < o + n
  {
    InBlock(i, o, n, j, k, b);
  }

  lemma TimesNext(a: nat, b: nat)
    ensures Times(a + 1, b) == Times(a, b) + b && Times(0, b) == 0
  {
  }

  lemma TimesLe(a: nat, c: nat, b: nat)
    requires a <= c
    ensures Times(a, b) <= Times(c, b)
  {
    MulLe(a, c, b);
  }

  lemma TimesOrder(a: nat, c: nat, b: nat)
    ensures (a <= c ==> Times(a, b) <= Times(c, b)) && (c <= a ==> Times(c, b) <= Times(a, b))
  {
    if a <= c {
      MulLe(a, c, b);
    } else {
      MulLe(c, a, b);
    }
  }

  lemma TimesDouble(q: nat, d: nat)
    ensures Times(2 * q, d) == 2 * Times(q, d) && Times(2 * q + 1, d) == 2 * Times(q, d) + d
  {
    assert 2 * q * d == 2 * (q * d);
    MulSucc(2 * q, d);
  }

  lemma TimesAtLeast(q: nat, d: nat)
    requires 1 <= d
    ensures q <= Times(q, d)
  {
    MulLe(1, d, q);
    assert d * q == q * d;
  }
}
