/** Particular lines: where searching again under g differs from what one might expect. */
module SedCases {
  import opened Bytes
  import opened SedRegex
  import opened SedSubst

  const A: Byte := 0x61
  const B: Byte := 0x62

  /** ^a */
  function CaretA(): (c: Code)
    ensures WellFormed(c)
  {
    [Inst(Bol, false), Inst(Lit(A), false), Inst(End, false)]
  }

  /** a* */
  function ManyA(): (c: Code)
    ensures WellFormed(c)
  {
    [Inst(Lit(A), true), Inst(End, false)]
  }

  lemma CaretHit(s: Text)
    requires s != [] && s[0] == A
    ensures Search(CaretA(), s, 0) == Hit(0, 1, NoCaps())
  {
    var c := CaretA();
    ReadyAtStart(c, 0);
    ReadyNext(c, 0, NoCaps(), 0, 0);
    ReadyNext(c, 1, NoCaps(), 0, 1);
    assert AtomEnd(Lit(A), s, 0, NoCaps()) == 1;
    assert Try(c, 2, s, 1, NoCaps()) == Attempt(1, NoCaps());
    assert Try(c, 1, s, 0, NoCaps()) == Attempt(1, NoCaps());
    assert Try(c, 0, s, 0, NoCaps()) == Attempt(1, NoCaps());
  }

  /** "^a" under g matches "aa" twice: the second search begins behind the first match. */
  lemma CaretTwice()
    ensures var hs := Hits(CaretA(), [A, A], 0); |hs| == 2 && hs[0].start == 0 && hs[0].end == 1 && hs[1].start == 1 && hs[1].end == 2
  {
    var src := [A, A];
    assert src[0..] == src && src[1..] == [A] && src[2..] == [];
    CaretHit(src);
    CaretHit([A]);
    NoneLeft();
    assert Hits(CaretA(), src, 2) == [];
    assert |Hits(CaretA(), src, 1)| == 1;
  }

  lemma NoneLeft()
    ensures Search(CaretA(), [], 0) == Nothing
  {
    var c := CaretA();
    ReadyAtStart(c, 0);
    ReadyNext(c, 0, NoCaps(), 0, 0);
    assert AtomEnd(Lit(A), [], 0, NoCaps()) == -1;
    assert Try(c, 1, [], 0, NoCaps()).end == -1;
    assert Try(c, 0, [], 0, NoCaps()).end == -1;
  }

  lemma ManyHit(s: Text, k: nat)
    requires s == [A, B] || s == [B] || s == []
    requires k == if s == [A, B] then 1 else 0
    ensures Search(ManyA(), s, 0) == Hit(0, k, NoCaps())
  {
    var c := ManyA();
    ReadyAtStart(c, 0);
    ReadyNext(c, 0, NoCaps(), 0, k);
    var ps := Positions(Lit(A), s, 0, NoCaps(), 1);
    assert AtomEnd(Lit(A), s, 0, NoCaps()) == if k == 1 then 1 else -1;
    if k == 1 {
      CapsLater(NoCaps(), 0, 1);
      assert AtomEnd(Lit(A), s, 1, NoCaps()) == -1;
      assert Positions(Lit(A), s, 1, NoCaps(), 2) == [1];
    }
    assert |ps| == k + 1 && ps[k] == k;
    assert Try(c, 1, s, k, NoCaps()) == Attempt(k, NoCaps());
    assert TryBack(c, 0, s, 0, ps, k + 1, NoCaps()) == Attempt(k, NoCaps());
    assert Try(c, 0, s, 0, NoCaps()) == Attempt(k, NoCaps());
  }

  /** "a*" under g matches "ab" three times, the second time the empty string directly behind the "a". */
  lemma EmptyBehind()
    ensures var hs := Hits(ManyA(), [A, B], 0);
            && |hs| == 3 && hs[0].start == 0 && hs[0].end == 1
            && hs[1].start == hs[1].end == 1 && hs[2].start == hs[2].end == 2
  {
    var src := [A, B];
    assert src[0..] == src && src[1..] == [B] && src[2..] == [];
    ManyHit(src, 1);
    ManyHit([B], 0);
    ManyHit([], 0);
    assert |Hits(ManyA(), src, 2)| == 1;
    assert |Hits(ManyA(), src, 1)| == 2;
  }
}
