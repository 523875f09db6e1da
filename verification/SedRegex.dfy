/** sed's regular expressions: what compiled code matches, and the backtracking matcher. */
module SedRegex {
  import opened Bytes

  const MAX_GROUPS := 9
  const MAX_STAR := 255     // positions[256] holds the start and 255 repetitions

  type Text = seq<Byte>

  /** One instruction. A class is its set of bytes (the bitmap's one bits). */
  datatype Op = End | Lit(c: Byte) | Any | Class(bits: set<Byte>) | Bol | Eol | Open(g: nat) | Close(g: nat) | Backref(n: nat)

  datatype Inst = Inst(op: Op, starred: bool)

  type Code = seq<Inst>

  /** A capture; -1 where it was not set. */
  datatype Cap = Cap(start: int, end: int)

  type Caps = c: seq<Cap> | |c| == 9 witness seq(9, _ => Cap(-1, -1))

  function NoCaps(): Caps { seq(9, _ => Cap(-1, -1)) }

  predicate IsAtom(op: Op) { op.Lit? || op.Any? || op.Class? || op.Backref? }

  // ---- compiled code ----

  /** Code as compile_regex makes it: END last and only there, every group opened once and then closed once. */
  predicate WellFormed(code: Code) {
    && 0 < |code| && code[|code| - 1].op == End
    && (forall i :: 0 <= i < |code| - 1 ==> code[i].op != End)
    && (forall i :: 0 <= i < |code| && (code[i].op.Open? || code[i].op.Close?) ==> code[i].op.g < MAX_GROUPS)
    && (forall i, j :: 0 <= i < j < |code| && code[i].op.Open? ==> code[j].op != code[i].op)
    && (forall i, j :: 0 <= i < j < |code| && code[i].op.Close? ==> code[j].op != code[i].op && code[j].op != Op.Open(code[i].op.g))
    && (forall j :: 0 <= j < |code| && code[j].op.Close? ==> OpenedBefore(code, 0, j, code[j].op.g))
  }

  /** Group g is opened at some place in [i, j). */
  predicate OpenedBefore(code: Code, i: nat, j: nat, g: nat)
    requires j <= |code|
  {
    exists k :: i <= k < j && code[k].op == Op.Open(g)
  }

  /** Captures that make sense at sp: a closed group lies between 0 and sp. */
  predicate CapsOk(caps: Caps, sp: nat) {
    forall g :: 0 <= g < MAX_GROUPS ==> CapOk(caps[g], sp)
  }

  predicate CapOk(c: Cap, sp: nat) {
    -1 <= c.start <= sp && -1 <= c.end <= sp && (0 <= c.end ==> 0 <= c.start <= c.end)
  }

  /** Captures as they are when code from pc on is still to run. */
  predicate Ready(code: Code, pc: nat, caps: Caps, sp: nat) {
    && WellFormed(code) && pc < |code| && CapsOk(caps, sp)
    && (forall j :: pc <= j < |code| && code[j].op.Open? ==> caps[code[j].op.g].end == -1)
    && (forall j :: pc <= j < |code| && code[j].op.Close? ==>
          caps[code[j].op.g].end == -1 && (0 <= caps[code[j].op.g].start || OpenedBefore(code, pc, j, code[j].op.g)))
  }

  lemma ReadyAtStart(code: Code, sp: nat)
    requires WellFormed(code)
    ensures Ready(code, 0, NoCaps(), sp)
  {
  }

  // ---- one instruction ----

  /** atom_match_one: where one occurrence of the atom ends, or -1. */
  function AtomEnd(op: Op, s: Text, sp: nat, caps: Caps): (q: int)
    requires sp <= |s| && CapsOk(caps, sp)
    ensures q == -1 || sp <= q <= |s|
  {
    match op
    case Lit(c) => if sp < |s| && s[sp] == c then sp + 1 else -1
    case Any => if sp < |s| && s[sp] != 0x0A then sp + 1 else -1
    case Class(bits) => if sp < |s| && s[sp] in bits then sp + 1 else -1
    case Backref(n) =>
      if n < 1 || MAX_GROUPS < n then -1
      else if caps[n - 1].start < 0 || caps[n - 1].end < 0 then -1
      else
        var k := caps[n - 1].end - caps[n - 1].start;
        if |s| < sp + k then -1
        else if s[sp..sp + k] != s[caps[n - 1].start..caps[n - 1].end] then -1
        else sp + k
    case _ => -1
  }

  lemma CapsLater(caps: Caps, p: nat, q: nat)
    requires CapsOk(caps, p) && p <= q
    ensures CapsOk(caps, q)
  {
  }

  /** Where k occurrences in a row end, or -1. */
  function Repeat(op: Op, s: Text, sp: nat, caps: Caps, k: nat): (q: int)
    requires sp <= |s| && CapsOk(caps, sp)
    ensures q == -1 || sp <= q <= |s|
    decreases k
  {
    if k == 0 then sp
    else
      var p := Repeat(op, s, sp, caps, k - 1);
      if p < 0 then -1 else CapsLater(caps, sp, p); AtomEnd(op, s, p, caps)
  }

  /** The text from p to q is what the instruction asks for: an anchor or group mark takes nothing,
      an atom takes one occurrence, a starred atom 0 to 255 in a row. */
  ghost predicate Piece(i: Inst, s: Text, p: nat, q: nat, caps: Caps)
    requires p <= |s| && CapsOk(caps, p)
  {
    match i.op
    case End => false
    case Bol => p == 0 && q == p
    case Eol => p == |s| && q == p
    case Open(_) => q == p
    case Close(_) => q == p
    case _ => AtomPiece(i, s, p, q, caps)
  }

  ghost predicate AtomPiece(i: Inst, s: Text, p: nat, q: nat, caps: Caps)
    requires p <= |s| && CapsOk(caps, p)
  {
    if i.starred then exists k: nat :: k <= MAX_STAR && Repeat(i.op, s, p, caps, k) == q else AtomEnd(i.op, s, p, caps) == q
  }

  /** The captures after the instruction, met at position p. */
  function Note(op: Op, p: nat, caps: Caps): Caps
  {
    match op
    case Open(g) => if g < MAX_GROUPS then caps[g := caps[g].(start := p)] else caps
    case Close(g) => if g < MAX_GROUPS then caps[g := caps[g].(end := p)] else caps
    case _ => caps
  }

  lemma ReadyNext(code: Code, pc: nat, caps: Caps, sp: nat, q: nat)
    requires Ready(code, pc, caps, sp) && code[pc].op != End && sp <= q
    ensures Ready(code, pc + 1, Note(code[pc].op, sp, caps), q)
  {
    var op := code[pc].op;
    var c := Note(op, sp, caps);
    forall j | pc + 1 <= j < |code| && code[j].op.Close?
      ensures c[code[j].op.g].end == -1 && (0 <= c[code[j].op.g].start || OpenedBefore(code, pc + 1, j, code[j].op.g))
    {
      assert code[j].op != op;
      var g := code[j].op.g;
      if caps[g].start < 0 && op != Op.Open(g) {
        var k :| pc <= k < j && code[k].op == Op.Open(g);
        assert k != pc;
      }
    }
  }

  // ---- what it means to match ----

  /** Code from pc on matches the text from sp to e, the captures going from caps to caps'. */
  ghost predicate Matches(code: Code, pc: nat, s: Text, sp: nat, caps: Caps, e: nat, caps': Caps)
    requires sp <= |s| && Ready(code, pc, caps, sp)
    decreases |code| - pc
  {
    if code[pc].op == End then e == sp && caps' == caps
    else exists q: nat :: sp <= q <= |s| && Piece(code[pc], s, sp, q, caps) && MatchesFrom(code, pc, s, sp, q, caps, e, caps')
  }

  ghost predicate MatchesFrom(code: Code, pc: nat, s: Text, sp: nat, q: nat, caps: Caps, e: nat, caps': Caps)
    requires sp <= q <= |s| && Ready(code, pc, caps, sp) && code[pc].op != End
    decreases |code| - pc, 0
  {
    ReadyNext(code, pc, caps, sp, q);
    Matches(code, pc + 1, s, q, Note(code[pc].op, sp, caps), e, caps')
  }

  // ---- the backtracking search ----

  /** Where the attempt ended (-1: no match) and the captures it leaves. */
  datatype Attempt = Attempt(end: int, caps: Caps)

  /** The ends of 0, 1, 2, .. occurrences from cur on, n of them known so far; at most 256 in all,
      and none after an occurrence that takes nothing. */
  function Positions(op: Op, s: Text, cur: nat, caps: Caps, n: nat): (ps: seq<nat>)
    requires cur <= |s| && CapsOk(caps, cur) && 1 <= n <= MAX_STAR + 1
    ensures 0 < |ps| <= MAX_STAR + 2 - n && ps[0] == cur
    ensures forall i :: 0 <= i < |ps| ==> cur <= ps[i] <= |s|
    decreases MAX_STAR + 1 - n
  {
    if n <= MAX_STAR then
      var next := AtomEnd(op, s, cur, caps);
      if next < 0 || next == cur then [cur] else CapsLater(caps, cur, next); [cur] + Positions(op, s, next, caps, n + 1)
    else [cur]
  }

  /** try_match as a function of the captures. */
  function Try(code: Code, pc: nat, s: Text, sp: nat, caps: Caps): (r: Attempt)
    requires sp <= |s| && Ready(code, pc, caps, sp)
    ensures r.end < 0 ==> r == Attempt(-1, caps)
    ensures 0 <= r.end ==> sp <= r.end <= |s| && CapsOk(r.caps, r.end)
    decreases |code| - pc, 1, 0
  {
    var op := code[pc].op;
    if op == End then Attempt(sp, caps)
    else if (op == Bol && sp != 0) || (op == Eol && sp != |s|) then Attempt(-1, caps)
    else if !IsAtom(op) then
      ReadyNext(code, pc, caps, sp, sp);
      var r := Try(code, pc + 1, s, sp, Note(op, sp, caps));
      if 0 <= r.end then r else Attempt(-1, caps)
    else if code[pc].starred then
      var ps := Positions(op, s, sp, caps, 1);
      TryBack(code, pc, s, sp, ps, |ps|, caps)
    else
      var next := AtomEnd(op, s, sp, caps);
      if next < 0 then Attempt(-1, caps)
      else
        ReadyNext(code, pc, caps, sp, next);
        Try(code, pc + 1, s, next, caps)
  }

  /** The rest of the code, tried at ps[i - 1], .., ps[0]. */
  function TryBack(code: Code, pc: nat, s: Text, sp: nat, ps: seq<nat>, i: nat, caps: Caps): (r: Attempt)
    requires sp <= |s| && Ready(code, pc, caps, sp) && IsAtom(code[pc].op) && i <= |ps|
    requires forall k :: 0 <= k < |ps| ==> sp <= ps[k] <= |s|
    ensures r.end < 0 ==> r == Attempt(-1, caps)
    ensures 0 <= r.end ==> sp <= r.end <= |s| && CapsOk(r.caps, r.end)
    decreases |code| - pc, 0, i
  {
    if i == 0 then Attempt(-1, caps)
    else
      ReadyNext(code, pc, caps, sp, ps[i - 1]);
      var r := Try(code, pc + 1, s, ps[i - 1], caps);
      if 0 <= r.end then r else TryBack(code, pc, s, sp, ps, i - 1, caps)
  }

  // ---- the search finds a match exactly when there is one ----

  /** The positions are the ends of repetitions. */
  lemma {:induction false} PositionsEnd(op: Op, s: Text, sp: nat, cur: nat, caps: Caps, k: nat, i: nat)
    requires sp <= |s| && CapsOk(caps, sp) && k <= MAX_STAR && Repeat(op, s, sp, caps, k) == cur <= |s|
    requires CapsOk(caps, cur) && i < |Positions(op, s, cur, caps, k + 1)|
    ensures k + i <= MAX_STAR
    ensures Repeat(op, s, sp, caps, k + i) == Positions(op, s, cur, caps, k + 1)[i]
    decreases i
  {
    hide CapsOk, AtomEnd, Repeat;
    if 0 < i {
      var next := AtomEnd(op, s, cur, caps);
      RepeatNext(op, s, sp, caps, k);
      CapsLater(caps, cur, next);
      PositionsEnd(op, s, sp, next, caps, k + 1, i - 1);
      assert k + 1 + (i - 1) == k + i;
    }
  }

  lemma RepeatNext(op: Op, s: Text, sp: nat, caps: Caps, k: nat)
    requires sp <= |s| && CapsOk(caps, sp) && 0 <= Repeat(op, s, sp, caps, k)
    ensures CapsOk(caps, Repeat(op, s, sp, caps, k))
    ensures Repeat(op, s, sp, caps, k + 1) == AtomEnd(op, s, Repeat(op, s, sp, caps, k), caps)
  {
    hide CapsOk, AtomEnd;
    CapsLater(caps, sp, Repeat(op, s, sp, caps, k));
  }

  /** They increase strictly. */
  lemma {:induction false} PositionsGrow(op: Op, s: Text, cur: nat, caps: Caps, n: nat, i: nat)
    requires cur <= |s| && CapsOk(caps, cur) && 1 <= n <= MAX_STAR + 1
    requires i + 1 < |Positions(op, s, cur, caps, n)|
    ensures Positions(op, s, cur, caps, n)[i] < Positions(op, s, cur, caps, n)[i + 1]
    decreases i
  {
    hide CapsOk, AtomEnd;
    var next := AtomEnd(op, s, cur, caps);
    CapsLater(caps, cur, next);
    if 0 < i {
      PositionsGrow(op, s, next, caps, n + 1, i - 1);
    }
  }

  /** No end of at most 255 repetitions is missing. */
  lemma {:induction false} PositionsAll(op: Op, s: Text, sp: nat, caps: Caps, k: nat, j: nat)
    requires sp <= |s| && CapsOk(caps, sp) && k <= j <= MAX_STAR
    requires 0 <= Repeat(op, s, sp, caps, k) && CapsOk(caps, Repeat(op, s, sp, caps, k)) && 0 <= Repeat(op, s, sp, caps, j)
    ensures Repeat(op, s, sp, caps, j) in Positions(op, s, Repeat(op, s, sp, caps, k), caps, k + 1)
    decreases j - k
  {
    hide CapsOk, AtomEnd;
    var cur := Repeat(op, s, sp, caps, k);
    if k < j {
      var next := AtomEnd(op, s, cur, caps);
      assert Repeat(op, s, sp, caps, k + 1) == next;
      if next < 0 || next == cur {
        NoFurther(op, s, sp, caps, k, j);
      } else {
        CapsLater(caps, cur, next);
        PositionsAll(op, s, sp, caps, k + 1, j);
      }
    }
  }

  lemma {:induction false} NoFurther(op: Op, s: Text, sp: nat, caps: Caps, k: nat, j: nat)
    requires sp <= |s| && CapsOk(caps, sp) && 0 <= Repeat(op, s, sp, caps, k) && k <= j
    requires var next := Repeat(op, s, sp, caps, k + 1); next < 0 || next == Repeat(op, s, sp, caps, k)
    ensures Repeat(op, s, sp, caps, j) == Repeat(op, s, sp, caps, k) || Repeat(op, s, sp, caps, j) < 0
    decreases j
  {
    if j > k {
      NoFurther(op, s, sp, caps, k, j - 1);
    }
  }

  /** With only one way to take the instruction, the rest decides. */
  lemma OneWay(code: Code, pc: nat, s: Text, sp: nat, caps: Caps, q: nat)
    requires sp <= q <= |s| && Ready(code, pc, caps, sp) && code[pc].op != End
    requires forall p: nat :: sp <= p <= |s| ==> (Piece(code[pc], s, sp, p, caps) <==> p == q)
    ensures forall e: nat, caps': Caps :: Matches(code, pc, s, sp, caps, e, caps') <==> MatchesFrom(code, pc, s, sp, q, caps, e, caps')
  {
    hide Piece, MatchesFrom, Ready;
  }

  /** The end of a match is the end of a genuine one, and a failed attempt means there is none. */
  lemma {:induction false} TryIff(code: Code, pc: nat, s: Text, sp: nat, caps: Caps)
    requires sp <= |s| && Ready(code, pc, caps, sp)
    ensures var r := Try(code, pc, s, sp, caps);
            && (0 <= r.end ==> Matches(code, pc, s, sp, caps, r.end, r.caps))
            && (r.end < 0 ==> forall e: nat, caps': Caps :: !Matches(code, pc, s, sp, caps, e, caps'))
    decreases |code| - pc, 2, 0
  {
    hide WellFormed, CapsOk;
    var op := code[pc].op;
    if op != End {
      if (op == Bol && sp != 0) || (op == Eol && sp != |s|) {
      } else if !IsAtom(op) {
        ReadyNext(code, pc, caps, sp, sp);
        OneWay(code, pc, s, sp, caps, sp);
        TryIff(code, pc + 1, s, sp, Note(op, sp, caps));
        FromIs(code, pc, s, sp, sp, caps);
      } else if code[pc].starred {
        StarIff(code, pc, s, sp, caps);
      } else {
        var next := AtomEnd(op, s, sp, caps);
        if 0 <= next {
          OneWay(code, pc, s, sp, caps, next);
          ReadyNext(code, pc, caps, sp, next);
          TryIff(code, pc + 1, s, next, caps);
          FromIs(code, pc, s, sp, next, caps);
        }
      }
    }
  }

  lemma FromIs(code: Code, pc: nat, s: Text, sp: nat, q: nat, caps: Caps)
    requires sp <= q <= |s| && Ready(code, pc, caps, sp) && code[pc].op != End
    ensures Ready(code, pc + 1, Note(code[pc].op, sp, caps), q)
    ensures forall e: nat, caps': Caps ::
      MatchesFrom(code, pc, s, sp, q, caps, e, caps') == Matches(code, pc + 1, s, q, Note(code[pc].op, sp, caps), e, caps')
  {
    ReadyNext(code, pc, caps, sp, q);
  }

  lemma {:induction false} StarIff(code: Code, pc: nat, s: Text, sp: nat, caps: Caps)
    requires sp <= |s| && Ready(code, pc, caps, sp) && IsAtom(code[pc].op) && code[pc].starred
    ensures var r := Try(code, pc, s, sp, caps);
            && (0 <= r.end ==> Matches(code, pc, s, sp, caps, r.end, r.caps))
            && (r.end < 0 ==> forall e: nat, caps': Caps :: !Matches(code, pc, s, sp, caps, e, caps'))
    decreases |code| - pc, 1, 0
  {
    hide WellFormed, CapsOk, AtomEnd, MatchesFrom;
    var op := code[pc].op;
    var ps := Positions(op, s, sp, caps, 1);
    assert Repeat(op, s, sp, caps, 0) == sp;
    BackIff(code, pc, s, sp, ps, |ps|, caps);
    forall q: nat | sp <= q <= |s| ensures Piece(code[pc], s, sp, q, caps) <==> q in ps {
      StarPiece(code[pc], s, sp, q, caps);
    }
    hide Piece, Positions, Repeat;
    var r := Try(code, pc, s, sp, caps);
    if r.end < 0 {
      forall q: nat, e: nat, caps': Caps | sp <= q <= |s| && Piece(code[pc], s, sp, q, caps)
        ensures !MatchesFrom(code, pc, s, sp, q, caps, e, caps')
      {
        var i :| 0 <= i < |ps| && ps[i] == q;
        assert !MatchesFrom(code, pc, s, sp, ps[i], caps, e, caps');
      }
    }
  }

  lemma RepeatZero(op: Op, s: Text, sp: nat, caps: Caps)
    requires sp <= |s| && CapsOk(caps, sp)
    ensures Repeat(op, s, sp, caps, 0) == sp
  {
  }

  /** Where a starred atom may end: exactly the positions listed. */
  lemma StarPiece(i: Inst, s: Text, sp: nat, q: nat, caps: Caps)
    requires sp <= |s| && CapsOk(caps, sp) && IsAtom(i.op) && i.starred
    ensures Piece(i, s, sp, q, caps) <==> q in Positions(i.op, s, sp, caps, 1)
  {
    hide CapsOk, AtomEnd, Positions, Repeat;
    var ps := Positions(i.op, s, sp, caps, 1);
    RepeatZero(i.op, s, sp, caps);
    if Piece(i, s, sp, q, caps) {
      var k: nat :| k <= MAX_STAR && Repeat(i.op, s, sp, caps, k) == q;
      PositionsAll(i.op, s, sp, caps, 0, k);
    }
    if q in ps {
      var k :| 0 <= k < |ps| && ps[k] == q;
      PositionsEnd(i.op, s, sp, sp, caps, 0, k);
      assert Repeat(i.op, s, sp, caps, 0 + k) == q && 0 + k == k;
    }
  }

  /** The rest matches from ps[k], ending as r says, and from no later position before ps[i]. */
  ghost predicate LastMatch(code: Code, pc: nat, s: Text, sp: nat, ps: seq<nat>, k: nat, i: nat, caps: Caps, r: Attempt)
    requires sp <= |s| && Ready(code, pc, caps, sp) && code[pc].op != End && k < i <= |ps| && 0 <= r.end
    requires forall m :: 0 <= m < |ps| ==> sp <= ps[m] <= |s|
  {
    && MatchesFrom(code, pc, s, sp, ps[k], caps, r.end, r.caps)
    && forall m, e: nat, caps': Caps :: k < m < i ==> !MatchesFrom(code, pc, s, sp, ps[m], caps, e, caps')
  }

  /** Of the positions tried, the last one from which the rest matches is taken. */
  lemma {:induction false} BackIff(code: Code, pc: nat, s: Text, sp: nat, ps: seq<nat>, i: nat, caps: Caps)
    requires sp <= |s| && Ready(code, pc, caps, sp) && IsAtom(code[pc].op) && i <= |ps|
    requires forall k :: 0 <= k < |ps| ==> sp <= ps[k] <= |s|
    ensures var r := TryBack(code, pc, s, sp, ps, i, caps);
            && (0 <= r.end ==> exists k :: 0 <= k < i && LastMatch(code, pc, s, sp, ps, k, i, caps, r))
            && (r.end < 0 ==> forall k, e: nat, caps': Caps :: 0 <= k < i ==> !MatchesFrom(code, pc, s, sp, ps[k], caps, e, caps'))
    decreases |code| - pc, 0, i
  {
    if i > 0 {
      hide WellFormed, CapsOk;
      ReadyNext(code, pc, caps, sp, ps[i - 1]);
      TryIff(code, pc + 1, s, ps[i - 1], caps);
      FromIs(code, pc, s, sp, ps[i - 1], caps);
      hide Matches, Ready;
      BackIff(code, pc, s, sp, ps, i - 1, caps);
      var r := TryBack(code, pc, s, sp, ps, i, caps);
      if 0 <= Try(code, pc + 1, s, ps[i - 1], caps).end {
        assert LastMatch(code, pc, s, sp, ps, i - 1, i, caps, r);
      } else if 0 <= r.end {
        var k :| 0 <= k < i - 1 && LastMatch(code, pc, s, sp, ps, k, i - 1, caps, r);
        assert LastMatch(code, pc, s, sp, ps, k, i, caps, r);
      }
    }
  }

  /** The star is greedy: the match found takes the longest run of at most 255 occurrences from whose end
      the rest can match at all. */
  lemma Greedy(code: Code, pc: nat, s: Text, sp: nat, caps: Caps)
    requires sp <= |s| && Ready(code, pc, caps, sp) && IsAtom(code[pc].op) && code[pc].starred
    requires 0 <= Try(code, pc, s, sp, caps).end
    ensures var r := Try(code, pc, s, sp, caps);
            exists q: nat :: sp <= q <= |s| && Piece(code[pc], s, sp, q, caps)
              && MatchesFrom(code, pc, s, sp, q, caps, r.end, r.caps)
              && forall p: nat, e: nat, caps': Caps :: q < p <= |s| && Piece(code[pc], s, sp, p, caps) ==> !MatchesFrom(code, pc, s, sp, p, caps, e, caps')
  {
    hide WellFormed, CapsOk, AtomEnd, MatchesFrom, Repeat;
    var op := code[pc].op;
    var ps := Positions(op, s, sp, caps, 1);
    BackIff(code, pc, s, sp, ps, |ps|, caps);
    var r := Try(code, pc, s, sp, caps);
    var k :| 0 <= k < |ps| && LastMatch(code, pc, s, sp, ps, k, |ps|, caps, r);
    StarPiece(code[pc], s, sp, ps[k], caps);
    forall p: nat, e: nat, caps': Caps | ps[k] < p <= |s| && Piece(code[pc], s, sp, p, caps)
      ensures !MatchesFrom(code, pc, s, sp, p, caps, e, caps')
    {
      StarPiece(code[pc], s, sp, p, caps);
      var m :| 0 <= m < |ps| && ps[m] == p;
      Increasing(op, s, sp, caps, k, m);
      assert !MatchesFrom(code, pc, s, sp, ps[m], caps, e, caps');
    }
  }

  /** Positions compare like their indices. */
  lemma Increasing(op: Op, s: Text, sp: nat, caps: Caps, k: nat, m: nat)
    requires sp <= |s| && CapsOk(caps, sp) && k < |Positions(op, s, sp, caps, 1)| && m < |Positions(op, s, sp, caps, 1)|
    requires Positions(op, s, sp, caps, 1)[k] < Positions(op, s, sp, caps, 1)[m]
    ensures k < m
  {
    if m <= k {
      Ordered(op, s, sp, caps, m, k);
    }
  }

  lemma {:induction false} Ordered(op: Op, s: Text, sp: nat, caps: Caps, m: nat, k: nat)
    requires sp <= |s| && CapsOk(caps, sp) && m <= k < |Positions(op, s, sp, caps, 1)|
    ensures Positions(op, s, sp, caps, 1)[m] <= Positions(op, s, sp, caps, 1)[k]
    decreases k
  {
    hide CapsOk, AtomEnd;
    if m < k {
      Ordered(op, s, sp, caps, m, k - 1);
      PositionsGrow(op, s, sp, caps, 1, k - 1);
    }
  }

  // ---- the same, read off one vector of positions ----

  /** The captures after k instructions from pc on, the i-th of them met at pos[i]. */
  function CapsRun(code: Code, pc: nat, caps: Caps, pos: seq<nat>, k: nat): Caps
    requires pc + k <= |code| && k <= |pos|
    decreases k
  {
    if k == 0 then caps else Note(code[pc + k - 1].op, pos[k - 1], CapsRun(code, pc, caps, pos, k - 1))
  }

  /** pos cuts the text into the pieces the instructions ask for, one after the other. */
  ghost predicate IsTrace(code: Code, pc: nat, s: Text, caps: Caps, pos: seq<nat>) {
    && pc < |code| && |pos| == |code| - pc
    && forall k :: 0 <= k < |pos| - 1 ==> TraceStep(code, pc, s, caps, pos, k)
  }

  ghost predicate TraceStep(code: Code, pc: nat, s: Text, caps: Caps, pos: seq<nat>, k: nat)
    requires pc < |code| && |pos| == |code| - pc && k < |pos| - 1
  {
    var c := CapsRun(code, pc, caps, pos, k);
    pos[k] <= pos[k + 1] <= |s| && CapsOk(c, pos[k]) && Piece(code[pc + k], s, pos[k], pos[k + 1], c)
  }

  lemma {:induction false} CapsRunTail(code: Code, pc: nat, caps: Caps, pos: seq<nat>, k: nat)
    requires pc + k + 1 <= |code| && k + 1 <= |pos|
    ensures CapsRun(code, pc, caps, pos, k + 1) == CapsRun(code, pc + 1, Note(code[pc].op, pos[0], caps), pos[1..], k)
    decreases k
  {
    if 0 < k {
      CapsRunTail(code, pc, caps, pos, k - 1);
    } else {
      assert CapsRun(code, pc, caps, pos, 0) == caps;
    }
  }

  /** The text matches exactly when it can be cut that way. */
  lemma {:induction false} MatchesIffTrace(code: Code, pc: nat, s: Text, sp: nat, caps: Caps, e: nat, caps': Caps)
    requires sp <= |s| && Ready(code, pc, caps, sp)
    ensures Matches(code, pc, s, sp, caps, e, caps') <==> exists pos :: TraceOf(code, pc, s, sp, caps, e, caps', pos)
    decreases |code| - pc
  {
    hide WellFormed, CapsOk, Piece;
    if Matches(code, pc, s, sp, caps, e, caps') {
      if code[pc].op == End {
        EndIsLast(code, pc, caps, sp);
        assert TraceOf(code, pc, s, sp, caps, e, caps', [sp]);
      } else {
        var q: nat :| sp <= q <= |s| && Piece(code[pc], s, sp, q, caps) && MatchesFrom(code, pc, s, sp, q, caps, e, caps');
        FromIs(code, pc, s, sp, q, caps);
        MatchesIffTrace(code, pc + 1, s, q, Note(code[pc].op, sp, caps), e, caps');
        var rest :| TraceOf(code, pc + 1, s, q, Note(code[pc].op, sp, caps), e, caps', rest);
        TraceCons(code, pc, s, sp, q, caps, e, caps', rest);
      }
    }
    if pos :| TraceOf(code, pc, s, sp, caps, e, caps', pos) {
      if code[pc].op == End {
        EndIsLast(code, pc, caps, sp);
      } else {
        NotEndMore(code, pc, caps, sp);
        var q := pos[1];
        assert TraceStep(code, pc, s, caps, pos, 0);
        FromIs(code, pc, s, sp, q, caps);
        TraceTail(code, pc, s, sp, caps, e, caps', pos);
        MatchesIffTrace(code, pc + 1, s, q, Note(code[pc].op, sp, caps), e, caps');
        assert MatchesFrom(code, pc, s, sp, q, caps, e, caps');
      }
    }
  }

  ghost predicate TraceOf(code: Code, pc: nat, s: Text, sp: nat, caps: Caps, e: nat, caps': Caps, pos: seq<nat>) {
    && IsTrace(code, pc, s, caps, pos)
    && pos[0] == sp && pos[|pos| - 1] == e && CapsRun(code, pc, caps, pos, |pos| - 1) == caps'
  }

  lemma EndIsLast(code: Code, pc: nat, caps: Caps, sp: nat)
    requires Ready(code, pc, caps, sp) && code[pc].op == End
    ensures pc == |code| - 1
  {
  }

  lemma NotEndMore(code: Code, pc: nat, caps: Caps, sp: nat)
    requires Ready(code, pc, caps, sp) && code[pc].op != End
    ensures pc + 1 < |code|
  {
  }

  lemma TraceCons(code: Code, pc: nat, s: Text, sp: nat, q: nat, caps: Caps, e: nat, caps': Caps, rest: seq<nat>)
    requires sp <= q <= |s| && Ready(code, pc, caps, sp) && code[pc].op != End && Piece(code[pc], s, sp, q, caps)
    requires TraceOf(code, pc + 1, s, q, Note(code[pc].op, sp, caps), e, caps', rest)
    ensures TraceOf(code, pc, s, sp, caps, e, caps', [sp] + rest)
  {
    hide WellFormed, CapsOk, Piece, Note;
    var pos := [sp] + rest;
    assert pos[1..] == rest;
    forall k | 0 <= k < |pos| - 1 ensures TraceStep(code, pc, s, caps, pos, k) {
      if 0 < k {
        assert TraceStep(code, pc + 1, s, Note(code[pc].op, sp, caps), rest, k - 1);
        CapsRunTail(code, pc, caps, pos, k - 1);
      }
    }
    CapsRunTail(code, pc, caps, pos, |pos| - 2);
  }

  lemma TraceTail(code: Code, pc: nat, s: Text, sp: nat, caps: Caps, e: nat, caps': Caps, pos: seq<nat>)
    requires TraceOf(code, pc, s, sp, caps, e, caps', pos) && pc + 1 < |code|
    ensures TraceOf(code, pc + 1, s, pos[1], Note(code[pc].op, sp, caps), e, caps', pos[1..])
  {
    hide WellFormed, CapsOk, Piece, Note;
    var rest, next, c := pos[1..], pc + 1, Note(code[pc].op, sp, caps);
    forall k | 0 <= k < |rest| - 1 ensures TraceStep(code, next, s, c, rest, k) {
      assert TraceStep(code, pc, s, caps, pos, k + 1);
      CapsRunTail(code, pc, caps, pos, k);
    }
    CapsRunTail(code, pc, caps, pos, |pos| - 2);
  }

  /** What group g captured: the positions of its two marks. */
  lemma {:induction false} GroupSpan(code: Code, pos: seq<nat>, n: nat, o: nat, c: nat)
    requires WellFormed(code) && |pos| == |code| && o < c < n <= |code|
    requires code[o].op.Open? && code[c].op == Op.Close(code[o].op.g)
    ensures CapsRun(code, 0, NoCaps(), pos, n)[code[o].op.g] == Cap(pos[o], pos[c])
    decreases n
  {
    var g := code[o].op.g;
    if n - 1 > c {
      GroupSpan(code, pos, n - 1, o, c);
      assert code[n - 1].op != code[o].op && code[n - 1].op != code[c].op;
    } else {
      GroupStart(code, pos, n - 1, o);
    }
  }

  lemma {:induction false} GroupStart(code: Code, pos: seq<nat>, n: nat, o: nat)
    requires WellFormed(code) && |pos| == |code| && o < n <= |code| && code[o].op.Open?
    ensures CapsRun(code, 0, NoCaps(), pos, n)[code[o].op.g].start == pos[o]
    decreases n
  {
    if n - 1 > o {
      GroupStart(code, pos, n - 1, o);
      assert code[n - 1].op != code[o].op;
    }
  }

  // ---- try_match and regex_search ----

  method TryMatch(code: Code, pc0: nat, s: Text, sp0: nat, caps: array<Cap>) returns (r: int)
    requires caps.Length == MAX_GROUPS && sp0 <= |s| && Ready(code, pc0, caps[..], sp0)
    modifies caps
    ensures Attempt(r, caps[..]) == Try(code, pc0, s, sp0, old(caps[..]))
    ensures r < 0 ==> caps[..] == old(caps[..])
    decreases |code| - pc0, 2
  {
    hide WellFormed, CapsOk, AtomEnd, Try, Ready;
    var pc, sp := pc0, sp0;
    ghost var was: Caps := caps[..];
    FailSame(code, pc0, s, sp0, was);
    InCode(code, pc, was, sp);
    while true
      invariant pc0 <= pc < |code| && sp0 <= sp <= |s| && caps[..] == was && Ready(code, pc, was, sp)
      invariant Try(code, pc, s, sp, was) == Try(code, pc0, s, sp0, was)
      decreases |code| - pc
    {
      TryIs(code, pc, s, sp, was);
      var op := code[pc].op;
      match op
      case End => return sp;
      case Bol =>
        if sp != 0 {
          return -1;
        }
        StepOver(code, pc, s, sp, was);
        pc := pc + 1;
      case Eol =>
        if sp != |s| {
          return -1;
        }
        StepOver(code, pc, s, sp, was);
        pc := pc + 1;
      case Open(_) =>
        r := TryOpen(code, pc, s, sp, caps);
        return;
      case Close(_) =>
        r := TryClose(code, pc, s, sp, caps);
        return;
      case _ =>
        if code[pc].starred {
          r := TryStar(code, pc, s, sp, caps);
          return;
        }
        InCode(code, pc, was, sp);
        var next := AtomEnd(op, s, sp, caps[..]);
        if next < 0 {
          return -1;
        }
        StepAtom(code, pc, s, sp, was, next);
        sp := next;
        pc := pc + 1;
    }
  }

  lemma InCode(code: Code, pc: nat, caps: Caps, sp: nat)
    requires Ready(code, pc, caps, sp)
    ensures pc < |code| && CapsOk(caps, sp)
  {
  }

  /** The outcomes decided by the instruction alone. */
  lemma TryIs(code: Code, pc: nat, s: Text, sp: nat, caps: Caps)
    requires sp <= |s| && Ready(code, pc, caps, sp)
    ensures code[pc].op == End ==> Try(code, pc, s, sp, caps) == Attempt(sp, caps)
    ensures (code[pc].op == Bol && sp != 0) || (code[pc].op == Eol && sp != |s|) ==> Try(code, pc, s, sp, caps) == Attempt(-1, caps)
    ensures IsAtom(code[pc].op) && !code[pc].starred && AtomEnd(code[pc].op, s, sp, caps) < 0 ==> Try(code, pc, s, sp, caps) == Attempt(-1, caps)
  {
  }

  lemma StepAtom(code: Code, pc: nat, s: Text, sp: nat, caps: Caps, next: nat)
    requires sp <= |s| && Ready(code, pc, caps, sp) && IsAtom(code[pc].op) && !code[pc].starred
    requires next == AtomEnd(code[pc].op, s, sp, caps)
    ensures pc + 1 < |code| && Ready(code, pc + 1, caps, next) && sp <= next <= |s|
    ensures Try(code, pc + 1, s, next, caps) == Try(code, pc, s, sp, caps)
  {
    ReadyNext(code, pc, caps, sp, next);
  }

  lemma MarkIs(code: Code, pc: nat, s: Text, sp: nat, caps: Caps)
    requires sp <= |s| && Ready(code, pc, caps, sp) && (code[pc].op.Open? || code[pc].op.Close?)
    ensures code[pc].op.g < MAX_GROUPS && pc + 1 < |code| && Ready(code, pc + 1, Note(code[pc].op, sp, caps), sp)
    ensures var r := Try(code, pc + 1, s, sp, Note(code[pc].op, sp, caps));
            Try(code, pc, s, sp, caps) == if 0 <= r.end then r else Attempt(-1, caps)
  {
    ReadyNext(code, pc, caps, sp, sp);
  }

  method TryOpen(code: Code, pc: nat, s: Text, sp: nat, caps: array<Cap>) returns (r: int)
    requires caps.Length == MAX_GROUPS && sp <= |s| && Ready(code, pc, caps[..], sp) && code[pc].op.Open?
    modifies caps
    ensures Attempt(r, caps[..]) == Try(code, pc, s, sp, old(caps[..]))
    decreases |code| - pc, 0
  {
    hide WellFormed, CapsOk, AtomEnd, Try, Ready;
    ghost var was: Caps := caps[..];
    MarkIs(code, pc, s, sp, was);
    var g := code[pc].op.g;
    var saved := caps[g].start;
    caps[g] := caps[g].(start := sp);
    assert caps[..] == Note(code[pc].op, sp, was);
    r := TryMatch(code, pc + 1, s, sp, caps);
    if r < 0 {
      FailSame(code, pc + 1, s, sp, Note(code[pc].op, sp, was));
      caps[g] := caps[g].(start := saved);
      assert caps[..] == was;
      r := -1;
    }
  }

  method TryClose(code: Code, pc: nat, s: Text, sp: nat, caps: array<Cap>) returns (r: int)
    requires caps.Length == MAX_GROUPS && sp <= |s| && Ready(code, pc, caps[..], sp) && code[pc].op.Close?
    modifies caps
    ensures Attempt(r, caps[..]) == Try(code, pc, s, sp, old(caps[..]))
    decreases |code| - pc, 0
  {
    hide WellFormed, CapsOk, AtomEnd, Try, Ready;
    ghost var was: Caps := caps[..];
    MarkIs(code, pc, s, sp, was);
    var g := code[pc].op.g;
    var saved := caps[g].end;
    caps[g] := caps[g].(end := sp);
    assert caps[..] == Note(code[pc].op, sp, was);
    r := TryMatch(code, pc + 1, s, sp, caps);
    if r < 0 {
      FailSame(code, pc + 1, s, sp, Note(code[pc].op, sp, was));
      caps[g] := caps[g].(end := saved);
      assert caps[..] == was;
      r := -1;
    }
  }

  /** A failed attempt leaves the captures as they were. */
  lemma FailSame(code: Code, pc: nat, s: Text, sp: nat, caps: Caps)
    requires sp <= |s| && Ready(code, pc, caps, sp)
    ensures Try(code, pc, s, sp, caps).end < 0 ==> Try(code, pc, s, sp, caps) == Attempt(-1, caps)
  {
  }

  lemma StepOver(code: Code, pc: nat, s: Text, sp: nat, caps: Caps)
    requires sp <= |s| && Ready(code, pc, caps, sp)
    requires (code[pc].op == Bol && sp == 0) || (code[pc].op == Eol && sp == |s|)
    ensures pc + 1 < |code| && Ready(code, pc + 1, caps, sp)
    ensures Try(code, pc + 1, s, sp, caps) == Try(code, pc, s, sp, caps)
  {
    ReadyNext(code, pc, caps, sp, sp);
  }

  /** The starred case: the list of step ends, then the rest from the last of them back to the first. */
  method TryStar(code: Code, pc: nat, s: Text, sp: nat, caps: array<Cap>) returns (r: int)
    requires caps.Length == MAX_GROUPS && sp <= |s| && Ready(code, pc, caps[..], sp) && IsAtom(code[pc].op) && code[pc].starred
    modifies caps
    ensures Attempt(r, caps[..]) == Try(code, pc, s, sp, old(caps[..]))
    decreases |code| - pc, 1
  {
    hide WellFormed, AtomEnd, Try, TryBack, Positions, CapsOk;
    ghost var was: Caps := caps[..];
    InCode(code, pc, was, sp);
    StarIs(code, pc, s, sp, was);
    hide Ready;
    var op := code[pc].op;
    var positions := new nat[256];
    positions[0] := sp;
    var n, cur := 1, sp;
    ghost var ps := Positions(op, s, sp, was, 1);
    assert positions[..0] == [];
    while n < 256
      invariant 1 <= n <= 256 && sp <= cur <= |s| && CapsOk(was, cur) && caps[..] == was
      invariant positions[n - 1] == cur && forall k :: 0 <= k < n ==> sp <= positions[k] <= |s|
      invariant positions[..n - 1] + Positions(op, s, cur, was, n) == ps
    {
      PositionsIs(op, s, cur, was, n);
      var next := AtomEnd(op, s, cur, caps[..]);
      if next < 0 || next == cur {
        break;
      }
      CapsLater(was, cur, next);
      assert positions[..n] == positions[..n - 1] + [cur];
      Shift(positions[..n - 1], cur, Positions(op, s, next, was, n + 1));
      positions[n] := next;
      n := n + 1;
      cur := next;
    }
    PositionsIs(op, s, cur, was, n);
    assert ps == positions[..n];
    r := StarBack(code, pc, s, sp, ps, positions, n, caps);
  }

  lemma Shift(a: seq<nat>, x: nat, b: seq<nat>)
    ensures a + ([x] + b) == a + [x] + b
  {
  }

  lemma StarIs(code: Code, pc: nat, s: Text, sp: nat, caps: Caps)
    requires sp <= |s| && Ready(code, pc, caps, sp) && IsAtom(code[pc].op) && code[pc].starred
    ensures var ps := Positions(code[pc].op, s, sp, caps, 1); Try(code, pc, s, sp, caps) == TryBack(code, pc, s, sp, ps, |ps|, caps)
  {
  }

  lemma PositionsIs(op: Op, s: Text, cur: nat, caps: Caps, n: nat)
    requires cur <= |s| && CapsOk(caps, cur) && 1 <= n <= MAX_STAR + 1
    ensures var next := AtomEnd(op, s, cur, caps);
            if n > MAX_STAR || next < 0 || next == cur then Positions(op, s, cur, caps, n) == [cur]
            else CapsOk(caps, next) && Positions(op, s, cur, caps, n) == [cur] + Positions(op, s, next, caps, n + 1)
  {
  }

  method StarBack(code: Code, pc: nat, s: Text, sp: nat, ghost ps: seq<nat>, positions: array<nat>, n: nat, caps: array<Cap>) returns (r: int)
    requires caps.Length == MAX_GROUPS && sp <= |s| && Ready(code, pc, caps[..], sp) && IsAtom(code[pc].op)
    requires positions.Length == 256 && n <= 256 && ps == positions[..n] && forall k :: 0 <= k < |ps| ==> sp <= ps[k] <= |s|
    modifies caps
    ensures Attempt(r, caps[..]) == TryBack(code, pc, s, sp, ps, n, old(caps[..]))
    decreases |code| - pc, 0
  {
    hide WellFormed, AtomEnd, CapsOk;
    ghost var was: Caps := caps[..];
    var i := n;
    while 0 < i
      invariant 0 <= i <= n && caps[..] == was
      invariant TryBack(code, pc, s, sp, ps, i, was) == TryBack(code, pc, s, sp, ps, n, was)
    {
      ReadyNext(code, pc, was, sp, ps[i - 1]);
      assert Note(code[pc].op, sp, was) == was;
      r := TryMatch(code, pc + 1, s, positions[i - 1], caps);
      if 0 <= r {
        return;
      }
      i := i - 1;
    }
    return -1;
  }
}
