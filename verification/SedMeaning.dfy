/** What compiled code asks of the text, without captures: where each instruction's piece begins and ends. */
module SedMeaning {
  import opened Bytes
  import opened SedRegex

  // ---- the meaning of one instruction ----

  /** s[p..q] is one occurrence of the atom code[k], the instructions before it having been met at pos. */
  ghost predicate Occurs(code: Code, s: Text, pos: seq<nat>, k: nat, p: nat, q: nat)
    requires k < |code| && k <= |pos|
  {
    p <= q <= |s| &&
    match code[k].op
    case Lit(c) => q == p + 1 && s[p] == c
    case Any => q == p + 1 && s[p] != 0x0A
    case Class(bits) => q == p + 1 && s[p] in bits
    case Backref(n) =>
      exists o, c, g: nat :: 0 <= o < c < k && n == g + 1 && code[o].op == Op.Open(g) && code[c].op == Op.Close(g)
                             && pos[o] <= pos[c] <= |s| && s[p..q] == s[pos[o]..pos[c]]
    case _ => false
  }

  /** Up to 255 occurrences in a row, the ends of which are ps. */
  ghost predicate Row(code: Code, s: Text, pos: seq<nat>, k: nat, ps: seq<nat>)
    requires k < |code| && k <= |pos|
  {
    0 < |ps| <= 256 && forall j :: 0 <= j < |ps| - 1 ==> Occurs(code, s, pos, k, ps[j], ps[j + 1])
  }

  /** s[p..q] is what code[k] asks for. */
  ghost predicate Asked(code: Code, s: Text, pos: seq<nat>, k: nat, p: nat, q: nat)
    requires k < |code| && k <= |pos|
  {
    p <= q <= |s| &&
    match code[k].op
    case End => false
    case Bol => p == q == 0
    case Eol => p == q == |s|
    case Open(_) => p == q
    case Close(_) => p == q
    case _ =>
      if code[k].starred then exists ps :: Row(code, s, pos, k, ps) && ps[0] == p && ps[|ps| - 1] == q
      else Occurs(code, s, pos, k, p, q)
  }

  /** The whole code, from sp to e, cut at pos. */
  ghost predicate Reads(code: Code, s: Text, sp: nat, e: nat, pos: seq<nat>) {
    && 0 < |pos| == |code| && pos[0] == sp && pos[|pos| - 1] == e
    && forall k :: 0 <= k < |pos| - 1 ==> Asked(code, s, pos, k, pos[k], pos[k + 1])
  }

  // ---- captures along the way ----

  predicate Up(pos: seq<nat>, k: nat)
    requires k < |pos| - 1
  {
    pos[k] <= pos[k + 1]
  }

  ghost predicate Climbs(pos: seq<nat>, n: nat) {
    forall i :: 0 <= i < |pos| - 1 && i < n ==> Up(pos, i)
  }

  lemma {:induction false} ClimbsTo(pos: seq<nat>, i: nat, j: nat)
    requires i <= j < |pos| && Climbs(pos, j)
    ensures pos[i] <= pos[j]
    decreases j
  {
    if i < j {
      ClimbsTo(pos, i, j - 1);
      assert Up(pos, j - 1);
    }
  }

  lemma {:induction false} ReadyAlong(code: Code, pos: seq<nat>, k: nat)
    requires WellFormed(code) && |pos| == |code| && k < |code| && Climbs(pos, k)
    ensures Ready(code, k, CapsRun(code, 0, NoCaps(), pos, k), pos[k])
    decreases k
  {
    if k == 0 {
      ReadyAtStart(code, pos[0]);
    } else {
      ReadyAlong(code, pos, k - 1);
      NotLast(code, k - 1);
      assert Up(pos, k - 1);
      assert CapsRun(code, 0, NoCaps(), pos, k) == Note(code[k - 1].op, pos[k - 1], CapsRun(code, 0, NoCaps(), pos, k - 1));
      hide Ready, WellFormed, Note, CapsRun;
      ReadyNext(code, k - 1, CapsRun(code, 0, NoCaps(), pos, k - 1), pos[k - 1], pos[k]);
    }
  }

  lemma {:induction false} NotLast(code: Code, k: nat)
    requires WellFormed(code) && k < |code| - 1
    ensures code[k].op != End
  {
  }

  /** A group without a closing mark so far has no end. */
  lemma {:induction false} NotClosed(code: Code, pos: seq<nat>, k: nat, g: nat)
    requires k <= |code| == |pos| && g < 9 && forall c :: 0 <= c < k ==> code[c].op != Op.Close(g)
    ensures CapsRun(code, 0, NoCaps(), pos, k)[g].end == -1
    decreases k
  {
    if 0 < k {
      NotClosed(code, pos, k - 1, g);
    }
  }

  /** The captures when code[k] is met: the places of the marks of each group closed before it, else no end. */
  lemma {:induction false} GroupAt(code: Code, pos: seq<nat>, k: nat, g: nat) returns (closed: bool, o: nat, c: nat)
    requires WellFormed(code) && k < |code| == |pos| && g < 9
    ensures closed ==> 0 <= o < c < k && code[o].op == Op.Open(g) && code[c].op == Op.Close(g)
                       && CapsRun(code, 0, NoCaps(), pos, k)[g] == Cap(pos[o], pos[c])
    ensures !closed ==> (forall i :: 0 <= i < k ==> code[i].op != Op.Close(g)) && CapsRun(code, 0, NoCaps(), pos, k)[g].end == -1
  {
    o, c := 0, 0;
    closed := exists i :: 0 <= i < k && code[i].op == Op.Close(g);
    if closed {
      c :| 0 <= c < k && code[c].op == Op.Close(g);
      assert OpenedBefore(code, 0, c, g);
      o :| 0 <= o < c && code[o].op == Op.Open(g);
      GroupSpan(code, pos, k, o, c);
    } else {
      NotClosed(code, pos, k, g);
    }
  }

  /** Marks of the same group are unique. */
  lemma {:induction false} OneMark(code: Code, o: nat, c: nat, o': nat, c': nat, g: nat)
    requires WellFormed(code) && o < |code| && c < |code| && o' < |code| && c' < |code|
    requires code[o].op == code[o'].op == Op.Open(g) && code[c].op == code[c'].op == Op.Close(g)
    ensures o == o' && c == c'
  {
  }

  // ---- one occurrence, a row, a piece ----

  lemma {:induction false} OccursIs(code: Code, s: Text, pos: seq<nat>, k: nat, p: nat, q: nat)
    requires WellFormed(code) && k < |code| - 1 && |pos| == |code| && Climbs(pos, k) && pos[k] <= p <= |s| && IsAtom(code[k].op)
    ensures var caps := CapsRun(code, 0, NoCaps(), pos, k);
            CapsOk(caps, p) && (AtomEnd(code[k].op, s, p, caps) == q <==> Occurs(code, s, pos, k, p, q))
  {
    var caps := CapsRun(code, 0, NoCaps(), pos, k);
    ReadyAlong(code, pos, k);
    CapsLater(caps, pos[k], p);
    if code[k].op.Backref? {
      BackrefIs(code, s, pos, k, p, q);
    }
  }

  lemma {:induction false} BackrefIs(code: Code, s: Text, pos: seq<nat>, k: nat, p: nat, q: nat)
    requires WellFormed(code) && k < |code| - 1 && |pos| == |code| && Climbs(pos, k) && pos[k] <= p <= |s| && code[k].op.Backref?
    requires CapsOk(CapsRun(code, 0, NoCaps(), pos, k), p)
    ensures AtomEnd(code[k].op, s, p, CapsRun(code, 0, NoCaps(), pos, k)) == q <==> Occurs(code, s, pos, k, p, q)
  {
    var n, caps := code[k].op.n, CapsRun(code, 0, NoCaps(), pos, k);
    if 1 <= n <= 9 {
      var g := n - 1;
      var closed, o, c := GroupAt(code, pos, k, g);
      if closed {
        ClimbsTo(pos, o, c);
        ClimbsTo(pos, c, k);
        RepeatedText(s, p, q, pos[o], pos[c]);
        forall o', c', g': nat | 0 <= o' < c' < k && n == g' + 1 && code[o'].op == Op.Open(g') && code[c'].op == Op.Close(g')
          ensures o' == o && c' == c
        {
          OneMark(code, o, c, o', c', g);
        }
        hide WellFormed, CapsOk, CapsRun;
        assert Occurs(code, s, pos, k, p, q) <==> p <= q <= |s| && s[p..q] == s[pos[o]..pos[c]];
      }
    } else {
      forall o | 0 <= o < k && code[o].op.Open? ensures code[o].op.g < 9 {
      }
    }
  }

  lemma {:induction false} RepeatedText(s: Text, p: nat, q: int, a: nat, b: nat)
    requires a <= b <= |s| && p <= |s|
    ensures (p <= q <= |s| && s[p..q] == s[a..b]) <==> (q == p + (b - a) <= |s| && s[p..p + (b - a)] == s[a..b])
  {
    if p <= q <= |s| && s[p..q] == s[a..b] {
      assert |s[p..q]| == |s[a..b]|;
    }
  }

  /** k occurrences in a row, by their ends. */
  lemma {:induction false} RowIs(code: Code, s: Text, pos: seq<nat>, k: nat, p: nat, n: nat, q: nat)
    requires WellFormed(code) && k < |code| - 1 && |pos| == |code| && Climbs(pos, k) && pos[k] <= p <= |s| && IsAtom(code[k].op)
    requires CapsOk(CapsRun(code, 0, NoCaps(), pos, k), p) && n <= 255
    ensures Repeat(code[k].op, s, p, CapsRun(code, 0, NoCaps(), pos, k), n) == q
            <==> exists ps :: Row(code, s, pos, k, ps) && |ps| == n + 1 && ps[0] == p && ps[n] == q
    decreases n
  {
    hide WellFormed, Occurs, CapsOk, AtomEnd, Climbs;
    var caps := CapsRun(code, 0, NoCaps(), pos, k);
    var op := code[k].op;
    if n == 0 {
      if p == q {
        assert Row(code, s, pos, k, [p]);
      }
    } else {
      var m := Repeat(op, s, p, caps, n - 1);
      if Repeat(op, s, p, caps, n) == q {
        RowIs(code, s, pos, k, p, n - 1, m);
        var ps :| Row(code, s, pos, k, ps) && |ps| == n && ps[0] == p && ps[n - 1] == m;
        OccursIs(code, s, pos, k, m, q);
        var qs := ps + [q];
        assert Row(code, s, pos, k, qs);
      }
      if ps :| Row(code, s, pos, k, ps) && |ps| == n + 1 && ps[0] == p && ps[n] == q {
        var rs := ps[..n];
        assert Row(code, s, pos, k, rs);
        assert Occurs(code, s, pos, k, ps[n - 1], ps[n - 1 + 1]);
        RowIs(code, s, pos, k, p, n - 1, ps[n - 1]);
        OccursIs(code, s, pos, k, m, q);
      }
    }
  }

  /** A piece of the trace is what the instruction asks for. */
  lemma {:induction false} PieceIs(code: Code, s: Text, pos: seq<nat>, k: nat, q: nat)
    requires WellFormed(code) && k < |code| - 1 && |pos| == |code| && Climbs(pos, k) && pos[k] <= |s|
    ensures var caps := CapsRun(code, 0, NoCaps(), pos, k);
            CapsOk(caps, pos[k]) && (pos[k] <= q <= |s| && Piece(code[k], s, pos[k], q, caps) <==> Asked(code, s, pos, k, pos[k], q))
  {
    ReadyAlong(code, pos, k);
    var caps := CapsRun(code, 0, NoCaps(), pos, k);
    if IsAtom(code[k].op) {
      hide WellFormed, Occurs, AtomEnd, Climbs, Row, CapsRun, Ready, Piece, Asked, CapsOk;
      OccursIs(code, s, pos, k, pos[k], q);
      PieceOfAtom(code[k], s, pos[k], q, caps);
      AskedOfAtom(code, s, pos, k, pos[k], q);
      if code[k].starred {
        hide AtomPiece;
        StarIs(code, s, pos, k, q);
      } else {
        OccursEnd(code, s, pos, k, pos[k], q);
      }
    }
  }

  lemma {:induction false} PieceOfAtom(i: Inst, s: Text, p: nat, q: nat, caps: Caps)
    requires p <= |s| && CapsOk(caps, p) && IsAtom(i.op)
    ensures Piece(i, s, p, q, caps) <==> AtomPiece(i, s, p, q, caps)
  {
    hide AtomPiece, CapsOk;
  }

  lemma {:induction false} AskedOfAtom(code: Code, s: Text, pos: seq<nat>, k: nat, p: nat, q: nat)
    requires k < |code| && k <= |pos| && IsAtom(code[k].op)
    ensures Asked(code, s, pos, k, p, q)
            <==> p <= q <= |s| && if code[k].starred then exists ps :: Row(code, s, pos, k, ps) && ps[0] == p && ps[|ps| - 1] == q
                                  else Occurs(code, s, pos, k, p, q)
  {
    hide Row, Occurs;
  }

  lemma {:induction false} OccursEnd(code: Code, s: Text, pos: seq<nat>, k: nat, p: nat, q: nat)
    requires k < |code| && k <= |pos|
    ensures Occurs(code, s, pos, k, p, q) ==> p <= q <= |s|
  {
  }

  lemma {:induction false} StarIs(code: Code, s: Text, pos: seq<nat>, k: nat, q: nat)
    requires WellFormed(code) && k < |code| - 1 && |pos| == |code| && Climbs(pos, k) && pos[k] <= |s| && IsAtom(code[k].op) && code[k].starred
    requires CapsOk(CapsRun(code, 0, NoCaps(), pos, k), pos[k])
    ensures AtomPiece(code[k], s, pos[k], q, CapsRun(code, 0, NoCaps(), pos, k))
            <==> pos[k] <= q <= |s| && exists ps :: Row(code, s, pos, k, ps) && ps[0] == pos[k] && ps[|ps| - 1] == q
  {
    hide WellFormed, Climbs, CapsRun, CapsOk, AtomEnd;
    var caps, p := CapsRun(code, 0, NoCaps(), pos, k), pos[k];
    if AtomPiece(code[k], s, p, q, caps) {
      var n: nat :| n <= MAX_STAR && Repeat(code[k].op, s, p, caps, n) == q;
      RowIs(code, s, pos, k, p, n, q);
    }
    hide Row;
    if ps :| Row(code, s, pos, k, ps) && ps[0] == p && ps[|ps| - 1] == q {
      RowSize(code, s, pos, k, ps);
      RowIs(code, s, pos, k, p, |ps| - 1, q);
      assert Repeat(code[k].op, s, p, caps, |ps| - 1) == q;
    }
  }

  lemma {:induction false} RowSize(code: Code, s: Text, pos: seq<nat>, k: nat, ps: seq<nat>)
    requires k < |code| && k <= |pos| && Row(code, s, pos, k, ps)
    ensures 0 < |ps| <= 256
  {
  }

  // ---- a match ----

  /** A match from sp to e is a way to cut the text into what the instructions ask for. Each group captured is the
      place of its two marks. */
  lemma {:induction false} MatchesReads(code: Code, s: Text, sp: nat, e: nat, caps: Caps)
    requires WellFormed(code) && sp <= |s|
    ensures Ready(code, 0, NoCaps(), sp)
    ensures Matches(code, 0, s, sp, NoCaps(), e, caps)
            <==> exists pos :: Reads(code, s, sp, e, pos) && CapsRun(code, 0, NoCaps(), pos, |pos| - 1) == caps
  {
    ReadyAtStart(code, sp);
    MatchesIffTrace(code, 0, s, sp, NoCaps(), e, caps);
    hide WellFormed, Matches, Ready, Asked;
    if pos :| TraceOf(code, 0, s, sp, NoCaps(), e, caps, pos) {
      TraceReads(code, s, sp, e, caps, pos);
    }
    if pos :| Reads(code, s, sp, e, pos) && CapsRun(code, 0, NoCaps(), pos, |pos| - 1) == caps {
      ReadsTrace(code, s, sp, e, caps, pos);
    }
  }

  lemma {:induction false} TraceReads(code: Code, s: Text, sp: nat, e: nat, caps: Caps, pos: seq<nat>)
    requires WellFormed(code) && sp <= |s| && TraceOf(code, 0, s, sp, NoCaps(), e, caps, pos)
    ensures Reads(code, s, sp, e, pos)
  {
    hide WellFormed, Asked, CapsOk, Piece, CapsRun;
    forall k | 0 <= k < |pos| - 1 ensures Up(pos, k) {
      assert TraceStep(code, 0, s, NoCaps(), pos, k);
    }
    forall k | 0 <= k < |pos| - 1 ensures Asked(code, s, pos, k, pos[k], pos[k + 1]) {
      assert TraceStep(code, 0, s, NoCaps(), pos, k);
      PieceIs(code, s, pos, k, pos[k + 1]);
    }
  }

  lemma {:induction false} ReadsTrace(code: Code, s: Text, sp: nat, e: nat, caps: Caps, pos: seq<nat>)
    requires WellFormed(code) && sp <= |s| && Reads(code, s, sp, e, pos) && CapsRun(code, 0, NoCaps(), pos, |pos| - 1) == caps
    ensures TraceOf(code, 0, s, sp, NoCaps(), e, caps, pos)
  {
    forall k | 0 <= k < |pos| - 1 ensures Up(pos, k) {
      assert Asked(code, s, pos, k, pos[k], pos[k + 1]);
    }
    hide WellFormed, Asked, CapsOk, Piece, CapsRun;
    forall k | 0 <= k < |pos| - 1 ensures TraceStep(code, 0, s, NoCaps(), pos, k) {
      assert Asked(code, s, pos, k, pos[k], pos[k + 1]);
      PieceIs(code, s, pos, k, pos[k + 1]);
    }
  }

  /** What the matcher returns, in these terms: the end of such a cut, with each group at its marks; -1 if there is none. */
  lemma {:induction false} TryReads(code: Code, s: Text, sp: nat)
    requires WellFormed(code) && sp <= |s|
    ensures Ready(code, 0, NoCaps(), sp)
    ensures var r := Try(code, 0, s, sp, NoCaps());
            && (0 <= r.end ==> exists pos :: Reads(code, s, sp, r.end, pos) && AtMarks(code, pos, r.caps))
            && (r.end < 0 ==> forall e: nat, pos :: !Reads(code, s, sp, e, pos))
  {
    ReadyAtStart(code, sp);
    TryIff(code, 0, s, sp, NoCaps());
    var r := Try(code, 0, s, sp, NoCaps());
    if 0 <= r.end {
      MatchesReads(code, s, sp, r.end, r.caps);
      var pos :| Reads(code, s, sp, r.end, pos) && CapsRun(code, 0, NoCaps(), pos, |pos| - 1) == r.caps;
      MarksOf(code, s, sp, r.end, pos);
    } else {
      forall e: nat, pos ensures !Reads(code, s, sp, e, pos) {
        if Reads(code, s, sp, e, pos) {
          MatchesReads(code, s, sp, e, CapsRun(code, 0, NoCaps(), pos, |pos| - 1));
        }
      }
    }
  }

  /** Each group is captured between its two marks. */
  ghost predicate AtMarks(code: Code, pos: seq<nat>, caps: Caps) {
    forall o, c, g: nat :: 0 <= o < c < |code| == |pos| && g < 9 && code[o].op == Op.Open(g) && code[c].op == Op.Close(g) ==> caps[g] == Cap(pos[o], pos[c])
  }

  lemma {:induction false} MarksOf(code: Code, s: Text, sp: nat, e: nat, pos: seq<nat>)
    requires WellFormed(code) && Reads(code, s, sp, e, pos)
    ensures AtMarks(code, pos, CapsRun(code, 0, NoCaps(), pos, |pos| - 1))
  {
    forall o, c, g: nat | 0 <= o < c < |code| && g < 9 && code[o].op == Op.Open(g) && code[c].op == Op.Close(g)
      ensures CapsRun(code, 0, NoCaps(), pos, |pos| - 1)[g] == Cap(pos[o], pos[c])
    {
      GroupSpan(code, pos, |pos| - 1, o, c);
    }
  }
}
