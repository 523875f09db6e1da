/** sed's regular-expression compiler: pattern text to bytecode. */
module SedCompile {
  import opened Options
  import opened Bytes
  import opened SedRegex

  const MAX_RE_OPS := 256
  const MAX_CLASSES := 8

  /** The byte at i of a C string: its NUL when i is the end. */
  function At(t: Text, i: nat): Byte {
    if i < |t| then t[i] else 0
  }

  const CARET := 0x5E
  const DOLLAR := 0x24
  const DASH := 0x2D
  const LBRACK := 0x5B
  const RBRACK := 0x5D
  const STAR := 0x2A
  const DOT := 0x2E
  const BACKSLASH := 0x5C
  const LPAREN := 0x28
  const RPAREN := 0x29

  // ---- bracket expressions ----

  predicate Within(a: Byte, c: Byte, b: Byte) { a <= c <= b }

  function Range(a: Byte, b: Byte): set<Byte> {
    set c: Byte | Within(a, c, b)
  }

  function Universe(): set<Byte> {
    Range(0, 255)
  }

  /** The members a bracket expression lists from i on, up to its closing bracket at `stop`. */
  function Members(t: Text, i: nat, stop: nat): set<Byte>
    decreases stop - i
  {
    if stop <= i then {}
    else if At(t, i + 1) == DASH && At(t, i + 2) != RBRACK && At(t, i + 2) != 0 then
      Range(At(t, i), At(t, i + 2)) + Members(t, i + 3, stop)
    else {At(t, i)} + Members(t, i + 1, stop)
  }

  /** Where the closing bracket stands; -1 when there is none. A bracket in first place is a member. */
  function ClassEnd(t: Text, p: nat, first: bool): (e: int)
    requires p <= |t|
    ensures e == -1 || (p <= e < |t| && t[e] == RBRACK)
    decreases |t| - p
  {
    if At(t, p) == 0 then -1
    else if At(t, p) == RBRACK && !first then p
    else if At(t, p + 1) == DASH && At(t, p + 2) != RBRACK && At(t, p + 2) != 0 then ClassEnd(t, p + 3, false)
    else ClassEnd(t, p + 1, false)
  }

  /** The bracket expression that begins behind the "[" at p: its set, and where the text goes on. */
  function ClassAt(t: Text, p: nat): (r: Option<(set<Byte>, nat)>)
    requires p <= |t|
    ensures r.Some? ==> p < r.value.1 <= |t|
  {
    var i := if At(t, p) == CARET then p + 1 else p;
    var e := ClassEnd(t, i, true);
    if e < 0 then None
    else Some((if At(t, p) == CARET then Universe() - Members(t, i, e) else Members(t, i, e), e + 1))
  }

  /** compile_class, from behind the "[" on. */
  method CompileClass(t: Text, p: nat, classes: nat) returns (ok: bool, bits: set<Byte>, p': nat)
    requires p <= |t|
    ensures ok <==> classes < MAX_CLASSES && ClassAt(t, p).Some?
    ensures ok ==> ClassAt(t, p) == Some((bits, p'))
  {
    hide Upto, Universe, Range, Members;
    p' := p;
    bits := {};
    if MAX_CLASSES <= classes {
      return false, {}, p';
    }
    var negate := At(t, p') == CARET;
    if negate {
      p' := p' + 1;
    }
    if At(t, p') == 0 {
      return false, {}, p';
    }
    var i := p';
    var first := true;
    UptoNone(t, i);
    while At(t, p') != 0 && (At(t, p') != RBRACK || first)
      invariant i <= p' <= |t| && (first <==> p' == i)
      invariant Upto(t, i, p', bits) && ClassEnd(t, i, true) == ClassEnd(t, p', first)
      decreases |t| - p'
    {
      var c := At(t, p');
      ghost var q := p';
      p' := p' + 1;
      if At(t, p') == DASH && At(t, p' + 1) != RBRACK && At(t, p' + 1) != 0 {
        p' := p' + 1;
        var hi := At(t, p');
        p' := p' + 1;
        UptoRange(t, i, q, bits);
        bits := bits + Range(c, hi);
      } else {
        UptoOne(t, i, q, bits);
        bits := bits + {c};
      }
      first := false;
    }
    if At(t, p') != RBRACK {
      return false, {}, p';
    }
    MembersUpto(t, i, p', bits);
    p' := p' + 1;
    if negate {
      bits := Universe() - bits;
    }
    ok := true;
  }

  /** Reading members from i on arrives at q, having collected bits. */
  ghost predicate Upto(t: Text, i: nat, q: nat, bits: set<Byte>) {
    i <= q && forall stop :: q <= stop ==> Members(t, i, stop) == bits + Members(t, q, stop)
  }

  lemma UptoNone(t: Text, i: nat)
    ensures Upto(t, i, i, {})
  {
  }

  lemma UptoRange(t: Text, i: nat, q: nat, bits: set<Byte>)
    requires Upto(t, i, q, bits) && q < |t|
    requires At(t, q + 1) == DASH && At(t, q + 2) != RBRACK && At(t, q + 2) != 0
    ensures Upto(t, i, q + 3, bits + Range(At(t, q), At(t, q + 2)))
  {
    forall stop | q + 3 <= stop ensures Members(t, i, stop) == bits + Range(At(t, q), At(t, q + 2)) + Members(t, q + 3, stop) {
    }
  }

  lemma UptoOne(t: Text, i: nat, q: nat, bits: set<Byte>)
    requires Upto(t, i, q, bits) && q < |t|
    requires !(At(t, q + 1) == DASH && At(t, q + 2) != RBRACK && At(t, q + 2) != 0)
    ensures Upto(t, i, q + 1, bits + {At(t, q)})
  {
    forall stop | q + 1 <= stop ensures Members(t, i, stop) == bits + {At(t, q)} + Members(t, q + 1, stop) {
    }
  }

  lemma MembersUpto(t: Text, i: nat, q: nat, bits: set<Byte>)
    requires Upto(t, i, q, bits)
    ensures Members(t, i, q) == bits
  {
  }

  // ---- code under construction ----

  /** Code emitted so far: groups are numbered in order of opening, the open ones are on the stack. */
  predicate Building(code: Code, groups: nat, stack: seq<nat>) {
    && groups <= MAX_GROUPS
    && (forall i :: 0 <= i < |code| ==> code[i].op != End)
    && (forall i :: 0 <= i < |code| && (code[i].op.Open? || code[i].op.Close?) ==> code[i].op.g < groups)
    && (forall i, j :: 0 <= i < j < |code| && code[i].op.Open? ==> code[j].op != code[i].op)
    && (forall i, j :: 0 <= i < j < |code| && code[i].op.Close? ==> code[j].op != code[i].op && code[j].op != Op.Open(code[i].op.g))
    && (forall j :: 0 <= j < |code| && code[j].op.Close? ==> OpenedBefore(code, 0, j, code[j].op.g))
    && (forall k :: 0 <= k < |stack| ==> stack[k] < groups && OpenedBefore(code, 0, |code|, stack[k]))
    && (forall k, j :: 0 <= k < |stack| && 0 <= j < |code| ==> code[j].op != Op.Close(stack[k]))
    && (forall k, m :: 0 <= k < m < |stack| ==> stack[k] != stack[m])
  }

  lemma EmitPlain(code: Code, groups: nat, stack: seq<nat>, i: Inst)
    requires Building(code, groups, stack) && i.op != End && !i.op.Open? && !i.op.Close?
    ensures Building(code + [i], groups, stack)
  {
    StillOpened(code, [i]);
  }

  lemma StillOpened(code: Code, more: Code)
    ensures forall j, g :: 0 <= j <= |code| && OpenedBefore(code, 0, j, g) ==> OpenedBefore(code + more, 0, j, g)
    ensures forall j, g :: |code| <= j <= |code| + |more| && OpenedBefore(code, 0, |code|, g) ==> OpenedBefore(code + more, 0, j, g)
  {
    forall j, g | 0 <= j <= |code| && OpenedBefore(code, 0, j, g) ensures OpenedBefore(code + more, 0, j, g) {
      var k :| 0 <= k < j && code[k].op == Op.Open(g);
      assert (code + more)[k].op == Op.Open(g);
    }
    forall j, g | |code| <= j <= |code| + |more| && OpenedBefore(code, 0, |code|, g) ensures OpenedBefore(code + more, 0, j, g) {
      var k :| 0 <= k < |code| && code[k].op == Op.Open(g);
      assert (code + more)[k].op == Op.Open(g);
    }
  }

  lemma EmitOpen(code: Code, groups: nat, stack: seq<nat>)
    requires Building(code, groups, stack) && groups < MAX_GROUPS
    ensures Building(code + [Inst(Op.Open(groups), false)], groups + 1, stack + [groups])
  {
    var c := code + [Inst(Op.Open(groups), false)];
    StillOpened(code, [Inst(Op.Open(groups), false)]);
    assert c[|code|].op == Op.Open(groups);
  }

  lemma EmitClose(code: Code, groups: nat, stack: seq<nat>)
    requires Building(code, groups, stack) && 0 < |stack|
    ensures Building(code + [Inst(Op.Close(stack[|stack| - 1]), false)], groups, stack[..|stack| - 1])
  {
    StillOpened(code, [Inst(Op.Close(stack[|stack| - 1]), false)]);
  }

  lemma StarKept(code: Code, groups: nat, stack: seq<nat>, a: nat)
    requires Building(code, groups, stack) && a < |code|
    ensures Building(code[a := code[a].(starred := true)], groups, stack)
  {
    var c := code[a := code[a].(starred := true)];
    assert forall j :: 0 <= j < |code| ==> c[j].op == code[j].op;
    forall j, g | 0 <= j <= |code| && OpenedBefore(code, 0, j, g) ensures OpenedBefore(c, 0, j, g) {
      var k :| 0 <= k < j && code[k].op == Op.Open(g);
      assert c[k].op == Op.Open(g);
    }
  }

  lemma EndIt(code: Code, groups: nat)
    requires Building(code, groups, [])
    ensures WellFormed(code + [Inst(End, false)])
  {
    var c := code + [Inst(End, false)];
    StillOpened(code, [Inst(End, false)]);
    assert forall i :: 0 <= i < |code| ==> c[i] == code[i];
  }

  // ---- compile_regex ----

  /** Between two turns of compile_regex's loop; last: the instruction a star would apply to, or -1. */
  datatype St = St(p: nat, code: Code, groups: nat, classes: nat, stack: seq<nat>, last: int)

  function Start(p: nat): St { St(p, [], 0, 0, [], -1) }

  predicate StOk(t: Text, st: St) { st.p <= |t| && -1 <= st.last < |st.code| }

  predicate AtEnd(t: Text, p: nat, delim: Byte) { At(t, p) == 0 || At(t, p) == delim }

  function Emit(st: St, p: nat, op: Op): Option<St> {
    if MAX_RE_OPS <= |st.code| then None
    else Some(st.(p := p, code := st.code + [Inst(op, false)], last := |st.code|))
  }

  /** One turn of the loop. */
  function Turn(t: Text, delim: Byte, st: St): (r: Option<St>)
    requires StOk(t, st) && !AtEnd(t, st.p, delim)
    ensures r.Some? ==> StOk(t, r.value) && st.p < r.value.p
  {
    var c, n := At(t, st.p), At(t, st.p + 1);
    if c == BACKSLASH then
      if n == 0 then None
      else if n == LPAREN then
        if MAX_GROUPS <= st.groups || MAX_GROUPS <= |st.stack| || MAX_RE_OPS <= |st.code| then None
        else Some(St(st.p + 2, st.code + [Inst(Op.Open(st.groups), false)], st.groups + 1, st.classes, st.stack + [st.groups], -1))
      else if n == RPAREN then
        if st.stack == [] || MAX_RE_OPS <= |st.code| then None
        else Some(St(st.p + 2, st.code + [Inst(Op.Close(st.stack[|st.stack| - 1]), false)], st.groups, st.classes,
                     st.stack[..|st.stack| - 1], |st.code|))
      else Emit(st, st.p + 2, if 0x31 <= n <= 0x39 then Backref(n - 0x30) else Lit(n))
    else if c == DOT then Emit(st, st.p + 1, Any)
    else if c == CARET && st.code == [] then Some(st.(p := st.p + 1, code := st.code + [Inst(Bol, false)], last := -1))
    else if c == DOLLAR && AtEnd(t, st.p + 1, delim) then
      if MAX_RE_OPS <= |st.code| then None
      else Some(st.(p := st.p + 1, code := st.code + [Inst(Eol, false)], last := -1))
    else if c == LBRACK then
      if MAX_CLASSES <= st.classes || ClassAt(t, st.p + 1).None? then None
      else
        var (bits, p) := ClassAt(t, st.p + 1).value;
        Emit(st.(classes := st.classes + 1), p, Class(bits))
    else if c == STAR && 0 <= st.last then
      Some(st.(p := st.p + 1, code := st.code[st.last := st.code[st.last].(starred := true)], last := -1))
    else Emit(st, st.p + 1, Lit(c))
  }

  /** All turns from st on: the code, and where the delimiter stands. */
  function Run(t: Text, delim: Byte, st: St): Option<(Code, nat)>
    requires StOk(t, st)
    decreases |t| - st.p
  {
    if AtEnd(t, st.p, delim) then
      if st.stack != [] || MAX_RE_OPS <= |st.code| then None else Some((st.code + [Inst(End, false)], st.p))
    else match Turn(t, delim, st)
      case None => None
      case Some(next) => Run(t, delim, next)
  }

  lemma RunTurn(t: Text, delim: Byte, st: St)
    requires StOk(t, st) && !AtEnd(t, st.p, delim)
    ensures Run(t, delim, st) == match Turn(t, delim, st) case None => None case Some(next) => Run(t, delim, next)
  {
  }

  lemma RunEnd(t: Text, delim: Byte, st: St)
    requires StOk(t, st) && AtEnd(t, st.p, delim)
    ensures Run(t, delim, st) == if st.stack != [] || MAX_RE_OPS <= |st.code| then None else Some((st.code + [Inst(End, false)], st.p))
  {
  }

  /** compile_regex: what it accepts, with code that is always well formed. */
  method CompileRegex(t: Text, p: nat, delim: Byte) returns (ok: bool, code: Code, p': nat)
    requires p <= |t|
    ensures ok <==> Run(t, delim, Start(p)).Some?
    ensures ok ==> Run(t, delim, Start(p)) == Some((code, p')) && WellFormed(code) && |code| <= MAX_RE_OPS
  {
    hide Building, WellFormed, OpenedBefore, ClassAt, Run;
    code, p' := [], p;
    ok := false;
    NothingYet();
    var groups, classes := 0, 0;
    var stack: seq<nat> := [];
    var lastAtom := -1;
    while At(t, p') != 0 && At(t, p') != delim
      invariant p <= p' <= |t| && |code| <= MAX_RE_OPS && Building(code, groups, stack)
      invariant StOk(t, St(p', code, groups, classes, stack, lastAtom))
      invariant Run(t, delim, St(p', code, groups, classes, stack, lastAtom)) == Run(t, delim, Start(p))
      decreases |t| - p'
    {
      RunTurn(t, delim, St(p', code, groups, classes, stack, lastAtom));
      ghost var turn := Turn(t, delim, St(p', code, groups, classes, stack, lastAtom));
      var c := At(t, p');
      p' := p' + 1;
      var op := Lit(c);
      if c == BACKSLASH {
        var nc := At(t, p');
        if nc == 0 {
          return;
        }
        p' := p' + 1;
        if nc == LPAREN {
          if MAX_GROUPS <= groups || MAX_GROUPS <= |stack| || MAX_RE_OPS <= |code| {
            return;
          }
          EmitOpen(code, groups, stack);
          code := code + [Inst(Op.Open(groups), false)];
          stack := stack + [groups];
          groups := groups + 1;
          lastAtom := -1;
          assert turn == Some(St(p', code, groups, classes, stack, lastAtom));
          continue;
        }
        if nc == RPAREN {
          if |stack| == 0 || MAX_RE_OPS <= |code| {
            return;
          }
          EmitClose(code, groups, stack);
          lastAtom := |code|;
          code := code + [Inst(Op.Close(stack[|stack| - 1]), false)];
          stack := stack[..|stack| - 1];
          assert turn == Some(St(p', code, groups, classes, stack, lastAtom));
          continue;
        }
        op := if 0x31 <= nc <= 0x39 then Backref(nc - 0x30) else Lit(nc);
      } else if c == DOT {
        op := Any;
      } else if c == CARET && |code| == 0 {
        EmitPlain(code, groups, stack, Inst(Bol, false));
        code := code + [Inst(Bol, false)];
        lastAtom := -1;
        assert turn == Some(St(p', code, groups, classes, stack, lastAtom));
        continue;
      } else if c == DOLLAR && (At(t, p') == 0 || At(t, p') == delim) {
        if MAX_RE_OPS <= |code| {
          return;
        }
        EmitPlain(code, groups, stack, Inst(Eol, false));
        code := code + [Inst(Eol, false)];
        lastAtom := -1;
        assert turn == Some(St(p', code, groups, classes, stack, lastAtom));
        continue;
      } else if c == LBRACK {
        var good, bits, after := CompileClass(t, p', classes);
        if !good {
          return;
        }
        classes := classes + 1;
        p' := after;
        op := Class(bits);
      } else if c == STAR && 0 <= lastAtom {
        StarKept(code, groups, stack, lastAtom);
        code := code[lastAtom := code[lastAtom].(starred := true)];
        lastAtom := -1;
        assert turn == Some(St(p', code, groups, classes, stack, lastAtom));
        continue;
      }
      if MAX_RE_OPS <= |code| {
        return;
      }
      EmitPlain(code, groups, stack, Inst(op, false));
      lastAtom := |code|;
      code := code + [Inst(op, false)];
      assert turn == Some(St(p', code, groups, classes, stack, lastAtom));
    }
    RunEnd(t, delim, St(p', code, groups, classes, stack, lastAtom));
    if |stack| != 0 || MAX_RE_OPS <= |code| {
      return;
    }
    EndIt(code, groups);
    code := code + [Inst(End, false)];
    ok := true;
  }

  lemma NothingYet()
    ensures Building([], 0, [])
  {
  }
}
