/** Basic regular expressions as trees: written out in sed's syntax and compiled, each gives its own code. */
module SedPattern {
  import opened Options
  import opened Bytes
  import opened SedRegex
  import opened SedCompile

  // ---- patterns ----

  /** A character stands alone or behind a backslash. A bracket's body is the text between the brackets, without the
      negating "^". */
  datatype Atom = Char(c: Byte, quoted: bool) | AnyChar | Bracket(neg: bool, body: Text) | Ref(n: nat) | Group(inner: Re)
  datatype Re = Empty | Then(atom: Atom, star: bool, rest: Re)
  datatype Pattern = Pattern(bol: bool, re: Re, eol: bool)

  // in ASCII: $ 0x24, ( 0x28, ) 0x29, * 0x2A, . 0x2E, [ 0x5B, \ 0x5C, ] 0x5D, ^ 0x5E

  /** What the syntax can express: no NUL, back-references 1 to 9, "]" only in first place of a body; nothing that begins
      with the delimiter. Alone, "*" stands for itself where there is nothing to repeat (free), "^" where it is not first,
      "$" where it is not last. */
  predicate Sayable(a: Atom, delim: Byte, first: bool, free: bool, last: bool)
    decreases a
  {
    match a
    case Char(c, true) => delim != 0x5C && c != 0 && c != 0x28 && c != 0x29 && !(0x31 <= c <= 0x39)
    case Char(c, false) =>
      && c != 0 && c != delim && c != 0x5C && c != 0x2E && c != 0x5B
      && (c == 0x2A ==> free) && (c == 0x5E ==> !first) && (c == 0x24 ==> !last)
    case AnyChar => delim != 0x2E
    case Bracket(neg, body) =>
      && delim != 0x5B && body != [] && (!neg ==> body[0] != 0x5E)
      && forall k :: 0 <= k < |body| ==> body[k] != 0 && (body[k] == 0x5D ==> k == 0)
    case Ref(n) => delim != 0x5C && 1 <= n <= 9
    case Group(inner) => delim != 0x5C && SayableRe(inner, delim, false, true, false)
  }

  predicate SayableRe(re: Re, delim: Byte, first: bool, free: bool, last: bool)
    decreases re
  {
    match re
    case Empty => true
    case Then(a, star, rest) => (star ==> delim != 0x2A) && Sayable(a, delim, first, free, last && !star && rest.Empty?) && SayableRe(rest, delim, false, star, last)
  }

  predicate SayablePattern(w: Pattern, delim: Byte) {
    && (w.bol ==> delim != 0x5E) && (w.eol ==> delim != 0x24)
    && SayableRe(w.re, delim, !w.bol, true, !w.eol)
  }

  // ---- in writing ----

  function Spell(a: Atom): (s: Text)
    ensures 0 < |s| || a.Ref?
    decreases a
  {
    match a
    case Char(c, quoted) => if quoted then [0x5C, c] else [c]
    case AnyChar => [0x2E]
    case Bracket(neg, body) => [0x5B] + (if neg then [0x5E] else []) + body + [0x5D]
    case Ref(n) => if n <= 9 then [0x5C, 0x30 + n] else []
    case Group(inner) => [0x5C, 0x28] + SpellRe(inner) + [0x5C, 0x29]
  }

  function SpellRe(re: Re): Text
    decreases re
  {
    match re
    case Empty => []
    case Then(a, star, rest) => Spell(a) + (if star then [0x2A] else []) + SpellRe(rest)
  }

  function SpellPattern(w: Pattern): Text {
    (if w.bol then [0x5E] else []) + SpellRe(w.re) + (if w.eol then [0x24] else [])
  }

  // ---- in code ----

  /** The bytes a bracket expression stands for. */
  function SetOf(neg: bool, body: Text): set<Byte> {
    if neg then Universe() - Members(body + [RBRACK], 0, |body|) else Members(body + [RBRACK], 0, |body|)
  }

  function Groups(a: Atom): nat
    decreases a
  {
    if a.Group? then 1 + GroupsRe(a.inner) else 0
  }

  function GroupsRe(re: Re): nat
    decreases re
  {
    if re.Empty? then 0 else Groups(re.atom) + GroupsRe(re.rest)
  }

  function Classes(a: Atom): nat
    decreases a
  {
    match a
    case Bracket(_, _) => 1
    case Group(inner) => ClassesRe(inner)
    case _ => 0
  }

  function ClassesRe(re: Re): nat
    decreases re
  {
    if re.Empty? then 0 else Classes(re.atom) + ClassesRe(re.rest)
  }

  /** Groups are numbered from g on in the order of their opening; a star marks the atom's last instruction. */
  function CodeOf(a: Atom, star: bool, g: nat): (c: Code)
    ensures 0 < |c|
    decreases a
  {
    match a
    case Char(c, _) => [Inst(Lit(c), star)]
    case AnyChar => [Inst(Any, star)]
    case Bracket(neg, body) => [Inst(Class(SetOf(neg, body)), star)]
    case Ref(n) => [Inst(Backref(n), star)]
    case Group(inner) => [Inst(Op.Open(g), false)] + CodeOfRe(inner, g + 1) + [Inst(Op.Close(g), star)]
  }

  function CodeOfRe(re: Re, g: nat): Code
    decreases re
  {
    if re.Empty? then [] else CodeOf(re.atom, re.star, g) + CodeOfRe(re.rest, g + Groups(re.atom))
  }

  function CodeOfPattern(w: Pattern): Code {
    (if w.bol then [Inst(Bol, false)] else []) + CodeOfRe(w.re, 0) + (if w.eol then [Inst(Eol, false)] else []) + [Inst(End, false)]
  }

  /** The compiler's tables: 9 groups, 8 bracket expressions, 256 instructions. */
  predicate Fits(w: Pattern) {
    GroupsRe(w.re) <= 9 && ClassesRe(w.re) <= 8 && |CodeOfPattern(w)| <= 256
  }

  // ---- the text at hand ----

  predicate Stands(t: Text, p: nat, s: Text) {
    p + |s| <= |t| && forall k :: 0 <= k < |s| ==> t[p + k] == s[k]
  }

  lemma StandsIn(t: Text, p: nat, s: Text)
    requires Stands(t, p, s)
    ensures p + |s| <= |t|
  {
  }

  lemma StandsCat(t: Text, p: nat, a: Text, b: Text)
    ensures Stands(t, p, a + b) <==> Stands(t, p, a) && Stands(t, p + |a|, b)
  {
    if Stands(t, p, a) && Stands(t, p + |a|, b) {
      forall k | 0 <= k < |a + b| ensures t[p + k] == (a + b)[k] {
        if |a| <= k {
          assert t[p + |a| + (k - |a|)] == b[k - |a|];
        }
      }
    }
    if Stands(t, p, a + b) {
      forall k | 0 <= k < |a| ensures t[p + k] == a[k] {
        assert (a + b)[k] == a[k];
      }
      forall k | 0 <= k < |b| ensures t[p + |a| + k] == b[k] {
        assert t[p + (|a| + k)] == (a + b)[|a| + k];
      }
    }
  }

  // ---- bracket expressions ----

  /** The scan stops at the bracket behind the body. */
  lemma {:induction false} ClassEndIs(t: Text, i: nat, body: Text, k: nat)
    requires Stands(t, i, body + [RBRACK]) && k <= |body| && body != []
    requires forall j :: 0 <= j < |body| ==> body[j] != 0 && (body[j] == RBRACK ==> j == 0)
    ensures i + |body| < |t| && ClassEnd(t, i + k, k == 0) == i + |body|
    decreases |body| - k
  {
    StandsCat(t, i, body, [RBRACK]);
    assert t[i + |body| + 0] == [RBRACK][0];
    if k < |body| {
      assert t[i + k] == body[k];
      if k + 1 < |body| {
        assert t[i + (k + 1)] == body[k + 1];
      }
      if k + 2 < |body| {
        assert t[i + (k + 2)] == body[k + 2];
      }
      if At(t, i + k + 1) == DASH && At(t, i + k + 2) != RBRACK && At(t, i + k + 2) != 0 {
        assert k + 3 <= |body|;
        ClassEndIs(t, i, body, k + 3);
      } else {
        ClassEndIs(t, i, body, k + 1);
      }
    }
  }

  /** Its members are those of the body alone. */
  lemma {:induction false} MembersAre(t: Text, i: nat, body: Text, k: nat)
    requires Stands(t, i, body + [RBRACK]) && k <= |body|
    ensures Members(t, i + k, i + |body|) == Members(body + [RBRACK], k, |body|)
    decreases |body| - k
  {
    var s := body + [RBRACK];
    if k < |body| {
      assert t[i + k] == s[k] && t[i + (k + 1)] == s[k + 1];
      if k + 2 <= |body| {
        assert t[i + (k + 2)] == s[k + 2];
      }
      if At(s, k + 1) == DASH {
        assert k + 2 <= |body|;
        if k + 3 <= |body| {
          MembersAre(t, i, body, k + 3);
        }
      }
      MembersAre(t, i, body, k + 1);
    }
  }

  lemma ClassIs(t: Text, p: nat, neg: bool, body: Text)
    requires Sayable(Bracket(neg, body), 0, false, false, false) && Stands(t, p, Spell(Bracket(neg, body)))
    ensures p + |Spell(Bracket(neg, body))| <= |t|
    ensures ClassAt(t, p + 1) == Some((SetOf(neg, body), p + |Spell(Bracket(neg, body))|))
  {
    hide Members, Universe, ClassEnd;
    var a, b := [LBRACK] + (if neg then [CARET] else []), body + [RBRACK];
    assert Spell(Bracket(neg, body)) == a + b;
    StandsCat(t, p, a, b);
    var i := p + |a|;
    assert neg ==> t[p + 1] == a[1] == CARET;
    assert t[i + 0] == b[0];
    ClassEndIs(t, i, body, 0);
    MembersAre(t, i, body, 0);
  }

  // ---- turns of the compiler's loop ----

  /** The state with r more text read and c more code. */
  function Later(st: St, n: nat, c: Code, groups: nat, classes: nat, last: int): St {
    St(st.p + n, st.code + c, st.groups + groups, st.classes + classes, st.stack, last)
  }

  predicate Room(st: St, n: nat, groups: nat, classes: nat) {
    |st.code| + n <= MAX_RE_OPS && st.groups + groups <= MAX_GROUPS && st.classes + classes <= MAX_CLASSES
  }

  /** n characters of text are to be compiled here: not first, where some code is there; free, where a star has nothing to
      repeat; not last, where the delimiter does not follow. */
  predicate Placed(t: Text, delim: Byte, st: St, n: nat, first: bool, free: bool, last: bool) {
    && (!first ==> st.code != []) && (free ==> st.last == -1) && (!last ==> !AtEnd(t, st.p + n, delim))
  }

  /** What is written never begins with the delimiter. */
  lemma FirstByte(re: Re, delim: Byte, first: bool, free: bool, last: bool)
    requires re.Then? && SayableRe(re, delim, first, free, last)
    ensures SpellRe(re) != [] && SpellRe(re)[0] != delim && SpellRe(re)[0] != 0
  {
  }

  /** What follows an atom. */
  lemma AtomPlaced(t: Text, delim: Byte, st: St, re: Re, first: bool, free: bool, last: bool)
    requires re.Then? && SayableRe(re, delim, first, free, last) && Stands(t, st.p, SpellRe(re))
    requires Placed(t, delim, st, |SpellRe(re)|, first, free, last)
    ensures Placed(t, delim, st, |Spell(re.atom)|, first, free, last && !re.star && re.rest.Empty?)
  {
    ThenSpelt(t, st.p, re);
    var p := st.p + |Spell(re.atom)|;
    if re.star {
      assert t[p + 0] == [STAR][0];
    } else if re.rest.Then? {
      FirstByte(re.rest, delim, false, re.star, last);
      assert t[p + 0] == SpellRe(re.rest)[0];
    }
  }

  /** What follows what comes behind it. */
  lemma RestPlaced(t: Text, delim: Byte, st: St, two: St, re: Re, first: bool, free: bool, last: bool)
    requires re.Then? && Placed(t, delim, st, |SpellRe(re)|, first, free, last)
    requires two.p + |SpellRe(re.rest)| == st.p + |SpellRe(re)| && two.code != [] && (re.star ==> two.last == -1)
    ensures Placed(t, delim, two, |SpellRe(re.rest)|, false, re.star, last)
  {
  }

  /** An atom other than a group takes one turn. */
  lemma TurnAtom(t: Text, delim: Byte, st: St, a: Atom, first: bool, free: bool, last: bool)
    requires StOk(t, st) && Sayable(a, delim, first, free, last) && !a.Group? && Stands(t, st.p, Spell(a))
    requires Room(st, 0, 0, 0) && Placed(t, delim, st, |Spell(a)|, first, free, last)
    ensures !AtEnd(t, st.p, delim)
    ensures Turn(t, delim, st) ==
      if Room(st, 1, 0, Classes(a)) then Some(Later(st, |Spell(a)|, CodeOf(a, false, 0), 0, Classes(a), |st.code|)) else None
  {
    hide Members, Universe, ClassAt, SetOf;
    var s := Spell(a);
    assert t[st.p + 0] == s[0];
    if 1 < |s| {
      assert t[st.p + 1] == s[1];
    }
    if a.Bracket? {
      ClassIs(t, st.p, a.neg, a.body);
    }
  }

  lemma TurnStar(t: Text, delim: Byte, st: St)
    requires StOk(t, st) && delim != STAR && Stands(t, st.p, [STAR]) && 0 <= st.last
    ensures !AtEnd(t, st.p, delim)
    ensures Turn(t, delim, st) == Some(st.(p := st.p + 1, code := st.code[st.last := st.code[st.last].(starred := true)], last := -1))
  {
    assert t[st.p + 0] == [STAR][0];
  }

  lemma TurnOpen(t: Text, delim: Byte, st: St)
    requires StOk(t, st) && delim != BACKSLASH && Stands(t, st.p, [BACKSLASH, LPAREN]) && Room(st, 0, 0, 0) && |st.stack| <= st.groups
    ensures !AtEnd(t, st.p, delim)
    ensures Turn(t, delim, st) == if Room(st, 1, 1, 0) then Some(Opened(st)) else None
  {
    assert t[st.p + 0] == [BACKSLASH, LPAREN][0] && t[st.p + 1] == [BACKSLASH, LPAREN][1];
  }

  function Opened(st: St): St {
    St(st.p + 2, st.code + [Inst(Op.Open(st.groups), false)], st.groups + 1, st.classes, st.stack + [st.groups], -1)
  }

  lemma TurnClose(t: Text, delim: Byte, st: St, stack: seq<nat>, g: nat)
    requires StOk(t, st) && delim != BACKSLASH && Stands(t, st.p, [BACKSLASH, RPAREN]) && Room(st, 0, 0, 0) && st.stack == stack + [g]
    ensures !AtEnd(t, st.p, delim)
    ensures Turn(t, delim, st) ==
      if Room(st, 1, 0, 0) then Some(St(st.p + 2, st.code + [Inst(Op.Close(g), false)], st.groups, st.classes, stack, |st.code|)) else None
  {
    assert t[st.p + 0] == [BACKSLASH, RPAREN][0] && t[st.p + 1] == [BACKSLASH, RPAREN][1];
    assert (stack + [g])[..|stack|] == stack;
  }

  lemma Starred(a: Atom, g: nat)
    ensures var c := CodeOf(a, false, g); CodeOf(a, true, g) == c[|c| - 1 := c[|c| - 1].(starred := true)]
  {
  }

  // ---- the compiler on what was written ----

  /** An atom is compiled to its code, or refused for lack of room. */
  lemma {:induction false} RunAtom(t: Text, delim: Byte, st: St, a: Atom, first: bool, free: bool, last: bool) returns (next: St)
    requires StOk(t, st) && Sayable(a, delim, first, free, last) && Stands(t, st.p, Spell(a))
    requires Room(st, 0, 0, 0) && |st.stack| <= st.groups && Placed(t, delim, st, |Spell(a)|, first, free, last)
    ensures var c := CodeOf(a, false, st.groups);
      && next == Later(st, |Spell(a)|, c, Groups(a), Classes(a), |st.code| + |c| - 1) && StOk(t, next)
      && Run(t, delim, st) == if Room(st, |c|, Groups(a), Classes(a)) then Run(t, delim, next) else None
    decreases a, 0
  {
    hide Turn, Run, Stands, SpellRe, CodeOfRe, GroupsRe, ClassesRe, SayableRe, AtEnd;
    var c := CodeOf(a, false, st.groups);
    StandsIn(t, st.p, Spell(a));
    next := Later(st, |Spell(a)|, c, Groups(a), Classes(a), |st.code| + |c| - 1);
    if !a.Group? {
      TurnAtom(t, delim, st, a, first, free, last);
      RunTurn(t, delim, st);
    } else {
      GroupSpelt(t, st.p, a);
      TurnOpen(t, delim, st);
      RunTurn(t, delim, st);
      if Room(st, 1, 1, 0) {
        var one := Opened(st);
        InnerPlaced(t, delim, one, a);
        var two := RunRe(t, delim, one, a.inner, false, true, false);
        if Room(one, |CodeOfRe(a.inner, one.groups)|, GroupsRe(a.inner), ClassesRe(a.inner)) {
          TurnClose(t, delim, two, st.stack, st.groups);
          RunTurn(t, delim, two);
          assert st.code + c == two.code + [Inst(Op.Close(st.groups), false)];
          assert one.code + CodeOfRe(a.inner, one.groups) == two.code;
        }
      }
    }
  }

  lemma InnerPlaced(t: Text, delim: Byte, one: St, a: Atom)
    requires a.Group? && delim != BACKSLASH && one.code != [] && one.last == -1
    requires Stands(t, one.p + |SpellRe(a.inner)|, [BACKSLASH, RPAREN])
    ensures Placed(t, delim, one, |SpellRe(a.inner)|, false, true, false)
  {
    assert t[one.p + |SpellRe(a.inner)| + 0] == [BACKSLASH, RPAREN][0];
  }

  lemma GroupSpelt(t: Text, p: nat, a: Atom)
    requires a.Group? && Stands(t, p, Spell(a))
    ensures Stands(t, p, [BACKSLASH, LPAREN]) && Stands(t, p + 2, SpellRe(a.inner))
    ensures Stands(t, p + 2 + |SpellRe(a.inner)|, [BACKSLASH, RPAREN]) && |Spell(a)| == |SpellRe(a.inner)| + 4
  {
    var x, y, z := [BACKSLASH, LPAREN], SpellRe(a.inner), [BACKSLASH, RPAREN];
    StandsCat(t, p, x + y, z);
    StandsCat(t, p, x, y);
  }

  /** So is a whole expression. */
  lemma {:induction false} RunRe(t: Text, delim: Byte, st: St, re: Re, first: bool, free: bool, last: bool) returns (next: St)
    requires StOk(t, st) && SayableRe(re, delim, first, free, last) && Stands(t, st.p, SpellRe(re))
    requires Room(st, 0, 0, 0) && |st.stack| <= st.groups && Placed(t, delim, st, |SpellRe(re)|, first, free, last)
    ensures var c := CodeOfRe(re, st.groups);
      && next == Later(st, |SpellRe(re)|, c, GroupsRe(re), ClassesRe(re), next.last) && StOk(t, next)
      && Run(t, delim, st) == if Room(st, |c|, GroupsRe(re), ClassesRe(re)) then Run(t, delim, next) else None
    decreases re, 0
  {
    hide Turn, Run, Stands, Spell, CodeOf, Groups, Classes, Sayable, AtEnd, Placed;
    StandsIn(t, st.p, SpellRe(re));
    next := Later(st, |SpellRe(re)|, CodeOfRe(re, st.groups), GroupsRe(re), ClassesRe(re), -1);
    if re.Empty? {
      next := st;
      assert st.code + [] == st.code;
    } else {
      var a, c := re.atom, CodeOf(re.atom, re.star, st.groups);
      ThenSpelt(t, st.p, re);
      AtomPlaced(t, delim, st, re, first, free, last);
      var two := RunPiece(t, delim, st, a, re.star, first, free, last && !re.star && re.rest.Empty?);
      hide Later, Room;
      LaterIs(st, two.p - st.p, c, Groups(a), Classes(a), two.last);
      if Room(st, |c|, Groups(a), Classes(a)) {
        RestPlaced(t, delim, st, two, re, first, free, last);
        next := RunRe(t, delim, two, re.rest, false, re.star, last);
      } else {
        LaterIs(st, |SpellRe(re)|, CodeOfRe(re, st.groups), GroupsRe(re), ClassesRe(re), -1);
      }
      LaterTwice(st, two.p - st.p, c, Groups(a), Classes(a), two.last,
                 |SpellRe(re.rest)|, CodeOfRe(re.rest, two.groups), GroupsRe(re.rest), ClassesRe(re.rest), next.last);
    }
  }

  lemma LaterIs(st: St, n: nat, c: Code, groups: nat, classes: nat, last: int)
    ensures var x := Later(st, n, c, groups, classes, last);
            && x.p == st.p + n && x.code == st.code + c && x.groups == st.groups + groups && x.stack == st.stack && x.last == last
            && (Room(st, |c|, groups, classes) ==> Room(x, 0, 0, 0))
  {
  }

  lemma LaterTwice(st: St, n: nat, c: Code, groups: nat, classes: nat, last: int, n': nat, c': Code, groups': nat, classes': nat, last': int)
    ensures var x := Later(st, n, c, groups, classes, last);
            && Later(x, n', c', groups', classes', last') == Later(st, n + n', c + c', groups + groups', classes + classes', last')
            && (Room(st, |c + c'|, groups + groups', classes + classes') <==> Room(st, |c|, groups, classes) && Room(x, |c'|, groups', classes'))
  {
    assert st.code + c + c' == st.code + (c + c');
  }

  /** An atom and the star behind it. */
  lemma RunPiece(t: Text, delim: Byte, st: St, a: Atom, star: bool, first: bool, free: bool, last: bool) returns (two: St)
    requires StOk(t, st) && Sayable(a, delim, first, free, last) && Stands(t, st.p, Spell(a))
    requires star ==> delim != STAR && Stands(t, st.p + |Spell(a)|, [STAR])
    requires Room(st, 0, 0, 0) && |st.stack| <= st.groups && Placed(t, delim, st, |Spell(a)|, first, free, last)
    ensures var c := CodeOf(a, star, st.groups);
      && two == Later(st, |Spell(a)| + (if star then 1 else 0), c, Groups(a), Classes(a), if star then -1 else |st.code| + |c| - 1) && StOk(t, two)
      && Run(t, delim, st) == if Room(st, |c|, Groups(a), Classes(a)) then Run(t, delim, two) else None
    decreases a, 1
  {
    hide Turn, Run, Stands, Spell, CodeOf, Groups, Classes, Sayable, AtEnd, Placed;
    two := RunAtom(t, delim, st, a, first, free, last);
    Starred(a, st.groups);
    if star {
      two := RunStar(t, delim, st, a, two);
    }
  }

  /** The star behind an atom marks its last instruction. */
  lemma RunStar(t: Text, delim: Byte, st: St, a: Atom, one: St) returns (two: St)
    requires StOk(t, one) && delim != STAR && Stands(t, one.p, [STAR])
    requires var c := CodeOf(a, false, st.groups); 0 < |c| && one == Later(st, |Spell(a)|, c, Groups(a), Classes(a), |st.code| + |c| - 1)
    ensures two == Later(st, |Spell(a)| + 1, CodeOf(a, true, st.groups), Groups(a), Classes(a), -1)
    ensures StOk(t, two) && Run(t, delim, one) == Run(t, delim, two)
  {
    hide Turn, Run, Stands, Spell, CodeOf, Groups, Classes, AtEnd;
    TurnStar(t, delim, one);
    RunTurn(t, delim, one);
    two := Later(st, |Spell(a)| + 1, CodeOf(a, true, st.groups), Groups(a), Classes(a), -1);
    Starred(a, st.groups);
    StarredIn(st.code, CodeOf(a, false, st.groups));
  }

  lemma StarredIn(x: Code, c: Code)
    requires 0 < |c|
    ensures var k := |x| + |c| - 1; var s := c[|c| - 1].(starred := true); (x + c)[k := (x + c)[k].(starred := true)] == x + c[|c| - 1 := s]
  {
  }

  lemma ThenSpelt(t: Text, p: nat, re: Re)
    requires re.Then? && Stands(t, p, SpellRe(re))
    ensures var a, n := Spell(re.atom), if re.star then 1 else 0;
      && Stands(t, p, a) && (re.star ==> Stands(t, p + |a|, [STAR])) && Stands(t, p + |a| + n, SpellRe(re.rest))
      && |SpellRe(re)| == |a| + n + |SpellRe(re.rest)|
  {
    hide Spell, Stands;
    var a, s := Spell(re.atom), if re.star then [STAR] else [];
    assert SpellRe(re) == a + s + SpellRe(re.rest);
    StandsCat(t, p, a + s, SpellRe(re.rest));
    StandsCat(t, p, a, s);
  }

  /** Round trip: a pattern written out in front of its delimiter compiles to its own code exactly when the
      tables have room for it, and the text goes on at the delimiter. */
  lemma PatternCompiles(t: Text, delim: Byte, p: nat, w: Pattern)
    requires p <= |t| && SayablePattern(w, delim) && Stands(t, p, SpellPattern(w))
    requires AtEnd(t, p + |SpellPattern(w)|, delim)
    ensures Run(t, delim, Start(p)) ==
      if Fits(w) then Some((CodeOfPattern(w), p + |SpellPattern(w)|)) else None
  {
    hide Run, Turn, Spell, SpellRe, CodeOf, CodeOfRe, GroupsRe, ClassesRe, SayableRe, Stands;
    var x, y, z := if w.bol then [CARET] else [], SpellRe(w.re), if w.eol then [DOLLAR] else [];
    StandsCat(t, p, x + y, z);
    StandsCat(t, p, x, y);
    var st := Start(p);
    if w.bol {
      TurnBol(t, delim, st);
      RunTurn(t, delim, st);
      st := st.(p := p + 1, code := [Inst(Bol, false)]);
    }
    if w.eol {
      DollarPlaced(t, delim, st.p + |y|);
    }
    var two := RunRe(t, delim, st, w.re, !w.bol, true, !w.eol);
    PatternCode(w, st.code);
    if Room(st, |CodeOfRe(w.re, 0)|, GroupsRe(w.re), ClassesRe(w.re)) {
      if w.eol {
        TurnEol(t, delim, two);
        RunTurn(t, delim, two);
        if |two.code| < MAX_RE_OPS {
          RunEnd(t, delim, two.(p := two.p + 1, code := two.code + [Inst(Eol, false)], last := -1));
        }
      } else {
        RunEnd(t, delim, two);
      }
    }
  }

  lemma DollarPlaced(t: Text, delim: Byte, p: nat)
    requires delim != DOLLAR && Stands(t, p, [DOLLAR])
    ensures !AtEnd(t, p, delim)
  {
    assert t[p + 0] == [DOLLAR][0];
  }

  lemma PatternCode(w: Pattern, c: Code)
    requires c == if w.bol then [Inst(Bol, false)] else []
    ensures CodeOfPattern(w) == (if w.eol then c + CodeOfRe(w.re, 0) + [Inst(Eol, false)] else c + CodeOfRe(w.re, 0)) + [Inst(End, false)]
  {
  }

  lemma TurnBol(t: Text, delim: Byte, st: St)
    requires StOk(t, st) && delim != CARET && Stands(t, st.p, [CARET]) && st.code == []
    ensures !AtEnd(t, st.p, delim) && Turn(t, delim, st) == Some(st.(p := st.p + 1, code := [Inst(Bol, false)], last := -1))
  {
    assert t[st.p + 0] == [CARET][0];
    assert st.code + [Inst(Bol, false)] == [Inst(Bol, false)];
  }

  lemma TurnEol(t: Text, delim: Byte, st: St)
    requires StOk(t, st) && delim != DOLLAR && Stands(t, st.p, [DOLLAR]) && AtEnd(t, st.p + 1, delim)
    ensures !AtEnd(t, st.p, delim)
    ensures Turn(t, delim, st) ==
      if MAX_RE_OPS <= |st.code| then None else Some(st.(p := st.p + 1, code := st.code + [Inst(Eol, false)], last := -1))
  {
    assert t[st.p + 0] == [DOLLAR][0];
  }

  // ---- patterns of plain characters ----

  function Chars(s: Text): Re {
    if s == [] then Empty else Then(Char(s[0], true), false, Chars(s[1..]))
  }

  function Literals(s: Text): Code {
    seq(|s|, i requires 0 <= i < |s| => Inst(Lit(s[i]), false))
  }

  lemma {:induction false} CharsCode(s: Text, g: nat)
    ensures CodeOfRe(Chars(s), g) == Literals(s)
    decreases |s|
  {
    if s != [] {
      CharsCode(s[1..], g);
      assert Literals(s) == [Inst(Lit(s[0]), false)] + Literals(s[1..]);
    }
  }

  lemma LiteralsFormed(t: Text)
    ensures WellFormed(Literals(t) + [Inst(End, false)])
  {
  }

  /** Code for ordinary characters matches exactly their own text. */
  lemma {:induction false} LiteralMatches(t: Text, k: nat, s: Text, sp: nat, e: nat, caps: Caps)
    requires k <= |t| && sp <= |s|
    requires WellFormed(Literals(t) + [Inst(End, false)]) && Ready(Literals(t) + [Inst(End, false)], k, NoCaps(), sp)
    ensures Matches(Literals(t) + [Inst(End, false)], k, s, sp, NoCaps(), e, caps)
            <==> caps == NoCaps() && e == sp + |t| - k && e <= |s| && s[sp..e] == t[k..]
    decreases |t| - k
  {
    hide WellFormed;
    var code := Literals(t) + [Inst(End, false)];
    if k < |t| {
      assert code[k] == Inst(Lit(t[k]), false);
      if sp < |s| && s[sp] == t[k] {
        OneWay(code, k, s, sp, NoCaps(), sp + 1);
        FromIs(code, k, s, sp, sp + 1, NoCaps());
        LiteralMatches(t, k + 1, s, sp + 1, e, caps);
        assert t[k..] == [t[k]] + t[k + 1..];
        if e <= |s| && e == sp + |t| - k {
          assert s[sp..e] == [s[sp]] + s[sp + 1..e];
        }
      } else if e <= |s| && e == sp + |t| - k {
        assert s[sp..e][0] == s[sp] && t[k..][0] == t[k];
      }
    } else {
      assert code[k].op == End;
    }
  }

  /** A pattern of plain characters matches exactly its own text. */
  lemma PlainMatches(t: Text, s: Text, sp: nat, e: nat, caps: Caps)
    requires sp <= |s|
    ensures WellFormed(CodeOfPattern(Pattern(false, Chars(t), false)))
    ensures Ready(CodeOfPattern(Pattern(false, Chars(t), false)), 0, NoCaps(), sp)
    ensures Matches(CodeOfPattern(Pattern(false, Chars(t), false)), 0, s, sp, NoCaps(), e, caps)
            <==> caps == NoCaps() && e == sp + |t| && e <= |s| && s[sp..e] == t
  {
    hide Matches, WellFormed, Ready;
    CharsCode(t, 0);
    var code := Literals(t) + [Inst(End, false)];
    assert CodeOfPattern(Pattern(false, Chars(t), false)) == code;
    LiteralsFormed(t);
    ReadyAtStart(code, sp);
    LiteralMatches(t, 0, s, sp, e, caps);
    assert t[0..] == t;
  }
}
