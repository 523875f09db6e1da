/** The compiler accepts exactly the texts that write out a pattern for which its tables have room. */
module SedAccepts {
  import opened Options
  import opened Bytes
  import opened SedRegex
  import opened SedCompile
  import opened SedPattern

  /** w is written at p, in front of the delimiter. */
  predicate Written(t: Text, p: nat, delim: Byte, w: Pattern) {
    && SayablePattern(w, delim) && Stands(t, p, SpellPattern(w))
    && AtEnd(t, p + |SpellPattern(w)|, delim)
  }

  // ---- one atom ----

  lemma {:induction false} BodyRead(t: Text, p: nat, first: bool, k: nat)
    requires p <= |t| && 0 <= ClassEnd(t, p, first) && p <= k < ClassEnd(t, p, first)
    ensures t[k] != 0 && (t[k] == RBRACK ==> k == p && first)
    decreases |t| - p
  {
    if k != p {
      if At(t, p + 1) == DASH && At(t, p + 2) != RBRACK && At(t, p + 2) != 0 {
        if p + 3 <= k {
          BodyRead(t, p + 3, false, k);
        }
      } else {
        BodyRead(t, p + 1, false, k);
      }
    }
  }

  /** What stands between the brackets is a body. */
  lemma BracketAt(t: Text, p: nat) returns (a: Atom)
    requires p < |t| && t[p] == LBRACK && ClassAt(t, p + 1).Some?
    ensures a.Bracket? && Sayable(a, 0, false, false, false) && Stands(t, p, Spell(a))
  {
    hide Members, Universe;
    var neg := At(t, p + 1) == CARET;
    var i := if neg then p + 2 else p + 1;
    var e := ClassEnd(t, i, true);
    a := Bracket(neg, t[i..e]);
    forall k | 0 <= k < |a.body| ensures a.body[k] != 0 && (a.body[k] == RBRACK ==> k == 0) {
      BodyRead(t, i, true, i + k);
    }
  }

  /** Here an expression ends: at the delimiter, at the end of a group, or at "$" in last place. */
  predicate Stops(t: Text, p: nat, delim: Byte) {
    AtEnd(t, p, delim) || Stands(t, p, [BACKSLASH, RPAREN]) || (Stands(t, p, [DOLLAR]) && AtEnd(t, p + 1, delim))
  }

  /** The atom that the compiler is about to read, groups excepted. */
  lemma AtomAt(t: Text, delim: Byte, st: St) returns (a: Atom)
    requires StOk(t, st) && !Stops(t, st.p, delim) && Turn(t, delim, st).Some?
    requires st.code == [] ==> At(t, st.p) != CARET
    requires 0 <= st.last ==> At(t, st.p) != STAR
    requires !Stands(t, st.p, [BACKSLASH, LPAREN])
    ensures !a.Group? && Stands(t, st.p, Spell(a))
    ensures Sayable(a, delim, st.code == [], st.last == -1, AtEnd(t, st.p + |Spell(a)|, delim))
  {
    hide ClassAt;
    var c := At(t, st.p);
    if c == BACKSLASH {
      var n := At(t, st.p + 1);
      a := if 0x31 <= n <= 0x39 then Ref(n - 0x30) else Char(n, true);
    } else if c == DOT {
      a := AnyChar;
    } else if c == LBRACK {
      a := BracketAt(t, st.p);
    } else {
      a := Char(c, false);
    }
  }

  // ---- a whole expression ----

  /** What is to be read from st on. */
  ghost predicate ReadAs(t: Text, delim: Byte, st: St, re: Re) {
    var q := st.p + |SpellRe(re)|;
    && Stands(t, st.p, SpellRe(re)) && Stops(t, q, delim)
    && SayableRe(re, delim, st.code == [], st.last == -1, AtEnd(t, q, delim))
  }

  predicate Reading(t: Text, delim: Byte, st: St) {
    && StOk(t, st) && Room(st, 0, 0, 0) && |st.stack| <= st.groups
    && (!AtEnd(t, st.p, delim) ==> (st.code == [] ==> At(t, st.p) != CARET) && (0 <= st.last ==> At(t, st.p) != STAR))
  }

  /** If the text is accepted, an expression stands here. */
  lemma {:induction false} ReadRe(t: Text, delim: Byte, st: St) returns (re: Re)
    requires Reading(t, delim, st)
    ensures Run(t, delim, st).Some? ==> ReadAs(t, delim, st, re)
    decreases |t| - st.p, 1
  {
    hide Run, Turn, Stands, CodeOf, Groups, Classes, Sayable;
    if Run(t, delim, st).None? || Stops(t, st.p, delim) {
      re := Empty;
      NoneStand(t, st.p);
      return;
    }
    RunTurn(t, delim, st);
    var a;
    if Stands(t, st.p, [BACKSLASH, LPAREN]) {
      a := ReadGroup(t, delim, st);
    } else {
      a := AtomAt(t, delim, st);
    }
    AtomLength(a, delim, st.code == [], st.last == -1, AtEnd(t, st.p + |Spell(a)|, delim));
    StandsIn(t, st.p, Spell(a));
    var one := RunAtom(t, delim, st, a, st.code == [], st.last == -1, AtEnd(t, st.p + |Spell(a)|, delim));
    var two, star := one, At(t, one.p) == STAR && !AtEnd(t, one.p, delim);
    if star {
      StarHere(t, one.p);
      two := RunStar(t, delim, st, a, one);
    }
    Starred(a, st.groups);
    NextReads(st, one, two, |CodeOf(a, false, st.groups)|, Groups(a), Classes(a));
    var rest := ReadRe(t, delim, two);
    re := Then(a, star, rest);
    ThenReads(t, delim, st, a, star, rest);
  }

  lemma NextReads(st: St, one: St, two: St, n: nat, groups: nat, classes: nat)
    requires Room(st, n, groups, classes) && 0 < n && |st.stack| <= st.groups
    requires |one.code| == |st.code| + n && one.groups == st.groups + groups && one.classes == st.classes + classes && one.stack == st.stack
    requires |two.code| == |one.code| && two.groups == one.groups && two.classes == one.classes && two.stack == one.stack
    ensures Room(two, 0, 0, 0) && |two.stack| <= two.groups && two.code != []
  {
  }

  /** Text that may stand in last place may stand anywhere. */
  lemma SayableLess(a: Atom, delim: Byte, first: bool, free: bool, last: bool)
    requires Sayable(a, delim, first, free, last)
    ensures Sayable(a, delim, first, free, false)
  {
  }

  lemma NoneStand(t: Text, p: nat)
    requires p <= |t|
    ensures Stands(t, p, [])
  {
  }

  lemma StarHere(t: Text, p: nat)
    requires At(t, p) == STAR
    ensures Stands(t, p, [STAR])
  {
  }

  lemma AtomLength(a: Atom, delim: Byte, first: bool, free: bool, last: bool)
    requires Sayable(a, delim, first, free, last)
    ensures 0 < |Spell(a)|
  {
  }

  lemma ThenReads(t: Text, delim: Byte, st: St, a: Atom, star: bool, rest: Re)
    requires Stands(t, st.p, Spell(a)) && (star ==> delim != STAR && Stands(t, st.p + |Spell(a)|, [STAR]))
    requires Sayable(a, delim, st.code == [], st.last == -1, AtEnd(t, st.p + |Spell(a)|, delim))
    requires var q := st.p + |Spell(a)| + if star then 1 else 0;
             && Stands(t, q, SpellRe(rest)) && Stops(t, q + |SpellRe(rest)|, delim)
             && SayableRe(rest, delim, false, star, AtEnd(t, q + |SpellRe(rest)|, delim))
    ensures ReadAs(t, delim, st, Then(a, star, rest))
  {
    hide Stands, Stops, AtEnd, Sayable;
    SayableLess(a, delim, st.code == [], st.last == -1, AtEnd(t, st.p + |Spell(a)|, delim));
    var x, y := Spell(a), if star then [STAR] else [];
    StandsIn(t, st.p, x);
    if !star {
      NoneStand(t, st.p + |x|);
    }
    StandsCat(t, st.p, x, y);
    StandsCat(t, st.p, x + y, SpellRe(rest));
    var re := Then(a, star, rest);
    assert SpellRe(re) == x + y + SpellRe(rest);
    var end := st.p + |SpellRe(re)|;
    assert end == st.p + |Spell(a)| + (if star then 1 else 0) + |SpellRe(rest)|;
    var last := AtEnd(t, end, delim) && !star && rest.Empty?;
    if last {
      assert end == st.p + |Spell(a)|;
    }
    assert Sayable(a, delim, st.code == [], st.last == -1, last);
  }

  /** A group that is opened is closed again if the text is accepted. */
  lemma ReadGroup(t: Text, delim: Byte, st: St) returns (a: Atom)
    requires Reading(t, delim, st) && !AtEnd(t, st.p, delim) && Stands(t, st.p, [BACKSLASH, LPAREN]) && Run(t, delim, st).Some?
    ensures a.Group? && Stands(t, st.p, Spell(a)) && Sayable(a, delim, st.code == [], st.last == -1, AtEnd(t, st.p + |Spell(a)|, delim))
    decreases |t| - st.p, 0
  {
    hide Run, Turn, Stands, SpellRe, CodeOfRe, GroupsRe, ClassesRe, SayableRe, AtEnd;
    NotDelim(t, delim, st.p, [BACKSLASH, LPAREN]);
    TurnOpen(t, delim, st);
    RunTurn(t, delim, st);
    var one := Opened(st);
    StandsIn(t, st.p, [BACKSLASH, LPAREN]);
    var inner := ReadRe(t, delim, one);
    var q := one.p + |SpellRe(inner)|;
    StandsIn(t, one.p, SpellRe(inner));
    var two := RunRe(t, delim, one, inner, false, true, AtEnd(t, q, delim));
    if AtEnd(t, q, delim) {
      RunEnd(t, delim, two);
      assert false;
    }
    if Stands(t, q, [DOLLAR]) && AtEnd(t, q + 1, delim) {
      EolLast(t, delim, two);
      assert false;
    }
    a := Group(inner);
    assert [BACKSLASH, LPAREN] + SpellRe(inner) + [BACKSLASH, RPAREN] == Spell(a);
    StandsCat(t, st.p, [BACKSLASH, LPAREN], SpellRe(inner));
    StandsCat(t, st.p, [BACKSLASH, LPAREN] + SpellRe(inner), [BACKSLASH, RPAREN]);
  }

  /** What stands before the end does not begin with the delimiter. */
  lemma NotDelim(t: Text, delim: Byte, p: nat, s: Text)
    requires s != [] && Stands(t, p, s) && !AtEnd(t, p, delim)
    ensures s[0] != delim
  {
    assert t[p + 0] == s[0];
  }

  /** "$" in last place, and then the end. */
  lemma EolLast(t: Text, delim: Byte, st: St)
    requires StOk(t, st) && !AtEnd(t, st.p, delim) && Stands(t, st.p, [DOLLAR]) && AtEnd(t, st.p + 1, delim)
    ensures Run(t, delim, st).Some? ==> st.stack == []
  {
    NotDelim(t, delim, st.p, [DOLLAR]);
    hide Turn, Run, Stands;
    StandsIn(t, st.p, [DOLLAR]);
    TurnEol(t, delim, st);
    RunTurn(t, delim, st);
    if |st.code| < MAX_RE_OPS {
      RunEnd(t, delim, st.(p := st.p + 1, code := st.code + [Inst(Eol, false)], last := -1));
    }
  }

  // ---- a whole pattern ----

  /** What is accepted is a pattern written out. */
  lemma PatternAt(t: Text, delim: Byte, p: nat) returns (w: Pattern)
    requires p <= |t| && Run(t, delim, Start(p)).Some?
    ensures Written(t, p, delim, w)
  {
    hide Run, Turn, Stands, SpellRe, CodeOfRe, GroupsRe, ClassesRe, SayableRe, AtEnd;
    var st, bol := Start(p), At(t, p) == CARET && !AtEnd(t, p, delim);
    var x := if bol then [CARET] else [];
    if bol {
      CaretHere(t, p);
      NotDelim(t, delim, p, [CARET]);
      TurnBol(t, delim, st);
      RunTurn(t, delim, st);
      st := st.(p := p + 1, code := [Inst(Bol, false)]);
    } else {
      NoneStand(t, p);
    }
    var re := ReadRe(t, delim, st);
    var y, q := SpellRe(re), st.p + |SpellRe(re)|;
    StandsIn(t, st.p, y);
    StandsCat(t, p, x, y);
    var two := RunRe(t, delim, st, re, !bol, true, AtEnd(t, q, delim));
    var eol := !AtEnd(t, q, delim);
    var z := if eol then [DOLLAR] else [];
    if eol {
      if Stands(t, q, [BACKSLASH, RPAREN]) {
        CloseAlone(t, delim, two);
        assert false;
      }
      NotDelim(t, delim, q, [DOLLAR]);
    } else {
      NoneStand(t, q);
    }
    StandsCat(t, p, x + y, z);
    w := Pattern(bol, re, eol);
    assert SpellPattern(w) == x + y + z;
  }

  lemma CaretHere(t: Text, p: nat)
    requires At(t, p) == CARET
    ensures Stands(t, p, [CARET])
  {
  }

  lemma CloseAlone(t: Text, delim: Byte, st: St)
    requires StOk(t, st) && !AtEnd(t, st.p, delim) && Stands(t, st.p, [BACKSLASH, RPAREN]) && st.stack == []
    ensures Run(t, delim, st).None?
  {
    assert t[st.p + 0] == [BACKSLASH, RPAREN][0] && t[st.p + 1] == [BACKSLASH, RPAREN][1];
    RunTurn(t, delim, st);
  }

  /** A text is accepted exactly when it writes out a pattern for which there is room, and then it gives that pattern's code. */
  lemma Accepts(t: Text, delim: Byte, p: nat)
    requires p <= |t|
    ensures Run(t, delim, Start(p)).Some? <==> exists w :: Written(t, p, delim, w) && Fits(w)
    ensures forall w :: Written(t, p, delim, w) && Fits(w) ==> Run(t, delim, Start(p)) == Some((CodeOfPattern(w), p + |SpellPattern(w)|))
  {
    hide Run, Fits, CodeOfPattern, SpellPattern;
    forall w | Written(t, p, delim, w)
      ensures Run(t, delim, Start(p)) == if Fits(w) then Some((CodeOfPattern(w), p + |SpellPattern(w)|)) else None
    {
      PatternCompiles(t, delim, p, w);
    }
    if Run(t, delim, Start(p)).Some? {
      var w := PatternAt(t, delim, p);
    }
  }
}
