/** Link counts against the names that all directories list. */
module UfsLinks {
  import opened Bytes
  import opened UfsFormat
  import opened UfsDirent

  predicate IsReg(i: Inode) { Mode(i) / 0x1000 == 8 }

  // ---- counting records ----

  ghost function Pick(m: multiset<Dirent>): (e: Dirent)
    requires m != multiset{}
    ensures e in m
  {
    var e :| e in m;
    e
  }

  /** How many records of m satisfy p. */
  ghost function Tally(m: multiset<Dirent>, p: Dirent -> bool): nat
    decreases |m|
  {
    if m == multiset{} then 0
    else (if p(Pick(m)) then 1 else 0) + Tally(m - multiset{Pick(m)}, p)
  }

  lemma {:induction false} CountAdd(m: multiset<Dirent>, e: Dirent, p: Dirent -> bool)
    ensures Tally(m + multiset{e}, p) == Tally(m, p) + if p(e) then 1 else 0
    decreases |m|
  {
    var x := Pick(m + multiset{e});
    if x == e {
      assert m + multiset{e} - multiset{e} == m;
    } else {
      var r := m - multiset{x};
      assert m + multiset{e} - multiset{x} == r + multiset{e};
      assert m == r + multiset{x};
      CountAdd(r, e, p);
      CountAdd(r, x, p);
    }
  }

  lemma {:induction false} CountSame(m: multiset<Dirent>, p: Dirent -> bool, q: Dirent -> bool)
    requires forall e: Dirent :: e in m ==> p(e) == q(e)
    ensures Tally(m, p) == Tally(m, q)
    decreases |m|
  {
    if m != multiset{} {
      CountSame(m - multiset{Pick(m)}, p, q);
    }
  }

  lemma {:induction false} CountNone(m: multiset<Dirent>, p: Dirent -> bool)
    requires forall e: Dirent :: e in m ==> !p(e)
    ensures Tally(m, p) == 0
    decreases |m|
  {
    if m != multiset{} {
      CountNone(m - multiset{Pick(m)}, p);
    }
  }

  // ---- all directories of a volume ----

  /** What each inode lists (nothing unless it is a directory in use). */
  type Lists = seq<multiset<Dirent>>

  function Total(ls: Lists): multiset<Dirent> {
    if ls == [] then multiset{} else Total(ls[..|ls| - 1]) + ls[|ls| - 1]
  }

  lemma {:induction false} TotalPut(ls: Lists, k: nat, x: multiset<Dirent>)
    requires k < |ls|
    ensures Total(ls[k := ls[k] + x]) == Total(ls) + x
  {
    var n := |ls| - 1;
    var us := ls[k := ls[k] + x];
    if k == n {
      assert us[..n] == ls[..n];
    } else {
      assert us[..n] == ls[..n][k := ls[..n][k] + x];
      TotalPut(ls[..n], k, x);
    }
  }

  lemma {:induction false} InTotal(ls: Lists, i: nat, e: Dirent)
    requires i < |ls| && e in ls[i]
    ensures e in Total(ls)
  {
    if i < |ls| - 1 {
      InTotal(ls[..|ls| - 1], i, e);
    }
  }

  /** A record of directory k named nothing that was free, and now names ino. */
  function Plus(ls: Lists, k: nat, e: Dirent): Lists
    requires k < |ls|
  {
    ls[k := ls[k] + multiset{e}]
  }

  function Naming(t: nat): Dirent -> bool { (e: Dirent) => e.ino == t }
  function PlainNaming(t: nat): Dirent -> bool { (e: Dirent) => e.ino == t && !IsDots(e.name) }
  function SubDir(tab: seq<Inode>): Dirent -> bool {
    (e: Dirent) => !IsDots(e.name) && e.ino < |tab| && IsDir(tab[e.ino])
  }

  /** Names of inode t in the whole volume. */
  ghost function Names(ls: Lists, t: nat): nat {
    Tally(Total(ls), Naming(t))
  }

  /** The same without "." and "..". */
  ghost function PlainNames(ls: Lists, t: nat): nat {
    Tally(Total(ls), PlainNaming(t))
  }

  /** Directories listed in directory k under other names than "." and "..". */
  ghost function SubDirs(tab: seq<Inode>, ls: Lists, k: nat): nat
    requires k < |ls|
  {
    Tally(ls[k], SubDir(tab))
  }

  /** Every record names an inode in use. */
  ghost predicate Live(marks: seq<bool>, ls: Lists) {
    forall e: Dirent :: e in Total(ls) ==> e.ino < |marks| && marks[e.ino]
  }

  /** i_nlink of a regular file is the number of its names; that of a directory covers its own entry,
      its name in a parent, and the ".." of every subdirectory. */
  ghost predicate LinkOk(tab: seq<Inode>, ls: Lists, i: nat)
    requires i < |tab| == |ls|
  {
    if IsReg(tab[i]) then Nlink(tab[i]) == Names(ls, i)
    else 1 + PlainNames(ls, i) + SubDirs(tab, ls, i) <= Nlink(tab[i])
  }

  ghost predicate LinksOk(tab: seq<Inode>, marks: seq<bool>, ls: Lists) {
    && |tab| == |marks| == |ls|
    && Live(marks, ls)
    && (forall i :: 0 <= i < |tab| && marks[i] ==> (IsReg(tab[i]) || IsDir(tab[i])) && LinkOk(tab, ls, i))
  }

  /** Same kind and link count. */
  predicate SameLinks(i: Inode, j: Inode) {
    Mode(i) == Mode(j) && Nlink(i) == Nlink(j)
  }

  lemma PlusCounts(ls: Lists, k: nat, e: Dirent, t: nat)
    requires k < |ls|
    ensures Names(Plus(ls, k, e), t) == Names(ls, t) + if e.ino == t then 1 else 0
    ensures PlainNames(Plus(ls, k, e), t) == PlainNames(ls, t) + if e.ino == t && !IsDots(e.name) then 1 else 0
    ensures Total(Plus(ls, k, e)) == Total(ls) + multiset{e}
  {
    TotalPut(ls, k, multiset{e});
    CountAdd(Total(ls), e, Naming(t));
    CountAdd(Total(ls), e, PlainNaming(t));
  }

  lemma PlusSubDirs(tab: seq<Inode>, ls: Lists, k: nat, e: Dirent, i: nat)
    requires k < |ls| && i < |ls|
    ensures SubDirs(tab, Plus(ls, k, e), i) == SubDirs(tab, ls, i) + if i == k && SubDir(tab)(e) then 1 else 0
  {
    CountAdd(ls[k], e, SubDir(tab));
  }

  /** Directories stay directories: the subdirectory counts agree. */
  lemma SubDirsSame(tab: seq<Inode>, tab': seq<Inode>, marks: seq<bool>, ls: Lists, k: nat)
    requires k < |ls| && |tab| == |tab'| == |marks| && Live(marks, ls)
    requires forall i :: 0 <= i < |tab| && marks[i] ==> Mode(tab'[i]) == Mode(tab[i])
    ensures SubDirs(tab', ls, k) == SubDirs(tab, ls, k)
  {
    forall e: Dirent | e in ls[k] ensures SubDir(tab')(e) == SubDir(tab)(e) {
      InTotal(ls, k, e);
    }
    CountSame(ls[k], SubDir(tab'), SubDir(tab));
  }

  /** An unused inode has no names. */
  lemma UnusedUnnamed(marks: seq<bool>, ls: Lists, t: nat)
    requires Live(marks, ls) && t < |marks| && !marks[t]
    ensures Names(ls, t) == 0 && PlainNames(ls, t) == 0
  {
    CountNone(Total(ls), Naming(t));
    CountNone(Total(ls), PlainNaming(t));
  }

  /** ufs_link: one name more, one link more. */
  lemma LinksAdd(tab: seq<Inode>, marks: seq<bool>, ls: Lists, k: nat, e: Dirent, tab': seq<Inode>)
    requires LinksOk(tab, marks, ls) && k < |ls| && |tab'| == |tab|
    requires e.ino < |tab| && marks[e.ino] && IsReg(tab[e.ino])
    requires forall i :: 0 <= i < |tab| ==> Mode(tab'[i]) == Mode(tab[i])
    requires forall i :: 0 <= i < |tab| && i != e.ino ==> Nlink(tab'[i]) == Nlink(tab[i])
    ensures LinksOk(tab', marks, Plus(ls, k, e)) <==> Nlink(tab'[e.ino]) == Nlink(tab[e.ino]) + 1
  {
    hide Mode, Nlink, Tally, Total;
    var ls' := Plus(ls, k, e);
    PlusCounts(ls, k, e, e.ino);
    assert Nlink(tab'[e.ino]) == Nlink(tab[e.ino]) + 1 <==> LinkOk(tab', ls', e.ino);
    forall i | 0 <= i < |tab| && marks[i] && i != e.ino ensures LinkOk(tab', ls', i) {
      assert LinkOk(tab, ls, i);
      PlusCounts(ls, k, e, i);
      PlusSubDirs(tab', ls, k, e, i);
      SubDirsSame(tab, tab', marks, ls, i);
    }
  }

  /** ufs_create: a fresh inode with one name and one link. */
  lemma LinksCreate(tab: seq<Inode>, marks: seq<bool>, ls: Lists, k: nat, e: Dirent, tab': seq<Inode>)
    requires LinksOk(tab, marks, ls) && k < |ls| && |tab'| == |tab|
    requires e.ino < |tab| && !marks[e.ino] && IsReg(tab'[e.ino]) && Nlink(tab'[e.ino]) == 1
    requires forall i :: 0 <= i < |tab| && i != e.ino ==> SameLinks(tab[i], tab'[i])
    ensures LinksOk(tab', marks[e.ino := true], Plus(ls, k, e))
  {
    hide Mode, Nlink, Tally, Total;
    var ls' := Plus(ls, k, e);
    PlusCounts(ls, k, e, e.ino);
    UnusedUnnamed(marks, ls, e.ino);
    forall i | 0 <= i < |tab| && marks[i] && i != e.ino ensures LinkOk(tab', ls', i) {
      assert LinkOk(tab, ls, i);
      PlusCounts(ls, k, e, i);
      PlusSubDirs(tab', ls, k, e, i);
      SubDirsSame(tab, tab', marks, ls, i);
    }
  }

  /** An inode without names may go out of use. */
  lemma LinksDrop(tab: seq<Inode>, marks: seq<bool>, ls: Lists, ino: nat, tab': seq<Inode>)
    requires |tab| == |marks| == |ls| == |tab'| && ino < |tab| && Names(ls, ino) == 0 && ls[ino] == multiset{}
    requires Live(marks, ls)
    requires forall i :: 0 <= i < |tab| && marks[i] && i != ino ==> (IsReg(tab[i]) || IsDir(tab[i])) && LinkOk(tab, ls, i)
    requires forall i :: 0 <= i < |tab| && i != ino ==> SameLinks(tab[i], tab'[i])
    ensures LinksOk(tab', marks[ino := false], ls)
  {
    hide Mode, Nlink, Tally, Total;
    forall e: Dirent | e in Total(ls) ensures e.ino != ino {
      if e.ino == ino {
        NamedPositive(Total(ls), e);
      }
    }
    forall i | 0 <= i < |tab| && marks[i] && i != ino ensures LinkOk(tab', ls, i) {
      forall e: Dirent | e in ls[i] ensures SubDir(tab')(e) == SubDir(tab)(e) {
        InTotal(ls, i, e);
      }
      CountSame(ls[i], SubDir(tab'), SubDir(tab));
    }
  }

  lemma NamedPositive(m: multiset<Dirent>, e: Dirent)
    requires e in m
    ensures 0 < Tally(m, Naming(e.ino))
  {
    assert m == m - multiset{e} + multiset{e};
    CountAdd(m - multiset{e}, e, Naming(e.ino));
  }

  /** ufs_unlink of a regular file: one name less, one link less; at zero the inode goes out of use. */
  lemma LinksRemove(tab: seq<Inode>, marks: seq<bool>, ls: Lists, k: nat, e: Dirent, tab': seq<Inode>)
    requires k < |ls| && LinksOk(tab, marks, Plus(ls, k, e)) && |tab'| == |tab|
    requires e.ino < |tab| && IsReg(tab[e.ino]) && ls[e.ino] == multiset{}
    requires forall i :: 0 <= i < |tab| && i != e.ino ==> SameLinks(tab[i], tab'[i])
    requires Mode(tab'[e.ino]) == Mode(tab[e.ino]) && Nlink(tab'[e.ino]) == Nlink(tab[e.ino]) - 1
    ensures 0 < Nlink(tab[e.ino]) && marks[e.ino]
    ensures LinksOk(tab', marks, ls)
    ensures Nlink(tab'[e.ino]) == 0 ==> LinksOk(tab', marks[e.ino := false], ls)
  {
    hide Mode, Nlink, Tally, Total;
    var ls' := Plus(ls, k, e);
    PlusCounts(ls, k, e, e.ino);
    assert e in Total(ls');
    assert LinkOk(tab, ls', e.ino);
    assert Live(marks, ls) by {
      assert forall x: Dirent :: x in Total(ls) ==> x in Total(ls');
    }
    forall i | 0 <= i < |tab| && marks[i] && i != e.ino ensures LinkOk(tab', ls, i) {
      assert LinkOk(tab, ls', i);
      PlusCounts(ls, k, e, i);
      PlusSubDirs(tab, ls, k, e, i);
      SubDirsSame(tab, tab', marks, ls, i);
    }
    if Nlink(tab'[e.ino]) == 0 {
      LinksDrop(tab', marks, ls, e.ino, tab');
    }
  }

  /** ufs_unlink of a directory without subdirectories: it loses its name, its parent a subdirectory. */
  lemma LinksRemoveDir(tab: seq<Inode>, marks: seq<bool>, ls: Lists, k: nat, e: Dirent, tab': seq<Inode>)
    requires k < |ls| && LinksOk(tab, marks, Plus(ls, k, e)) && |tab'| == |tab|
    requires e.ino < |tab| && IsDir(tab[e.ino]) && marks[k] && IsDir(tab[k]) && !IsDots(e.name)
    requires forall i :: 0 <= i < |tab| ==> Mode(tab'[i]) == Mode(tab[i])
    requires forall i :: 0 <= i < |tab| && i != e.ino && i != k ==> Nlink(tab'[i]) == Nlink(tab[i])
    requires Nlink(tab'[e.ino]) == Nlink(tab[e.ino]) - 1 && Nlink(tab'[k]) == Nlink(tab[k]) - 1
    ensures LinksOk(tab', marks, ls)
    ensures marks[e.ino] && 0 < Nlink(tab'[e.ino]) && 0 < Nlink(tab'[k])
  {
    hide Mode, Nlink, Tally, Total;
    var ls' := Plus(ls, k, e);
    PlusCounts(ls, k, e, e.ino);
    assert e in Total(ls');
    assert Live(marks, ls) by {
      assert forall x: Dirent :: x in Total(ls) ==> x in Total(ls');
    }
    forall i | 0 <= i < |tab| && marks[i]
      ensures LinkOk(tab', ls, i) && (i == e.ino || i == k ==> 0 < Nlink(tab'[i]))
    {
      assert LinkOk(tab, ls', i);
      PlusCounts(ls, k, e, i);
      PlusSubDirs(tab, ls, k, e, i);
      SubDirsSame(tab, tab', marks, ls, i);
      DirNotReg(tab[i]);
    }
  }

  /** A named directory in use has two links or more, and so has its parent. */
  lemma DirLinksHigh(tab: seq<Inode>, marks: seq<bool>, ls: Lists, k: nat, e: Dirent)
    requires k < |ls| && LinksOk(tab, marks, Plus(ls, k, e))
    requires e.ino < |tab| && IsDir(tab[e.ino]) && marks[k] && IsDir(tab[k]) && !IsDots(e.name)
    ensures marks[e.ino] && 2 <= Nlink(tab[e.ino]) && 2 <= Nlink(tab[k])
  {
    hide Mode, Nlink, Tally, Total;
    PlusCounts(ls, k, e, e.ino);
    assert e in Total(Plus(ls, k, e));
    assert LinkOk(tab, Plus(ls, k, e), e.ino) && LinkOk(tab, Plus(ls, k, e), k);
    PlusSubDirs(tab, ls, k, e, k);
    DirNotReg(tab[k]);
    DirNotReg(tab[e.ino]);
  }

  lemma DirNotReg(i: Inode)
    ensures !(IsDir(i) && IsReg(i))
  {
  }

  /** ufs_mkdir: a fresh directory listing only "." and "..", named once in its parent, which counts one more link. */
  lemma LinksMkdir(tab: seq<Inode>, marks: seq<bool>, ls: Lists, k: nat, e: Dirent, tab': seq<Inode>, dots: multiset<Dirent>)
    requires LinksOk(tab, marks, ls) && k < |ls| && k < WORD && |tab'| == |tab|
    requires e.ino < |tab| && !marks[e.ino] && ls[e.ino] == multiset{}
    requires IsDir(tab'[e.ino]) && Nlink(tab'[e.ino]) == 2 && marks[k] && IsDir(tab[k]) && !IsDots(e.name)
    requires dots == multiset{Dirent([DOT], e.ino), Dirent([DOT, DOT], k)}
    requires forall i :: 0 <= i < |tab| && i != e.ino ==> Mode(tab'[i]) == Mode(tab[i])
    requires forall i :: 0 <= i < |tab| && i != e.ino && i != k ==> Nlink(tab'[i]) == Nlink(tab[i])
    requires Nlink(tab'[k]) == Nlink(tab[k]) + 1
    ensures LinksOk(tab', marks[e.ino := true], Plus(ls[e.ino := dots], k, e))
  {
    hide Mode, Nlink, Tally, Total, Names, PlainNames, SubDirs;
    var x, y := Dirent([DOT], e.ino), Dirent([DOT, DOT], k);
    var l1 := Plus(ls, e.ino, x);
    var l2 := Plus(l1, e.ino, y);
    assert l1[e.ino] == multiset{x} && l2[e.ino] == multiset{x} + multiset{y} == dots;
    assert l2 == ls[e.ino := dots];
    var l3 := Plus(l2, k, e);
    PlusCounts(ls, e.ino, x, 0);
    PlusCounts(l1, e.ino, y, 0);
    PlusCounts(l2, k, e, 0);
    UnusedUnnamed(marks, ls, e.ino);
    forall i | 0 <= i < |tab| && (marks[i] || i == e.ino) ensures LinkOk(tab', l3, i) {
      PlusCounts(ls, e.ino, x, i);
      PlusCounts(l1, e.ino, y, i);
      PlusCounts(l2, k, e, i);
      PlusSubDirs(tab', ls, e.ino, x, i);
      PlusSubDirs(tab', l1, e.ino, y, i);
      PlusSubDirs(tab', l2, k, e, i);
      SubDirsSame(tab, tab', marks, ls, i);
      DirNotReg(tab'[i]);
      if i == e.ino {
        NoSubDirs(tab', ls, i);
      } else {
        assert LinkOk(tab, ls, i);
      }
    }
  }

  lemma NoSubDirs(tab: seq<Inode>, ls: Lists, k: nat)
    requires k < |ls| && ls[k] == multiset{}
    ensures SubDirs(tab, ls, k) == 0
  {
  }

  /** The same directory when its name could not be added: in use, unnamed, and harmless. */
  lemma LinksOrphan(tab: seq<Inode>, marks: seq<bool>, ls: Lists, k: nat, ino: nat, tab': seq<Inode>, dots: multiset<Dirent>)
    requires LinksOk(tab, marks, ls) && k < |ls| && k < WORD && |tab'| == |tab|
    requires ino < |tab| && ino < WORD && !marks[ino] && ls[ino] == multiset{}
    requires IsDir(tab'[ino]) && Nlink(tab'[ino]) == 2 && marks[k] && IsDir(tab[k])
    requires dots == multiset{Dirent([DOT], ino), Dirent([DOT, DOT], k)}
    requires forall i :: 0 <= i < |tab| && i != ino ==> SameLinks(tab[i], tab'[i])
    ensures LinksOk(tab', marks[ino := true], ls[ino := dots])
  {
    hide Mode, Nlink, Tally, Total, Names, PlainNames, SubDirs;
    var x, y := Dirent([DOT], ino), Dirent([DOT, DOT], k);
    var l1 := Plus(ls, ino, x);
    var l2 := Plus(l1, ino, y);
    assert l1[ino] == multiset{x} && l2[ino] == multiset{x} + multiset{y} == dots;
    assert l2 == ls[ino := dots];
    PlusCounts(ls, ino, x, 0);
    PlusCounts(l1, ino, y, 0);
    UnusedUnnamed(marks, ls, ino);
    forall i | 0 <= i < |tab| && (marks[i] || i == ino) ensures LinkOk(tab', l2, i) {
      PlusCounts(ls, ino, x, i);
      PlusCounts(l1, ino, y, i);
      PlusSubDirs(tab', ls, ino, x, i);
      PlusSubDirs(tab', l1, ino, y, i);
      SubDirsSame(tab, tab', marks, ls, i);
      DirNotReg(tab'[i]);
      if i == ino {
        NoSubDirs(tab', ls, i);
      } else {
        assert LinkOk(tab, ls, i);
      }
    }
  }
}
