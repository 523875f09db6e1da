/** push's environment: strings packed in one pool, which must behave as a map. */
module PushEnv {
  import opened Bytes

  const ENV_MAX := 64
  const POOL := 1536
  const EQ := 0x3D

  type Text = seq<Byte>

  /** A variable. */
  datatype Var = Var(key: Text, value: Text, exported: bool)

  /** An entry of env_tab. */
  datatype Slot = Slot(off: nat, exported: bool)

  /** A key or a value: a C string; keys have no '='. */
  predicate CString(t: Text) { 0 !in t }
  predicate KeyOk(k: Text) { 0 !in k && EQ !in k }
  predicate VarOk(v: Var) { KeyOk(v.key) && CString(v.value) }

  /** KEY=VALUE. */
  function Spelled(v: Var): Text { v.key + [EQ] + v.value }

  /** The C string t stands at o. */
  ghost predicate StandsAt(pool: seq<Byte>, o: nat, t: Text) {
    o + |t| < |pool| && pool[o..o + |t|] == t && pool[o + |t|] == 0
  }

  /** First byte after variable i, its NUL included. */
  function EndOf(tab: seq<Slot>, vars: seq<Var>, i: nat): nat
    requires i < |tab| && i < |vars|
  {
    tab[i].off + |Spelled(vars[i])| + 1
  }

  /** The strings stand in the pool in the order of the table, one behind the other without overlap. */
  ghost predicate Packed(pool: seq<Byte>, tab: seq<Slot>, vars: seq<Var>, used: nat) {
    && |tab| == |vars| && used <= |pool|
    && (forall i :: 0 <= i < |vars| ==> VarOk(vars[i]) && tab[i].exported == vars[i].exported)
    && (forall i :: 0 <= i < |vars| ==> StandsAt(pool, tab[i].off, Spelled(vars[i])) && EndOf(tab, vars, i) <= used)
    && (forall i, j :: 0 <= i < j < |vars| ==> EndOf(tab, vars, i) <= tab[j].off)
  }

  predicate Distinct(vars: seq<Var>) {
    forall i, j :: 0 <= i < j < |vars| ==> vars[i].key != vars[j].key
  }

  // ---- as a map ----

  ghost function AsMap(vars: seq<Var>): map<Text, (Text, bool)>
    requires Distinct(vars)
  {
    map k | k in KeySet(vars) :: (vars[IndexOf(vars, k)].value, vars[IndexOf(vars, k)].exported)
  }

  ghost function KeySet(vars: seq<Var>): set<Text> {
    set i | 0 <= i < |vars| :: vars[i].key
  }

  /** Where the variable of that key is; |vars| if there is none. */
  function IndexOf(vars: seq<Var>, k: Text): (i: nat)
    ensures i <= |vars| && (i < |vars| ==> vars[i].key == k)
    ensures i == |vars| ==> forall j :: 0 <= j < |vars| ==> vars[j].key != k
    ensures k in KeySet(vars) ==> i < |vars|
    decreases |vars|
  {
    if vars == [] then 0 else if vars[0].key == k then 0 else 1 + IndexOf(vars[1..], k)
  }

  /** Closing the gap after taking entry i out. */
  function Without<T>(s: seq<T>, i: nat): seq<T>
    requires i < |s|
  {
    s[..i] + s[i + 1..]
  }

  /** The variables after env_set succeeded. */
  function WithVar(vars: seq<Var>, key: Text, value: Text, exported: int): seq<Var> {
    var i := IndexOf(vars, key);
    var rest := Dropped(vars, key);
    rest + [Var(key, value, if exported == -1 then i < |vars| && vars[i].exported else exported != 0)]
  }

  /** The variables after env_unset. */
  function Dropped(vars: seq<Var>, key: Text): seq<Var> {
    if IndexOf(vars, key) < |vars| then Without(vars, IndexOf(vars, key)) else vars
  }

  lemma IndexUnique(vars: seq<Var>, i: nat)
    requires Distinct(vars) && i < |vars|
    ensures IndexOf(vars, vars[i].key) == i
  {
    assert vars[i].key in KeySet(vars);
  }

  /** What the map says, variable by variable. */
  lemma MapIs(vars: seq<Var>)
    requires Distinct(vars)
    ensures forall v :: v in vars ==> v.key in AsMap(vars) && AsMap(vars)[v.key] == (v.value, v.exported)
    ensures forall k :: k in AsMap(vars) ==> Var(k, AsMap(vars)[k].0, AsMap(vars)[k].1) in vars
  {
    forall v | v in vars ensures v.key in AsMap(vars) && AsMap(vars)[v.key] == (v.value, v.exported) {
      var i :| 0 <= i < |vars| && vars[i] == v;
      IndexUnique(vars, i);
      assert v.key in KeySet(vars);
    }
  }

  /** That determines it. */
  lemma MapOf(vars: seq<Var>, m: map<Text, (Text, bool)>)
    requires Distinct(vars)
    requires forall v :: v in vars ==> v.key in m && m[v.key] == (v.value, v.exported)
    requires forall k :: k in m ==> Var(k, m[k].0, m[k].1) in vars
    ensures AsMap(vars) == m
  {
    MapIs(vars);
    hide AsMap, Distinct;
    var a := AsMap(vars);
    forall k ensures k in a <==> k in m {
      if k in a {
        assert Var(k, a[k].0, a[k].1) in vars;
      }
      if k in m {
        assert Var(k, m[k].0, m[k].1) in vars;
      }
    }
    forall k | k in m ensures a[k] == m[k] {
      assert Var(k, m[k].0, m[k].1) in vars;
    }
  }

  /** env_unset takes out the variable of that key and nothing else. */
  lemma DroppedIs(vars: seq<Var>, key: Text)
    requires Distinct(vars)
    ensures Distinct(Dropped(vars, key))
    ensures forall v :: v in Dropped(vars, key) <==> v in vars && v.key != key
  {
    var i, ds := IndexOf(vars, key), Dropped(vars, key);
    if i < |vars| {
      assert forall j :: 0 <= j < |ds| ==> ds[j] == if j < i then vars[j] else vars[j + 1];
      forall v | v in vars && v.key != key ensures v in ds {
        var j :| 0 <= j < |vars| && vars[j] == v;
        assert v == if j < i then ds[j] else ds[j - 1];
      }
    }
  }

  /** The others keep their order. */
  lemma DroppedAt(vars: seq<Var>, key: Text)
    requires Distinct(vars)
    ensures forall i :: 0 <= i < |vars| && vars[i].key == key ==> Dropped(vars, key) == vars[..i] + vars[i + 1..]
    ensures (forall i :: 0 <= i < |vars| ==> vars[i].key != key) ==> Dropped(vars, key) == vars
  {
    forall i | 0 <= i < |vars| && vars[i].key == key ensures IndexOf(vars, key) == i {
      IndexUnique(vars, i);
    }
  }

  /** env_unset is map deletion. */
  lemma DroppedMap(vars: seq<Var>, key: Text)
    requires Distinct(vars)
    ensures Distinct(Dropped(vars, key)) && AsMap(Dropped(vars, key)) == AsMap(vars) - {key}
  {
    DroppedIs(vars, key);
    MapIs(vars);
    hide AsMap, Distinct, Dropped;
    MapOf(Dropped(vars, key), AsMap(vars) - {key});
  }

  /** env_set is map update; every other variable keeps its value and its export flag. */
  lemma WithVarMap(vars: seq<Var>, key: Text, value: Text, exported: int)
    requires Distinct(vars)
    ensures var ws := WithVar(vars, key, value, exported); var m := AsMap(vars);
            && Distinct(ws)
            && AsMap(ws) == m[key := (value, if exported == -1 then key in m && m[key].1 else exported != 0)]
  {
    hide AsMap, Distinct, Dropped, KeySet;
    DroppedIs(vars, key);
    MapIs(vars);
    var i, ds, ws, m := IndexOf(vars, key), Dropped(vars, key), WithVar(vars, key, value, exported), AsMap(vars);
    DistinctMore(ds, ws[|ds|]);
    assert i < |vars| ==> vars[i] in vars;
    assert key in m ==> Var(key, m[key].0, m[key].1) in vars;
    MapOf(ws, m[key := (value, if exported == -1 then key in m && m[key].1 else exported != 0)]);
  }

  lemma DistinctMore(vars: seq<Var>, x: Var)
    requires Distinct(vars) && forall v :: v in vars ==> v.key != x.key
    ensures Distinct(vars + [x])
  {
    assert forall j :: 0 <= j < |vars| ==> vars[j] in vars;
  }

  // ---- the packed store ----

  lemma PackedDrop(pool: seq<Byte>, tab: seq<Slot>, vars: seq<Var>, used: nat, i: nat)
    requires Packed(pool, tab, vars, used) && i < |vars|
    ensures Packed(pool, Without(tab, i), Without(vars, i), used)
  {
    hide Spelled, StandsAt, VarOk;
    var t, v := Without(tab, i), Without(vars, i);
    forall j | 0 <= j < |v|
      ensures v[j] == vars[Skip(i, j)] && t[j] == tab[Skip(i, j)] && EndOf(t, v, j) == EndOf(tab, vars, Skip(i, j))
    {
    }
    hide EndOf;
    forall a, b | 0 <= a < b < |v| ensures EndOf(t, v, a) <= t[b].off {
      assert EndOf(tab, vars, Skip(i, a)) <= tab[Skip(i, b)].off;
    }
  }

  function Skip(i: nat, j: nat): nat { if j < i then j else j + 1 }

  lemma SpelledAt(pool: seq<Byte>, o: nat, v: Var)
    requires var e := o + |v.key| + 1 + |v.value|;
      && e < |pool| && pool[o + |v.key|] == EQ && pool[e] == 0
      && pool[o..o + |v.key|] == v.key && pool[o + |v.key| + 1..e] == v.value
    ensures StandsAt(pool, o, Spelled(v))
  {
    var m, e := o + |v.key|, o + |v.key| + 1 + |v.value|;
    assert pool[o..e] == pool[o..m] + [pool[m]] + pool[m + 1..e];
  }

  /** A string written behind everything else. */
  lemma PackedAdd(pool: seq<Byte>, pool': seq<Byte>, tab: seq<Slot>, vars: seq<Var>, used: nat, v: Var)
    requires Packed(pool, tab, vars, used) && VarOk(v) && |pool'| == |pool|
    requires forall k :: 0 <= k < used ==> pool'[k] == pool[k]
    requires StandsAt(pool', used, Spelled(v)) && used + |Spelled(v)| + 1 <= |pool|
    ensures Packed(pool', tab + [Slot(used, v.exported)], vars + [v], used + |Spelled(v)| + 1)
  {
    hide Spelled, VarOk;
    var t, w := tab + [Slot(used, v.exported)], vars + [v];
    forall i | 0 <= i < |vars| ensures StandsAt(pool', t[i].off, Spelled(w[i])) && EndOf(t, w, i) == EndOf(tab, vars, i) <= used {
      assert EndOf(tab, vars, i) <= used;
      assert pool'[tab[i].off..tab[i].off + |Spelled(vars[i])|] == pool[tab[i].off..tab[i].off + |Spelled(vars[i])|];
    }
  }

  /** env_compact after i entries: those stand closed up below pos, the others where they were. */
  ghost predicate Compacting(pool: seq<Byte>, tab: seq<Slot>, vars: seq<Var>, used: nat, i: nat, pos: nat) {
    && Packed(pool, tab, vars, used) && i <= |vars| && pos <= used
    && (forall j :: 0 <= j < i ==> EndOf(tab, vars, j) <= pos)
    && (forall j :: i <= j < |vars| ==> pos <= tab[j].off)
    && pos == Total(vars[..i])
  }

  /** Bytes that the strings need. */
  function Total(vars: seq<Var>): nat {
    if vars == [] then 0 else Total(vars[..|vars| - 1]) + |Spelled(vars[|vars| - 1])| + 1
  }

  /** KEY=VALUE and a NUL each. */
  lemma TotalIs(vars: seq<Var>, v: Var)
    ensures Total([]) == 0 && Total(vars + [v]) == Total(vars) + |v.key| + |v.value| + 2
  {
    assert (vars + [v])[..|vars|] == vars;
  }

  /** Moving string i down to pos. */
  lemma CompactStep(pool: seq<Byte>, pool': seq<Byte>, tab: seq<Slot>, vars: seq<Var>, used: nat, i: nat, pos: nat)
    requires Compacting(pool, tab, vars, used, i, pos) && i < |vars| && |pool'| == |pool|
    requires var n := |Spelled(vars[i])| + 1;
             && tab[i].off + n <= |pool|
             && pos + n <= |pool| && pool'[pos..pos + n] == pool[tab[i].off..tab[i].off + n]
             && (forall k :: 0 <= k < |pool| && !(pos <= k < pos + n) ==> pool'[k] == pool[k])
    ensures Compacting(pool', tab[i := Slot(pos, tab[i].exported)], vars, used, i + 1, pos + |Spelled(vars[i])| + 1)
  {
    hide Spelled, VarOk, StandsAt, EndOf;
    var t := tab[i := Slot(pos, tab[i].exported)];
    forall j | 0 <= j < |vars|
      ensures StandsAt(pool', t[j].off, Spelled(vars[j]))
      ensures EndOf(t, vars, j) == (if j == i then pos + |Spelled(vars[i])| + 1 else EndOf(tab, vars, j)) <= used
    {
      MovedOne(pool, pool', tab, vars, used, i, pos, j);
    }
    EndIs(tab, vars, i);
    assert pos <= tab[i].off;
    forall a, b | 0 <= a < b < |vars| ensures EndOf(t, vars, a) <= t[b].off {
      assert EndOf(tab, vars, a) <= tab[b].off;
      if a < i {
        assert EndOf(tab, vars, a) <= pos;
      }
    }
    assert vars[..i + 1][..i] == vars[..i];
    forall j | i + 1 <= j < |vars| ensures pos + |Spelled(vars[i])| + 1 <= t[j].off {
      assert EndOf(tab, vars, i) <= tab[j].off;
    }
  }

  lemma EndIs(tab: seq<Slot>, vars: seq<Var>, i: nat)
    requires i < |tab| && i < |vars|
    ensures EndOf(tab, vars, i) == tab[i].off + |Spelled(vars[i])| + 1
  {
  }

  lemma MovedOne(pool: seq<Byte>, pool': seq<Byte>, tab: seq<Slot>, vars: seq<Var>, used: nat, i: nat, pos: nat, j: nat)
    requires Compacting(pool, tab, vars, used, i, pos) && i < |vars| && |pool'| == |pool| && j < |vars|
    requires var n := |Spelled(vars[i])| + 1;
             && tab[i].off + n <= |pool|
             && pos + n <= |pool| && pool'[pos..pos + n] == pool[tab[i].off..tab[i].off + n]
             && (forall k :: 0 <= k < |pool| && !(pos <= k < pos + n) ==> pool'[k] == pool[k])
    ensures var t := tab[i := Slot(pos, tab[i].exported)];
            && StandsAt(pool', t[j].off, Spelled(vars[j]))
            && EndOf(t, vars, j) == (if j == i then pos + |Spelled(vars[i])| + 1 else EndOf(tab, vars, j))
            && EndOf(t, vars, j) <= used
  {
    hide Spelled;
    assert EndOf(tab, vars, j) <= used && EndOf(tab, vars, i) <= used && pos <= tab[i].off;
    var len, n := |Spelled(vars[j])|, |Spelled(vars[i])| + 1;
    if j == i {
      assert pool'[pos..pos + len] == pool'[pos..pos + n][..len] && pool'[pos + len] == pool'[pos..pos + n][len];
      assert pool[tab[i].off..tab[i].off + len] == pool[tab[i].off..tab[i].off + n][..len];
      assert pool[tab[i].off + len] == pool[tab[i].off..tab[i].off + n][len];
    } else {
      if j < i {
        assert EndOf(tab, vars, j) <= pos;
      } else {
        assert EndOf(tab, vars, i) <= tab[j].off;
      }
      assert pool'[tab[j].off..tab[j].off + len] == pool[tab[j].off..tab[j].off + len];
    }
  }

  class Env {
    const pool: array<Byte>      // env_pool
    const tab: array<Slot>       // env_tab
    var count: nat
    var used: nat                // env_pool_used
    ghost var vars: seq<Var>     // the variables, in table order

    ghost predicate Valid()
      reads this, pool, tab
    {
      && pool.Length == POOL && tab.Length == ENV_MAX && count <= ENV_MAX && count == |vars|
      && Packed(pool[..], tab[..count], vars, used) && Distinct(vars)
    }

    constructor ()
      ensures Valid() && fresh(pool) && fresh(tab) && vars == []
    {
      pool := new Byte[POOL](_ => 0);
      tab := new Slot[ENV_MAX](_ => Slot(0, false));
      count, used := 0, 0;
      vars := [];
    }

    /** env_find: the key, then '=', must stand at the entry's start. */
    method Find(key: Text) returns (i: int)
      requires Valid() && KeyOk(key)
      ensures i == if IndexOf(vars, key) < count then IndexOf(vars, key) else -1
    {
      hide Packed, Distinct;
      i := 0;
      while i < count
        invariant 0 <= i <= count && forall k :: 0 <= k < i ==> vars[k].key != key
      {
        VarAt(pool[..], tab[..count], vars, used, i);
        var o := tab[i].off;
        var j := 0;
        while j < |key| && pool[o + j] == key[j]
          invariant 0 <= j <= |key| && o + j <= o + |Spelled(vars[i])| < pool.Length
          invariant forall k :: 0 <= k < j ==> pool[o + k] == key[k]
        {
          NotPast(vars[i], key, pool[..], o, j);
          j := j + 1;
        }
        KeyAt(vars[i], key, pool[..], o, j);
        if j == |key| && pool[o + j] == EQ {
          FirstIndex(vars, key, i);
          return;
        }
        i := i + 1;
      }
      NoIndex(vars, key);
      i := -1;
    }

    /** env_get: what stands behind the first '='. */
    method Get(key: Text) returns (found: bool, value: Text)
      requires Valid() && KeyOk(key)
      ensures found <==> key in AsMap(vars)
      ensures found ==> value == AsMap(vars)[key].0
    {
      hide Packed, Distinct, AsMap;
      var idx := Find(key);
      MapIs(vars);
      InMap(vars, key);
      if idx < 0 {
        return false, [];
      }
      VarAt(pool[..], tab[..count], vars, used, idx);
      assert vars[idx] in vars;
      value := ValueAt(tab[idx].off, vars[idx]);
      found := true;
    }

    /** The text behind the first '=' of the string at o. */
    method ValueAt(o: nat, ghost v: Var) returns (value: Text)
      requires StandsAt(pool[..], o, Spelled(v)) && VarOk(v)
      ensures value == v.value
    {
      hide StandsAt, VarOk;
      var j := 0;
      BeforeEq(v, pool[..], o, j);
      while pool[o + j] != 0 && pool[o + j] != EQ
        invariant 0 <= j <= |v.key| && o + j < pool.Length && (j < |v.key| <==> pool[o + j] != 0 && pool[o + j] != EQ)
        decreases |v.key| - j
      {
        j := j + 1;
        BeforeEq(v, pool[..], o, j);
      }
      j := j + 1;
      value := [];
      AfterEq(v, pool[..], o, j);
      while pool[o + j] != 0
        invariant |v.key| + 1 <= j <= |Spelled(v)| && o + j < pool.Length && (j < |Spelled(v)| <==> pool[o + j] != 0)
        invariant value == Spelled(v)[|v.key| + 1..j]
        decreases |Spelled(v)| - j
      {
        AfterEq(v, pool[..], o, j);
        value := value + [pool[o + j]];
        j := j + 1;
        AfterEq(v, pool[..], o, j);
      }
    }

    /** my_strlen of the string at o. */
    method Strlen(o: nat, ghost v: Var) returns (n: nat)
      requires StandsAt(pool[..], o, Spelled(v)) && VarOk(v)
      ensures n == |Spelled(v)|
    {
      hide StandsAt, VarOk, Spelled;
      n := 0;
      NulAt(v, pool[..], o, n);
      while pool[o + n] != 0
        invariant 0 <= n <= |Spelled(v)| && o + n < pool.Length && (n < |Spelled(v)| <==> pool[o + n] != 0)
        decreases |Spelled(v)| - n
      {
        n := n + 1;
        NulAt(v, pool[..], o, n);
      }
    }

    /** env_compact: the strings move, nothing else changes. */
    method Compact()
      requires Valid()
      modifies pool, tab, this`used
      ensures Valid() && used == Total(vars) <= old(used)
    {
      hide Distinct, Compacting, Spelled, StandsAt, VarOk, Packed, Total;
      var pos, i := 0, 0;
      CompactNone(pool[..], tab[..count], vars, used);
      while i < count
        invariant 0 <= i <= count && 0 <= pos && used == old(used) && count == old(count) && vars == old(vars)
        invariant Compacting(pool[..], tab[..count], vars, used, i, pos)
        invariant tab[count..] == old(tab[count..])
      {
        CompactAt(pool[..], tab[..count], vars, used, i, pos);
        var o := tab[i].off;
        var len := Strlen(o, vars[i]);
        len := len + 1;
        ghost var was, tabWas := pool[..], tab[..count];
        if o != pos {
          Shift(o, pos, len);
        }
        CompactStep(was, pool[..], tabWas, vars, used, i, pos);
        tab[i] := tab[i].(off := pos);
        assert tab[..count] == tabWas[i := Slot(pos, tabWas[i].exported)];
        pos := pos + len;
        i := i + 1;
      }
      CompactDone(pool[..], tab[..count], vars, used, pos);
      used := pos;
    }

    /** Closing the gap in the table. */
    method RemoveSlot(idx: nat)
      requires Valid() && idx < count
      modifies tab, this`count, this`vars
      ensures Valid() && vars == Without(old(vars), idx)
    {
      hide Packed, Distinct;
      ghost var was := tab[..count];
      var i := idx;
      while i < count - 1
        invariant idx <= i <= count - 1 && count == old(count) && vars == old(vars)
        invariant forall k :: 0 <= k < idx ==> tab[k] == was[k]
        invariant forall k :: idx <= k < i ==> tab[k] == was[k + 1]
        invariant forall k :: i <= k < count ==> tab[k] == was[k]
      {
        tab[i] := tab[i + 1];
        i := i + 1;
      }
      PackedDrop(pool[..], was, vars, used, idx);
      WithoutDistinct(vars, idx);
      count := count - 1;
      vars := Without(vars, idx);
      assert tab[..count] == Without(was, idx);
    }

    /** env_set; exported: 0 local, 1 global, -1 keep. When it fails, a variable of that name is gone. */
    method Set(key: Text, value: Text, exported: int) returns (rc: int)
      requires Valid() && KeyOk(key) && CString(value)
      modifies this`count, this`used, this`vars, pool, tab
      ensures Valid() && (rc == 0 || rc == -1)
      ensures rc == 0 ==> vars == WithVar(old(vars), key, value, exported)
      ensures rc == -1 ==> vars == Dropped(old(vars), key)
      ensures rc == -1 <==>
        var rest := Dropped(old(vars), key); var need := |key| + |value| + 2;
        64 <= |rest| || (1536 < old(used) + need && 1536 < Total(rest) + need)
      ensures Distinct(old(vars)) && Distinct(vars)
      ensures rc == 0 ==>
        AsMap(vars) == AsMap(old(vars))[key := (value, if exported == -1 then key in AsMap(old(vars)) && AsMap(old(vars))[key].1 else exported != 0)]
      ensures rc == -1 ==> AsMap(vars) == AsMap(old(vars)) - {key}
    {
      hide Packed, Distinct, Spelled, Total, VarOk, WithVar, Dropped, Valid, AsMap;
      AreDistinct(this);
      WithVarMap(vars, key, value, exported);
      DroppedMap(vars, key);
      var exp := TakeOut(key, exported);
      var room := MakeRoom(|key| + 1 + |value| + 1);
      if !room {
        return -1;
      }
      NewKey(old(vars), key);
      Append(key, value, exp);
      SetIs(old(vars), key, value, exported, exp);
      rc := 0;
    }

    /** The first part of env_set: an old variable of that name goes; its export flag may be kept. */
    method TakeOut(key: Text, exported: int) returns (exp: bool)
      requires Valid() && KeyOk(key)
      modifies this`count, this`vars, tab
      ensures Valid() && Distinct(old(vars)) && vars == Dropped(old(vars), key)
      ensures exp == if exported == -1 then IndexOf(old(vars), key) < |old(vars)| && old(vars)[IndexOf(old(vars), key)].exported else exported != 0
    {
      hide Packed, Distinct, Spelled, VarOk;
      exp := exported != 0;
      var idx := Find(key);
      if 0 <= idx {
        VarAt(pool[..], tab[..count], vars, used, idx);
        var oldExp := tab[idx].exported;
        RemoveSlot(idx);
        if exported == -1 {
          exp := oldExp;
        }
      } else if exported == -1 {
        exp := false;
      }
    }

    /** A free table entry, and room in the pool, after compaction if necessary. */
    method MakeRoom(need: nat) returns (ok: bool)
      requires Valid()
      modifies this`used, pool, tab
      ensures Valid() && (ok ==> count < ENV_MAX && used + need <= POOL)
      ensures ok <==> |vars| < ENV_MAX && (old(used) + need <= POOL || Total(vars) + need <= POOL)
    {
      if ENV_MAX <= count {
        return false;
      }
      PackedUsed(pool[..], tab[..count], vars, used);
      if POOL < used + need {
        Compact();
        if POOL < used + need {
          return false;
        }
      }
      ok := true;
    }

    /** Writing KEY=VALUE behind the last string. */
    method Append(key: Text, value: Text, exported: bool)
      requires Valid() && KeyOk(key) && CString(value) && count < ENV_MAX && used + |key| + |value| + 2 <= POOL
      requires forall v :: v in vars ==> v.key != key
      modifies this`count, this`used, this`vars, pool, tab
      ensures Valid() && vars == old(vars) + [Var(key, value, exported)]
    {
      hide Packed, Distinct;
      ghost var v := Var(key, value, exported);
      ghost var was, tabWas := pool[..], tab[..count];
      tab[count] := Slot(used, exported);
      Put(used, key);
      pool[used + |key|] := EQ;
      Put(used + |key| + 1, value);
      pool[used + |key| + 1 + |value|] := 0;
      SpelledAt(pool[..], used, v);
      PackedAdd(was, pool[..], tabWas, vars, used, v);
      DistinctMore(vars, v);
      assert tab[..count + 1] == tabWas + [Slot(used, exported)];
      vars := vars + [v];
      used := used + |key| + 1 + |value| + 1;
      count := count + 1;
    }

    method Put(at: nat, t: Text)
      requires at + |t| <= pool.Length
      modifies pool
      ensures forall k :: at <= k < at + |t| ==> pool[k] == t[k - at]
      ensures forall k :: 0 <= k < pool.Length && !(at <= k < at + |t|) ==> pool[k] == old(pool[k])
    {
      var j := 0;
      while j < |t|
        invariant 0 <= j <= |t|
        invariant forall k :: at <= k < at + j ==> pool[k] == t[k - at]
        invariant forall k :: 0 <= k < pool.Length && !(at <= k < at + j) ==> pool[k] == old(pool[k])
      {
        pool[at + j] := t[j];
        j := j + 1;
      }
    }

    /** env_unset. */
    method Unset(key: Text)
      requires Valid() && KeyOk(key)
      modifies this`count, this`vars, tab
      ensures Valid() && vars == Dropped(old(vars), key)
      ensures Distinct(old(vars)) && Distinct(vars) && AsMap(vars) == AsMap(old(vars)) - {key}
    {
      DroppedMap(vars, key);
      var idx := Find(key);
      if 0 <= idx {
        RemoveSlot(idx);
      }
    }

    /** build_envp: the exported variables, in order, as many as fit before the NULL. */
    method BuildEnvp(max: nat) returns (envp: seq<Text>)
      requires Valid() && 1 <= max
      ensures envp == if |Exported(vars)| <= max - 1 then Exported(vars) else Exported(vars)[..max - 1]
      ensures |envp| == if ExportedBefore(vars, count) <= max - 1 then ExportedBefore(vars, count) else max - 1
      ensures forall i :: 0 <= i < count && vars[i].exported && ExportedBefore(vars, i) < |envp| ==>
                envp[ExportedBefore(vars, i)] == vars[i].key + [0x3D] + vars[i].value
    {
      hide Packed, Distinct, Spelled;
      envp := [];
      var i := 0;
      while i < count && |envp| < max - 1
        invariant 0 <= i <= count && |envp| <= max - 1 && envp == Exported(vars[..i])
      {
        VarAt(pool[..], tab[..count], vars, used, i);
        assert vars[..i + 1][..i] == vars[..i];
        if tab[i].exported {
          var t := TextAt(tab[i].off, vars[i]);
          envp := envp + [t];
        }
        i := i + 1;
      }
      assert vars[..count] == vars;
      ExportedPrefix(vars, i);
      Listed(vars);
    }

    /** The C string at o. */
    method TextAt(o: nat, ghost v: Var) returns (t: Text)
      requires StandsAt(pool[..], o, Spelled(v)) && VarOk(v)
      ensures t == Spelled(v)
    {
      var n := Strlen(o, v);
      t := pool[o..o + n];
    }

    /** The copying loop: bytes move down, so overlapping is harmless. */
    method Shift(from: nat, to: nat, n: nat)
      requires to <= from && from + n <= pool.Length
      modifies pool
      ensures pool[to..to + n] == old(pool[from..from + n])
      ensures forall k :: 0 <= k < pool.Length && !(to <= k < to + n) ==> pool[k] == old(pool[k])
    {
      var j := 0;
      ghost var was := pool[..];
      while j < n
        invariant 0 <= j <= n
        invariant forall k :: to <= k < to + j ==> pool[k] == was[from + (k - to)]
        invariant forall k :: 0 <= k < pool.Length && !(to <= k < to + j) ==> pool[k] == was[k]
      {
        pool[to + j] := pool[from + j];
        j := j + 1;
      }
    }
  }

  lemma InMap(vars: seq<Var>, key: Text)
    requires Distinct(vars)
    ensures key in AsMap(vars) <==> IndexOf(vars, key) < |vars|
  {
    if IndexOf(vars, key) < |vars| {
      assert vars[IndexOf(vars, key)].key in KeySet(vars);
    }
  }

  lemma BeforeEq(v: Var, pool: seq<Byte>, o: nat, j: nat)
    requires StandsAt(pool, o, Spelled(v)) && VarOk(v) && j <= |v.key|
    ensures o + j < |pool| && (j < |v.key| <==> pool[o + j] != 0 && pool[o + j] != EQ)
  {
    var t := Spelled(v);
    assert pool[o + j] == pool[o..o + |t|][j] == t[j];
    assert j < |v.key| ==> v.key[j] in v.key;
  }

  lemma AfterEq(v: Var, pool: seq<Byte>, o: nat, j: nat)
    requires StandsAt(pool, o, Spelled(v)) && VarOk(v) && |v.key| < j <= |Spelled(v)|
    ensures o + j < |pool| && (j < |Spelled(v)| <==> pool[o + j] != 0)
    ensures j < |Spelled(v)| ==> Spelled(v)[|v.key| + 1..j + 1] == Spelled(v)[|v.key| + 1..j] + [pool[o + j]]
    ensures j == |Spelled(v)| ==> Spelled(v)[|v.key| + 1..j] == v.value
  {
    var t := Spelled(v);
    if j < |t| {
      assert pool[o + j] == pool[o..o + |t|][j] == t[j];
      assert t[j] == v.value[j - |v.key| - 1] && v.value[j - |v.key| - 1] in v.value;
    }
  }

  lemma NulAt(v: Var, pool: seq<Byte>, o: nat, j: nat)
    requires StandsAt(pool, o, Spelled(v)) && VarOk(v) && j <= |Spelled(v)|
    ensures o + j < |pool| && (j < |Spelled(v)| <==> pool[o + j] != 0)
  {
    if j <= |v.key| {
      BeforeEq(v, pool, o, j);
      assert j == |v.key| ==> pool[o + j] == pool[o..o + |Spelled(v)|][j];
    } else {
      AfterEq(v, pool, o, j);
    }
  }

  lemma CompactNone(pool: seq<Byte>, tab: seq<Slot>, vars: seq<Var>, used: nat)
    requires Packed(pool, tab, vars, used)
    ensures Compacting(pool, tab, vars, used, 0, 0)
  {
  }

  lemma CompactAt(pool: seq<Byte>, tab: seq<Slot>, vars: seq<Var>, used: nat, i: nat, pos: nat)
    requires Compacting(pool, tab, vars, used, i, pos) && i < |vars|
    ensures i < |tab| && StandsAt(pool, tab[i].off, Spelled(vars[i])) && VarOk(vars[i]) && pos <= tab[i].off
    ensures tab[i].off + |Spelled(vars[i])| + 1 <= used <= |pool|
  {
    VarAt(pool, tab, vars, used, i);
  }

  lemma CompactDone(pool: seq<Byte>, tab: seq<Slot>, vars: seq<Var>, used: nat, pos: nat)
    requires Compacting(pool, tab, vars, used, |vars|, pos)
    ensures Packed(pool, tab, vars, pos) && pos == Total(vars) && pos <= used
  {
    assert vars[..|vars|] == vars;
  }

  lemma VarAt(pool: seq<Byte>, tab: seq<Slot>, vars: seq<Var>, used: nat, i: nat)
    requires Packed(pool, tab, vars, used) && i < |vars|
    ensures i < |tab| && StandsAt(pool, tab[i].off, Spelled(vars[i])) && VarOk(vars[i]) && tab[i].off + |Spelled(vars[i])| < |pool|
    ensures tab[i].exported == vars[i].exported && tab[i].off + |Spelled(vars[i])| + 1 <= used <= |pool|
  {
    assert EndOf(tab, vars, i) <= used;
  }

  /** A byte that equals a key's byte is not the NUL: the comparison stays inside the string. */
  lemma NotPast(v: Var, key: Text, pool: seq<Byte>, o: nat, j: nat)
    requires StandsAt(pool, o, Spelled(v)) && KeyOk(key) && j < |key| && j <= |Spelled(v)| && pool[o + j] == key[j]
    ensures j < |Spelled(v)|
  {
    assert key[j] in key;
  }

  /** The comparison succeeds exactly on the variable's own key. */
  lemma KeyAt(v: Var, key: Text, pool: seq<Byte>, o: nat, j: nat)
    requires StandsAt(pool, o, Spelled(v)) && VarOk(v) && KeyOk(key) && j <= |key| && j <= |Spelled(v)|
    requires forall k :: 0 <= k < j ==> pool[o + k] == key[k]
    requires j < |key| ==> pool[o + j] != key[j]
    ensures o + j < |pool|
    ensures j == |key| && pool[o + j] == EQ <==> v.key == key
  {
    var t := Spelled(v);
    assert forall k :: 0 <= k < |t| ==> pool[o + k] == pool[o..o + |t|][k] == t[k];
    assert forall k :: 0 <= k < |v.key| ==> t[k] == v.key[k] && v.key[k] in v.key;
    assert t[|v.key|] == EQ;
    assert forall k :: 0 <= k < |key| ==> key[k] in key;
    var w := pool[o..o + |t|];
    assert forall k :: 0 <= k < j ==> w[k] == key[k] != EQ;
    assert j < |v.key| ==> pool[o + j] == v.key[j];
  }

  lemma FirstIndex(vars: seq<Var>, key: Text, i: nat)
    requires i < |vars| && vars[i].key == key && forall k :: 0 <= k < i ==> vars[k].key != key
    ensures IndexOf(vars, key) == i
    decreases i
  {
    if 0 < i {
      assert vars[0].key != key;
      FirstIndex(vars[1..], key, i - 1);
    }
  }

  lemma NoIndex(vars: seq<Var>, key: Text)
    requires forall k :: 0 <= k < |vars| ==> vars[k].key != key
    ensures IndexOf(vars, key) == |vars|
  {
  }

  /** What build_envp is to list. */
  function Exported(vars: seq<Var>): seq<Text> {
    if vars == [] then []
    else Exported(vars[..|vars| - 1]) + if vars[|vars| - 1].exported then [Spelled(vars[|vars| - 1])] else []
  }

  /** How many of the first n variables are exported. */
  ghost function ExportedBefore(vars: seq<Var>, n: nat): nat {
    |set i | 0 <= i < n && i < |vars| && vars[i].exported|
  }

  lemma OneMoreExported(vars: seq<Var>, n: nat)
    requires n < |vars|
    ensures ExportedBefore(vars, n + 1) == ExportedBefore(vars, n) + if vars[n].exported then 1 else 0
  {
    var before := set i | 0 <= i < n && i < |vars| && vars[i].exported;
    assert (set i | 0 <= i < n + 1 && i < |vars| && vars[i].exported) == before + if vars[n].exported then {n} else {};
  }

  lemma SameExported(vars: seq<Var>, ws: seq<Var>, n: nat)
    requires n <= |vars| && n <= |ws| && forall i :: 0 <= i < n ==> vars[i] == ws[i]
    ensures ExportedBefore(vars, n) == ExportedBefore(ws, n)
  {
    assert (set i | 0 <= i < n && i < |vars| && vars[i].exported) == (set i | 0 <= i < n && i < |ws| && ws[i].exported);
  }

  /** Each exported variable is listed as KEY=VALUE behind the exported ones before it in the table, and nothing else is. */
  lemma {:induction false} Listed(vars: seq<Var>)
    ensures |Exported(vars)| == ExportedBefore(vars, |vars|)
    ensures forall i :: 0 <= i < |vars| && vars[i].exported ==>
              ExportedBefore(vars, i) < |Exported(vars)| && Exported(vars)[ExportedBefore(vars, i)] == vars[i].key + [0x3D] + vars[i].value
  {
    if vars != [] {
      var n := |vars| - 1;
      var front := vars[..n];
      Listed(front);
      OneMoreExported(vars, n);
      SameExported(vars, front, n);
      forall i | 0 <= i < |vars| && vars[i].exported
        ensures ExportedBefore(vars, i) < |Exported(vars)| && Exported(vars)[ExportedBefore(vars, i)] == vars[i].key + [0x3D] + vars[i].value
      {
        SameExported(vars, front, i);
        if i < n {
          assert front[i] == vars[i];
        }
      }
    }
  }

  lemma {:induction false} ListedOnly(vars: seq<Var>, t: Text)
    ensures t in Exported(vars) <==> exists v <- vars :: v.exported && t == v.key + [0x3D] + v.value
  {
    if vars != [] {
      var n := |vars| - 1;
      ListedOnly(vars[..n], t);
      assert vars == vars[..n] + [vars[n]];
    }
  }

  lemma {:induction false} ExportedPrefix(vars: seq<Var>, i: nat)
    requires i <= |vars|
    ensures |Exported(vars[..i])| <= |Exported(vars)| && Exported(vars)[..|Exported(vars[..i])|] == Exported(vars[..i])
    decreases |vars|
  {
    if i == |vars| {
      assert vars[..i] == vars;
    } else {
      var front := vars[..|vars| - 1];
      assert front[..i] == vars[..i];
      ExportedPrefix(front, i);
    }
  }

  lemma WithoutDistinct(vars: seq<Var>, i: nat)
    requires Distinct(vars) && i < |vars|
    ensures Distinct(Without(vars, i))
  {
    var w := Without(vars, i);
    assert forall j :: 0 <= j < |w| ==> w[j] == vars[Skip(i, j)];
  }

  lemma PackedUsed(pool: seq<Byte>, tab: seq<Slot>, vars: seq<Var>, used: nat)
    requires Packed(pool, tab, vars, used)
    ensures used <= |pool| && |tab| == |vars|
  {
  }

  lemma NewKey(vars: seq<Var>, key: Text)
    requires Distinct(vars)
    ensures forall v :: v in Dropped(vars, key) ==> v.key != key
  {
    DroppedIs(vars, key);
  }

  lemma SetIs(vars: seq<Var>, key: Text, value: Text, exported: int, exp: bool)
    requires exp == if exported == -1 then IndexOf(vars, key) < |vars| && vars[IndexOf(vars, key)].exported else exported != 0
    ensures WithVar(vars, key, value, exported) == Dropped(vars, key) + [Var(key, value, exp)]
  {
  }

  lemma AreDistinct(env: Env)
    requires env.Valid()
    ensures Distinct(env.vars)
  {
  }

  /** A variable set anew to more than the pool can hold: the call fails, and the variable is gone. */
  method SetAndLost() returns (env: Env, before: bool, rc: int, after: bool)
    ensures fresh(env) && env.Valid() && before && rc == -1 && !after && env.vars == []
  {
    hide Packed, AsMap, Env.Valid;
    env := new Env();
    var text;
    rc := env.Set([0x4B], [0x76], 0);
    assert rc == 0;
    before, text := env.Get([0x4B]);
    rc := env.Set([0x4B], seq(POOL, _ => 0x76), 0);
    after, text := env.Get([0x4B]);
  }
}
