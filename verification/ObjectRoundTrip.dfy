/** Decoding an encoded graph rebuilds it. */
module ObjectRoundTrip {
  import opened Bytes
  import opened LuaGraph
  import opened Packer
  import opened Stream
  import opened ObjectFormat

  // ---------- sections of atoms ----------

  ghost predicate AtomFits(env: Env, kind: Kind, v: Value) {
    match kind
    case Doubles => v.Number? && |env.enc(v.n)| == 8 && env.dec(env.enc(v.n)) == v.n
    case Words => v.Number? && IsU30(v.n)
    case Strings => v.Str? && |v.s| < U32
  }

  lemma AtomRoundTrip(env: Env, kind: Kind, v: Value, rest: seq<byte>)
    requires AtomFits(env, kind, v)
    ensures ReadAtom(env, kind, AtomBytes(env, kind, v) + rest) == Some((v, rest))
  {
    var b := AtomBytes(env, kind, v) + rest;
    match kind
    case Doubles => assert b[..8] == env.enc(v.n) && b[8..] == rest;
    case Words =>
      assert 0 <= v.n.r.Floor < U32;
      U30RoundTrip(v.n.r.Floor, rest);
    case Strings => StringRoundTrip(v.s, rest);
  }

  lemma AtomThen(env: Env, kind: Kind, v: Value, n: nat, tail: seq<byte>, vs: seq<Value>, rest: seq<byte>)
    requires n > 0 && AtomFits(env, kind, v) && ReadAtoms(env, kind, n - 1, tail) == Some((vs, rest))
    ensures ReadAtoms(env, kind, n, AtomBytes(env, kind, v) + tail) == Some(([v] + vs, rest))
  {
    AtomRoundTrip(env, kind, v, tail);
  }

  lemma {:induction false} AtomsRoundTrip(env: Env, kind: Kind, vs: seq<Value>, rest: seq<byte>)
    requires forall v :: v in vs ==> AtomFits(env, kind, v)
    ensures ReadAtoms(env, kind, |vs|, AtomsBytes(env, kind, vs) + rest) == Some((vs, rest))
  {
    if vs == [] {
      assert AtomsBytes(env, kind, vs) + rest == rest;
    } else {
      Assoc(AtomBytes(env, kind, vs[0]), AtomsBytes(env, kind, vs[1..]), rest);
      AtomsRoundTrip(env, kind, vs[1..], rest);
      AtomThen(env, kind, vs[0], |vs|, AtomsBytes(env, kind, vs[1..]) + rest, vs[1..], rest);
      assert vs == [vs[0]] + vs[1..];
    }
  }

  lemma {:induction false} KeptIs(vs: seq<Value>, s: Sym, v: Value)
    ensures v in Kept(vs, s) <==> v in vs && v !in s.indexOf
  {
    if vs != [] {
      KeptIs(vs[1..], s, v);
      assert v in vs <==> v == vs[0] || v in vs[1..];
    }
  }

  /** The atoms the format can carry. */
  ghost predicate AtomsFit(env: Env, c: Collected, s: Sym) {
    && (forall v :: v in KeptAtoms(c, s, Doubles) ==> AtomFits(env, Doubles, v))
    && (forall v :: v in KeptAtoms(c, s, Strings) ==> AtomFits(env, Strings, v))
    && s.index + |Atoms(c, s)| + |c.tables| < U32
  }

  lemma CountThenAtoms(env: Env, kind: Kind, vs: seq<Value>, tail: seq<byte>, rest: seq<byte>)
    requires |vs| < U32 && ReadAtoms(env, kind, |vs|, tail) == Some((vs, rest))
    ensures ReadSection(env, true, kind, U30Bytes(|vs|) + tail) == Some((vs, rest))
  {
    U30RoundTrip(|vs|, tail);
  }

  lemma SectionRoundTrip(env: Env, c: Collected, s: Sym, kind: Kind, rest: seq<byte>)
    requires c.Valid() && AtomsFit(env, c, s)
    ensures ReadSection(env, Listed(c, kind) != [], kind, SectionBytes(env, c, s, kind) + rest)
         == Some((KeptAtoms(c, s, kind), rest))
  {
    var vs := KeptAtoms(c, s, kind);
    if Listed(c, kind) == [] {
      assert SectionBytes(env, c, s, kind) + rest == rest;
    } else {
      forall v | v in vs ensures AtomFits(env, kind, v) {
        KeptIs(Listed(c, kind), s, v);
      }
      Assoc(U30Bytes(|vs|), AtomsBytes(env, kind, vs), rest);
      AtomsRoundTrip(env, kind, vs, rest);
      CountThenAtoms(env, kind, vs, AtomsBytes(env, kind, vs) + rest, rest);
    }
  }

  // ---------- references ----------

  /** Tables take the number of their position in the walk; atoms are themselves. */
  function Rename(ts: seq<nat>, v: Value): Value {
    if v.Table? then Table(IndexOf(ts, v.id)) else v
  }

  ghost predicate Listable(ts: seq<nat>, v: Value) { v.Table? ==> v.id in ts }

  lemma RenameInjective(ts: seq<nat>, u: Value, v: Value)
    requires Listable(ts, u) && Listable(ts, v) && Rename(ts, u) == Rename(ts, v)
    ensures u == v
  {}

  lemma ResolveAtom(s: Sym, atoms: seq<Value>, n: nat, v: Value)
    requires ValidSym(s) && v in atoms
    ensures Resolve(s, atoms + NewTables(n), s.index + 1 + IndexOf(atoms, v)) == Ok(v)
  {}

  lemma ResolveTable(s: Sym, atoms: seq<Value>, n: nat, i: nat)
    requires ValidSym(s) && i < n
    ensures Resolve(s, atoms + NewTables(n), s.index + |atoms| + 1 + i) == Ok(Table(i))
  {}

  lemma ResolveShared(s: Sym, vals: seq<Value>, v: Value)
    requires ValidSym(s) && (v in s.indexOf || v.Bool?)
    ensures Resolve(s, vals, if v in s.indexOf then s.indexOf[v] else BoolIndex(v.b)) == Ok(v)
  {}

  /** Every index written resolves to the value it stands for: symbols, atoms, tables and
      booleans never clash. */
  lemma RefResolves(d: Dict, v: Value)
    requires ValidSym(d.sym) && d.Knows(v)
    ensures Resolve(d.sym, d.Vals(), d.Ref(v)) == Ok(Rename(d.tables, v))
    ensures d.Ref(v) <= d.Last() && Listable(d.tables, v)
  {
    if v in d.sym.indexOf || v.Bool? {
      ResolveShared(d.sym, d.Vals(), v);
    } else if v.Table? {
      ResolveTable(d.sym, d.atoms, |d.tables|, IndexOf(d.tables, v.id));
    } else {
      ResolveAtom(d.sym, d.atoms, |d.tables|, v);
    }
  }

  lemma AtomListed(c: Collected, s: Sym, v: Value)
    requires c.Has(v) && !v.Bool? && !v.Table? && v !in s.indexOf
    ensures v in Atoms(c, s)
  {
    match v {
      case Number(n) =>
        if n in c.numbers {
          assert Listed(c, Doubles)[IndexOf(c.numbers, n)] == v;
          KeptIs(Listed(c, Doubles), s, v);
        } else {
          assert Listed(c, Words)[IndexOf(c.u30s, n)] == v;
          KeptIs(Listed(c, Words), s, v);
        }
      case Str(x) =>
        assert Listed(c, Strings)[IndexOf(c.strings, x)] == v;
        KeptIs(Listed(c, Strings), s, v);
    }
  }

  /** Whatever the packer collected has a number. */
  lemma CollectedIsKnown(c: Collected, s: Sym, t: LuaTable)
    requires c.Complete(t)
    ensures DictOf(c, s).Complete(t)
  {
    forall k | k in t ensures DictOf(c, s).Knows(k) && DictOf(c, s).Knows(t[k]) {
      if !k.Bool? && !k.Table? && k !in s.indexOf { AtomListed(c, s, k); }
      var v := t[k];
      if !v.Bool? && !v.Table? && v !in s.indexOf { AtomListed(c, s, v); }
    }
  }

  // ---------- table bodies ----------

  /** `u` holds exactly the renamed entries of `t` under the keys `ks`. */
  ghost predicate Renamed(ts: seq<nat>, t: LuaTable, u: LuaTable, ks: set<Value>) {
    && (forall k :: k in ks ==> k in t && Listable(ts, k) && Rename(ts, k) in u && u[Rename(ts, k)] == Rename(ts, t[k]))
    && (forall x :: x in u ==> exists k :: k in ks && Rename(ts, k) == x)
  }

  lemma RenamedStep(ts: seq<nat>, t: LuaTable, u: LuaTable, ks: set<Value>, k: Value)
    requires Renamed(ts, t, u, ks) && k in t && Listable(ts, k)
    ensures Renamed(ts, t, u[Rename(ts, k) := Rename(ts, t[k])], ks + {k})
  {
    var w := u[Rename(ts, k) := Rename(ts, t[k])];
    forall x | x in ks + {k} ensures Rename(ts, x) in w && w[Rename(ts, x)] == Rename(ts, t[x]) {
      if Rename(ts, x) == Rename(ts, k) { RenameInjective(ts, x, k); }
    }
    forall x | x in w ensures exists y :: y in ks + {k} && Rename(ts, y) == x {
      if x == Rename(ts, k) {
        assert k in ks + {k};
      } else {
        var y :| y in ks && Rename(ts, y) == x;
        assert y in ks + {k};
      }
    }
  }

  ghost predicate Ready(d: Dict, t: LuaTable) {
    ValidSym(d.sym) && d.Complete(t) && d.Last() < U32
  }

  lemma ArraySlot(ws: seq<nat>, j: nat, rest: seq<nat>)
    requires 1 <= j <= |ws|
    ensures (ws[j - 1..] + rest)[0] == ws[j - 1] && (ws[j - 1..] + rest)[1..] == ws[j..] + rest
  {}

  lemma SlotFilled(s: Sym, vals: seq<Value>, u: LuaTable, j: nat, n: nat, ws: seq<nat>, v: Value)
    requires j <= n && ws != [] && Resolve(s, vals, ws[0]) == Ok(v)
    ensures FillArray(s, vals, u, j, n, ws) == FillArray(s, vals, u[Int(j) := v], j + 1, n, ws[1..])
  {}

  lemma {:induction false} ArrayFilled(d: Dict, t: LuaTable, u: LuaTable, j: nat, n: nat, rest: seq<nat>)
    returns (w: LuaTable)
    requires Ready(d, t) && 1 <= j <= n + 1 && forall i :: 1 <= i <= n ==> Int(i) in t
    requires Renamed(d.tables, t, u, Ints(j - 1))
    ensures FillArray(d.sym, d.Vals(), u, j, n, ArrayWords(d, t, n)[j - 1..] + rest) == Ok((w, rest))
    ensures Renamed(d.tables, t, w, Ints(n))
    decreases n + 1 - j
  {
    var ws := ArrayWords(d, t, n)[j - 1..] + rest;
    if j > n {
      assert ws == rest;
      w := u;
    } else {
      var v := t[Int(j)];
      ArraySlot(ArrayWords(d, t, n), j, rest);
      assert d.Knows(v);
      RefResolves(d, v);
      SlotFilled(d.sym, d.Vals(), u, j, n, ws, Rename(d.tables, v));
      RenamedStep(d.tables, t, u, Ints(j - 1), Int(j));
      assert Ints(j - 1) + {Int(j)} == Ints(j);
      w := ArrayFilled(d, t, u[Int(j) := Rename(d.tables, v)], j + 1, n, rest);
    }
  }

  ghost function Unskipped(env: Env, keys: seq<Value>, n: nat): set<Value> {
    set k | k in keys && !Skipped(env, k, n)
  }

  lemma {:induction false} PairsFilled(env: Env, d: Dict, t: LuaTable, u: LuaTable, ks: set<Value>,
      keys: seq<Value>, n: nat)
    returns (w: LuaTable)
    requires Ready(d, t) && forall k :: k in keys ==> k in t
    requires Renamed(d.tables, t, u, ks)
    ensures FillPairs(d.sym, d.Vals(), u, PairWords(env, d, t, keys, n), true) == Ok(w)
    ensures Renamed(d.tables, t, w, ks + Unskipped(env, keys, n))
    decreases |keys|
  {
    if keys == [] {
      w := u;
      assert ks + Unskipped(env, keys, n) == ks;
    } else {
      var k := keys[0];
      var ws, more := PairWords(env, d, t, keys, n), PairWords(env, d, t, keys[1..], n);
      assert Unskipped(env, keys, n) == Unskipped(env, keys[1..], n) + (if Skipped(env, k, n) then {} else {k});
      if Skipped(env, k, n) {
        assert ws == more;
        w := PairsFilled(env, d, t, u, ks, keys[1..], n);
      } else {
        assert ws == [d.Ref(k), d.Ref(t[k])] + more && ws[2..] == more;
        RefResolves(d, k);
        RefResolves(d, t[k]);
        RenamedStep(d.tables, t, u, ks, k);
        w := PairsFilled(env, d, t, u[Rename(d.tables, k) := Rename(d.tables, t[k])], ks + {k}, keys[1..], n);
        assert ks + {k} + Unskipped(env, keys[1..], n) == ks + Unskipped(env, keys, n);
      }
    }
  }

  /** String keys that read as an index of the array part: the encoder leaves them out. */
  ghost function Dropped(env: Env, t: LuaTable): set<Value> {
    set k | k in t && k.Str? && Skipped(env, k, ArrayLen(t))
  }

  lemma WrittenKeys(env: Env, t: LuaTable, keys: seq<Value>)
    requires Lists(keys, t)
    ensures Ints(ArrayLen(t)) + Unskipped(env, keys, ArrayLen(t)) == t.Keys - Dropped(env, t)
  {
    var n := ArrayLen(t);
    forall k | k in t ensures k in Ints(n) + Unskipped(env, keys, n) <==> k !in Dropped(env, t) {
      assert k in keys;
      if k.Number? && Skipped(env, k, n) { assert k == Int(k.n.r.Floor); }
    }
    assert forall k :: k in Ints(n) ==> k in t;
  }

  lemma TableFilled(env: Env, d: Dict, t: LuaTable, keys: seq<Value>) returns (w: LuaTable)
    requires Ready(d, t) && Lists(keys, t)
    ensures FillTable(d.sym, d.Vals(), BodyWords(env, d, t, keys), true) == Ok(w)
    ensures Renamed(d.tables, t, w, t.Keys - Dropped(env, t))
  {
    var n := ArrayLen(t);
    var words, pairs := ArrayWords(d, t, n), PairWords(env, d, t, keys, n);
    assert words[0..] == words && Ints(0) == {};
    var u := ArrayFilled(d, t, map[], 1, n, pairs);
    w := PairsFilled(env, d, t, u, Ints(n), keys, n);
    WrittenKeys(env, t, keys);
    assert BodyWords(env, d, t, keys)[1..] == words + pairs;
  }

  ghost predicate Small(ws: seq<nat>) { forall i :: 0 <= i < |ws| ==> ws[i] < U32 }

  lemma WordThen(w: nat, b: seq<byte>, ws: seq<nat>)
    requires w < U32 && ReadWords(b) == WordList(ws, true)
    ensures ReadWords(WordBytes(w) + b) == WordList([w] + ws, true)
  {
    U30RoundTrip(w, b);
  }

  lemma {:induction false} WordsRead(ws: seq<nat>, b: seq<byte>)
    requires Small(ws) && b == Flat(ws, WordBytes)
    ensures ReadWords(b) == WordList(ws, true)
    decreases |ws|
  {
    if ws != [] {
      var more := Flat(ws[1..], WordBytes);
      WordsRead(ws[1..], more);
      WordThen(ws[0], more, ws[1..]);
      assert ws == [ws[0]] + ws[1..];
    }
  }

  lemma WordsRoundTrip(ws: seq<nat>)
    requires Small(ws)
    ensures ReadWords(Flat(ws, WordBytes)) == WordList(ws, true)
  {
    WordsRead(ws, Flat(ws, WordBytes));
  }

  lemma {:induction false} PairWordsSmall(env: Env, d: Dict, t: LuaTable, keys: seq<Value>, n: nat)
    requires Ready(d, t)
    ensures Small(PairWords(env, d, t, keys, n))
    decreases |keys|
  {
    if keys != [] {
      var k := keys[0];
      PairWordsSmall(env, d, t, keys[1..], n);
      if k in t {
        RefResolves(d, k);
        RefResolves(d, t[k]);
        assert Small([d.Ref(k), d.Ref(t[k])] + PairWords(env, d, t, keys[1..], n));
      }
    }
  }

  lemma BodyWordsSmall(env: Env, d: Dict, t: LuaTable, keys: seq<Value>)
    requires Ready(d, t) && ArrayLen(t) < U32
    ensures Small(BodyWords(env, d, t, keys))
  {
    var n := ArrayLen(t);
    forall i | 0 <= i < n ensures ArrayWords(d, t, n)[i] < U32 {
      assert Int(i + 1) in t;
      RefResolves(d, t[Int(i + 1)]);
    }
    PairWordsSmall(env, d, t, keys, n);
  }

  lemma BodyRoundTrip(env: Env, d: Dict, t: LuaTable, keys: seq<Value>) returns (w: LuaTable)
    requires Ready(d, t) && Lists(keys, t) && ArrayLen(t) < U32
    ensures ReadBody(d.sym, d.Vals(), BodyBytes(env, d, t, keys)) == Ok(w)
    ensures Renamed(d.tables, t, w, t.Keys - Dropped(env, t))
  {
    w := TableFilled(env, d, t, keys);
    BodyWordsSmall(env, d, t, keys);
    WordsFill(d, BodyWords(env, d, t, keys), w);
  }

  lemma WordsFill(d: Dict, ws: seq<nat>, w: LuaTable)
    requires Small(ws) && FillTable(d.sym, d.Vals(), ws, true) == Ok(w)
    ensures ReadBody(d.sym, d.Vals(), Flat(ws, WordBytes)) == Ok(w)
  {
    WordsRoundTrip(ws);
  }

  // ---------- the whole message ----------

  ghost predicate TableFits(env: Env, d: Dict, t: LuaTable, keys: seq<Value>) {
    Lists(keys, t) && d.Complete(t) && ArrayLen(t) < U32 && |BodyBytes(env, d, t, keys)| < U32
  }

  /** Each table of `us` is the renaming of its counterpart, without the dropped keys. */
  ghost predicate RenamedTables(env: Env, all: seq<nat>, h: Heap, ts: seq<nat>, us: seq<LuaTable>) {
    |us| == |ts| && forall i :: 0 <= i < |ts| ==>
      ts[i] in h && Renamed(all, h[ts[i]], us[i], h[ts[i]].Keys - Dropped(env, h[ts[i]]))
  }

  lemma BodyThen(s: Sym, vals: seq<Value>, body: seq<byte>, u: LuaTable, n: nat, tail: seq<byte>, us: seq<LuaTable>)
    requires n > 0 && |body| < U32 && ReadBody(s, vals, body) == Ok(u) && ReadBodies(s, vals, n - 1, tail) == Ok(us)
    ensures ReadBodies(s, vals, n, StringBytes(body) + tail) == Ok([u] + us)
  {
    StringRoundTrip(body, tail);
  }

  lemma {:induction false} BodiesRead(d: Dict, bodies: seq<seq<byte>>, us: seq<LuaTable>)
    requires |us| == |bodies|
    requires forall i :: 0 <= i < |us| ==> |bodies[i]| < U32 && ReadBody(d.sym, d.Vals(), bodies[i]) == Ok(us[i])
    ensures ReadBodies(d.sym, d.Vals(), |us|, Flat(bodies, StringBytes)) == Ok(us)
  {
    if us != [] {
      BodiesRead(d, bodies[1..], us[1..]);
      BodyThen(d.sym, d.Vals(), bodies[0], us[0], |us|, Flat(bodies[1..], StringBytes), us[1..]);
      assert us == [us[0]] + us[1..];
    }
  }

  lemma BodiesRoundTrip(env: Env, d: Dict, h: Heap, ord: Order, ts: seq<nat>) returns (us: seq<LuaTable>)
    requires ValidSym(d.sym) && d.Last() < U32
    requires forall t :: t in ts ==> t in h && t in ord && TableFits(env, d, h[t], ord[t])
    ensures ReadBodies(d.sym, d.Vals(), |ts|, Flat(Bodies(env, d, h, ord, ts), StringBytes)) == Ok(us)
    ensures RenamedTables(env, d.tables, h, ts, us)
  {
    var bodies := Bodies(env, d, h, ord, ts);
    forall i | 0 <= i < |ts| ensures ReadsAs(env, d, h[ts[i]], bodies[i]) {
      var w := BodyRoundTrip(env, d, h[ts[i]], ord[ts[i]]);
    }
    us := seq(|ts|, i requires 0 <= i < |ts| && ReadBody(d.sym, d.Vals(), bodies[i]).Ok?
                    => ReadBody(d.sym, d.Vals(), bodies[i]).value);
    BodiesRead(d, bodies, us);
  }

  ghost predicate ReadsAs(env: Env, d: Dict, t: LuaTable, body: seq<byte>) {
    var r := ReadBody(d.sym, d.Vals(), body);
    |body| < U32 && r.Ok? && Renamed(d.tables, t, r.value, t.Keys - Dropped(env, t))
  }

  /** What the 32-bit format can carry: indices, counts, strings and table bodies below 2^32,
      and doubles whose eight bytes read back. */
  ghost predicate Fits(env: Env, c: Collected, s: Sym, h: Heap, ord: Order) {
    && AtomsFit(env, c, s)
    && forall t :: t in c.tables ==> t in h && t in ord && TableFits(env, DictOf(c, s), h[t], ord[t])
  }

  lemma TablesRoundTrip(d: Dict, bodies: seq<seq<byte>>, us: seq<LuaTable>)
    requires |bodies| == |d.tables| < U32
    requires ReadBodies(d.sym, d.Vals(), |d.tables|, Flat(bodies, StringBytes)) == Ok(us)
    ensures ReadTables(d.sym, d.tables != [], d.atoms, TablesBytes(bodies)) == Ok(us)
  {
    if bodies != [] { CountThenBodies(d, Flat(bodies, StringBytes), us); }
  }

  lemma TablesOf(env: Env, c: Collected, s: Sym, h: Heap, ord: Order) returns (us: seq<LuaTable>)
    requires ValidSym(s) && Fits(env, c, s, h, ord)
    ensures ReadTables(s, c.tables != [], Atoms(c, s), TablesBytes(Bodies(env, DictOf(c, s), h, ord, c.tables)))
        == Ok(us)
    ensures RenamedTables(env, c.tables, h, c.tables, us)
  {
    var d := DictOf(c, s);
    us := BodiesRoundTrip(env, d, h, ord, c.tables);
    TablesRoundTrip(d, Bodies(env, d, h, ord, c.tables), us);
  }

  lemma CountThenBodies(d: Dict, tail: seq<byte>, us: seq<LuaTable>)
    requires |d.tables| < U32 && ReadBodies(d.sym, d.Vals(), |d.tables|, tail) == Ok(us)
    ensures ReadTables(d.sym, true, d.atoms, U30Bytes(|d.tables|) + tail) == Ok(us)
  {
    U30RoundTrip(|d.tables|, tail);
  }

  lemma FlagBits(c: Collected)
    ensures Has(Flag(c), HAS_NUMBER) == (c.numbers != []) && Has(Flag(c), HAS_U30) == (c.u30s != [])
    ensures Has(Flag(c), HAS_STRING) == (c.strings != []) && Has(Flag(c), HAS_TABLE) == (c.tables != [])
    ensures Flag(c) <= 1 ==> Flag(c) == 0 && c == Collected([], [], [], [])
  {}

  lemma AllAtomsRead(env: Env, c: Collected, s: Sym, b3: seq<byte>)
    requires c.Valid() && AtomsFit(env, c, s)
    ensures ReadAllAtoms(env, Flag(c), SectionBytes(env, c, s, Doubles)
        + (SectionBytes(env, c, s, Words) + (SectionBytes(env, c, s, Strings) + b3)))
         == Some((KeptAtoms(c, s, Doubles), KeptAtoms(c, s, Words), KeptAtoms(c, s, Strings), b3))
  {
    FlagBits(c);
    var b2 := SectionBytes(env, c, s, Strings) + b3;
    SectionRoundTrip(env, c, s, Doubles, SectionBytes(env, c, s, Words) + b2);
    SectionRoundTrip(env, c, s, Words, b2);
    SectionRoundTrip(env, c, s, Strings, b3);
  }

  /** Decoding a message gives the collected tables, renamed, and the value at the root index. */
  lemma MessageRoundTrip(env: Env, c: Collected, s: Sym, h: Heap, ord: Order) returns (us: seq<LuaTable>)
    requires ValidSym(s) && c.Valid() && Fits(env, c, s, h, ord) && Flag(c) > 1
    ensures RenamedTables(env, c.tables, h, c.tables, us)
    ensures var at := RootIndex(s, Flag(c), |KeptAtoms(c, s, Doubles)|, |KeptAtoms(c, s, Words)|,
        |KeptAtoms(c, s, Strings)|);
      var root := Resolve(s, DictOf(c, s).Vals(), at);
      Decode(env, s, Message(env, c, s, h, ord)) == Ok(Graph(us, if root.Ok? then Some(root.value) else None))
  {
    FlagBits(c);
    var b3 := TablesBytes(Bodies(env, DictOf(c, s), h, ord, c.tables));
    AllAtomsRead(env, c, s, b3);
    us := TablesOf(env, c, s, h, ord);
    var b0 := SectionBytes(env, c, s, Doubles) + (SectionBytes(env, c, s, Words)
        + (SectionBytes(env, c, s, Strings) + b3));
    DecodeParts(env, s, Flag(c), b0, b3, KeptAtoms(c, s, Doubles), KeptAtoms(c, s, Words),
        KeptAtoms(c, s, Strings), us);
  }

  lemma DecodeParts(env: Env, s: Sym, flag: byte, b0: seq<byte>, b3: seq<byte>,
                    ds: seq<Value>, us: seq<Value>, ss: seq<Value>, ts: seq<LuaTable>)
    requires flag > 1 && ReadAllAtoms(env, flag, b0) == Some((ds, us, ss, b3))
    requires ReadTables(s, Has(flag, HAS_TABLE), ds + us + ss, b3) == Ok(ts)
    ensures var root := Resolve(s, ds + us + ss + NewTables(|ts|), RootIndex(s, flag, |ds|, |us|, |ss|));
      Decode(env, s, [flag] + b0) == Ok(Graph(ts, if root.Ok? then Some(root.value) else None))
  {
    assert ([flag] + b0)[1..] == b0;
  }
}
