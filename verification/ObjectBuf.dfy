/** objectbuf, end to end: symbol tables, every kind of root, and the loss of index-like string keys. */
module ObjectBuf {
  import opened Bytes
  import opened LuaGraph
  import opened Packer
  import opened ObjectFormat
  import opened ObjectRoundTrip
  import opened ObjectIso
  import opened ObjectEncode
  import opened ObjectDecode

  // ---------- symbol tables ----------

  /** The dictionary numbers the booleans 1 and 2 and the listed atoms from 3 on, both ways. */
  ghost predicate Numbered(s: Sym, vs: seq<Value>) {
    && s.index == |vs| + 2
    && (forall v :: v in s.indexOf <==> v.Bool? || v in vs)
    && (forall b :: s.indexOf[Bool(b)] == BoolIndex(b))
    && (forall i :: 0 <= i < |vs| ==> s.indexOf[vs[i]] == i + 3)
    && (forall i :: i in s.valueOf <==> 3 <= i < |vs| + 3)
    && (forall i :: 0 <= i < |vs| ==> s.valueOf[i + 3] == vs[i])
  }

  lemma NumberedIsValid(s: Sym, vs: seq<Value>)
    requires Numbered(s, vs) && forall v :: v in vs ==> !v.Table?
    ensures ValidSym(s)
  {
    forall v | v in s.indexOf && !v.Bool? ensures s.indexOf[v] in s.valueOf && s.valueOf[s.indexOf[v]] == v {
      assert vs[IndexOf(vs, v)] == v;
    }
  }

  function WithSymbol(s: Sym, v: Value): Sym {
    Sym(s.indexOf[v := s.index + 1], s.valueOf[s.index + 1 := v], s.index + 1)
  }

  lemma NumberedMore(s: Sym, vs: seq<Value>, v: Value)
    requires Numbered(s, vs) && v !in vs && !v.Bool?
    ensures Numbered(WithSymbol(s, v), vs + [v])
  {}

  lemma NotBefore<T>(xs: seq<T>, i: nat)
    requires Distinct(xs) && i < |xs|
    ensures xs[i] !in xs[..i]
  {}

  /** Numbers the part of `all` that starts at `k`. */
  method AddSymbols(s0: Sym, list: seq<Value>, ghost all: seq<Value>, ghost k: nat) returns (s: Sym)
    requires k + |list| <= |all| && list == all[k..k + |list|]
    requires Distinct(all) && forall i :: 0 <= i < |all| ==> !all[i].Bool?
    requires Numbered(s0, all[..k])
    ensures Numbered(s, all[..k + |list|])
  {
    s := s0;
    var i := 0;
    ghost var vs := all[..k];
    while i < |list|
      invariant 0 <= i <= |list| && vs == all[..k + i]
      invariant Numbered(s, vs)
    {
      NotBefore(all, k + i);
      NumberedMore(s, vs, list[i]);
      s := WithSymbol(s, list[i]);
      vs := vs + [list[i]];
      i := i + 1;
    }
  }

  lemma {:induction false} DistinctCounts<T>(xs: seq<T>, x: T)
    requires Distinct(xs)
    ensures multiset(xs)[x] <= 1
  {
    if xs != [] {
      DistinctCounts(xs[1..], x);
      assert xs == [xs[0]] + xs[1..] && xs[0] !in xs[1..];
    }
  }

  /** Reordering keeps values apart and loses none. */
  lemma Reordered<T>(xs: seq<T>, ys: seq<T>)
    requires Distinct(xs) && multiset(ys) == multiset(xs)
    ensures Distinct(ys) && forall x :: x in ys <==> x in xs
  {
    forall x ensures x in ys <==> x in xs { assert x in multiset(xs) <==> x in multiset(ys); }
    forall i, j | 0 <= i < j < |ys| ensures ys[i] != ys[j] {
      DistinctCounts(xs, ys[i]);
      assert ys == ys[..j] + ([ys[j]] + ys[j + 1..]) && ys[i] in ys[..j];
      assert multiset(ys) == multiset(ys[..j]) + (multiset([ys[j]]) + multiset(ys[j + 1..]));
    }
  }

  lemma JoinThree(xs: seq<Value>, ys: seq<Value>, zs: seq<Value>)
    requires Distinct(xs) && Distinct(ys) && Distinct(zs)
    requires forall v :: v in xs ==> v !in ys && v !in zs
    requires forall v :: v in ys ==> v !in zs
    ensures Distinct(xs + ys + zs)
  {
    DistinctJoin(xs, ys);
    DistinctJoin(xs + ys, zs);
  }

  /** Strings, numbers and words, each list in an order of its own. */
  lemma SortedApart(c: Collected, strings: seq<Value>, numbers: seq<Value>, words: seq<Value>)
    requires c.Valid() && multiset(strings) == multiset(Listed(c, Strings))
    requires multiset(numbers) == multiset(Listed(c, Doubles)) && multiset(words) == multiset(Listed(c, Words))
    ensures Distinct(strings + numbers + words)
    ensures forall v :: v in strings + numbers + words <==> !v.Bool? && !v.Table? && c.Has(v)
  {
    ListedApart(c);
    Reordered(Listed(c, Strings), strings);
    Reordered(Listed(c, Doubles), numbers);
    Reordered(Listed(c, Words), words);
    JoinThree(strings, numbers, words);
    forall v: Value | !v.Bool? && !v.Table? && c.Has(v) ensures v in strings + numbers + words { ListedHas(c, v); }
  }

  lemma ListedHas(c: Collected, v: Value)
    requires !v.Bool? && !v.Table? && c.Has(v)
    ensures v in Listed(c, Doubles) || v in Listed(c, Words) || v in Listed(c, Strings)
  {
    if v.Str? {
      assert Listed(c, Strings)[IndexOf(c.strings, v.s)] == v;
    } else if v.n in c.numbers {
      assert Listed(c, Doubles)[IndexOf(c.numbers, v.n)] == v;
    } else {
      assert Listed(c, Words)[IndexOf(c.u30s, v.n)] == v;
    }
  }

  /** objectbuf.symbol: the atoms that the packer finds in `obj`, each list put in order by
      `table.sort`. The dictionary holds exactly those atoms and is always one that encoding and
      decoding can share. */
  method Symbols(h: Heap, ord: Order, obj: Value, sort: seq<Value> -> seq<Value>) returns (s: Sym)
    requires Closed(h) && Enumerates(h, ord) && InHeap(h, obj)
    requires forall xs :: multiset(sort(xs)) == multiset(xs)
    ensures ValidSym(s)
    ensures forall v :: v in s.indexOf <==> v.Bool? || (!v.Table? && Reachable(h, obj, v))
    ensures forall i :: i in s.valueOf <==> 3 <= i <= s.index
  {
    var c := Collect(h, ord, obj);
    var strings, numbers, words := sort(Listed(c, Strings)), sort(Listed(c, Doubles)), sort(Listed(c, Words));
    SortedApart(c, strings, numbers, words);
    s := Dictionary(strings, numbers, words);
  }

  /** The three lists numbered one after the other, from 3 on. */
  method Dictionary(strings: seq<Value>, numbers: seq<Value>, words: seq<Value>) returns (s: Sym)
    requires Distinct(strings + numbers + words)
    requires forall v :: v in strings + numbers + words ==> !v.Bool? && !v.Table?
    ensures ValidSym(s) && Numbered(s, strings + numbers + words)
  {
    s := Sym(map[Bool(false) := 1, Bool(true) := 2], map[], 2);
    var all := strings + numbers + words;
    var n, m := |strings|, |strings| + |numbers|;
    assert strings == all[0..n] && numbers == all[n..m] && words == all[m..m + |words|];
    assert all[..m + |words|] == all;
    s := AddSymbols(s, strings, all, 0);
    s := AddSymbols(s, numbers, all, n);
    s := AddSymbols(s, words, all, m);
    NumberedIsValid(s, all);
  }

  // ---------- atoms as roots ----------

  lemma AtomReachesItself(h: Heap, root: Value, v: Value)
    requires !root.Table? && Reachable(h, root, v)
    ensures v == root
  {
    var p :| Path(h, p) && p[0] == root && p[|p| - 1] == v;
    assert |p| > 1 ==> Edge(h, p[0], p[1]);
  }

  lemma OnlyItem<T>(xs: seq<T>, x: T)
    requires Distinct(xs) && x in xs && forall y :: y in xs ==> y == x
    ensures xs == [x]
  {
    assert xs[0] in xs && xs[|xs| - 1] in xs;
  }

  lemma AtomCollection(c: Collected, h: Heap, root: Value)
    requires IsCollection(c, h, root) && (root.Number? || root.Str?)
    ensures IsLoneAtom(c, root)
  {
    assert forall v :: c.Has(v) && !v.Bool? ==> v == root by {
      forall v | c.Has(v) && !v.Bool? ensures v == root { AtomReachesItself(h, root, v); }
    }
    assert c.Has(root) by { ReachSelf(h, root); }
    assert c.tables == [] by { if c.tables != [] { assert c.Has(Table(c.tables[0])); } }
    assert c.strings != [] ==> c.Has(Str(c.strings[0]));
    assert c.numbers != [] ==> c.Has(Number(c.numbers[0]));
    assert c.u30s != [] ==> c.Has(Number(c.u30s[0]));
    if root.Str? {
      assert forall y :: y in c.strings ==> c.Has(Str(y));
      OnlyItem(c.strings, root.s);
    } else if root.n in c.u30s {
      assert forall y :: y in c.u30s ==> c.Has(Number(y));
      OnlyItem(c.u30s, root.n);
    } else {
      assert forall y :: y in c.numbers ==> c.Has(Number(y));
      OnlyItem(c.numbers, root.n);
    }
  }

  /** A number or string root comes back, unless it is itself a symbol: then nothing does. */
  lemma AtomRoot(env: Env, c: Collected, s: Sym, h: Heap, ord: Order, root: Value)
    requires Closed(h) && Enumerates(h, ord) && (root.Number? || root.Str?)
    requires ValidSym(s) && IsCollection(c, h, root) && AtomsFit(env, c, s)
    ensures c.tables == []
    ensures Decode(env, s, Message(env, c, s, h, ord))
         == Ok(Graph([], if root in s.indexOf then None else Some(root)))
  {
    AtomCollection(c, h, root);
    AtomMessage(env, c, s, h, ord, root);
  }

  ghost predicate IsLoneAtom(c: Collected, root: Value) {
    c == if root.Str? then Collected([], [], [], [root.s])
         else if !root.Number? then Collected([], [], [], [])
         else if IsU30(root.n) then Collected([], [], [root.n], []) else Collected([], [root.n], [], [])
  }

  lemma AtomMessage(env: Env, c: Collected, s: Sym, h: Heap, ord: Order, root: Value)
    requires ValidSym(s) && c.Valid() && IsLoneAtom(c, root) && (root.Number? || root.Str?) && AtomsFit(env, c, s)
    ensures Decode(env, s, Message(env, c, s, h, ord))
         == Ok(Graph([], if root in s.indexOf then None else Some(root)))
  {
    LoneAtom(c, s, root);
    var us := MessageRoundTrip(env, c, s, h, ord);
  }

  function AtomKind(root: Value): Kind {
    if root.Number? then (if IsU30(root.n) then Words else Doubles) else Strings
  }

  lemma LoneKept(c: Collected, s: Sym, root: Value, kind: Kind)
    requires (root.Number? || root.Str?) && IsLoneAtom(c, root)
    ensures KeptAtoms(c, s, kind) == if kind == AtomKind(root) && root !in s.indexOf then [root] else []
  {
    if kind == AtomKind(root) {
      assert Listed(c, kind) == [root] && [root][1..] == [];
      assert Kept([root], s) == (if root in s.indexOf then [] else [root]) + Kept([], s);
    } else {
      assert Listed(c, kind) == [];
    }
  }

  lemma LoneAtom(c: Collected, s: Sym, root: Value)
    requires ValidSym(s) && (root.Number? || root.Str?) && IsLoneAtom(c, root)
    ensures c.tables == [] && Flag(c) > 1
    ensures Resolve(s, DictOf(c, s).Vals(),
                    RootIndex(s, Flag(c), |KeptAtoms(c, s, Doubles)|, |KeptAtoms(c, s, Words)|,
                        |KeptAtoms(c, s, Strings)|))
         == if root in s.indexOf then Fault else Ok(root)
  {
    FlagBits(c);
    LoneKept(c, s, root, Doubles);
    LoneKept(c, s, root, Words);
    LoneKept(c, s, root, Strings);
    assert DictOf(c, s).Vals() == if root in s.indexOf then [] else [root];
  }

  // ---------- end to end ----------

  /** Whatever order the walk took, what it collected fits the 32-bit format. */
  ghost predicate Carries(env: Env, s: Sym, h: Heap, ord: Order, root: Value) {
    forall c :: IsCollection(c, h, root) && (forall t :: t in c.tables ==> t in h && t in ord)
      ==> SizesFit(env, c, s, h, ord)
  }

  /** Encode, then decode, on real buffers. */
  method EncodeThenDecode(env: Env, s: Sym, h: Heap, ord: Order, root: Value) returns (r: Outcome<Graph>)
    requires Closed(h) && Enumerates(h, ord) && InHeap(h, root) && ValidSym(s) && Carries(env, s, h, ord, root)
    ensures r.Ok?
    ensures root.Bool? ==> r.value == Graph([], Some(root))
    ensures root.Number? || root.Str? ==> r.value == Graph([], if root in s.indexOf then None else Some(root))
    ensures root.Table? ==> (Isomorphic(h, root, r.value) <==> NoIndexLikeKeys(env, h, root))
  {
    var msg, c := Encode(env, s, h, ord, root);
    r := DecodeBytes(env, s, msg);
    if root.Table? {
      RoundTrip(env, c, s, h, ord, root);
    } else if !root.Bool? {
      AtomRoot(env, c, s, h, ord, root);
    }
  }

  // ---------- the loss is real ----------

  const ONE: seq<byte> := [49]
  const LOSSY_TABLE: LuaTable := map[Int(1) := Bool(true), Str(ONE) := Bool(false)]
  const LOSSY: Heap := map[0 := LOSSY_TABLE]
  const LOSSY_ORDER: Order := map[0 := [Int(1), Str(ONE)]]
  const LOSSY_COLLECTED := Collected([0], [], [Finite(1.0)], [ONE])

  lemma LossyReaches(v: Value)
    requires v in LOSSY_TABLE
    ensures Reachable(LOSSY, Table(0), v)
  {
    ReachSelf(LOSSY, v);
    ReachThrough(LOSSY, Table(0), v, v);
  }

  lemma LossyIsCollected()
    ensures Closed(LOSSY) && Enumerates(LOSSY, LOSSY_ORDER) && IsCollection(LOSSY_COLLECTED, LOSSY, Table(0))
  {
    var c := LOSSY_COLLECTED;
    assert IsU30(Finite(1.0));
    forall v | c.Has(v) && !v.Bool? ensures Reachable(LOSSY, Table(0), v) {
      if v.Table? { ReachSelf(LOSSY, v); } else { LossyReaches(v); }
    }
    forall v | Reachable(LOSSY, Table(0), v) ensures c.Has(v) {
      ReachableIsCollected(c, LOSSY, Table(0), v);
    }
  }

  lemma LossyArrayPart(env: Env)
    requires env.coerce(ONE) == Some(Finite(1.0))
    ensures ArrayLen(LOSSY_TABLE) == 1 && Skipped(env, Int(1), 1) && Skipped(env, Str(ONE), 1)
  {
    ArrayLenIs(LOSSY_TABLE, 1);
  }

  lemma LossyPairs(env: Env, d: Dict)
    requires env.coerce(ONE) == Some(Finite(1.0))
    ensures PairWords(env, d, LOSSY_TABLE, LOSSY_ORDER[0], 1) == []
  {
    LossyArrayPart(env);
    assert LOSSY_ORDER[0][1..] == [Str(ONE)] && [Str(ONE)][1..] == [];
    assert PairWords(env, d, LOSSY_TABLE, [Str(ONE)], 1) == [] + PairWords(env, d, LOSSY_TABLE, [], 1) == [];
  }

  lemma LossyBody(env: Env, d: Dict)
    requires env.coerce(ONE) == Some(Finite(1.0)) && d.sym == NoSym
    ensures ArrayLen(LOSSY_TABLE) == 1 && |BodyBytes(env, d, LOSSY_TABLE, LOSSY_ORDER[0])| == 2
  {
    LossyArrayPart(env);
    LossyPairs(env, d);
    assert ArrayWords(d, LOSSY_TABLE, 1) == [2];
    var ws: seq<nat> := [1, 2];
    assert BodyWords(env, d, LOSSY_TABLE, LOSSY_ORDER[0]) == ws;
    assert ws[1..] == [2] && ws[1..][1..] == [];
    assert Flat(ws, WordBytes) == WordBytes(1) + (WordBytes(2) + []);
  }

  lemma LossyFits(env: Env)
    requires env.coerce(ONE) == Some(Finite(1.0))
    ensures SizesFit(env, LOSSY_COLLECTED, NoSym, LOSSY, LOSSY_ORDER)
  {
    LossyAtoms();
    LossyBody(env, DictOf(LOSSY_COLLECTED, NoSym));
  }

  lemma LossyAtoms()
    ensures KeptAtoms(LOSSY_COLLECTED, NoSym, Doubles) == [] && KeptAtoms(LOSSY_COLLECTED, NoSym, Words) == [Int(1)]
    ensures KeptAtoms(LOSSY_COLLECTED, NoSym, Strings) == [Str(ONE)]
  {
    var c := LOSSY_COLLECTED;
    assert Listed(c, Doubles) == [] && Listed(c, Words) == [Int(1)] && Listed(c, Strings) == [Str(ONE)];
    assert [Int(1)][1..] == [] && [Str(ONE)][1..] == [];
  }

  /** A table with the entries 1 = true and "1" = false does not come back. */
  lemma StringKeyLost(env: Env)
    requires env.coerce(ONE) == Some(Finite(1.0))
    ensures IsCollection(LOSSY_COLLECTED, LOSSY, Table(0))
    ensures var r := Decode(env, NoSym, Message(env, LOSSY_COLLECTED, NoSym, LOSSY, LOSSY_ORDER));
      r.Ok? && !Isomorphic(LOSSY, Table(0), r.value)
  {
    LossyIsCollected();
    LossyFits(env);
    LossyArrayPart(env);
    RoundTrip(env, LOSSY_COLLECTED, NoSym, LOSSY, LOSSY_ORDER, Table(0));
    ReachSelf(LOSSY, Table(0));
    assert Str(ONE) in Dropped(env, LOSSY[0]);
  }
}
