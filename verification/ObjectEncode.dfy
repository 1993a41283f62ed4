/** objectbuf.c, luafan_objectbuf_encode: the loops that number the values and write the sections. */
module ObjectEncode {
  import opened Bytes
  import opened LuaGraph
  import opened Packer
  import opened ByteArrays
  import opened Stream
  import opened ObjectFormat
  import opened ObjectRoundTrip
  import opened ObjectIso

  // ---------- the index map under construction ----------

  /** `sym_map[v] or index_map[v]`; a missing index is written as zero. */
  function Lookup(s: Sym, im: map<Value, nat>, v: Value): nat {
    if v in s.indexOf then s.indexOf[v] else if v in im then im[v] else 0
  }

  /** The map numbers the booleans and the values listed so far. */
  ghost predicate Numbers(im: map<Value, nat>, base: nat, vs: seq<Value>) {
    && (forall v :: v in im <==> v.Bool? || v in vs)
    && (forall b :: im[Bool(b)] == BoolIndex(b))
    && (forall i :: 0 <= i < |vs| ==> im[vs[i]] == base + 1 + i)
  }

  lemma NumbersOneMore(im: map<Value, nat>, base: nat, vs: seq<Value>, v: Value)
    requires Numbers(im, base, vs) && v !in vs && !v.Bool?
    ensures Numbers(im[v := base + 1 + |vs|], base, vs + [v])
  {}

  lemma {:induction false} KeptSnoc(vs: seq<Value>, v: Value, s: Sym)
    ensures Kept(vs + [v], s) == Kept(vs, s) + (if v in s.indexOf then [] else [v])
  {
    if vs == [] {
      assert vs + [v] == [v] && [v][1..] == [];
    } else {
      KeptSnoc(vs[1..], v, s);
      assert (vs + [v])[1..] == vs[1..] + [v];
    }
  }

  lemma AtomsSnoc(env: Env, kind: Kind, vs: seq<Value>, v: Value)
    ensures AtomsBytes(env, kind, vs + [v]) == AtomsBytes(env, kind, vs) + AtomBytes(env, kind, v)
  {
    FlatSnoc(vs, v, x => AtomBytes(env, kind, x));
  }

  ghost predicate Apart(vs: seq<Value>, prior: seq<Value>) {
    Distinct(vs) && forall v :: v in vs ==> v !in prior && !v.Bool?
  }

  /** The value that is listed next, kept or not. */
  lemma KeptNext(vs: seq<Value>, i: nat, s: Sym)
    requires i < |vs| && Distinct(vs)
    ensures vs[i] !in Kept(vs[..i], s)
    ensures Kept(vs[..i + 1], s) == Kept(vs[..i], s) + (if vs[i] in s.indexOf then [] else [vs[i]])
  {
    KeptIs(vs[..i], s, vs[i]);
    KeptSnoc(vs[..i], vs[i], s);
    assert vs[..i + 1] == vs[..i] + [vs[i]];
  }

  /** What writing `more`, one value or none, adds to a section. */
  lemma SectionGrows(env: Env, kind: Kind, prior: seq<Value>, kept: seq<Value>, more: seq<Value>)
    requires |more| <= 1
    ensures prior + kept + more == prior + (kept + more)
    ensures AtomsBytes(env, kind, kept + more) == AtomsBytes(env, kind, kept)
        + (if more == [] then [] else AtomBytes(env, kind, more[0]))
  {
    Assoc(prior, kept, more);
    if more == [] {
      assert kept + more == kept;
      assert AtomsBytes(env, kind, kept) + [] == AtomsBytes(env, kind, kept);
    } else {
      assert more == [more[0]];
      AtomsSnoc(env, kind, kept, more[0]);
    }
  }

  ghost predicate Writable(ba: ByteArray)
    reads ba
  {
    ba.Valid() && !ba.reading && !ba.wrapbuffer
  }

  method AddAtom(ba: ByteArray, env: Env, kind: Kind, v: Value)
    requires Writable(ba)
    modifies ba, ba.buffer
    ensures Writable(ba) && (ba.buffer == old(ba.buffer) || fresh(ba.buffer))
    ensures ba.View() == Writing(old(ba.View()).bytes + AtomBytes(env, kind, v))
  {
    match kind
    case Doubles => if v.Number? { AddBytes(ba, env.enc(v.n)); }
    case Words => if v.Number? && v.n.Finite? { AddU30(ba, v.n.r.Floor); }
    case Strings => if v.Str? { AddString(ba, v.s); }
  }

  /** One atom of a section: skipped when it is a symbol, else written and numbered. */
  method NumberAtom(ba: ByteArray, env: Env, kind: Kind, s: Sym, v: Value, im0: map<Value, nat>, number: nat,
      ghost vs: seq<Value>)
    returns (im: map<Value, nat>, emitted: bool)
    requires Writable(ba) && Numbers(im0, s.index, vs) && v !in vs && !v.Bool?
    requires number == s.index + |vs| + 1
    modifies ba, ba.buffer
    ensures Writable(ba) && (ba.buffer == old(ba.buffer) || fresh(ba.buffer))
    ensures emitted <==> v !in s.indexOf
    ensures ba.View() == Writing(old(ba.View()).bytes + (if emitted then AtomBytes(env, kind, v) else []))
    ensures Numbers(im, s.index, vs + (if emitted then [v] else []))
  {
    im, emitted := im0, v !in s.indexOf;
    if emitted {
      AddAtom(ba, env, kind, v);
      im := im[v := number];
      NumbersOneMore(im0, s.index, vs, v);
    } else {
      assert vs + [] == vs && ba.View().bytes + [] == ba.View().bytes;
    }
  }

  /** The first `i` values of a section have been dealt with. */
  ghost predicate Reached(env: Env, kind: Kind, s: Sym, vs: seq<Value>, prior: seq<Value>, i: nat,
                          bytes: seq<byte>, im: map<Value, nat>, realcount: nat)
  {
    i <= |vs| && var kept := Kept(vs[..i], s);
    bytes == AtomsBytes(env, kind, kept) && Numbers(im, s.index, prior + kept) && realcount == |kept|
  }

  lemma ReachedStart(env: Env, kind: Kind, s: Sym, vs: seq<Value>, prior: seq<Value>, im: map<Value, nat>)
    requires Numbers(im, s.index, prior)
    ensures Reached(env, kind, s, vs, prior, 0, [], im, 0)
  {
    assert prior + [] == prior;
  }

  /** One round of the loop over a section. */
  method NumberNext(ba: ByteArray, env: Env, kind: Kind, s: Sym, vs: seq<Value>, i: nat, im0: map<Value, nat>,
      index: nat, count: nat, ghost prior: seq<Value>)
    returns (im: map<Value, nat>, realcount: nat)
    requires Writable(ba) && i < |vs| && Apart(vs, prior) && index == s.index + |prior|
    requires Reached(env, kind, s, vs, prior, i, ba.View().bytes, im0, count)
    modifies ba, ba.buffer
    ensures Writable(ba) && (ba.buffer == old(ba.buffer) || fresh(ba.buffer))
    ensures Reached(env, kind, s, vs, prior, i + 1, ba.View().bytes, im, realcount)
  {
    ghost var kept, more := Kept(vs[..i], s), if vs[i] in s.indexOf then [] else [vs[i]];
    KeptNext(vs, i, s);
    SectionGrows(env, kind, prior, kept, more);
    var emitted;
    im, emitted := NumberAtom(ba, env, kind, s, vs[i], im0, index + count + 1, prior + kept);
    realcount := if emitted then count + 1 else count;
  }

  /** The atoms of one section that are not symbols, numbered on from `index`. */
  method NumberAtoms(ba: ByteArray, env: Env, kind: Kind, s: Sym, vs: seq<Value>, im0: map<Value, nat>,
      index: nat, ghost prior: seq<Value>)
    returns (im: map<Value, nat>, realcount: nat)
    requires Writable(ba) && ba.View() == Writing([])
    requires Numbers(im0, s.index, prior) && index == s.index + |prior|
    requires Apart(vs, prior)
    modifies ba, ba.buffer
    ensures Writable(ba) && (ba.buffer == old(ba.buffer) || fresh(ba.buffer))
    ensures ba.View() == Writing(AtomsBytes(env, kind, Kept(vs, s)))
    ensures Numbers(im, s.index, prior + Kept(vs, s)) && realcount == |Kept(vs, s)|
  {
    im, realcount := im0, 0;
    ReachedStart(env, kind, s, vs, prior, im0);
    var i := 0;
    while i < |vs|
      invariant 0 <= i <= |vs|
      invariant Writable(ba) && (ba.buffer == old(ba.buffer) || fresh(ba.buffer))
      invariant Reached(env, kind, s, vs, prior, i, ba.View().bytes, im, realcount)
    {
      im, realcount := NumberNext(ba, env, kind, s, vs, i, im, index, realcount, prior);
      i := i + 1;
    }
    assert vs[..|vs|] == vs;
  }

  /** A whole section: its flag bit is set when the packer listed anything, symbol or not. */
  method AddSection(body: ByteArray, env: Env, kind: Kind, c: Collected, s: Sym, im0: map<Value, nat>,
      index: nat, ghost prior: seq<Value>)
    returns (im: map<Value, nat>, next: nat, present: bool)
    requires Writable(body) && Numbers(im0, s.index, prior) && index == s.index + |prior|
    requires Apart(Listed(c, kind), prior)
    modifies body, body.buffer
    ensures Writable(body) && (body.buffer == old(body.buffer) || fresh(body.buffer))
    ensures present <==> Listed(c, kind) != []
    ensures body.View() == Writing(old(body.View()).bytes + SectionBytes(env, c, s, kind))
    ensures Numbers(im, s.index, prior + KeptAtoms(c, s, kind)) && next == index + |KeptAtoms(c, s, kind)|
  {
    var vs := Listed(c, kind);
    present := vs != [];
    if !present {
      assert prior + Kept([], s) == prior && body.View().bytes + [] == body.View().bytes;
      return im0, index, false;
    }
    var d := new ByteArray.Alloc(0);
    var realcount;
    im, realcount := NumberAtoms(d, env, kind, s, vs, im0, index, prior);
    SectionJoin(env, c, s, kind, body.View().bytes);
    AddU30(body, realcount);
    AppendAll(body, d);
    next := index + realcount;
  }

  lemma SectionJoin(env: Env, c: Collected, s: Sym, kind: Kind, start: seq<byte>)
    requires Listed(c, kind) != []
    ensures var vs := KeptAtoms(c, s, kind);
      start + U30Bytes(ToU32(|vs|)) + AtomsBytes(env, kind, vs) == start + SectionBytes(env, c, s, kind)
  {
    Assoc(start, U30Bytes(ToU32(|KeptAtoms(c, s, kind)|)), AtomsBytes(env, kind, KeptAtoms(c, s, kind)));
  }

  /** `d` becomes readable and all of it is copied to `body`. */
  method AppendAll(body: ByteArray, d: ByteArray)
    requires Writable(body) && Writable(d) && body != d && body.buffer != d.buffer
    modifies body, body.buffer, d
    ensures Writable(body) && (body.buffer == old(body.buffer) || fresh(body.buffer))
    ensures body.View() == Writing(old(body.View()).bytes + old(d.View()).bytes)
    ensures d.buffer == old(d.buffer)
  {
    var ok := d.ReadReady();
    AddBytes(body, d.buffer[..d.total]);
  }

  // ---------- table bodies ----------

  /** The map numbers everything `d` numbers. */
  ghost predicate Agrees(d: Dict, im: map<Value, nat>) {
    forall v :: d.Knows(v) ==> Lookup(d.sym, im, v) == d.Ref(v)
  }

  /** A writable buffer that holds the varints `ws`. */
  ghost predicate Holds(ba: ByteArray, ws: seq<nat>)
    reads ba, ba.buffer
  {
    Writable(ba) && ba.View() == Writing(Flat(ws, WordBytes))
  }

  method AddWord(ba: ByteArray, w: nat, ghost ws: seq<nat>)
    requires Holds(ba, ws)
    modifies ba, ba.buffer
    ensures Holds(ba, ws + [w]) && (ba.buffer == old(ba.buffer) || fresh(ba.buffer))
  {
    FlatSnoc(ws, w, WordBytes);
    AddU30(ba, w);
  }

  lemma ArrayLenIs(t: LuaTable, n: nat)
    requires Int(n + 1) !in t && forall i :: 1 <= i <= n ==> Int(i) in t
    ensures n == ArrayLen(t)
  {
    var m := ArrayLen(t);
    assert m < n ==> Int(m + 1) in t;
    assert n < m ==> Int(n + 1) in t;
  }

  lemma ArrayStep(d: Dict, im: map<Value, nat>, t: LuaTable, n: nat)
    requires Agrees(d, im) && d.Complete(t) && forall i :: 1 <= i <= n + 1 ==> Int(i) in t
    ensures ArrayWords(d, t, n + 1) == ArrayWords(d, t, n) + [Lookup(d.sym, im, t[Int(n + 1)])]
    ensures t.Keys - Ints(n + 1) < t.Keys - Ints(n)
  {
    assert d.Knows(t[Int(n + 1)]);
    assert Int(n + 1) in t.Keys - Ints(n) && Int(n + 1) in Ints(n + 1);
    assert Ints(n) <= Ints(n + 1);
  }

  method AddArrayPart(ba: ByteArray, d: Dict, im: map<Value, nat>, t: LuaTable) returns (n: nat)
    requires Holds(ba, []) && Agrees(d, im) && d.Complete(t)
    modifies ba, ba.buffer
    ensures ba.buffer == old(ba.buffer) || fresh(ba.buffer)
    ensures n == ArrayLen(t) && Holds(ba, ArrayWords(d, t, n))
  {
    n := 0;
    assert ArrayWords(d, t, 0) == [];
    while Int(n + 1) in t
      invariant forall i :: 1 <= i <= n ==> Int(i) in t
      invariant ba.buffer == old(ba.buffer) || fresh(ba.buffer)
      invariant Holds(ba, ArrayWords(d, t, n))
      decreases t.Keys - Ints(n)
    {
      ArrayStep(d, im, t, n);
      AddWord(ba, Lookup(d.sym, im, t[Int(n + 1)]), ArrayWords(d, t, n));
      n := n + 1;
    }
    ArrayLenIs(t, n);
  }

  lemma {:induction false} PairSnoc(env: Env, d: Dict, t: LuaTable, keys: seq<Value>, k: Value, n: nat)
    requires k in t
    ensures PairWords(env, d, t, keys + [k], n)
         == PairWords(env, d, t, keys, n) + (if Skipped(env, k, n) then [] else [d.Ref(k), d.Ref(t[k])])
  {
    if keys == [] {
      assert keys + [k] == [k] && [k][1..] == [];
    } else {
      PairSnoc(env, d, t, keys[1..], k, n);
      assert (keys + [k])[1..] == keys[1..] + [k];
    }
  }

  lemma PairsNext(env: Env, d: Dict, t: LuaTable, keys: seq<Value>, i: nat, n: nat, pre: seq<nat>)
    requires i < |keys| && keys[i] in t
    ensures pre + PairWords(env, d, t, keys[..i + 1], n)
         == pre + PairWords(env, d, t, keys[..i], n) + (if Skipped(env, keys[i], n) then []
             else [d.Ref(keys[i]), d.Ref(t[keys[i]])])
  {
    assert keys[..i + 1] == keys[..i] + [keys[i]];
    PairSnoc(env, d, t, keys[..i], keys[i], n);
    Assoc(pre, PairWords(env, d, t, keys[..i], n), if Skipped(env, keys[i], n) then []
        else [d.Ref(keys[i]), d.Ref(t[keys[i]])]);
  }

  /** One key and its value, unless the key was taken for an index of the array part. */
  method AddPair(ba: ByteArray, env: Env, d: Dict, im: map<Value, nat>, t: LuaTable, k: Value, n: nat,
      ghost ws: seq<nat>)
    requires Holds(ba, ws) && Agrees(d, im) && d.Complete(t) && k in t
    modifies ba, ba.buffer
    ensures ba.buffer == old(ba.buffer) || fresh(ba.buffer)
    ensures Holds(ba, ws + (if Skipped(env, k, n) then [] else [d.Ref(k), d.Ref(t[k])]))
  {
    var x := KeyNumber(env, k);
    if x.Finite? && x.r == x.r.Floor as real && x.r <= n as real && x.r > 0.0 {
      assert ws + [] == ws;
      return;
    }
    AddWord(ba, Lookup(d.sym, im, k), ws);
    AddWord(ba, Lookup(d.sym, im, t[k]), ws + [d.Ref(k)]);
    assert ws + [d.Ref(k)] + [d.Ref(t[k])] == ws + [d.Ref(k), d.Ref(t[k])];
  }

  /** The pairs, in the order of `lua_next`, behind the words `pre`. */
  method AddPairs(ba: ByteArray, env: Env, d: Dict, im: map<Value, nat>, t: LuaTable, keys: seq<Value>, n: nat,
      ghost pre: seq<nat>)
    requires Holds(ba, pre) && Agrees(d, im) && d.Complete(t) && forall k :: k in keys ==> k in t
    modifies ba, ba.buffer
    ensures ba.buffer == old(ba.buffer) || fresh(ba.buffer)
    ensures Holds(ba, pre + PairWords(env, d, t, keys, n))
  {
    var i := 0;
    assert pre + PairWords(env, d, t, keys[..0], n) == pre;
    while i < |keys|
      invariant 0 <= i <= |keys|
      invariant ba.buffer == old(ba.buffer) || fresh(ba.buffer)
      invariant Holds(ba, pre + PairWords(env, d, t, keys[..i], n))
    {
      PairsNext(env, d, t, keys, i, n, pre);
      AddPair(ba, env, d, im, t, keys[i], n, pre + PairWords(env, d, t, keys[..i], n));
      i := i + 1;
    }
    assert keys[..|keys|] == keys;
  }

  /** The array part and the pairs go to `b1`, the count to `b2`. */
  method BuildBody(env: Env, d: Dict, im: map<Value, nat>, t: LuaTable, keys: seq<Value>)
    returns (b1: ByteArray, b2: ByteArray)
    requires Agrees(d, im) && d.Complete(t) && Lists(keys, t)
    ensures fresh(b1) && fresh(b2) && fresh(b1.buffer) && fresh(b2.buffer)
    ensures b1 != b2 && b1.buffer != b2.buffer && Writable(b1) && Writable(b2)
    ensures BodyBytes(env, d, t, keys) == b2.View().bytes + b1.View().bytes
  {
    b1 := new ByteArray.Alloc(0);
    var n := AddArrayPart(b1, d, im, t);
    AddPairs(b1, env, d, im, t, keys, n, ArrayWords(d, t, n));
    b2 := new ByteArray.Alloc(0);
    AddWord(b2, n, []);
    BodySplit(env, d, t, keys);
  }

  /** One table: its body, behind its length. */
  method AddTable(body: ByteArray, env: Env, d: Dict, im: map<Value, nat>, t: LuaTable, keys: seq<Value>)
    requires Writable(body) && Agrees(d, im) && d.Complete(t) && Lists(keys, t)
    modifies body, body.buffer
    ensures Writable(body) && (body.buffer == old(body.buffer) || fresh(body.buffer))
    ensures body.View() == Writing(old(body.View()).bytes + StringBytes(BodyBytes(env, d, t, keys)))
  {
    var b1, b2 := BuildBody(env, d, im, t, keys);
    LengthPrefixed(body.View().bytes, b2.View().bytes, b1.View().bytes);
    AddBody(body, b1, b2);
  }

  lemma BodySplit(env: Env, d: Dict, t: LuaTable, keys: seq<Value>)
    ensures var n := ArrayLen(t);
      BodyBytes(env, d, t, keys)
        == Flat([] + [n], WordBytes) + Flat(ArrayWords(d, t, n) + PairWords(env, d, t, keys, n), WordBytes)
  {
    var n := ArrayLen(t);
    assert [] + [n] == [n];
    FlatConcat([n], ArrayWords(d, t, n) + PairWords(env, d, t, keys, n), WordBytes);
  }

  method AddBody(body: ByteArray, b1: ByteArray, b2: ByteArray)
    requires Writable(body) && Writable(b1) && Writable(b2)
    requires body != b1 && body != b2 && b1 != b2
    requires body.buffer != b1.buffer && body.buffer != b2.buffer && b1.buffer != b2.buffer
    modifies body, body.buffer, b1, b2
    ensures Writable(body) && (body.buffer == old(body.buffer) || fresh(body.buffer))
    ensures body.View().bytes == old(body.View()).bytes + U30Bytes(ToU32(old(b1.offset + b2.offset)))
                               + old(b2.View()).bytes + old(b1.View()).bytes
  {
    AddU30(body, b1.offset + b2.offset);
    AppendAll(body, b2);
    AppendAll(body, b1);
  }

  lemma LengthPrefixed(start: seq<byte>, head: seq<byte>, tail: seq<byte>)
    ensures start + U30Bytes(ToU32(|tail| + |head|)) + head + tail == start + StringBytes(head + tail)
  {
    var len := U30Bytes(ToU32(|tail| + |head|));
    Assoc(start + len, head, tail);
    Assoc(start, len, head + tail);
  }

  // ---------- the whole message ----------

  ghost function TableValues(ts: seq<nat>): seq<Value> { seq(|ts|, i requires 0 <= i < |ts| => Table(ts[i])) }

  lemma AgreesWhenNumbered(d: Dict, im: map<Value, nat>)
    requires Numbers(im, d.sym.index, d.atoms + TableValues(d.tables))
    ensures Agrees(d, im)
  {
    var vs := d.atoms + TableValues(d.tables);
    forall v | d.Knows(v) && v !in d.sym.indexOf && !v.Bool? ensures Lookup(d.sym, im, v) == d.Ref(v) {
      var i := if v.Table? then |d.atoms| + IndexOf(d.tables, v.id) else IndexOf(d.atoms, v);
      assert vs[i] == v;
    }
  }

  method NumberTables(d: Dict, im0: map<Value, nat>, index: nat) returns (im: map<Value, nat>)
    requires Numbers(im0, d.sym.index, d.atoms) && index == d.sym.index + |d.atoms|
    requires Distinct(d.tables) && forall v :: v in d.atoms ==> !v.Table?
    ensures Agrees(d, im)
  {
    im := im0;
    var i := 0;
    assert d.atoms + TableValues(d.tables[..0]) == d.atoms;
    while i < |d.tables|
      invariant 0 <= i <= |d.tables|
      invariant Numbers(im, d.sym.index, d.atoms + TableValues(d.tables[..i]))
    {
      ghost var vs, v := d.atoms + TableValues(d.tables[..i]), Table(d.tables[i]);
      assert v !in vs;
      NumbersOneMore(im, d.sym.index, vs, v);
      im := im[Table(d.tables[i]) := index + i + 1];
      assert vs + [v] == d.atoms + TableValues(d.tables[..i + 1]);
      i := i + 1;
    }
    assert d.tables[..|d.tables|] == d.tables;
    AgreesWhenNumbered(d, im);
  }

  ghost predicate Encodable(d: Dict, h: Heap, ord: Order) {
    forall t :: t in d.tables ==> t in h && t in ord && d.Complete(h[t]) && Lists(ord[t], h[t])
  }

  method AddBodies(body: ByteArray, env: Env, d: Dict, im: map<Value, nat>, h: Heap, ord: Order)
    requires Writable(body) && Agrees(d, im)
    requires Encodable(d, h, ord)
    modifies body, body.buffer
    ensures Writable(body) && (body.buffer == old(body.buffer) || fresh(body.buffer))
    ensures body.View() == Writing(old(body.View()).bytes + Flat(Bodies(env, d, h, ord, d.tables), StringBytes))
  {
    ghost var start, all := body.View().bytes, Bodies(env, d, h, ord, d.tables);
    assert start + Flat(all[..0], StringBytes) == start;
    var i := 0;
    while i < |d.tables|
      invariant 0 <= i <= |d.tables|
      invariant Writable(body) && (body.buffer == old(body.buffer) || fresh(body.buffer))
      invariant body.View() == Writing(start + Flat(all[..i], StringBytes))
    {
      var t := d.tables[i];
      JoinNext(start, all, i);
      AddTable(body, env, d, im, h[t], ord[t]);
      i := i + 1;
    }
    assert all[..|all|] == all;
  }

  lemma JoinNext(start: seq<byte>, all: seq<seq<byte>>, i: nat)
    requires i < |all|
    ensures start + Flat(all[..i + 1], StringBytes) == start + Flat(all[..i], StringBytes) + StringBytes(all[i])
  {
    assert all[..i + 1] == all[..i] + [all[i]];
    FlatSnoc(all[..i], all[i], StringBytes);
  }

  method AddTables(body: ByteArray, env: Env, d: Dict, im: map<Value, nat>, index: nat, h: Heap, ord: Order)
    returns (present: bool)
    requires Writable(body) && Numbers(im, d.sym.index, d.atoms) && index == d.sym.index + |d.atoms|
    requires Distinct(d.tables) && forall v :: v in d.atoms ==> !v.Table?
    requires Encodable(d, h, ord)
    modifies body, body.buffer
    ensures Writable(body) && (body.buffer == old(body.buffer) || fresh(body.buffer))
    ensures present <==> d.tables != []
    ensures body.View() == Writing(old(body.View()).bytes + TablesBytes(Bodies(env, d, h, ord, d.tables)))
  {
    present := d.tables != [];
    JoinTables(body.View().bytes, Bodies(env, d, h, ord, d.tables));
    if present {
      AddU30(body, |d.tables|);
      var full := NumberTables(d, im, index);
      AddBodies(body, env, d, full, h, ord);
    }
  }

  lemma JoinTables(start: seq<byte>, all: seq<seq<byte>>)
    ensures start + TablesBytes(all)
         == if all == [] then start else start + U30Bytes(ToU32(|all|)) + Flat(all, StringBytes)
  {
    if all == [] { assert start + [] == start; } else { Assoc(start, U30Bytes(ToU32(|all|)), Flat(all, StringBytes)); }
  }

  lemma ListedApart(c: Collected)
    requires c.Valid()
    ensures forall kind: Kind :: Distinct(Listed(c, kind))
    ensures forall v :: v in Listed(c, Words) ==> v !in Listed(c, Doubles)
    ensures forall v :: v in Listed(c, Strings) ==> v !in Listed(c, Doubles) && v !in Listed(c, Words)
    ensures forall kind: Kind, v :: v in Listed(c, kind) ==> !v.Bool? && !v.Table?
  {
    assert Distinct(Listed(c, Doubles)) && Distinct(Listed(c, Words)) && Distinct(Listed(c, Strings));
    assert forall v :: v in Listed(c, Doubles) ==> v.Number? && !IsU30(v.n);
    assert forall v :: v in Listed(c, Words) ==> v.Number? && IsU30(v.n);
  }

  /** The three atom sections, behind whatever `body` holds. */
  method AddAtoms(body: ByteArray, env: Env, c: Collected, s: Sym)
    returns (im: map<Value, nat>, index: nat, flag: nat)
    requires Writable(body) && c.Valid()
    modifies body, body.buffer
    ensures Writable(body) && (body.buffer == old(body.buffer) || fresh(body.buffer))
    ensures Numbers(im, s.index, Atoms(c, s)) && index == s.index + |Atoms(c, s)|
    ensures flag == Flag(c.(tables := []))
    ensures body.View() == Writing(old(body.View()).bytes + SectionBytes(env, c, s, Doubles)
                                   + SectionBytes(env, c, s, Words) + SectionBytes(env, c, s, Strings))
  {
    ghost var ds, us := KeptAtoms(c, s, Doubles), KeptAtoms(c, s, Words);
    SectionsApart(c, s);
    assert [] + ds == ds;
    var has1, has2, has3;
    im, index := map[Bool(false) := 1, Bool(true) := 2], s.index;
    im, index, has1 := AddSection(body, env, Doubles, c, s, im, index, []);
    im, index, has2 := AddSection(body, env, Words, c, s, im, index, ds);
    im, index, has3 := AddSection(body, env, Strings, c, s, im, index, ds + us);
    flag := (if has1 then HAS_NUMBER else 0) + (if has2 then HAS_U30 else 0) + (if has3 then HAS_STRING else 0);
  }

  /** No section repeats a value, its own or another's. */
  lemma SectionsApart(c: Collected, s: Sym)
    requires c.Valid()
    ensures Apart(Listed(c, Doubles), []) && Apart(Listed(c, Words), KeptAtoms(c, s, Doubles))
    ensures Apart(Listed(c, Strings), KeptAtoms(c, s, Doubles) + KeptAtoms(c, s, Words))
  {
    ListedApart(c);
    KeptOf(c, s, Doubles);
    KeptOf(c, s, Words);
  }

  lemma CollectionEncodable(c: Collected, s: Sym, h: Heap, ord: Order, root: Value)
    requires Closed(h) && Enumerates(h, ord) && IsCollection(c, h, root)
    requires forall t :: t in c.tables ==> t in h
    ensures Encodable(DictOf(c, s), h, ord) && forall v :: v in Atoms(c, s) ==> !v.Table?
  {
    forall t | t in c.tables ensures DictOf(c, s).Complete(h[t]) {
      CollectionComplete(c, h, root, t);
      CollectedIsKnown(c, s, h[t]);
    }
    ListedApart(c);
    forall kind: Kind { KeptOf(c, s, kind); }
  }

  // ---------- the numbering is a bijection ----------

  lemma {:induction false} KeptDistinct(vs: seq<Value>, s: Sym)
    requires Distinct(vs)
    ensures Distinct(Kept(vs, s))
  {
    if vs != [] {
      KeptDistinct(vs[1..], s);
      KeptIs(vs[1..], s, vs[0]);
      assert vs == [vs[0]] + vs[1..] && vs[0] !in vs[1..];
    }
  }

  lemma DistinctJoin(xs: seq<Value>, ys: seq<Value>)
    requires Distinct(xs) && Distinct(ys) && forall y :: y in ys ==> y !in xs
    ensures Distinct(xs + ys)
  {
    assert forall i :: 0 <= i < |ys| ==> ys[i] !in xs;
  }

  lemma KeptOf(c: Collected, s: Sym, kind: Kind)
    ensures forall v :: v in KeptAtoms(c, s, kind) ==> v in Listed(c, kind) && v !in s.indexOf
  {
    forall v | v in KeptAtoms(c, s, kind) ensures v in Listed(c, kind) && v !in s.indexOf {
      KeptIs(Listed(c, kind), s, v);
    }
  }

  lemma AtomsDistinct(c: Collected, s: Sym)
    requires c.Valid()
    ensures Distinct(Atoms(c, s))
    ensures forall v :: v in Atoms(c, s) ==> !v.Bool? && !v.Table? && v !in s.indexOf
  {
    ListedApart(c);
    forall kind: Kind { KeptDistinct(Listed(c, kind), s); }
    KeptOf(c, s, Doubles);
    KeptOf(c, s, Words);
    KeptOf(c, s, Strings);
    DistinctJoin(KeptAtoms(c, s, Doubles), KeptAtoms(c, s, Words));
    DistinctJoin(KeptAtoms(c, s, Doubles) + KeptAtoms(c, s, Words), KeptAtoms(c, s, Strings));
  }

  lemma OneIndexEach(d: Dict, u: Value, v: Value)
    requires ValidSym(d.sym) && d.Knows(u) && d.Knows(v) && d.Ref(u) == d.Ref(v)
    ensures u == v
  {
    RefResolves(d, u);
    RefResolves(d, v);
    RenameInjective(d.tables, u, v);
  }

  lemma OwnIndex(d: Dict, i: nat)
    requires Distinct(d.atoms) && Distinct(d.tables) && ValidSym(d.sym) && i < |d.atoms| + |d.tables|
    requires forall v :: v in d.atoms ==> !v.Bool? && !v.Table? && v !in d.sym.indexOf
    ensures d.Ref((d.atoms + TableValues(d.tables))[i]) == d.sym.index + 1 + i
  {
    if i < |d.atoms| {
      IndexOfAt(d.atoms, i);
    } else {
      IndexOfAt(d.tables, i - |d.atoms|);
    }
  }

  /** A message's own atoms and tables are numbered `index + 1, index + 2, ...` without a gap, and no
      two values, symbols and booleans included, share an index; the decoder inverts it. */
  lemma NumberingBijection(c: Collected, s: Sym)
    requires c.Valid() && ValidSym(s)
    ensures var d, own := DictOf(c, s), Atoms(c, s) + TableValues(c.tables);
      && |own| == d.Last() - s.index
      && (forall i :: 0 <= i < |own| ==> d.Ref(own[i]) == s.index + 1 + i)
      && (forall u, v :: d.Knows(u) && d.Knows(v) && d.Ref(u) == d.Ref(v) ==> u == v)
  {
    AtomsDistinct(c, s);
    var d, own := DictOf(c, s), Atoms(c, s) + TableValues(c.tables);
    forall i | 0 <= i < |own| ensures d.Ref(own[i]) == s.index + 1 + i { OwnIndex(d, i); }
    forall u, v | d.Knows(u) && d.Knows(v) && d.Ref(u) == d.Ref(v) ensures u == v { OneIndexEach(d, u, v); }
  }

  /** The message for `root`: a boolean is one byte or none, everything else is collected,
      numbered and written section by section. */
  method Encode(env: Env, s: Sym, h: Heap, ord: Order, root: Value) returns (msg: seq<byte>, ghost c: Collected)
    requires Closed(h) && Enumerates(h, ord) && InHeap(h, root)
    ensures root == Bool(false) ==> msg == []
    ensures root == Bool(true) ==> msg == [1]
    ensures !root.Bool? ==>
      && IsCollection(c, h, root) && (forall t :: t in c.tables ==> t in h)
      && msg == Message(env, c, s, h, ord)
  {
    if root.Bool? {
      return if root.b then [1] else [], Collected([], [], [], []);
    }
    var all := Collect(h, ord, root);
    c := all;
    CollectionEncodable(all, s, h, ord, root);
    var body := new ByteArray.Alloc(64);
    AddBytes(body, [0]);
    var im, index, flag := AddAtoms(body, env, all, s);
    var tables := AddTables(body, env, DictOf(all, s), im, index, h, ord);
    if tables { flag := flag + HAS_TABLE; }
    msg := Package(body, flag);
    MessageJoin(env, all, s, h, ord);
  }

  lemma MessageJoin(env: Env, c: Collected, s: Sym, h: Heap, ord: Order)
    requires forall t :: t in c.tables ==> t in h && t in ord
    ensures var all := [] + [0] + SectionBytes(env, c, s, Doubles) + SectionBytes(env, c, s, Words)
                     + SectionBytes(env, c, s, Strings) + TablesBytes(Bodies(env, DictOf(c, s), h, ord, c.tables));
      Message(env, c, s, h, ord) == [Flag(c)] + all[1..]
  {
    JoinParts(SectionBytes(env, c, s, Doubles), SectionBytes(env, c, s, Words), SectionBytes(env, c, s, Strings),
              TablesBytes(Bodies(env, DictOf(c, s), h, ord, c.tables)));
  }

  lemma JoinParts(p: seq<byte>, q: seq<byte>, r: seq<byte>, t: seq<byte>)
    ensures ([] + [0] + p + q + r + t)[1..] == p + (q + (r + t))
  {}

  /** The placeholder byte is replaced by the flag. */
  method Package(body: ByteArray, flag: byte) returns (msg: seq<byte>)
    requires Writable(body) && |body.View().bytes| > 0
    modifies body, body.buffer
    ensures msg == [flag] + old(body.View()).bytes[1..]
  {
    ghost var was := body.View().bytes;
    var ok := body.ReadReady();
    body.buffer[0] := flag;
    msg := body.buffer[..body.total];
    assert forall i :: 1 <= i < |msg| ==> msg[i] == was[i];
  }
}
