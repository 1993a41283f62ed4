/** objectbuf.c, luafan_objectbuf_decode: two passes over a wrapped buffer. */
module ObjectDecode {
  import opened Bytes
  import opened LuaGraph
  import opened ByteArrays
  import opened Stream
  import opened ObjectFormat

  ghost predicate Readable(ba: ByteArray)
    reads ba
  {
    ba.Valid() && ba.reading
  }

  ghost function Left(ba: ByteArray): seq<byte>
    reads ba, ba.buffer
    requires Readable(ba)
  {
    ba.View().Pending()
  }

  // ---------- the index map ----------

  /** What the values of a message put at index `i`. */
  ghost function Local(base: nat, vals: seq<Value>, i: nat): Option<Value> {
    if base < i <= base + |vals| then Some(vals[i - base - 1])
    else if i == 1 then Some(Bool(false))
    else if i == 2 then Some(Bool(true))
    else None
  }

  ghost predicate MapIs(im: map<nat, Value>, base: nat, vals: seq<Value>) {
    forall i: nat :: (if i in im then Some(im[i]) else None) == Local(base, vals, i)
  }

  lemma MapOneMore(im: map<nat, Value>, base: nat, vals: seq<Value>, v: Value)
    requires MapIs(im, base, vals)
    ensures MapIs(im[base + |vals| + 1 := v], base, vals + [v])
  {}

  /** `sym_map_vk[i] or index_map[i]`, else an error is raised. */
  function Find(s: Sym, im: map<nat, Value>, i: nat): Outcome<Value> {
    if i in s.valueOf then Ok(s.valueOf[i]) else if i in im then Ok(im[i]) else Fault
  }

  lemma FindResolves(s: Sym, im: map<nat, Value>, vals: seq<Value>, i: nat)
    requires MapIs(im, s.index, vals)
    ensures Find(s, im, i) == Resolve(s, vals, i)
  {
    assert (if i in im then Some(im[i]) else None) == Local(s.index, vals, i);
  }

  // ---------- atoms ----------

  method GetAtom(ba: ByteArray, env: Env, kind: Kind) returns (r: Option<Value>)
    requires Readable(ba)
    modifies ba`offset
    ensures Readable(ba)
    ensures match ReadAtom(env, kind, old(Left(ba)))
      case Some((v, rest)) => r == Some(v) && Left(ba) == rest
      case None => r == None
  {
    match kind
    case Doubles =>
      var d := ba.ReadValue(8);
      return if d.Some? then Some(Number(env.dec(d.value))) else None;
    case Words =>
      var u := GetU30(ba);
      return if u.Some? then Some(Int(u.value)) else None;
    case Strings =>
      var d, hint := GetString(ba);
      return if d.Some? then Some(Str(d.value)) else None;
  }

  ghost function After(acc: seq<Value>, r: Option<(seq<Value>, seq<byte>)>): Option<(seq<Value>, seq<byte>)> {
    if r.Some? then Some((acc + r.value.0, r.value.1)) else None
  }

  lemma AtomsStep(env: Env, kind: Kind, n: nat, b: seq<byte>, acc: seq<Value>)
    requires n > 0
    ensures match ReadAtom(env, kind, b)
      case None => After(acc, ReadAtoms(env, kind, n, b)) == None
      case Some((v, rest)) =>
        After(acc, ReadAtoms(env, kind, n, b)) == After(acc + [v], ReadAtoms(env, kind, n - 1, rest))
  {
    var r := ReadAtom(env, kind, b);
    if r.Some? {
      var more := ReadAtoms(env, kind, n - 1, r.value.1);
      if more.Some? { Assoc(acc, [r.value.0], more.value.0); }
    }
  }

  /** The result of a call that has `acc` and `n` atoms to go. */
  ghost function AtomsLeft(env: Env, kind: Kind, n: nat, b: seq<byte>, acc: seq<Value>): Option<(seq<Value>,
      seq<byte>)> {
    After(acc, ReadAtoms(env, kind, n, b))
  }

  lemma NoAtomsLeft(env: Env, kind: Kind, b: seq<byte>, acc: seq<Value>)
    ensures AtomsLeft(env, kind, 0, b, acc) == Some((acc, b))
  {
    assert acc + [] == acc;
  }

  lemma AllAtomsLeft(env: Env, kind: Kind, n: nat, b: seq<byte>)
    ensures AtomsLeft(env, kind, n, b, []) == ReadAtoms(env, kind, n, b)
  {
    var r := ReadAtoms(env, kind, n, b);
    if r.Some? { assert [] + r.value.0 == r.value.0; }
  }

  method NextAtom(ba: ByteArray, env: Env, kind: Kind, ghost n: nat, ghost acc: seq<Value>) returns (r: Option<Value>)
    requires Readable(ba) && n > 0
    modifies ba`offset
    ensures Readable(ba)
    ensures AtomsLeft(env, kind, n, old(Left(ba)), acc)
         == if r.Some? then AtomsLeft(env, kind, n - 1, Left(ba), acc + [r.value]) else None
  {
    AtomsStep(env, kind, n, Left(ba), acc);
    r := GetAtom(ba, env, kind);
  }

  method GetAtoms(ba: ByteArray, env: Env, kind: Kind, count: nat, im0: map<nat, Value>, index: nat,
                  ghost base: nat, ghost prior: seq<Value>)
    returns (ok: bool, im: map<nat, Value>, next: nat)
    requires Readable(ba) && MapIs(im0, base, prior) && index == base + |prior|
    modifies ba`offset
    ensures Readable(ba)
    ensures match AtomsLeft(env, kind, count, old(Left(ba)), [])
      case Some((vs, rest)) => ok && MapIs(im, base, prior + vs) && next == index + |vs| && Left(ba) == rest
      case None => !ok
  {
    im, next := im0, index;
    ghost var acc: seq<Value> := [];
    assert prior + acc == prior;
    var i := 1;
    while i <= count
      invariant 1 <= i <= count + 1 && Readable(ba)
      invariant AtomsLeft(env, kind, count, old(Left(ba)), []) == AtomsLeft(env, kind, count + 1 - i, Left(ba), acc)
      invariant MapIs(im, base, prior + acc) && next == index + |acc|
    {
      var v := NextAtom(ba, env, kind, count + 1 - i, acc);
      if v.None? { return false, im, next; }
      MapOneMore(im, base, prior + acc, v.value);
      Assoc(prior, acc, [v.value]);
      acc := acc + [v.value];
      next := next + 1;
      im := im[next := v.value];
      i := i + 1;
    }
    NoAtomsLeft(env, kind, Left(ba), acc);
    return true, im, next;
  }

  method GetSection(ba: ByteArray, env: Env, present: bool, kind: Kind, im0: map<nat, Value>, index: nat,
                    ghost base: nat, ghost prior: seq<Value>)
    returns (ok: bool, im: map<nat, Value>, next: nat)
    requires Readable(ba) && MapIs(im0, base, prior) && index == base + |prior|
    modifies ba`offset
    ensures Readable(ba)
    ensures match ReadSection(env, present, kind, old(Left(ba)))
      case Some((vs, rest)) => ok && MapIs(im, base, prior + vs) && next == index + |vs| && Left(ba) == rest
      case None => !ok
  {
    if !present {
      assert prior + [] == prior;
      return true, im0, index;
    }
    var count := GetU30(ba);
    if count.None? { return false, im0, index; }
    AllAtomsLeft(env, kind, count.value, Left(ba));
    ok, im, next := GetAtoms(ba, env, kind, count.value, im0, index, base, prior);
  }

  // ---------- table bodies ----------

  lemma WordsStep(b: seq<byte>)
    ensures match ReadU30(b)
      case None => ReadWords(b).words == [] && (ReadWords(b).clean <==> b == [])
      case Some((w, rest)) =>
        ReadWords(b).words == [w] + ReadWords(rest).words && ReadWords(b).clean == ReadWords(rest).clean
  {}

  method NextWord(ba: ByteArray) returns (r: Option<nat>)
    requires Readable(ba)
    modifies ba`offset
    ensures Readable(ba)
    ensures var was := old(ReadWords(Left(ba)));
      if r.Some?
      then was.words != [] && r.value == was.words[0] && ReadWords(Left(ba)) == was.(words := was.words[1..])
           && |Left(ba)| < |old(Left(ba))|
      else was.words == []
  {
    WordsStep(Left(ba));
    r := GetU30(ba);
  }

  method GetArrayPart(ba: ByteArray, s: Sym, im: map<nat, Value>, ghost vals: seq<Value>, count: nat)
    returns (r: Outcome<LuaTable>)
    requires Readable(ba) && MapIs(im, s.index, vals)
    modifies ba`offset
    ensures Readable(ba)
    ensures var was := old(ReadWords(Left(ba)));
      match FillArray(s, vals, map[], 1, count, was.words)
      case Ok((t, rest)) => r == Ok(t) && ReadWords(Left(ba)) == was.(words := rest)
      case Failed => r == Failed
      case Fault => r == Fault
  {
    var t: LuaTable, j := map[], 1;
    ghost var was := ReadWords(Left(ba));
    ghost var all := FillArray(s, vals, map[], 1, count, was.words);
    while j <= count
      invariant 1 <= j <= count + 1 && Readable(ba)
      invariant ReadWords(Left(ba)).clean == was.clean
      invariant all == FillArray(s, vals, t, j, count, ReadWords(Left(ba)).words)
    {
      var w := NextWord(ba);
      if w.None? { return Failed; }
      FindResolves(s, im, vals, w.value);
      var v := Find(s, im, w.value);
      if !v.Ok? { return Fault; }
      t := t[Int(j) := v.value];
      j := j + 1;
    }
    return Ok(t);
  }

  method GetPairs(ba: ByteArray, s: Sym, im: map<nat, Value>, ghost vals: seq<Value>, t0: LuaTable)
    returns (r: Outcome<LuaTable>)
    requires Readable(ba) && MapIs(im, s.index, vals)
    modifies ba`offset
    ensures Readable(ba)
    ensures var was := old(ReadWords(Left(ba))); r == FillPairs(s, vals, t0, was.words, was.clean)
  {
    var t := t0;
    ghost var was := ReadWords(Left(ba));
    ghost var all := FillPairs(s, vals, t0, was.words, was.clean);
    while ba.ReadAvailable() > 0
      invariant Readable(ba)
      invariant var now := ReadWords(Left(ba)); all == FillPairs(s, vals, t, now.words, now.clean)
      decreases |Left(ba)|
    {
      ghost var ws := ReadWords(Left(ba)).words;
      WordsStep(Left(ba));
      var k := NextWord(ba);
      if k.None? { return Failed; }
      var v := NextWord(ba);
      if v.None? { return Failed; }
      assert ws[2..] == ws[1..][1..];
      FindResolves(s, im, vals, k.value);
      FindResolves(s, im, vals, v.value);
      var key := Find(s, im, k.value);
      if !key.Ok? { return Fault; }
      var value := Find(s, im, v.value);
      if !value.Ok? { return Fault; }
      t := t[key.value := value.value];
    }
    return Ok(t);
  }

  method GetBody(body: seq<byte>, s: Sym, im: map<nat, Value>, ghost vals: seq<Value>) returns (r: Outcome<LuaTable>)
    requires MapIs(im, s.index, vals)
    ensures r == ReadBody(s, vals, body)
  {
    var raw := new byte[|body|](i requires 0 <= i < |body| => body[i]);
    var ba := new ByteArray.Wrap(raw, 0);
    assert Left(ba) == body;
    var count := NextWord(ba);
    if count.None? { return Failed; }
    r := GetArrayPart(ba, s, im, vals, count.value);
    if r.Ok? { r := GetPairs(ba, s, im, vals, r.value); }
  }

  // ---------- tables ----------

  ghost function AfterTables(acc: seq<LuaTable>, r: Outcome<seq<LuaTable>>): Outcome<seq<LuaTable>> {
    if r.Ok? then Ok(acc + r.value) else r
  }

  lemma BodiesStep(s: Sym, vals: seq<Value>, n: nat, b: seq<byte>, acc: seq<LuaTable>)
    requires n > 0
    ensures var all := AfterTables(acc, ReadBodies(s, vals, n, b));
      match ReadTable(s, vals, b)
      case Ok((t, rest)) => all == AfterTables(acc + [t], ReadBodies(s, vals, n - 1, rest))
      case Failed => all == Failed
      case Fault => all == Fault
  {
    var r := ReadTable(s, vals, b);
    if r.Ok? {
      var more := ReadBodies(s, vals, n - 1, r.value.1);
      if more.Ok? { Assoc(acc, [r.value.0], more.value); }
    }
  }

  method GetTable(ba: ByteArray, s: Sym, im: map<nat, Value>, ghost vals: seq<Value>) returns (r: Outcome<LuaTable>)
    requires Readable(ba) && MapIs(im, s.index, vals)
    modifies ba`offset
    ensures Readable(ba)
    ensures match ReadTable(s, vals, old(Left(ba)))
      case Ok((t, rest)) => r == Ok(t) && Left(ba) == rest
      case Failed => r == Failed
      case Fault => r == Fault
  {
    var body, hint := GetString(ba);
    if body.None? { return Failed; }
    r := GetBody(body.value, s, im, vals);
  }

  /** The result of a call that has `acc` and `n` tables to go. */
  ghost function TablesLeft(s: Sym, vals: seq<Value>, n: nat, b: seq<byte>,
      acc: seq<LuaTable>): Outcome<seq<LuaTable>> {
    AfterTables(acc, ReadBodies(s, vals, n, b))
  }

  method NextTable(ba: ByteArray, s: Sym, im: map<nat, Value>, ghost vals: seq<Value>, ghost n: nat,
      ghost acc: seq<LuaTable>)
    returns (r: Outcome<LuaTable>)
    requires Readable(ba) && MapIs(im, s.index, vals) && n > 0
    modifies ba`offset
    ensures Readable(ba)
    ensures TablesLeft(s, vals, n, old(Left(ba)), acc)
         == (if r.Ok? then TablesLeft(s, vals, n - 1, Left(ba), acc + [r.value]) else if r.Failed? then Failed
             else Fault)
  {
    BodiesStep(s, vals, n, Left(ba), acc);
    r := GetTable(ba, s, im, vals);
  }

  lemma NoTablesLeft(s: Sym, vals: seq<Value>, b: seq<byte>, acc: seq<LuaTable>)
    ensures TablesLeft(s, vals, 0, b, acc) == Ok(acc)
  {
    assert acc + [] == acc;
  }

  lemma AllTablesLeft(s: Sym, vals: seq<Value>, n: nat, b: seq<byte>)
    ensures TablesLeft(s, vals, n, b, []) == ReadBodies(s, vals, n, b)
  {
    var r := ReadBodies(s, vals, n, b);
    if r.Ok? { assert [] + r.value == r.value; }
  }

  method GetBodies(ba: ByteArray, s: Sym, im: map<nat, Value>, ghost vals: seq<Value>, count: nat)
    returns (r: Outcome<seq<LuaTable>>)
    requires Readable(ba) && MapIs(im, s.index, vals)
    modifies ba`offset
    ensures Readable(ba)
    ensures r == TablesLeft(s, vals, count, old(Left(ba)), []) && (r.Ok? ==> |r.value| == count)
  {
    var ts: seq<LuaTable> := [];
    var i := 1;
    while i <= count
      invariant 1 <= i <= count + 1 && Readable(ba) && |ts| == i - 1
      invariant TablesLeft(s, vals, count, old(Left(ba)), []) == TablesLeft(s, vals, count + 1 - i, Left(ba), ts)
    {
      var t := NextTable(ba, s, im, vals, count + 1 - i, ts);
      if t.Failed? { return Failed; }
      if t.Fault? { return Fault; }
      ts := ts + [t.value];
      i := i + 1;
    }
    NoTablesLeft(s, vals, Left(ba), ts);
    return Ok(ts);
  }

  method NameTables(im0: map<nat, Value>, index: nat, count: nat, ghost base: nat, ghost atoms: seq<Value>)
    returns (im: map<nat, Value>)
    requires MapIs(im0, base, atoms) && index == base + |atoms|
    ensures MapIs(im, base, atoms + NewTables(count))
  {
    im := im0;
    assert atoms + NewTables(0) == atoms;
    var i := 1;
    while i <= count
      invariant 1 <= i <= count + 1
      invariant MapIs(im, base, atoms + NewTables(i - 1))
    {
      MapOneMore(im, base, atoms + NewTables(i - 1), Table(i - 1));
      assert atoms + NewTables(i - 1) + [Table(i - 1)] == atoms + NewTables(i);
      im := im[index + i := Table(i - 1)];
      i := i + 1;
    }
  }

  method GetTables(ba: ByteArray, s: Sym, present: bool, im0: map<nat, Value>, index: nat, ghost atoms: seq<Value>)
    returns (r: Outcome<seq<LuaTable>>, im: map<nat, Value>)
    requires Readable(ba) && MapIs(im0, s.index, atoms) && index == s.index + |atoms|
    modifies ba`offset
    ensures r == ReadTables(s, present, atoms, old(Left(ba)))
    ensures r.Ok? ==> MapIs(im, s.index, atoms + NewTables(|r.value|))
  {
    im := im0;
    if !present {
      assert atoms + NewTables(0) == atoms;
      return Ok([]), im;
    }
    var count := GetU30(ba);
    if count.None? { return Failed, im; }
    im := NameTables(im0, index, count.value, s.index, atoms);
    ghost var vals := atoms + NewTables(count.value);
    AllTablesLeft(s, vals, count.value, Left(ba));
    r := GetBodies(ba, s, im, vals, count.value);
  }

  // ---------- the whole message ----------

  /** The three atom sections; `lastTop` follows the start of the last one present. */
  method GetAllAtoms(ba: ByteArray, env: Env, s: Sym, flag: byte)
    returns (ok: bool, im: map<nat, Value>, index: nat, lastTop: nat)
    requires Readable(ba)
    modifies ba`offset
    ensures Readable(ba)
    ensures match ReadAllAtoms(env, flag, old(Left(ba)))
      case Some((ds, us, ss, rest)) =>
        && ok && MapIs(im, s.index, ds + us + ss) && index == s.index + |ds| + |us| + |ss|
        && lastTop == AtomRoot(s, flag, |ds|, |us|) && Left(ba) == rest
      case None => !ok
  {
    im, index, lastTop := map[1 := Bool(false), 2 := Bool(true)], s.index, s.index + 1;
    ghost var b := Left(ba);
    ok, im, index := GetSection(ba, env, Has(flag, HAS_NUMBER), Doubles, im, index, s.index, []);
    if !ok { return; }
    ghost var ds := ReadSection(env, Has(flag, HAS_NUMBER), Doubles, b).value.0;
    assert [] + ds == ds;
    b := Left(ba);
    if Has(flag, HAS_U30) { lastTop := index + 1; }
    ok, im, index := GetSection(ba, env, Has(flag, HAS_U30), Words, im, index, s.index, ds);
    if !ok { return; }
    ghost var us := ReadSection(env, Has(flag, HAS_U30), Words, b).value.0;
    if Has(flag, HAS_STRING) { lastTop := index + 1; }
    ok, im, index := GetSection(ba, env, Has(flag, HAS_STRING), Strings, im, index, s.index, ds + us);
  }

  method GetGraph(ba: ByteArray, env: Env, s: Sym, flag: byte) returns (r: Outcome<Graph>)
    requires Readable(ba)
    modifies ba`offset
    ensures r == DecodeSections(env, s, flag, old(Left(ba)))
  {
    ghost var atoms := ReadAllAtoms(env, flag, Left(ba));
    var ok, im, index, lastTop := GetAllAtoms(ba, env, s, flag);
    if !ok { return Failed; }
    ghost var all := atoms.value.0 + atoms.value.1 + atoms.value.2;
    if Has(flag, HAS_TABLE) { lastTop := index + 1; }
    var tables;
    tables, im := GetTables(ba, s, Has(flag, HAS_TABLE), im, index, all);
    if tables.Failed? { return Failed; }
    if tables.Fault? { return Fault; }
    FindResolves(s, im, all + NewTables(|tables.value|), lastTop);
    var root := Find(s, im, lastTop);
    return Ok(Graph(tables.value, if root.Ok? then Some(root.value) else None));
  }

  /** Decodes any byte string, well formed or not. */
  method DecodeBytes(env: Env, s: Sym, msg: seq<byte>) returns (r: Outcome<Graph>)
    ensures r == Decode(env, s, msg)
  {
    var raw := new byte[|msg|](i requires 0 <= i < |msg| => msg[i]);
    var ba := new ByteArray.Wrap(raw, 0);
    assert Left(ba) == msg;
    var first := ba.ReadValue(1);
    var flag: byte := if first.Some? then first.value[0] else 0;
    if flag == 0 { return Ok(Graph([], Some(Bool(false)))); }
    if flag == 1 { return Ok(Graph([], Some(Bool(true)))); }
    assert Left(ba) == msg[1..];
    r := GetGraph(ba, env, s, flag);
  }
}
