/** objectbuf.c, the byte format: what a collected graph is written as, and what bytes are read as. */
module ObjectFormat {
  import opened Bytes
  import opened LuaGraph
  import opened Packer
  import opened Stream

  const HAS_NUMBER: nat := 128
  const HAS_U30: nat := 64
  const HAS_STRING: nat := 32
  const HAS_TABLE: nat := 8

  /** The memory image of a double, and Lua's reading of a string as a number. */
  datatype Env = Env(enc: Num -> seq<byte>, dec: seq<byte> -> Num, coerce: seq<byte> -> Option<Num>)

  /** A shared dictionary: atoms to indices, indices to atoms, and the highest index in use. */
  datatype Sym = Sym(indexOf: map<Value, nat>, valueOf: map<nat, Value>, index: nat)

  const NoSym := Sym(map[], map[], 2)

  function BoolIndex(b: bool): nat { if b then 2 else 1 }

  ghost predicate ValidSym(s: Sym) {
    && s.index >= 2
    && (forall v :: v in s.indexOf ==>
          if v.Bool? then s.indexOf[v] == BoolIndex(v.b)
          else !v.Table? && s.indexOf[v] in s.valueOf && s.valueOf[s.indexOf[v]] == v)
    && (forall i :: i in s.valueOf ==> 3 <= i <= s.index)
  }

  // ---------- atoms, section by section ----------

  datatype Kind = Doubles | Words | Strings

  function Listed(c: Collected, kind: Kind): seq<Value> {
    match kind
    case Doubles => seq(|c.numbers|, i requires 0 <= i < |c.numbers| => Number(c.numbers[i]))
    case Words => seq(|c.u30s|, i requires 0 <= i < |c.u30s| => Number(c.u30s[i]))
    case Strings => seq(|c.strings|, i requires 0 <= i < |c.strings| => Str(c.strings[i]))
  }

  /** The values that are not symbols. */
  function Kept(vs: seq<Value>, s: Sym): seq<Value> {
    if vs == [] then []
    else (if vs[0] in s.indexOf then [] else [vs[0]]) + Kept(vs[1..], s)
  }

  function KeptAtoms(c: Collected, s: Sym, kind: Kind): seq<Value> { Kept(Listed(c, kind), s) }

  function AtomBytes(env: Env, kind: Kind, v: Value): seq<byte> {
    match kind
    case Doubles => if v.Number? then env.enc(v.n) else []
    case Words => if v.Number? && v.n.Finite? then U30Bytes(ToU32(v.n.r.Floor)) else []
    case Strings => if v.Str? then StringBytes(v.s) else []
  }

  function AtomsBytes(env: Env, kind: Kind, vs: seq<Value>): seq<byte> {
    Flat(vs, v => AtomBytes(env, kind, v))
  }

  function SectionBytes(env: Env, c: Collected, s: Sym, kind: Kind): seq<byte> {
    if Listed(c, kind) == [] then []
    else U30Bytes(ToU32(|KeptAtoms(c, s, kind)|)) + AtomsBytes(env, kind, KeptAtoms(c, s, kind))
  }

  function ReadAtom(env: Env, kind: Kind, b: seq<byte>): (r: Option<(Value, seq<byte>)>) {
    match kind
    case Doubles => if |b| < 8 then None else Some((Number(env.dec(b[..8])), b[8..]))
    case Words => var (u, rest) :- ReadU30(b); Some((Int(u), rest))
    case Strings => var r := ReadString(b); if r.Got? then Some((Str(r.data), r.rest)) else None
  }

  function ReadAtoms(env: Env, kind: Kind, n: nat, b: seq<byte>): Option<(seq<Value>, seq<byte>)> {
    if n == 0 then Some(([], b)) else
    var (v, b1) :- ReadAtom(env, kind, b);
    var (vs, b2) :- ReadAtoms(env, kind, n - 1, b1);
    Some(([v] + vs, b2))
  }

  function ReadSection(env: Env, present: bool, kind: Kind, b: seq<byte>): Option<(seq<Value>, seq<byte>)> {
    if !present then Some(([], b)) else
    var (n, b1) :- ReadU30(b);
    ReadAtoms(env, kind, n, b1)
  }

  // ---------- references ----------

  function IndexOf<T(==)>(xs: seq<T>, x: T): (i: nat)
    ensures i <= |xs|
    ensures x in xs ==> i < |xs| && xs[i] == x
  {
    if xs == [] || xs[0] == x then 0 else 1 + IndexOf(xs[1..], x)
  }

  function Atoms(c: Collected, s: Sym): seq<Value> {
    KeptAtoms(c, s, Doubles) + KeptAtoms(c, s, Words) + KeptAtoms(c, s, Strings)
  }

  /** The numbering a message defines: symbols, then its own atoms, then its tables. */
  datatype Dict = Dict(sym: Sym, atoms: seq<Value>, tables: seq<nat>)
  {
    predicate Knows(v: Value) {
      v in sym.indexOf || v.Bool? || (if v.Table? then v.id in tables else v in atoms)
    }

    ghost predicate Complete(t: LuaTable) {
      forall k :: k in t ==> Knows(k) && Knows(t[k])
    }

    /** The index by which table bodies refer to `v`. */
    function Ref(v: Value): nat {
      if v in sym.indexOf then sym.indexOf[v]
      else if v.Bool? then BoolIndex(v.b)
      else if v.Table? then sym.index + |atoms| + 1 + IndexOf(tables, v.id)
      else sym.index + 1 + IndexOf(atoms, v)
    }

    /** What the decoder has at the indices above the symbols. */
    function Vals(): seq<Value> { atoms + NewTables(|tables|) }

    /** The largest index in use. */
    function Last(): nat { sym.index + |atoms| + |tables| }
  }

  function NewTables(n: nat): seq<Value> { seq(n, i requires 0 <= i < n => Table(i)) }

  function DictOf(c: Collected, s: Sym): Dict { Dict(s, Atoms(c, s), c.tables) }

  // ---------- table bodies ----------

  ghost function Ints(n: nat): set<Value> { set i | 1 <= i <= n :: Int(i) }

  function ArrayLenFrom(t: LuaTable, n: nat): (m: nat)
    requires forall i :: 1 <= i <= n ==> Int(i) in t
    ensures n <= m && Int(m + 1) !in t
    ensures forall i :: 1 <= i <= m ==> Int(i) in t
    decreases t.Keys - Ints(n)
  {
    if Int(n + 1) in t then
      assert Int(n + 1) in t.Keys - Ints(n) && Int(n + 1) in Ints(n + 1);
      assert Ints(n) <= Ints(n + 1);
      ArrayLenFrom(t, n + 1)
    else n
  }

  /** The length of the array part: the first missing positive index, less one. */
  function ArrayLen(t: LuaTable): (m: nat)
    ensures Int(m + 1) !in t
    ensures forall i :: 1 <= i <= m ==> Int(i) in t
  {
    ArrayLenFrom(t, 0)
  }

  /** What `lua_tonumber` makes of a key; anything that is not a number gives zero. */
  function KeyNumber(env: Env, k: Value): Num {
    match k
    case Number(n) => n
    case Str(s) => (var r := env.coerce(s); if r.Some? then r.value else Finite(0.0))
    case _ => Finite(0.0)
  }

  /** The key is taken for an index of the array part and not written as a pair. */
  predicate Skipped(env: Env, k: Value, n: nat) {
    var x := KeyNumber(env, k);
    x.Finite? && x.r == x.r.Floor as real && x.r <= n as real && x.r > 0.0
  }

  function ArrayWords(d: Dict, t: LuaTable, n: nat): seq<nat>
    requires forall i :: 1 <= i <= n ==> Int(i) in t
  {
    seq(n, i requires 0 <= i < n => d.Ref(t[Int(i + 1)]))
  }

  function PairWords(env: Env, d: Dict, t: LuaTable, keys: seq<Value>, n: nat): seq<nat> {
    if keys == [] then []
    else
      (if keys[0] !in t || Skipped(env, keys[0], n) then [] else [d.Ref(keys[0]), d.Ref(t[keys[0]])])
      + PairWords(env, d, t, keys[1..], n)
  }

  function WordBytes(w: nat): seq<byte> { U30Bytes(ToU32(w)) }

  /** A table body: the array length, the array values, then key and value pairs. */
  function BodyWords(env: Env, d: Dict, t: LuaTable, keys: seq<Value>): seq<nat> {
    var n := ArrayLen(t);
    [n] + (ArrayWords(d, t, n) + PairWords(env, d, t, keys, n))
  }

  function BodyBytes(env: Env, d: Dict, t: LuaTable, keys: seq<Value>): seq<byte> {
    Flat(BodyWords(env, d, t, keys), WordBytes)
  }

  function Bodies(env: Env, d: Dict, h: Heap, ord: Order, ts: seq<nat>): seq<seq<byte>>
    requires forall t :: t in ts ==> t in h && t in ord
  {
    seq(|ts|, i requires 0 <= i < |ts| => BodyBytes(env, d, h[ts[i]], ord[ts[i]]))
  }

  // ---------- the whole message ----------

  function Flag(c: Collected): byte {
    (if c.numbers != [] then HAS_NUMBER else 0) + (if c.u30s != [] then HAS_U30 else 0)
    + (if c.strings != [] then HAS_STRING else 0) + (if c.tables != [] then HAS_TABLE else 0)
  }

  function TablesBytes(bodies: seq<seq<byte>>): seq<byte> {
    if bodies == [] then [] else U30Bytes(ToU32(|bodies|)) + Flat(bodies, StringBytes)
  }

  function Message(env: Env, c: Collected, s: Sym, h: Heap, ord: Order): seq<byte>
    requires forall t :: t in c.tables ==> t in h && t in ord
  {
    [Flag(c)] + (SectionBytes(env, c, s, Doubles) + (SectionBytes(env, c, s, Words)
      + (SectionBytes(env, c, s, Strings) + TablesBytes(Bodies(env, DictOf(c, s), h, ord, c.tables)))))
  }

  // ---------- decoding ----------

  /** `Failed` is the nil-and-message return, `Fault` the raised error, `Ok` a value. */
  datatype Outcome<+T> = Ok(value: T) | Failed | Fault
  {
    predicate IsFailure() { !Ok? }
    function PropagateFailure<U>(): Outcome<U> requires !Ok? { if Failed? then Outcome<U>.Failed else Outcome<U>.Fault }
    function Extract(): T requires Ok? { value }
  }

  function OrFail<T>(r: Option<T>): Outcome<T> { if r.Some? then Ok(r.value) else Failed }

  /** Symbols first, then what this message defined, then the two booleans. */
  function Resolve(s: Sym, vals: seq<Value>, i: nat): Outcome<Value> {
    if i in s.valueOf then Ok(s.valueOf[i])
    else if s.index < i <= s.index + |vals| then Ok(vals[i - s.index - 1])
    else if i == 1 then Ok(Bool(false))
    else if i == 2 then Ok(Bool(true))
    else Fault
  }

  /** The varints of a body, and whether the last one was whole. */
  datatype WordList = WordList(words: seq<nat>, clean: bool)

  function ReadWords(b: seq<byte>): WordList
    decreases |b|
  {
    if b == [] then WordList([], true) else
    match ReadU30(b)
    case None => WordList([], false)
    case Some((w, rest)) => var more := ReadWords(rest); more.(words := [w] + more.words)
  }

  /** Array slots `j..count`. */
  function FillArray(s: Sym, vals: seq<Value>, t: LuaTable, j: nat, count: nat, ws: seq<nat>): Outcome<(LuaTable,
      seq<nat>)>
    decreases count + 1 - j
  {
    if j > count then Ok((t, ws))
    else if ws == [] then Failed
    else
      var v :- Resolve(s, vals, ws[0]);
      FillArray(s, vals, t[Int(j) := v], j + 1, count, ws[1..])
  }

  /** Key and value pairs until the body ends. */
  function FillPairs(s: Sym, vals: seq<Value>, t: LuaTable, ws: seq<nat>, clean: bool): Outcome<LuaTable>
    decreases |ws|
  {
    if ws == [] then (if clean then Ok(t) else Failed)
    else if |ws| == 1 then Failed
    else
      var key :- Resolve(s, vals, ws[0]);
      var value :- Resolve(s, vals, ws[1]);
      FillPairs(s, vals, t[key := value], ws[2..], clean)
  }

  function FillTable(s: Sym, vals: seq<Value>, ws: seq<nat>, clean: bool): Outcome<LuaTable> {
    if ws == [] then Failed else
    var (t, rest) :- FillArray(s, vals, map[], 1, ws[0], ws[1..]);
    FillPairs(s, vals, t, rest, clean)
  }

  function ReadBody(s: Sym, vals: seq<Value>, body: seq<byte>): Outcome<LuaTable> {
    var w := ReadWords(body);
    FillTable(s, vals, w.words, w.clean)
  }

  function ReadTable(s: Sym, vals: seq<Value>, b: seq<byte>): Outcome<(LuaTable, seq<byte>)> {
    var r := ReadString(b);
    if r.Need? then Failed else
    var t :- ReadBody(s, vals, r.data);
    Ok((t, r.rest))
  }

  function ReadBodies(s: Sym, vals: seq<Value>, n: nat, b: seq<byte>): Outcome<seq<LuaTable>> {
    if n == 0 then Ok([]) else
    var (t, b1) :- ReadTable(s, vals, b);
    var ts :- ReadBodies(s, vals, n - 1, b1);
    Ok([t] + ts)
  }

  function ReadTables(s: Sym, present: bool, atoms: seq<Value>, b: seq<byte>): Outcome<seq<LuaTable>> {
    if !present then Ok([]) else
    var (n, b1) :- OrFail(ReadU30(b));
    ReadBodies(s, atoms + NewTables(n), n, b1)
  }

  predicate Has(flag: byte, mask: nat) requires mask > 0 { flag / mask % 2 == 1 }

  /** The first item of the last atom section present. */
  function AtomRoot(s: Sym, flag: byte, ds: nat, us: nat): nat {
    if Has(flag, HAS_STRING) then s.index + ds + us + 1
    else if Has(flag, HAS_U30) then s.index + ds + 1
    else s.index + 1
  }

  /** The first item of the last section present. */
  function RootIndex(s: Sym, flag: byte, ds: nat, us: nat, ss: nat): nat {
    if Has(flag, HAS_TABLE) then s.index + ds + us + ss + 1 else AtomRoot(s, flag, ds, us)
  }

  /** The tables created, and the root: absent when its index was never defined. */
  datatype Graph = Graph(tables: seq<LuaTable>, root: Option<Value>)

  function ReadAllAtoms(env: Env, flag: byte, b: seq<byte>): Option<(seq<Value>, seq<Value>, seq<Value>, seq<byte>)> {
    var (ds, b1) :- ReadSection(env, Has(flag, HAS_NUMBER), Doubles, b);
    var (us, b2) :- ReadSection(env, Has(flag, HAS_U30), Words, b1);
    var (ss, b3) :- ReadSection(env, Has(flag, HAS_STRING), Strings, b2);
    Some((ds, us, ss, b3))
  }

  function DecodeSections(env: Env, s: Sym, flag: byte, b: seq<byte>): Outcome<Graph> {
    var (ds, us, ss, rest) :- OrFail(ReadAllAtoms(env, flag, b));
    var atoms := ds + us + ss;
    var tables :- ReadTables(s, Has(flag, HAS_TABLE), atoms, rest);
    var root := Resolve(s, atoms + NewTables(|tables|), RootIndex(s, flag, |ds|, |us|, |ss|));
    Ok(Graph(tables, if root.Ok? then Some(root.value) else None))
  }

  function Decode(env: Env, s: Sym, msg: seq<byte>): Outcome<Graph> {
    var flag: byte := if msg == [] then 0 else msg[0];
    if flag == 0 then Ok(Graph([], Some(Bool(false))))
    else if flag == 1 then Ok(Graph([], Some(Bool(true))))
    else DecodeSections(env, s, flag, msg[1..])
  }
}
