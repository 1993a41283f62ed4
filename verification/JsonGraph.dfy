/** json.c, encoding: tables are printed along the path from the root, and a table met again on
    that path is an error. */
module JsonGraph {
  import opened Bytes
  import L = LuaGraph
  import opened JsonText

  datatype JV = Nil | Sentinel | Bool(b: bool) | Number(n: L.Num) | Str(s: seq<byte>) | Tab(id: nat) | Other

  datatype Meta = NoMeta | ArrayMeta | ObjectMeta

  /** A table: its metatable, its entries, the order of `lua_next`, and what `lua_rawlen` says. */
  datatype JTable = JTable(meta: Meta, content: map<JV, JV>, keys: seq<JV>, len: nat)

  type JHeap = map<nat, JTable>

  function JInt(i: int): JV { Number(L.Finite(i as real)) }

  function Get(t: JTable, k: JV): JV { if k in t.content then t.content[k] else Nil }

  /** The tables are closed under reference and the key lists are right. */
  ghost predicate Proper(h: JHeap) {
    forall id :: id in h ==>
      && Distinct(h[id].keys) && (forall k :: k in h[id].keys <==> k in h[id].content)
      && (forall k :: k in h[id].content ==> InHeap(h, h[id].content[k]))
  }

  ghost predicate InHeap(h: JHeap, v: JV) { v.Tab? ==> v.id in h }

  datatype Err = Circular | Ambiguous | Mixed | Sparse | BadNumber | BadType
  datatype Out = Good(text: seq<byte>) | Bad(err: Err)
  {
    predicate IsFailure() { Bad? }
    function PropagateFailure(): Out requires Bad? { this }
    function Extract(): seq<byte> requires Good? { text }
  }

  /** The branch condition shared with the Lua twin. */
  predicate IsArray(t: JTable) {
    JInt(1) in t.content || t.meta == ArrayMeta || (t.meta != ObjectMeta && t.keys == [])
  }

  predicate AllNumbers(keys: seq<JV>) { forall i :: 0 <= i < |keys| ==> keys[i].Number? }

  function EncodeValue(f: Floats, h: JHeap, v: JV, path: set<nat>): Out
    requires Proper(h) && InHeap(h, v)
    decreases h.Keys - path, 2, 0
  {
    match v
    case Nil => Good(NULL)
    case Sentinel => Good(NULL)
    case Bool(b) => Good(if b then TRUE else FALSE)
    case Number(n) => if n.Finite? then Good(NumberText(f, n)) else Bad(BadNumber)
    case Str(s) => Good(StringText(s))
    case Tab(id) => EncodeTable(f, h, id, path)
    case Other => Bad(BadType)
  }

  function EncodeTable(f: Floats, h: JHeap, id: nat, path: set<nat>): Out
    requires Proper(h) && id in h
    decreases h.Keys - path, 1, 0
  {
    var t := h[id];
    if id in path then Bad(Circular)
    else if IsArray(t) then
      if t.meta == NoMeta && t.keys == [] then Bad(Ambiguous)
      else if !AllNumbers(t.keys) then Bad(Mixed)
      else if |t.keys| != t.len then Bad(Sparse)
      else
        var items :- EncodeItems(f, h, t, 1, path + {id});
        Good([LBRACKET] + items + [RBRACKET])
    else
      var fields :- EncodeFields(f, h, t, 0, path + {id});
      Good([LBRACE] + fields + [RBRACE])
  }

  function EncodeItems(f: Floats, h: JHeap, t: JTable, i: nat, path: set<nat>): Out
    requires Proper(h) && (forall k :: k in t.content ==> InHeap(h, t.content[k]))
    decreases h.Keys - path, 3, t.len + 1 - i
  {
    if i > t.len then Good([]) else
    var v :- EncodeValue(f, h, Get(t, JInt(i)), path);
    var more :- EncodeItems(f, h, t, i + 1, path);
    Good((if i > 1 then [COMMA] else []) + v + more)
  }

  function EncodeFields(f: Floats, h: JHeap, t: JTable, i: nat, path: set<nat>): Out
    requires Proper(h) && (forall k :: k in t.content ==> InHeap(h, t.content[k]))
    decreases h.Keys - path, 3, |t.keys| - i
  {
    if i >= |t.keys| then Good([])
    else if !t.keys[i].Str? then Bad(Mixed)
    else
      var v :- EncodeValue(f, h, Get(t, t.keys[i]), path);
      var more :- EncodeFields(f, h, t, i + 1, path);
      Good((if i > 0 then [COMMA] else []) + StringText(t.keys[i].s) + [COLON] + v + more)
  }

  // ---------- the unfolded tree ----------

  /** `d` is the tree that `v` stands for, printed without whitespace. */
  ghost predicate Unfolds(h: JHeap, v: JV, d: Doc)
    decreases d
  {
    match v
    case Nil => d == Null
    case Sentinel => d == Null
    case Bool(b) => d == Boolean(b)
    case Number(n) => d == Num(n)
    case Str(s) => d == Text(s)
    case Other => false
    case Tab(id) =>
      && id in h
      && var t := h[id];
      if IsArray(t) then
        && d.Array? && d.blank == [] && |d.items| == t.len
        && forall i :: 0 <= i < t.len ==>
          d.items[i].before == [] && d.items[i].after == [] && Unfolds(h, Get(t, JInt(i + 1)), d.items[i].v)
      else
        && d.Object? && d.blank == [] && |d.fields| == |t.keys|
        && forall i :: 0 <= i < |t.keys| ==>
          && t.keys[i].Str? && d.fields[i] == Field([], t.keys[i].s, [], [], d.fields[i].v, [])
          && Unfolds(h, Get(t, t.keys[i]), d.fields[i].v)
  }

  /** Two trees for one value are the same tree. */
  lemma {:induction false} UnfoldsOnce(h: JHeap, v: JV, d: Doc, e: Doc)
    requires Unfolds(h, v, d) && Unfolds(h, v, e)
    ensures d == e
    decreases d
  {
    if v.Tab? {
      var t := h[v.id];
      if IsArray(t) {
        forall i | 0 <= i < t.len ensures d.items[i] == e.items[i] {
          UnfoldsOnce(h, Get(t, JInt(i + 1)), d.items[i].v, e.items[i].v);
        }
        assert d.items == e.items;
      } else {
        forall i | 0 <= i < |t.keys| ensures d.fields[i] == e.fields[i] {
          UnfoldsOnce(h, Get(t, t.keys[i]), d.fields[i].v, e.fields[i].v);
        }
        assert d.fields == e.fields;
      }
    }
  }
}
