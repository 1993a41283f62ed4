/** Encoding prints the unfolded tree, and refuses exactly the graphs that have none. */
module JsonCycle {
  import opened Bytes
  import L = LuaGraph
  import opened JsonText
  import opened JsonParse
  import opened JsonRoundTrip
  import opened JsonGraph

  // ---------- what is printed is the unfolded tree ----------

  function JoinItems(f: Floats, lead: bool, items: seq<Item>): seq<byte> {
    if items == [] then [] else (if lead then [COMMA] else []) + PrintItems(f, items)
  }

  function JoinFields(f: Floats, lead: bool, fields: seq<Field>): seq<byte> {
    if fields == [] then [] else (if lead then [COMMA] else []) + PrintFields(f, fields)
  }

  lemma GlueItem(c: seq<byte>, t: seq<byte>, more: seq<byte>)
    ensures c + ([] + t + [] + more) == c + t + more
  {}

  lemma GlueField(c: seq<byte>, q: seq<byte>, t: seq<byte>, more: seq<byte>)
    ensures c + ([] + q + [] + [COLON] + ([] + t + []) + more) == c + q + [COLON] + t + more
  {
    assert [] + q + [] == q && [] + t + [] == t;
  }

  lemma ItemsCons(f: Floats, lead: bool, d: Doc, items: seq<Item>)
    ensures JoinItems(f, lead, [Item([], d, [])] + items)
         == (if lead then [COMMA] else []) + Print(f, d) + JoinItems(f, true, items)
  {
    var all := [Item([], d, [])] + items;
    assert all[1..] == items;
    GlueItem(if lead then [COMMA] else [], Print(f, d), JoinItems(f, true, items));
  }

  lemma FieldsCons(f: Floats, lead: bool, k: seq<byte>, d: Doc, fields: seq<Field>)
    ensures JoinFields(f, lead, [Field([], k, [], [], d, [])] + fields)
         == (if lead then [COMMA] else []) + StringText(k) + [COLON] + Print(f, d) + JoinFields(f, true, fields)
  {
    var all := [Field([], k, [], [], d, [])] + fields;
    assert all[1..] == fields;
    GlueField(if lead then [COMMA] else [], StringText(k), Print(f, d), JoinFields(f, true, fields));
  }

  lemma {:induction false} ValueTree(f: Floats, h: JHeap, v: JV, path: set<nat>) returns (d: Doc)
    requires Proper(h) && InHeap(h, v) && EncodeValue(f, h, v, path).Good?
    ensures Unfolds(h, v, d) && EncodeValue(f, h, v, path).text == Print(f, d)
    decreases h.Keys - path, 2, 0
  {
    match v
    case Nil => d := Null;
    case Sentinel => d := Null;
    case Bool(b) => d := Boolean(b);
    case Number(n) => d := Num(n);
    case Str(s) => d := Text(s);
    case Tab(id) => d := TableTree(f, h, id, path);
  }

  ghost predicate ItemIs(h: JHeap, t: JTable, i: nat, it: Item) {
    it == Item([], it.v, []) && Unfolds(h, Get(t, JInt(i)), it.v)
  }

  /** The items from index `i` on. */
  ghost predicate ItemsAre(h: JHeap, t: JTable, i: nat, items: seq<Item>) {
    |items| == t.len + 1 - i && forall j :: 0 <= j < |items| ==> ItemIs(h, t, i + j, items[j])
  }

  ghost predicate FieldIs(h: JHeap, t: JTable, i: nat, fd: Field)
    requires i < |t.keys|
  {
    t.keys[i].Str? && fd == Field([], t.keys[i].s, [], [], fd.v, []) && Unfolds(h, Get(t, t.keys[i]), fd.v)
  }

  /** The fields from key `i` on. */
  ghost predicate FieldsAre(h: JHeap, t: JTable, i: nat, fields: seq<Field>) {
    |fields| == |t.keys| - i && forall j :: 0 <= j < |fields| ==> FieldIs(h, t, i + j, fields[j])
  }

  lemma ItemsAreCons(h: JHeap, t: JTable, i: nat, it: Item, more: seq<Item>)
    requires ItemIs(h, t, i, it) && ItemsAre(h, t, i + 1, more)
    ensures ItemsAre(h, t, i, [it] + more)
  {
    var all := [it] + more;
    forall j | 0 <= j < |all| ensures ItemIs(h, t, i + j, all[j]) {
      if j > 0 { assert all[j] == more[j - 1] && ItemIs(h, t, i + 1 + (j - 1), more[j - 1]); }
    }
  }

  lemma FieldsAreCons(h: JHeap, t: JTable, i: nat, fd: Field, more: seq<Field>)
    requires i < |t.keys| && FieldIs(h, t, i, fd) && FieldsAre(h, t, i + 1, more)
    ensures FieldsAre(h, t, i, [fd] + more)
  {
    var all := [fd] + more;
    forall j | 0 <= j < |all| ensures FieldIs(h, t, i + j, all[j]) {
      if j > 0 { assert all[j] == more[j - 1] && FieldIs(h, t, i + 1 + (j - 1), more[j - 1]); }
    }
  }

  lemma ArrayUnfolds(h: JHeap, id: nat, items: seq<Item>)
    requires id in h && IsArray(h[id]) && ItemsAre(h, h[id], 1, items)
    ensures Unfolds(h, Tab(id), Array([], items))
  {
    forall i | 0 <= i < h[id].len
      ensures items[i].before == [] && items[i].after == [] && Unfolds(h, Get(h[id], JInt(i + 1)), items[i].v) {
      assert ItemIs(h, h[id], 1 + i, items[i]);
    }
  }

  lemma ObjectUnfolds(h: JHeap, id: nat, fields: seq<Field>)
    requires id in h && !IsArray(h[id]) && FieldsAre(h, h[id], 0, fields)
    ensures Unfolds(h, Tab(id), Object([], fields))
  {
    var t := h[id];
    forall i | 0 <= i < |t.keys| ensures
      && t.keys[i].Str? && fields[i] == Field([], t.keys[i].s, [], [], fields[i].v, [])
      && Unfolds(h, Get(t, t.keys[i]), fields[i].v) {
      assert FieldIs(h, t, 0 + i, fields[i]);
    }
  }

  /** The text of a table is that of its items or fields between brackets. */
  lemma TableText(f: Floats, h: JHeap, id: nat, path: set<nat>)
    requires Proper(h) && id in h && EncodeTable(f, h, id, path).Good?
    ensures id !in path
    ensures IsArray(h[id]) ==> var r := EncodeItems(f, h, h[id], 1, path + {id});
      r.Good? && EncodeTable(f, h, id, path).text == [LBRACKET] + r.text + [RBRACKET]
    ensures !IsArray(h[id]) ==> var r := EncodeFields(f, h, h[id], 0, path + {id});
      r.Good? && EncodeTable(f, h, id, path).text == [LBRACE] + r.text + [RBRACE]
  {}

  lemma PrintTable(f: Floats, items: seq<Item>, fields: seq<Field>)
    ensures Print(f, Array([], items)) == [LBRACKET] + JoinItems(f, false, items) + [RBRACKET]
    ensures Print(f, Object([], fields)) == [LBRACE] + JoinFields(f, false, fields) + [RBRACE]
  {
    assert [] + PrintItems(f, items) == PrintItems(f, items) && [] + PrintFields(f, fields) == PrintFields(f, fields);
  }

  lemma {:induction false} TableTree(f: Floats, h: JHeap, id: nat, path: set<nat>) returns (d: Doc)
    requires Proper(h) && id in h && EncodeTable(f, h, id, path).Good?
    ensures Unfolds(h, Tab(id), d) && EncodeTable(f, h, id, path).text == Print(f, d)
    decreases h.Keys - path, 1, 0
  {
    TableText(f, h, id, path);
    if IsArray(h[id]) {
      var items := ItemsTree(f, h, h[id], 1, path + {id});
      ArrayUnfolds(h, id, items);
      PrintTable(f, items, []);
      d := Array([], items);
    } else {
      var fields := FieldsTree(f, h, h[id], 0, path + {id});
      ObjectUnfolds(h, id, fields);
      PrintTable(f, [], fields);
      d := Object([], fields);
    }
  }

  lemma {:induction false} ItemsTree(f: Floats, h: JHeap, t: JTable, i: nat, path: set<nat>) returns (items: seq<Item>)
    requires Proper(h) && (forall k :: k in t.content ==> InHeap(h, t.content[k]))
    requires 1 <= i <= t.len + 1 && EncodeItems(f, h, t, i, path).Good?
    ensures ItemsAre(h, t, i, items) && EncodeItems(f, h, t, i, path).text == JoinItems(f, i > 1, items)
    decreases h.Keys - path, 3, t.len + 1 - i
  {
    if i > t.len {
      items := [];
    } else {
      var d := ValueTree(f, h, Get(t, JInt(i)), path);
      var more := ItemsTree(f, h, t, i + 1, path);
      items := [Item([], d, [])] + more;
      ItemsCons(f, i > 1, d, more);
      ItemsAreCons(h, t, i, Item([], d, []), more);
    }
  }

  lemma {:induction false} FieldsTree(f: Floats, h: JHeap, t: JTable, i: nat, path: set<nat>)
      returns (fields: seq<Field>)
    requires Proper(h) && (forall k :: k in t.content ==> InHeap(h, t.content[k]))
    requires i <= |t.keys| && EncodeFields(f, h, t, i, path).Good?
    ensures FieldsAre(h, t, i, fields) && EncodeFields(f, h, t, i, path).text == JoinFields(f, i > 0, fields)
    decreases h.Keys - path, 3, |t.keys| - i
  {
    if i >= |t.keys| {
      fields := [];
    } else {
      var d := ValueTree(f, h, Get(t, t.keys[i]), path);
      var more := FieldsTree(f, h, t, i + 1, path);
      var k := t.keys[i].s;
      fields := [Field([], k, [], [], d, [])] + more;
      FieldsCons(f, i > 0, k, d, more);
      FieldsAreCons(h, t, i, Field([], k, [], [], d, []), more);
    }
  }

  // ---------- cycles ----------

  /** The table `b` is a value of the table `a`. */
  ghost predicate Child(h: JHeap, a: nat, b: nat) {
    a in h && exists k :: k in h[a].content && h[a].content[k] == Tab(b)
  }

  ghost predicate Walk(h: JHeap, w: seq<nat>) {
    |w| > 0 && forall i :: 0 <= i < |w| - 1 ==> Child(h, w[i], w[i + 1])
  }

  /** A walk from `v` comes back to a table it has been through. */
  ghost predicate CycleFrom(h: JHeap, v: JV) {
    v.Tab? && exists w: seq<nat> :: Walk(h, w) && w[0] == v.id && !Distinct(w)
  }

  /** A dense array or an object with string keys, holding nothing that cannot be printed. */
  ghost predicate WellFormed(t: JTable) {
    && (if IsArray(t)
        then t.len == |t.keys| && (t.keys != [] || t.meta == ArrayMeta)
             && forall k :: k in t.content <==> exists i :: 1 <= i <= t.len && k == JInt(i)
        else forall k :: k in t.content ==> k.Str?)
    && forall k :: k in t.content ==> Printable(t.content[k])
  }

  ghost predicate Printable(v: JV) { !v.Other? && (v.Number? ==> v.n.Finite?) }

  ghost predicate AllWellFormed(h: JHeap) { Proper(h) && forall id :: id in h ==> WellFormed(h[id]) }

  lemma {:induction false} ItemsGood(f: Floats, h: JHeap, t: JTable, i: nat, path: set<nat>, j: nat)
    requires Proper(h) && (forall k :: k in t.content ==> InHeap(h, t.content[k]))
    requires EncodeItems(f, h, t, i, path).Good? && i <= j <= t.len
    ensures EncodeValue(f, h, Get(t, JInt(j)), path).Good?
    decreases j - i
  {
    if i < j { ItemsGood(f, h, t, i + 1, path, j); }
  }

  lemma {:induction false} FieldsGood(f: Floats, h: JHeap, t: JTable, i: nat, path: set<nat>, j: nat)
    requires Proper(h) && (forall k :: k in t.content ==> InHeap(h, t.content[k]))
    requires EncodeFields(f, h, t, i, path).Good? && i <= j < |t.keys|
    ensures EncodeValue(f, h, Get(t, t.keys[j]), path).Good?
    decreases j - i
  {
    if i < j { FieldsGood(f, h, t, i + 1, path, j); }
  }

  lemma ValueGood(f: Floats, h: JHeap, id: nat, path: set<nat>, k: JV)
    requires AllWellFormed(h) && id in h && k in h[id].content && EncodeTable(f, h, id, path).Good?
    ensures InHeap(h, h[id].content[k]) && EncodeValue(f, h, h[id].content[k], path + {id}).Good?
  {
    var t := h[id];
    assert WellFormed(t);
    if IsArray(t) {
      var i :| 1 <= i <= t.len && k == JInt(i);
      ItemsGood(f, h, t, 1, path + {id}, i);
    } else {
      assert k in t.keys;
      var i :| 0 <= i < |t.keys| && t.keys[i] == k;
      FieldsGood(f, h, t, 0, path + {id}, i);
    }
  }

  lemma ChildGood(f: Floats, h: JHeap, id: nat, path: set<nat>, c: nat)
    requires AllWellFormed(h) && id in h && Child(h, id, c) && EncodeTable(f, h, id, path).Good?
    ensures c in h && id !in path && EncodeTable(f, h, c, path + {id}).Good?
  {
    var k :| k in h[id].content && h[id].content[k] == Tab(c);
    ValueGood(f, h, id, path, k);
  }

  /** Once a table has been printed, no walk from it repeats or meets the path. */
  lemma {:induction false} GoodIsSimple(f: Floats, h: JHeap, id: nat, path: set<nat>, w: seq<nat>)
    requires AllWellFormed(h) && id in h && EncodeTable(f, h, id, path).Good?
    requires Walk(h, w) && w[0] == id
    ensures Distinct(w) && forall i :: 0 <= i < |w| ==> w[i] !in path
    decreases |w|
  {
    if |w| > 1 {
      ChildGood(f, h, id, path, w[1]);
      var rest := w[1..];
      forall i | 0 <= i < |rest| - 1 ensures Child(h, rest[i], rest[i + 1]) {
        assert Child(h, w[i + 1], w[i + 2]);
      }
      GoodIsSimple(f, h, w[1], path + {id}, rest);
      assert forall i :: 1 <= i < |w| ==> w[i] == rest[i - 1];
    }
  }

  lemma {:induction false} ItemsBad(f: Floats, h: JHeap, t: JTable, i: nat, path: set<nat>) returns (j: nat)
    requires Proper(h) && (forall k :: k in t.content ==> InHeap(h, t.content[k]))
    requires EncodeItems(f, h, t, i, path).Bad?
    ensures i <= j <= t.len && EncodeValue(f, h, Get(t, JInt(j)), path) == EncodeItems(f, h, t, i, path)
    decreases t.len + 1 - i
  {
    if EncodeValue(f, h, Get(t, JInt(i)), path).Bad? { j := i; } else { j := ItemsBad(f, h, t, i + 1, path); }
  }

  lemma {:induction false} FieldsBad(f: Floats, h: JHeap, t: JTable, i: nat, path: set<nat>) returns (j: nat)
    requires Proper(h) && (forall k :: k in t.content ==> InHeap(h, t.content[k]))
    requires (forall j :: 0 <= j < |t.keys| ==> t.keys[j].Str?) && EncodeFields(f, h, t, i, path).Bad?
    ensures i <= j < |t.keys| && EncodeValue(f, h, Get(t, t.keys[j]), path) == EncodeFields(f, h, t, i, path)
    decreases |t.keys| - i
  {
    if EncodeValue(f, h, Get(t, t.keys[i]), path).Bad? { j := i; } else { j := FieldsBad(f, h, t, i + 1, path); }
  }

  /** A well-formed table off the path fails only through one of its child tables. */
  lemma BadChild(f: Floats, h: JHeap, id: nat, path: set<nat>) returns (c: nat)
    requires AllWellFormed(h) && id in h && id !in path && EncodeTable(f, h, id, path).Bad?
    ensures c in h && Child(h, id, c) && EncodeTable(f, h, c, path + {id}) == EncodeTable(f, h, id, path)
  {
    var t := h[id];
    assert WellFormed(t);
    var k;
    if IsArray(t) {
      assert AllNumbers(t.keys) by {
        forall i | 0 <= i < |t.keys| ensures t.keys[i].Number? { assert t.keys[i] in t.content; }
      }
      var j := ItemsBad(f, h, t, 1, path + {id});
      k := JInt(j);
      assert k in t.content;
    } else {
      forall i | 0 <= i < |t.keys| ensures t.keys[i].Str? { assert t.keys[i] in t.content; }
      var j := FieldsBad(f, h, t, 0, path + {id});
      k := t.keys[j];
      assert k in t.keys;
    }
    assert Printable(t.content[k]) && InHeap(h, t.content[k]);
    c := t.content[k].id;
  }

  lemma WalkFrom(h: JHeap, id: nat, rest: seq<nat>, path: set<nat>)
    requires id in h && Walk(h, rest) && Child(h, id, rest[0])
    requires rest[|rest| - 1] in path + {id} || !Distinct(rest)
    ensures var w := [id] + rest; Walk(h, w) && (w[|w| - 1] in path || !Distinct(w))
  {
    var w := [id] + rest;
    assert forall i :: 1 <= i < |w| ==> w[i] == rest[i - 1];
    if !Distinct(rest) {
      var i, j :| 0 <= i < j < |rest| && rest[i] == rest[j];
      assert w[i + 1] == w[j + 1];
    } else if w[|w| - 1] == id {
      assert w[0] == w[|w| - 1];
    }
  }

  /** A failure comes with a walk that repeats or ends on the path. */
  lemma {:induction false} BadHasWalk(f: Floats, h: JHeap, id: nat, path: set<nat>) returns (w: seq<nat>)
    requires AllWellFormed(h) && id in h && EncodeTable(f, h, id, path).Bad?
    ensures EncodeTable(f, h, id, path) == Bad(Circular)
    ensures Walk(h, w) && w[0] == id && (w[|w| - 1] in path || !Distinct(w))
    decreases h.Keys - path
  {
    if id in path {
      w := [id];
    } else {
      var c := BadChild(f, h, id, path);
      var rest := BadHasWalk(f, h, c, path + {id});
      WalkFrom(h, id, rest, path);
      w := [id] + rest;
    }
  }

  /** On well-formed tables, encoding fails exactly when a cycle can be reached, and the failure
      is "circular reference"; sharing without a cycle is accepted. */
  lemma CircularIffCycle(f: Floats, h: JHeap, v: JV)
    requires AllWellFormed(h) && InHeap(h, v) && Printable(v)
    ensures EncodeValue(f, h, v, {}).Bad? <==> CycleFrom(h, v)
    ensures EncodeValue(f, h, v, {}).Bad? ==> EncodeValue(f, h, v, {}) == Bad(Circular)
  {
    if v.Tab? {
      if EncodeTable(f, h, v.id, {}).Bad? {
        var w := BadHasWalk(f, h, v.id, {});
      } else if CycleFrom(h, v) {
        var w: seq<nat> :| Walk(h, w) && w[0] == v.id && !Distinct(w);
        GoodIsSimple(f, h, v.id, {}, w);
      }
    }
  }

  // ---------- there and back ----------

  ghost predicate ExactNumbers(h: JHeap) {
    forall id, k :: id in h && k in h[id].content && h[id].content[k].Number? ==> IsSmallInt(h[id].content[k].n)
  }

  lemma {:induction false} UnfoldsExact(h: JHeap, v: JV, d: Doc)
    requires ExactNumbers(h) && Unfolds(h, v, d) && (v.Number? ==> IsSmallInt(v.n))
    ensures Exact(d)
    decreases d
  {
    if v.Tab? {
      var t := h[v.id];
      if IsArray(t) {
        forall i | 0 <= i < t.len ensures Exact(d.items[i].v) {
          UnfoldsExact(h, Get(t, JInt(i + 1)), d.items[i].v);
        }
      } else {
        forall i | 0 <= i < |t.keys| ensures Exact(d.fields[i].v) {
          UnfoldsExact(h, Get(t, t.keys[i]), d.fields[i].v);
        }
      }
    }
  }

  /** Every acyclic graph of well-formed tables with exact numbers prints as its unfolded tree,
      and decoding the text gives the meaning of that tree. */
  lemma EncodeThenDecode(f: Floats, h: JHeap, v: JV) returns (d: Doc)
    requires AllWellFormed(h) && InHeap(h, v) && Printable(v) && !CycleFrom(h, v)
    requires ExactNumbers(h) && (v.Number? ==> IsSmallInt(v.n))
    ensures Unfolds(h, v, d) && EncodeValue(f, h, v, {}) == Good(Print(f, d))
    ensures Decode(f, Print(f, d)) == Some(Meaning(d))
  {
    CircularIffCycle(f, h, v);
    d := ValueTree(f, h, v, {});
    UnfoldsExact(h, v, d);
    DecodePrinted(f, d, [], []);
    assert [] + (Print(f, d) + []) == Print(f, d);
  }
}
