/** objectbuf.c, packer: a depth-first walk that interns every table and atom once. */
module Packer {
  import opened Bytes
  import opened LuaGraph

  const MAX_U30: real := 4294967296.0

  /** Whole numbers that fit an unsigned 32-bit word. */
  predicate IsU30(n: Num) {
    n.Finite? && !(n.r.Floor as real != n.r || n.r >= MAX_U30 || n.r < 0.0)
  }

  /** The interned values, in order of first encounter. */
  datatype Collected = Collected(tables: seq<nat>, numbers: seq<Num>, u30s: seq<Num>, strings: seq<seq<byte>>)
  {
    predicate Has(v: Value) {
      match v
      case Bool(_) => true
      case Number(n) => n in numbers || n in u30s
      case Str(s) => s in strings
      case Table(id) => id in tables
    }

    ghost predicate Valid() {
      && Distinct(tables) && Distinct(numbers) && Distinct(u30s) && Distinct(strings)
      && (forall n :: n in numbers ==> !IsU30(n))
      && (forall n :: n in u30s ==> IsU30(n))
    }

    ghost predicate Extends(c: Collected) {
      c.tables <= tables && c.numbers <= numbers && c.u30s <= u30s && c.strings <= strings
    }

    /** Every key and value of `t` has been collected. */
    ghost predicate Complete(t: LuaTable) {
      forall k :: k in t ==> Has(k) && Has(t[k])
    }
  }

  /** `c` lists exactly what is reachable from `root`, each item once, the root table first. */
  ghost predicate IsCollection(c: Collected, h: Heap, root: Value) {
    && c.Valid()
    && (forall v :: c.Has(v) && !v.Bool? ==> Reachable(h, root, v))
    && (forall v :: Reachable(h, root, v) ==> c.Has(v))
    && (root.Table? ==> |c.tables| > 0 && c.tables[0] == root.id)
  }

  lemma HasExtends(c: Collected, d: Collected, v: Value)
    requires d.Extends(c) && c.Has(v)
    ensures d.Has(v)
  {}

  /** `d` extends `c`, complete for every table it adds but `except`, all of it reachable from `v`. */
  ghost predicate GrewFrom(h: Heap, v: Value, except: set<nat>, c: Collected, d: Collected) {
    && d.Extends(c)
    && (forall t :: t in d.tables ==> t in h)
    && (forall t :: t in d.tables && t !in c.tables && t !in except ==> t in h && d.Complete(h[t]))
    && (forall x :: d.Has(x) ==> c.Has(x) || Reachable(h, v, x))
  }

  lemma GrewViaEdge(h: Heap, u: Value, v: Value, c: Collected, d: Collected)
    requires GrewFrom(h, v, {}, c, d) && Edge(h, u, v)
    ensures GrewFrom(h, u, {}, c, d)
  {
    forall x | d.Has(x) && !c.Has(x) ensures Reachable(h, u, x) {
      ReachThrough(h, u, v, x);
    }
  }

  lemma GrewTwice(h: Heap, u: Value, except: set<nat>, c: Collected, d: Collected, e: Collected)
    requires GrewFrom(h, u, except, c, d) && GrewFrom(h, u, {}, d, e)
    ensures GrewFrom(h, u, except, c, e)
  {
    forall t | t in e.tables && t !in c.tables && t !in except ensures e.Complete(h[t]) {
      if t in d.tables {
        forall k | k in h[t] ensures e.Has(k) && e.Has(h[t][k]) {
          HasExtends(d, e, k);
          HasExtends(d, e, h[t][k]);
        }
      }
    }
  }

  /** The first `n` keys listed and their values have been collected. */
  ghost predicate Covers(c: Collected, t: LuaTable, keys: seq<Value>, n: nat) {
    n <= |keys| && forall j :: 0 <= j < n ==> keys[j] in t && c.Has(keys[j]) && c.Has(t[keys[j]])
  }

  lemma CoversMore(c: Collected, d: Collected, t: LuaTable, keys: seq<Value>, n: nat)
    requires Covers(c, t, keys, n) && d.Extends(c)
    requires n < |keys| && keys[n] in t && d.Has(keys[n]) && d.Has(t[keys[n]])
    ensures Covers(d, t, keys, n + 1)
  {
    forall j | 0 <= j < n ensures keys[j] in t && d.Has(keys[j]) && d.Has(t[keys[j]]) {
      HasExtends(c, d, keys[j]);
      HasExtends(c, d, t[keys[j]]);
    }
  }

  /** One more key and value packed. */
  lemma PackedMore(h: Heap, t: nat, keys: seq<Value>, i: nat, was: Collected, c: Collected, d: Collected)
    requires t in h && Covers(c, h[t], keys, i) && i < |keys| && keys[i] in h[t]
    requires GrewFrom(h, Table(t), {t}, was, c) && GrewFrom(h, Table(t), {}, c, d)
    requires d.Has(keys[i]) && d.Has(h[t][keys[i]])
    ensures GrewFrom(h, Table(t), {t}, was, d) && Covers(d, h[t], keys, i + 1)
  {
    GrewTwice(h, Table(t), {t}, was, c, d);
    CoversMore(c, d, h[t], keys, i);
  }

  /** Entering a table leaves fewer tables unseen. */
  lemma SeenGrew(h: Heap, was: seq<nat>, now: seq<nat>, t: nat)
    requires was + [t] <= now && t in h && t !in was
    ensures h.Keys - (set x | x in now) < h.Keys - (set x | x in was)
  {
    assert now[|was|] == (was + [t])[|was|] == t;
    forall x | x in was ensures x in now {
      var i :| 0 <= i < |was| && was[i] == x;
      assert now[i] == (was + [t])[i] == x;
    }
    assert t in h.Keys - (set x | x in was) && t !in h.Keys - (set x | x in now);
  }

  /** A table whose listed keys are all covered is complete. */
  lemma CoveredIsComplete(h: Heap, t: nat, keys: seq<Value>, c: Collected, d: Collected)
    requires t in h && Lists(keys, h[t]) && Covers(d, h[t], keys, |keys|)
    requires GrewFrom(h, Table(t), {t}, c, d)
    ensures GrewFrom(h, Table(t), {}, c, d)
  {
    assert d.Complete(h[t]) by {
      forall k | k in h[t] ensures d.Has(k) && d.Has(h[t][k]) {
        assert k in keys;
      }
    }
  }

  class Context {
    var tables: seq<nat>
    var numbers: seq<Num>
    var u30s: seq<Num>
    var strings: seq<seq<byte>>
    var tableIdx: map<nat, nat>
    var numIdx: map<Num, nat>
    var stringIdx: map<seq<byte>, nat>

    function Content(): Collected
      reads this
    {
      Collected(tables, numbers, u30s, strings)
    }

    ghost predicate Valid()
      reads this
    {
      && Content().Valid()
      && (forall t :: t in tableIdx <==> t in tables)
      && (forall n :: n in numIdx <==> n in numbers || n in u30s)
      && (forall s :: s in stringIdx <==> s in strings)
    }

    constructor ()
      ensures Valid() && Content() == Collected([], [], [], [])
    {
      tables, numbers, u30s, strings := [], [], [], [];
      tableIdx, numIdx, stringIdx := map[], map[], map[];
    }

    method PackNumber(n: Num)
      requires Valid()
      modifies this
      ensures Valid() && Content().Extends(old(Content()))
      ensures forall v :: Content().Has(v) <==> old(Content()).Has(v) || v == Number(n)
      ensures tables == old(tables)
    {
      if n !in numIdx {
        if !n.Finite? || n.r.Floor as real != n.r || n.r >= MAX_U30 || n.r < 0.0 {
          numbers := numbers + [n];
          numIdx := numIdx[n := |numbers|];
        } else {
          u30s := u30s + [n];
          numIdx := numIdx[n := |u30s|];
        }
      }
    }

    method PackString(s: seq<byte>)
      requires Valid()
      modifies this
      ensures Valid() && Content().Extends(old(Content()))
      ensures forall v :: Content().Has(v) <==> old(Content()).Has(v) || v == Str(s)
      ensures tables == old(tables)
    {
      if s !in stringIdx {
        strings := strings + [s];
        stringIdx := stringIdx[s := |strings|];
      }
    }

    ghost function Seen(): set<nat>
      reads this
    {
      set t | t in tables
    }

    method Enter(h: Heap, t: nat)
      requires t in h && t !in tableIdx
      requires Valid() && forall x :: x in tables ==> x in h
      modifies this
      ensures Valid() && tables == old(tables) + [t]
      ensures GrewFrom(h, Table(t), {t}, old(Content()), Content())
    {
      tables := tables + [t];
      tableIdx := tableIdx[t := |tables|];
      ReachSelf(h, Table(t));
    }

    method PackTable(h: Heap, ord: Order, t: nat)
      requires Closed(h) && Enumerates(h, ord) && t in h
      requires Valid() && forall x :: x in tables ==> x in h
      modifies this
      ensures Valid() && GrewFrom(h, Table(t), {}, old(Content()), Content())
      ensures t in tables && (t !in old(tables) ==> old(tables) + [t] <= tables)
      decreases h.Keys - Seen(), 0
    {
      if t in tableIdx { return; }
      ghost var was, keys := Content(), ord[t];
      Enter(h, t);
      var i := 0;
      while i < |ord[t]|
        invariant 0 <= i <= |ord[t]|
        invariant Valid() && was.tables + [t] <= tables && t in tables
        invariant GrewFrom(h, Table(t), {t}, was, Content())
        invariant Covers(Content(), h[t], keys, i)
      {
        ghost var c := Content();
        SeenGrew(h, was.tables, tables, t);
        PackEntry(h, ord, t, ord[t][i]);
        PackedMore(h, t, keys, i, was, c, Content());
        i := i + 1;
      }
      CoveredIsComplete(h, t, keys, was, Content());
    }

    /** The loop body: one key and its value. */
    method PackEntry(h: Heap, ord: Order, t: nat, k: Value)
      requires Closed(h) && Enumerates(h, ord) && t in h && k in h[t]
      requires Valid() && forall x :: x in tables ==> x in h
      modifies this
      ensures Valid() && GrewFrom(h, Table(t), {}, old(Content()), Content())
      ensures Content().Has(k) && Content().Has(h[t][k])
      decreases h.Keys - Seen(), 2
    {
      ghost var c := Content();
      Pack(h, ord, k);
      ghost var d := Content();
      Pack(h, ord, h[t][k]);
      HasExtends(d, Content(), k);
      GrewViaEdge(h, Table(t), k, c, d);
      GrewViaEdge(h, Table(t), h[t][k], d, Content());
      GrewTwice(h, Table(t), {}, c, d, Content());
    }

    method Pack(h: Heap, ord: Order, v: Value)
      requires Closed(h) && Enumerates(h, ord) && InHeap(h, v)
      requires Valid() && forall x :: x in tables ==> x in h
      modifies this
      ensures Valid() && GrewFrom(h, v, {}, old(Content()), Content()) && Content().Has(v)
      ensures v.Table? && v.id !in old(tables) ==> old(tables) + [v.id] <= tables
      decreases h.Keys - Seen(), 1
    {
      ReachSelf(h, v);
      match v
      case Table(t) => PackTable(h, ord, t);
      case Bool(_) =>
      case Str(s) => PackString(s);
      case Number(n) => PackNumber(n);
    }
  }

  /** If every listed table is complete, whatever is reachable from a collected root is collected. */
  lemma ReachableIsCollected(c: Collected, h: Heap, root: Value, v: Value)
    requires c.Has(root) && Reachable(h, root, v)
    requires forall t :: t in c.tables ==> t in h && c.Complete(h[t])
    ensures c.Has(v)
  {
    var p :| Path(h, p) && p[0] == root && p[|p| - 1] == v;
    ReachInvariant(h, p, x => c.Has(x), |p| - 1);
  }

  /** The walk ends on every finite graph, cyclic or not, and lists exactly what is reachable. */
  method Collect(h: Heap, ord: Order, root: Value) returns (c: Collected)
    requires Closed(h) && Enumerates(h, ord) && InHeap(h, root)
    ensures IsCollection(c, h, root) && forall t :: t in c.tables ==> t in h
  {
    var ctx := new Context();
    ctx.Pack(h, ord, root);
    c := ctx.Content();
    forall v | Reachable(h, root, v) ensures c.Has(v) {
      ReachableIsCollected(c, h, root, v);
    }
    assert root.Table? ==> ctx.tables[0] == root.id;
  }
}
