/** The decoded graph is isomorphic to the encoded one, and exactly when. */
module ObjectIso {
  import opened Bytes
  import opened LuaGraph
  import opened Packer
  import opened ObjectFormat
  import opened ObjectRoundTrip

  // ---------- isomorphism, stated without the codec ----------

  function Image(f: map<nat, nat>, v: Value): Value {
    if v.Table? && v.id in f then Table(f[v.id]) else v
  }

  /** `u` has exactly the entries of `t`, with tables carried along `f`. */
  ghost predicate SameEntries(f: map<nat, nat>, t: LuaTable, u: LuaTable) {
    && (forall k :: k in t ==> Image(f, k) in u && u[Image(f, k)] == Image(f, t[k]))
    && (forall x :: x in u ==> exists k :: k in t && Image(f, k) == x)
  }

  ghost predicate Hit(f: map<nat, nat>, i: nat) { exists t :: t in f && f[t] == i }

  /** `f` is one to one, onto the numbers below `n`. */
  ghost predicate OneToOne(f: map<nat, nat>, n: nat) {
    && (forall t :: t in f ==> f[t] < n)
    && (forall t, u :: t in f && u in f && f[t] == f[u] ==> t == u)
    && (forall i: nat :: i < n ==> Hit(f, i))
  }

  /** `f` carries the tables reachable from `root` one to one onto those of `g`: same atoms,
      same entries, same sharing, root to root. */
  ghost predicate IsoBy(h: Heap, root: Value, g: Graph, f: map<nat, nat>) {
    && (forall t :: t in f <==> Reachable(h, root, Table(t)))
    && OneToOne(f, |g.tables|)
    && g.root == Some(Image(f, root))
    && (forall t :: t in f ==> t in h && SameEntries(f, h[t], g.tables[f[t]]))
  }

  ghost predicate Isomorphic(h: Heap, root: Value, g: Graph) { exists f :: IsoBy(h, root, g, f) }

  /** No reachable table has a string key that Lua reads as an index of its array part. */
  ghost predicate NoIndexLikeKeys(env: Env, h: Heap, root: Value) {
    forall t :: t in h && Reachable(h, root, Table(t)) ==> Dropped(env, h[t]) == {}
  }

  // ---------- from the collection to the hypotheses of the codec ----------

  /** Counts, indices, strings and bodies below 2^32, and doubles whose eight bytes read back. */
  ghost predicate SizesFit(env: Env, c: Collected, s: Sym, h: Heap, ord: Order)
    requires forall t :: t in c.tables ==> t in h && t in ord
  {
    && AtomsFit(env, c, s)
    && forall t :: t in c.tables ==> ArrayLen(h[t]) < U32 && |BodyBytes(env, DictOf(c, s), h[t], ord[t])| < U32
  }

  lemma {:induction false} ReachStep(h: Heap, root: Value, u: Value, v: Value)
    requires Reachable(h, root, u) && Edge(h, u, v)
    ensures Reachable(h, root, v)
  {
    var p :| Path(h, p) && p[0] == root && p[|p| - 1] == u;
    var q := p + [v];
    forall i | 0 <= i < |q| - 1 ensures Edge(h, q[i], q[i + 1]) {
      if i < |p| - 1 { assert Edge(h, p[i], p[i + 1]); }
    }
    assert Path(h, q);
  }

  lemma CollectionComplete(c: Collected, h: Heap, root: Value, t: nat)
    requires IsCollection(c, h, root) && t in c.tables && t in h
    ensures c.Complete(h[t])
  {
    assert c.Has(Table(t));
    forall k | k in h[t] ensures c.Has(k) && c.Has(h[t][k]) {
      ReachStep(h, root, Table(t), k);
      ReachStep(h, root, Table(t), h[t][k]);
    }
  }

  lemma CollectionFits(env: Env, c: Collected, s: Sym, h: Heap, ord: Order, root: Value)
    requires Closed(h) && Enumerates(h, ord) && InHeap(h, root) && IsCollection(c, h, root)
    requires forall t :: t in c.tables ==> t in h
    requires SizesFit(env, c, s, h, ord)
    ensures Fits(env, c, s, h, ord)
  {
    forall t | t in c.tables ensures TableFits(env, DictOf(c, s), h[t], ord[t]) {
      CollectionComplete(c, h, root, t);
      CollectedIsKnown(c, s, h[t]);
    }
  }

  // ---------- tables ----------

  lemma {:induction false} IndexOfAt<T>(xs: seq<T>, i: nat)
    requires Distinct(xs) && i < |xs|
    ensures IndexOf(xs, xs[i]) == i
  {
    assert xs[IndexOf(xs, xs[i])] == xs[i];
  }

  /** Each table to its position in the walk. */
  ghost function Walk(ts: seq<nat>): map<nat, nat> { map t | t in ts :: IndexOf(ts, t) }

  lemma WalkOneToOne(ts: seq<nat>)
    requires Distinct(ts)
    ensures OneToOne(Walk(ts), |ts|)
  {
    forall i: nat | i < |ts| ensures Hit(Walk(ts), i) {
      IndexOfAt(ts, i);
      assert ts[i] in Walk(ts);
    }
  }

  lemma WalkIsRename(ts: seq<nat>, v: Value)
    requires Listable(ts, v)
    ensures Image(Walk(ts), v) == Rename(ts, v)
  {}

  lemma RenamedIsSame(c: Collected, t: LuaTable, u: LuaTable)
    requires c.Complete(t) && Renamed(c.tables, t, u, t.Keys)
    ensures SameEntries(Walk(c.tables), t, u)
  {
    forall k | k in t ensures Image(Walk(c.tables), k) == Rename(c.tables, k)
                           && Image(Walk(c.tables), t[k]) == Rename(c.tables, t[k]) {
      WalkIsRename(c.tables, k);
      WalkIsRename(c.tables, t[k]);
    }
  }

  lemma CollectedTables(c: Collected, h: Heap, root: Value)
    requires IsCollection(c, h, root)
    ensures forall t :: t in Walk(c.tables) <==> Reachable(h, root, Table(t))
  {
    forall t ensures t in c.tables <==> Reachable(h, root, Table(t)) {
      assert c.Has(Table(t)) <==> t in c.tables;
    }
  }

  lemma TableSame(env: Env, c: Collected, h: Heap, root: Value, us: seq<LuaTable>, t: nat)
    requires IsCollection(c, h, root) && t in c.tables && t in h
    requires RenamedTables(env, c.tables, h, c.tables, us) && Dropped(env, h[t]) == {}
    ensures SameEntries(Walk(c.tables), h[t], us[IndexOf(c.tables, t)])
  {
    CollectionComplete(c, h, root, t);
    assert h[t].Keys - {} == h[t].Keys;
    RenamedIsSame(c, h[t], us[IndexOf(c.tables, t)]);
  }

  /** Renaming along the walk order is an isomorphism when nothing was dropped. */
  lemma RenamedIsIso(env: Env, c: Collected, h: Heap, root: Value, us: seq<LuaTable>)
    requires IsCollection(c, h, root) && root.Table? && forall t :: t in c.tables ==> t in h
    requires RenamedTables(env, c.tables, h, c.tables, us)
    requires forall t :: t in c.tables ==> Dropped(env, h[t]) == {}
    ensures Isomorphic(h, root, Graph(us, Some(Table(0))))
  {
    var f := Walk(c.tables);
    CollectedTables(c, h, root);
    WalkOneToOne(c.tables);
    forall t | t in f ensures t in h && SameEntries(f, h[t], us[f[t]]) {
      TableSame(env, c, h, root, us, t);
    }
    IndexOfAt(c.tables, 0);
    IsoIntro(h, root, Graph(us, Some(Table(0))), f);
  }

  lemma IsoIntro(h: Heap, root: Value, g: Graph, f: map<nat, nat>)
    requires forall t :: t in f <==> Reachable(h, root, Table(t))
    requires OneToOne(f, |g.tables|) && g.root == Some(Image(f, root))
    requires forall t :: t in f ==> t in h && SameEntries(f, h[t], g.tables[f[t]])
    ensures Isomorphic(h, root, g)
  {
    assert IsoBy(h, root, g, f);
  }

  // ---------- a dropped key leaves too few entries for any isomorphism ----------

  lemma {:induction false} Injection<A, B>(a: set<A>, b: set<B>, g: map<A, B>)
    requires forall x :: x in a ==> x in g && g[x] in b
    requires forall x, y :: x in a && y in a && g[x] == g[y] ==> x == y
    ensures |a| <= |b|
    decreases a
  {
    if a != {} {
      var x :| x in a;
      Injection(a - {x}, b - {g[x]}, g);
    }
  }

  ghost function Entries(h: Heap, ts: seq<nat>): set<(nat, Value)> {
    set t, k | t in ts && t in h && k in h[t] :: (t, k)
  }

  ghost function NewEntries(us: seq<LuaTable>): set<(nat, Value)> {
    set i, k | 0 <= i < |us| && k in us[i] :: (i, k)
  }

  /** Where an isomorphism sends an entry. */
  ghost function Moved(h: Heap, ts: seq<nat>, root: Value, g: Graph, f: map<nat, nat>,
      e: (nat, Value)): (o: (nat, Value))
    requires IsoBy(h, root, g, f) && e in Entries(h, ts) && e.0 in f
    ensures o in NewEntries(g.tables)
  {
    assert SameEntries(f, h[e.0], g.tables[f[e.0]]);
    (f[e.0], Image(f, e.1))
  }

  lemma EntriesApart(h: Heap, root: Value, g: Graph, f: map<nat, nat>, d: (nat, Value), e: (nat, Value))
    requires IsoBy(h, root, g, f) && d.0 in f && e.0 in f && d.1 in h[d.0] && e.1 in h[e.0]
    requires (f[d.0], Image(f, d.1)) == (f[e.0], Image(f, e.1))
    ensures d == e
  {
    KeyMapped(h, root, g, f, d.0, d.1);
    KeyMapped(h, root, g, f, e.0, e.1);
  }

  lemma IsoKeepsEntries(h: Heap, ts: seq<nat>, root: Value, g: Graph, f: map<nat, nat>)
    requires IsoBy(h, root, g, f) && forall t :: t in ts ==> t in f
    ensures |Entries(h, ts)| <= |NewEntries(g.tables)|
  {
    var all := Entries(h, ts);
    var m := map e | e in all :: Moved(h, ts, root, g, f, e);
    forall d, e | d in all && e in all && m[d] == m[e] ensures d == e {
      EntriesApart(h, root, g, f, d, e);
    }
    Injection(all, NewEntries(g.tables), m);
  }

  lemma KeyMapped(h: Heap, root: Value, g: Graph, f: map<nat, nat>, t: nat, k: Value)
    requires IsoBy(h, root, g, f) && t in f && t in h && k in h[t]
    ensures k.Table? ==> k.id in f
  {
    ReachStep(h, root, Table(t), k);
    if k.Table? { assert Reachable(h, root, Table(k.id)); }
  }

  /** Where an entry of a decoded table came from. */
  ghost function Origin(env: Env, ts: seq<nat>, h: Heap, us: seq<LuaTable>, e: (nat, Value)): (o: (nat, Value))
    requires RenamedTables(env, ts, h, ts, us) && e in NewEntries(us)
    ensures o in Entries(h, ts) && o.1 !in Dropped(env, h[o.0])
    ensures o.0 == ts[e.0] && Rename(ts, o.1) == e.1
  {
    var t := h[ts[e.0]];
    assert Renamed(ts, t, us[e.0], t.Keys - Dropped(env, t));
    var k :| k in t.Keys - Dropped(env, t) && Rename(ts, k) == e.1;
    (ts[e.0], k)
  }

  lemma DropLosesEntries(env: Env, ts: seq<nat>, h: Heap, us: seq<LuaTable>, t: nat, k: Value)
    requires Distinct(ts) && RenamedTables(env, ts, h, ts, us)
    requires t in ts && t in h && k in Dropped(env, h[t])
    ensures |NewEntries(us)| < |Entries(h, ts)|
  {
    var some, rest := NewEntries(us), Entries(h, ts) - {(t, k)};
    var m := map e | e in some :: Origin(env, ts, h, us, e);
    assert (t, k) in Entries(h, ts);
    assert forall e :: e in some ==> m[e] in rest;
    Injection(some, rest, m);
  }

  // ---------- the main results ----------

  /** For every table graph, sharing and cycles included, and every key order and dictionary:
      the decoded graph is isomorphic to the encoded one if and only if no reachable table has
      a string key that Lua reads as an index of its array part. */
  lemma RoundTrip(env: Env, c: Collected, s: Sym, h: Heap, ord: Order, root: Value)
    requires Closed(h) && Enumerates(h, ord) && InHeap(h, root) && root.Table?
    requires ValidSym(s) && IsCollection(c, h, root) && forall t :: t in c.tables ==> t in h
    requires SizesFit(env, c, s, h, ord)
    ensures var r := Decode(env, s, Message(env, c, s, h, ord));
      r.Ok? && (Isomorphic(h, root, r.value) <==> NoIndexLikeKeys(env, h, root))
  {
    var us := DecodedTables(env, c, s, h, ord, root);
    IsoIff(env, c, h, root, us);
  }

  lemma IsoIff(env: Env, c: Collected, h: Heap, root: Value, us: seq<LuaTable>)
    requires IsCollection(c, h, root) && root.Table? && forall t :: t in c.tables ==> t in h
    requires RenamedTables(env, c.tables, h, c.tables, us)
    ensures Isomorphic(h, root, Graph(us, Some(Table(0)))) <==> NoIndexLikeKeys(env, h, root)
  {
    if t :| t in c.tables && Dropped(env, h[t]) != {} {
      NotIsomorphic(env, c, h, root, Graph(us, Some(Table(0))), t);
      assert c.Has(Table(t));
    } else {
      RenamedIsIso(env, c, h, root, us);
      NothingDropped(env, c, h, root);
    }
  }

  lemma NothingDropped(env: Env, c: Collected, h: Heap, root: Value)
    requires IsCollection(c, h, root) && forall t :: t in c.tables ==> t in h && Dropped(env, h[t]) == {}
    ensures NoIndexLikeKeys(env, h, root)
  {
    forall t | t in h && Reachable(h, root, Table(t)) ensures Dropped(env, h[t]) == {} {
      assert c.Has(Table(t));
    }
  }

  lemma NotIsomorphic(env: Env, c: Collected, h: Heap, root: Value, g: Graph, t: nat)
    requires IsCollection(c, h, root) && RenamedTables(env, c.tables, h, c.tables, g.tables)
    requires t in c.tables && t in h && Dropped(env, h[t]) != {}
    ensures !Isomorphic(h, root, g)
  {
    var k :| k in Dropped(env, h[t]);
    DropLosesEntries(env, c.tables, h, g.tables, t, k);
    forall x | x in c.tables ensures Reachable(h, root, Table(x)) { assert c.Has(Table(x)); }
    forall f ensures !IsoBy(h, root, g, f) { NotIsoBy(h, c.tables, root, g, f); }
  }

  lemma NotIsoBy(h: Heap, ts: seq<nat>, root: Value, g: Graph, f: map<nat, nat>)
    requires |NewEntries(g.tables)| < |Entries(h, ts)| && forall t :: t in ts ==> Reachable(h, root, Table(t))
    ensures !IsoBy(h, root, g, f)
  {
    if IsoBy(h, root, g, f) { IsoKeepsEntries(h, ts, root, g, f); }
  }

  /** The decoded tables are the collected ones, renamed in walk order, whatever keys are lost. */
  lemma DecodedTables(env: Env, c: Collected, s: Sym, h: Heap, ord: Order, root: Value) returns (us: seq<LuaTable>)
    requires Closed(h) && Enumerates(h, ord) && InHeap(h, root) && root.Table?
    requires ValidSym(s) && IsCollection(c, h, root) && forall t :: t in c.tables ==> t in h
    requires SizesFit(env, c, s, h, ord)
    ensures RenamedTables(env, c.tables, h, c.tables, us)
    ensures Decode(env, s, Message(env, c, s, h, ord)) == Ok(Graph(us, Some(Table(0))))
  {
    CollectionFits(env, c, s, h, ord, root);
    FlagBits(c);
    us := MessageRoundTrip(env, c, s, h, ord);
    ResolveTable(s, Atoms(c, s), |c.tables|, 0);
  }
}
