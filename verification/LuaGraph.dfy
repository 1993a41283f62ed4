/** Lua values as the serializers see them: atoms, and tables held by identity in a heap. */
module LuaGraph {
  import opened Bytes

  /** Numbers are compared by value, so the two zeros are one; NaN cannot be a key. */
  datatype Num = Finite(r: real) | PosInf | NegInf

  datatype Value = Bool(b: bool) | Number(n: Num) | Str(s: seq<byte>) | Table(id: nat)

  type LuaTable = map<Value, Value>
  type Heap = map<nat, LuaTable>

  /** The order in which `lua_next` walks the keys of each table. */
  type Order = map<nat, seq<Value>>

  ghost predicate InHeap(h: Heap, v: Value) { v.Table? ==> v.id in h }

  ghost predicate Closed(h: Heap) {
    forall t, k :: t in h && k in h[t] ==> InHeap(h, k) && InHeap(h, h[t][k])
  }

  ghost predicate Enumerates(h: Heap, ord: Order) {
    && ord.Keys == h.Keys
    && forall t :: t in h ==> Lists(ord[t], h[t])
  }

  ghost predicate Lists(keys: seq<Value>, t: LuaTable) {
    Distinct(keys) && forall k :: k in keys <==> k in t
  }

  function Int(i: int): Value { Number(Finite(i as real)) }

  // ---------- reachability ----------

  /** `v` is a key or a value of the table `u`. */
  ghost predicate Edge(h: Heap, u: Value, v: Value) {
    u.Table? && u.id in h && (v in h[u.id] || exists k :: k in h[u.id] && h[u.id][k] == v)
  }

  ghost predicate Path(h: Heap, p: seq<Value>) {
    |p| > 0 && forall i :: 0 <= i < |p| - 1 ==> Edge(h, p[i], p[i + 1])
  }

  ghost predicate Reachable(h: Heap, root: Value, v: Value) {
    exists p :: Path(h, p) && p[0] == root && p[|p| - 1] == v
  }

  lemma ReachSelf(h: Heap, v: Value)
    ensures Reachable(h, v, v)
  {
    assert Path(h, [v]);
  }

  lemma ReachThrough(h: Heap, u: Value, v: Value, w: Value)
    requires Edge(h, u, v) && Reachable(h, v, w)
    ensures Reachable(h, u, w)
  {
    var p :| Path(h, p) && p[0] == v && p[|p| - 1] == w;
    var q := [u] + p;
    assert forall i :: 0 < i < |q| - 1 ==> q[i] == p[i - 1] && q[i + 1] == p[i];
    assert Path(h, q);
  }

  /** A property of the root that every edge carries along holds of everything reachable. */
  lemma {:induction false} ReachInvariant(h: Heap, p: seq<Value>, inv: Value -> bool, i: nat)
    requires Path(h, p) && inv(p[0]) && i < |p|
    requires forall u, v :: inv(u) && Edge(h, u, v) ==> inv(v)
    ensures inv(p[i])
  {
    if i > 0 { ReachInvariant(h, p, inv, i - 1); }
  }
}
