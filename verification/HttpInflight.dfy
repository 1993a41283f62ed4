/** http.c: the doubly linked list of in-flight requests and the references they hold. */
module HttpInflight {
  import opened Bytes

  /** ConnInfo. `lua` and `mainthread` say which of the two Lua states is known; they never change
      after the request starts. */
  class Conn {
    const lua: bool
    const mainthread: bool
    var prev: Conn?
    var next: Conn?
    var completed: bool

    constructor (lua: bool, mainthread: bool)
      ensures this.lua == lua && this.mainthread == mainthread && !completed
    {
      this.lua, this.mainthread, prev, next, completed := lua, mainthread, null, null, false;
    }
  }

  // ---------- the ledger ----------

  /** The requests in flight, newest first, those that are over, the resumes scheduled and the
      references taken on the event loop and not yet given back. */
  datatype Ledger = Ledger(live: seq<Conn>, over: set<Conn>, resumes: nat, refs: int)

  datatype Event = Start(conn: Conn) | Complete(conn: Conn) | Resume | Shutdown

  ghost function Without(s: seq<Conn>, c: Conn): seq<Conn> {
    if s == [] then [] else if s[0] == c then s[1..] else [s[0]] + Without(s[1..], c)
  }

  ghost function Step(l: Ledger, e: Event): Ledger {
    match e
    case Start(c) =>
      if c in l.live || c in l.over then l else l.(live := [c] + l.live, refs := l.refs + 1)
    case Complete(c) =>
      if c !in l.live then l
      else if c.lua then Ledger(Without(l.live, c), l.over + {c}, l.resumes + 1, l.refs)
      else Ledger(Without(l.live, c), l.over + {c}, l.resumes, l.refs - 1)
    case Resume => if l.resumes == 0 then l else l.(resumes := l.resumes - 1, refs := l.refs - 1)
    case Shutdown => Ledger([], l.over + (set c | c in l.live), l.resumes, l.refs - |l.live|)
  }

  ghost function Run(l: Ledger, es: seq<Event>): Ledger
    decreases |es|
  {
    if es == [] then l else Run(Step(l, es[0]), es[1..])
  }

  /** Every request is in flight once or over, and each reference has its holder. */
  ghost predicate Balanced(l: Ledger) {
    Distinct(l.live) && (forall c :: c in l.live ==> c !in l.over) && l.refs == |l.live| + l.resumes
  }

  lemma {:induction false} WithoutAt(s: seq<Conn>, i: nat)
    requires i < |s| && Distinct(s)
    ensures Without(s, s[i]) == s[..i] + s[i + 1..]
  {
    if i > 0 {
      assert s[0] != s[i];
      WithoutAt(s[1..], i - 1);
      assert s[1..][..i - 1] == s[1..i] && s[1..][i..] == s[i + 1..];
      assert s[..i] == [s[0]] + s[1..i];
    }
  }

  /** `Without` drops that one element and keeps the others in order. */
  lemma {:induction false} WithoutKeeps(s: seq<Conn>, c: Conn)
    requires Distinct(s) && c in s
    ensures Distinct(Without(s, c)) && |Without(s, c)| == |s| - 1
    ensures forall d :: d in Without(s, c) <==> d in s && d != c
  {
    if s[0] == c {
      assert s == [c] + s[1..];
    } else {
      WithoutKeeps(s[1..], c);
      assert s == [s[0]] + s[1..] && s[0] !in s[1..];
    }
  }

  lemma StepBalances(l: Ledger, e: Event)
    requires Balanced(l)
    ensures Balanced(Step(l, e))
  {
    if e.Complete? && e.conn in l.live {
      WithoutKeeps(l.live, e.conn);
    }
  }

  /** Over every run, and after a shutdown and the resumes still due nothing is held. */
  lemma {:induction false} EveryRun(l: Ledger, es: seq<Event>)
    requires Balanced(l)
    ensures Balanced(Run(l, es))
    ensures var m := Step(Run(l, es), Shutdown); m.live == [] && m.refs == m.resumes
    decreases |es|
  {
    if es != [] {
      StepBalances(l, es[0]);
      EveryRun(Step(l, es[0]), es[1..]);
    }
  }

  // ---------- the list ----------

  ghost function At(s: seq<Conn>, i: int): Conn? { if 0 <= i < |s| then s[i] else null }

  ghost predicate LinkedAt(s: seq<Conn>, j: nat)
    reads s
  {
    j < |s| ==> s[j].prev == At(s, j - 1) && s[j].next == At(s, j + 1)
  }

  /** What the two writes of inflight_remove leave at another node than the `i`th. */
  ghost predicate Bypassed(s: seq<Conn>, i: nat, j: nat)
    reads s
  {
    j < |s| && j != i ==>
      && s[j].prev == At(s, if j == i + 1 then i - 1 else j - 1)
      && s[j].next == At(s, if j == i - 1 then i + 1 else j + 1)
  }

  /** The list with the `i`th node cut out, seen through the old positions. */
  lemma AtCut(s: seq<Conn>, i: nat, j: int)
    requires i < |s|
    ensures At(s[..i] + s[i + 1..], j) == At(s, if j < i then j else j + 1)
  {}

  lemma Relinked(s: seq<Conn>, i: nat, j: nat)
    requires i < |s| && j < |s| - 1 && Bypassed(s, i, if j < i then j else j + 1)
    ensures LinkedAt(s[..i] + s[i + 1..], j)
  {
    AtCut(s, i, j - 1);
    AtCut(s, i, j + 1);
  }

  /** Once its neighbours bypass a node, the others are linked. */
  lemma CutIsLinked(s: seq<Conn>, i: nat)
    requires i < |s| && Distinct(s) && forall j: nat :: Bypassed(s, i, j)
    ensures var r := Without(s, s[i]);
      Distinct(r) && At(r, 0) == At(s, if i == 0 then 1 else 0) && forall j: nat :: LinkedAt(r, j)
  {
    WithoutAt(s, i);
    WithoutKeeps(s, s[i]);
    AtCut(s, i, 0);
    var r := Without(s, s[i]);
    forall j: nat ensures LinkedAt(r, j) {
      if j < |r| { Relinked(s, i, j); }
    }
  }

  /** inflight_head with what hangs off it. */
  class Inflight {
    var head: Conn?
    var resumes: nat
    var refs: int
    ghost var spine: seq<Conn>
    ghost var over: set<Conn>

    ghost function State(): Ledger
      reads this
    {
      Ledger(spine, over, resumes, refs)
    }

    ghost predicate Linked()
      reads this, spine
    {
      Distinct(spine) && head == At(spine, 0) && forall j: nat :: LinkedAt(spine, j)
    }

    /** A completed connection is over, one in flight is not completed. */
    ghost predicate Valid()
      reads this, spine, over
    {
      && Linked() && Balanced(State())
      && (forall c :: c in spine ==> !c.completed && (c.lua || c.mainthread))
      && (forall c :: c in over ==> c.completed)
    }

    constructor ()
      ensures Valid() && State() == Ledger([], {}, 0, 0)
    {
      head, resumes, refs, spine, over := null, 0, 0, [], {};
    }

    /** inflight_add */
    method Add(conn: Conn)
      requires Linked() && conn !in spine
      modifies this`head, this`spine, spine`prev, conn`prev, conn`next
      ensures Linked() && spine == [conn] + old(spine)
    {
      conn.prev := null;
      conn.next := head;
      if head != null { head.prev := conn; }
      head := conn;
      ghost var s := spine;
      spine := [conn] + s;
      forall j: nat ensures LinkedAt(spine, j) {
        if 0 < j < |spine| { assert old(LinkedAt(s, j - 1)); }
      }
    }

    /** The pointer writes of inflight_remove: the neighbours bypass the connection. */
    method Unlink(conn: Conn, ghost i: nat)
      requires Linked() && i < |spine| && spine[i] == conn
      modifies this`head, spine`prev, spine`next
      ensures conn.prev == null && conn.next == null && head == At(spine, if i == 0 then 1 else 0)
      ensures forall j: nat :: Bypassed(spine, i, j)
    {
      ghost var s := spine;
      assert LinkedAt(s, i) && (i > 0 ==> LinkedAt(s, i - 1)) && LinkedAt(s, i + 1);
      if conn.prev != null { conn.prev.next := conn.next; } else { head := conn.next; }
      if conn.next != null { conn.next.prev := conn.prev; }
      conn.prev := null;
      conn.next := null;
      forall j: nat ensures Bypassed(s, i, j) { assert old(LinkedAt(s, j)); }
    }

    /** inflight_remove */
    method Remove(conn: Conn)
      requires Linked() && conn in spine
      modifies this`head, this`spine, spine`prev, spine`next
      ensures Linked() && spine == Without(old(spine), conn)
      ensures conn.prev == null && conn.next == null
    {
      ghost var i :| 0 <= i < |spine| && spine[i] == conn;
      ghost var s := spine;
      Unlink(conn, i);
      CutIsLinked(s, i);
      spine := Without(s, conn);
    }

    /** The end of a successful request call: http.c allocates the connection there. */
    method Start(conn: Conn)
      requires Valid() && conn !in spine && conn !in over && !conn.completed && (conn.lua || conn.mainthread)
      modifies this, spine, conn
      ensures Valid() && State() == Step(old(State()), Event.Start(conn))
    {
      Add(conn);
      refs := refs + 1;
    }

    /** http_getpost_complete: a second call finds the flag set and does nothing. */
    method Complete(conn: Conn)
      requires Valid() && (conn in spine || conn in over)
      modifies this, spine, conn
      ensures Valid() && State() == Step(old(State()), Event.Complete(conn))
      ensures conn.completed
    {
      StepBalances(State(), Event.Complete(conn));
      if conn.completed { return; }
      ghost var s := spine;
      conn.completed := true;
      forall j: nat ensures LinkedAt(spine, j) { assert old(LinkedAt(spine, j)); }
      Remove(conn);
      WithoutKeeps(s, conn);
      over := over + {conn};
      if !conn.lua {
        if conn.mainthread { refs := refs - 1; }
        return;
      }
      resumes := resumes + 1;
    }

    /** resume_cb, when a scheduled timer fires */
    method Resume()
      requires Valid() && resumes > 0
      modifies this
      ensures Valid() && State() == Step(old(State()), Event.Resume)
    {
      resumes := resumes - 1;
      refs := refs - 1;
    }

    /** One round of the drain: the head is taken off and gives its reference back. */
    method Drop(conn: Conn)
      requires Linked() && spine != [] && conn == spine[0]
      requires forall c :: c in spine ==> !c.completed && (c.lua || c.mainthread)
      modifies this`head, this`spine, this`over, this`refs, spine
      ensures Linked() && spine == old(spine)[1..] && over == old(over) + {conn} && refs == old(refs) - 1
      ensures conn.completed && forall c :: c in spine ==> !c.completed
      ensures forall c :: c in old(over) && c !in old(spine) ==> c.completed == old(c.completed)
    {
      ghost var s := spine;
      Remove(conn);
      if !conn.completed {
        conn.completed := true;
        if conn.mainthread || conn.lua { refs := refs - 1; }
      }
      over := over + {conn};
      assert spine == s[1..] && conn !in spine;
    }

    /** cleanup_http_curl: drains the list from its head. */
    method Shutdown()
      requires Valid()
      modifies this, spine
      ensures Valid() && State() == Step(old(State()), Event.Shutdown)
    {
      ghost var s, k := spine, 0;
      while head != null
        invariant 0 <= k <= |s| && spine == s[k..] && Linked()
        invariant over == old(over) + (set c | c in s[..k]) && refs == old(refs) - k && resumes == old(resumes)
        invariant forall c :: c in spine ==> !c.completed
        invariant forall c :: c in over ==> c.completed
        decreases |s| - k
      {
        Drop(head);
        assert s[..k + 1] == s[..k] + [s[k]];
        k := k + 1;
      }
      assert s[..k] == s;
    }
  }
}
