/** tcpd.c, tcpd_server.c, tcpd_event.c: who may touch and who frees a connection's bufferevent,
    with any number of threads interleaved step by step. */
module TcpHandover {
  import opened Bytes

  type Tid = nat

  /** Where a thread is. The take-over of the bufferevent is the same code in the event callback
      (`closing` is false) and in the base cleanup (`closing` is true). `own` says that the thread
      read a bufferevent there, `fire` that it took the callback away and will run it. */
  datatype Pc =
    // send: everything under buf_mutex, `left` touches of the bufferevent to go
    | SendLock | SendCheck | SendUse(left: nat) | SendUnlock
    // the take-over
    | TakeLock(closing: bool) | TakeRead(closing: bool) | TakeNull(closing: bool, own: bool)
    | TakeUnlock(closing: bool, own: bool) | TakeFree(closing: bool, own: bool)
    // the disconnect callback
    | EventPeek | EventThread | EventLuaLock | EventRecheck | EventClear
    | EventLuaUnlock(fire: bool) | EventFire(fire: bool)
    // the compare-and-swap guard and the rest of the base cleanup
    | CloseSwap | ClosePeek | CloseLuaLock | CloseClear | CloseLuaUnlock | CloseForget
    | Done

  /** The connection: the bufferevent field, both locks, the callback reference and the guard,
      with counts of what must happen at most once. */
  datatype Conn = Conn(buf: bool, mutex: Option<Tid>, lua: Option<Tid>, ref: bool, mainthread: bool, cleanedUp: bool,
                       freed: nat, fired: nat, bodies: nat, misused: bool)

  datatype World = World(c: Conn, pc: map<Tid, Pc>)

  // ---------- one thread, one step ----------

  predicate IsSend(pc: Pc) { pc.SendLock? || pc.SendCheck? || pc.SendUse? || pc.SendUnlock? }

  predicate IsTake(pc: Pc) { pc.TakeLock? || pc.TakeRead? || pc.TakeNull? || pc.TakeUnlock? || pc.TakeFree? }

  predicate IsEvent(pc: Pc) {
    || pc.EventPeek? || pc.EventThread? || pc.EventLuaLock? || pc.EventRecheck? || pc.EventClear?
    || pc.EventLuaUnlock? || pc.EventFire?
  }

  predicate IsClose(pc: Pc) { !IsSend(pc) && !IsTake(pc) && !IsEvent(pc) }

  /** tcpd_conn_send, tcpd_accept_send: set the timeouts, write, read the output length */
  function MoveSend(c: Conn, t: Tid, pc: Pc): (Conn, Pc)
    requires IsSend(pc)
  {
    match pc
    case SendLock => if c.mutex == None then (c.(mutex := Some(t)), SendCheck) else (c, pc)
    case SendCheck => (c, if c.buf then SendUse(2) else SendUnlock)
    case SendUse(left) =>
      (c.(misused := c.misused || !c.buf || c.freed > 0), if left == 0 then SendUnlock else SendUse(left - 1))
    case SendUnlock => (c.(mutex := None), Done)
  }

  /** Read the pointer and clear it under the mutex, free it outside */
  function MoveTake(c: Conn, t: Tid, pc: Pc): (Conn, Pc)
    requires IsTake(pc)
  {
    match pc
    case TakeLock(k) => if c.mutex == None then (c.(mutex := Some(t)), TakeRead(k)) else (c, pc)
    case TakeRead(k) => (c, TakeNull(k, c.buf))
    case TakeNull(k, own) => (c.(buf := false), TakeUnlock(k, own))
    case TakeUnlock(k, own) => (c.(mutex := None), TakeFree(k, own))
    case TakeFree(k, own) => (if own then c.(freed := c.freed + 1) else c, if k then ClosePeek else EventPeek)
  }

  /** tcpd_common_eventcb, the disconnect callback: looked at without the lock, again with it */
  function MoveEvent(c: Conn, t: Tid, pc: Pc): (Conn, Pc)
    requires IsEvent(pc)
  {
    match pc
    case EventPeek => (c, if c.ref then EventThread else CloseSwap)
    case EventThread => (c, if c.mainthread then EventLuaLock else CloseSwap)
    case EventLuaLock => if c.lua == None then (c.(lua := Some(t)), EventRecheck) else (c, pc)
    case EventRecheck => (c, if c.ref then EventClear else EventLuaUnlock(false))
    case EventClear => (c.(ref := false), EventLuaUnlock(true))
    case EventLuaUnlock(fire) => (c.(lua := None), EventFire(fire))
    case EventFire(fire) => (if fire then c.(fired := c.fired + 1) else c, CloseSwap)
  }

  /** The compare-and-swap guard and, past the take-over, tcpd_base_conn_cleanup */
  function MoveClose(c: Conn, t: Tid, pc: Pc): (Conn, Pc)
    requires IsClose(pc)
  {
    match pc
    case CloseSwap =>
      if c.cleanedUp then (c, Done) else (c.(cleanedUp := true, bodies := c.bodies + 1), TakeLock(true))
    case ClosePeek => (c, if c.mainthread then CloseLuaLock else CloseForget)
    case CloseLuaLock => if c.lua == None then (c.(lua := Some(t)), CloseClear) else (c, pc)
    case CloseClear => (c.(ref := false), CloseLuaUnlock)
    case CloseLuaUnlock => (c.(lua := None), CloseForget)
    case CloseForget => (c.(mainthread := false), Done)
    case Done => (c, Done)
  }

  /** The shared state and program counter after thread `t` moves; a blocked thread stays. */
  function Move(c: Conn, t: Tid, pc: Pc): (Conn, Pc) {
    if IsSend(pc) then MoveSend(c, t, pc)
    else if IsTake(pc) then MoveTake(c, t, pc)
    else if IsEvent(pc) then MoveEvent(c, t, pc)
    else MoveClose(c, t, pc)
  }

  datatype Step = Spawn(t: Tid, entry: Pc) | Run(t: Tid)

  /** A send, a disconnect event, and an explicit close or a garbage collection */
  predicate IsEntry(pc: Pc) { pc == SendLock || pc == TakeLock(false) || pc == CloseSwap }

  function Next(w: World, s: Step): World {
    match s
    case Spawn(t, entry) => if t in w.pc || !IsEntry(entry) then w else w.(pc := w.pc[t := entry])
    case Run(t) =>
      if t !in w.pc then w else
      var (c, pc) := Move(w.c, t, w.pc[t]);
      World(c, w.pc[t := pc])
  }

  function Trace(w: World, steps: seq<Step>): World
    decreases |steps|
  {
    if steps == [] then w else Trace(Next(w, steps[0]), steps[1..])
  }

  // ---------- what every step keeps ----------

  /** What a thread holds at a program point: either lock, what it read of the bufferevent field
      and of the callback under its lock, the bufferevent itself, the callback itself, and the
      right to run the cleanup body. */
  datatype Claims = Claims(mutex: bool, lua: bool, saw: Option<bool>, sawRef: bool, owns: bool, fires: bool, cleans: bool)

  const NOTHING := Claims(false, false, None, false, false, false, false)
  const CLEANS := NOTHING.(cleans := true)

  function Claim(pc: Pc): Claims {
    match pc
    case SendCheck => NOTHING.(mutex := true)
    case SendUse(_) => NOTHING.(mutex := true, saw := Some(true))
    case SendUnlock => NOTHING.(mutex := true)
    case TakeLock(k) => NOTHING.(cleans := k)
    case TakeRead(k) => NOTHING.(mutex := true, cleans := k)
    case TakeNull(k, own) => NOTHING.(mutex := true, saw := Some(own), cleans := k)
    case TakeUnlock(k, own) => NOTHING.(mutex := true, owns := own, cleans := k)
    case TakeFree(k, own) => NOTHING.(owns := own, cleans := k)
    case EventRecheck => NOTHING.(lua := true)
    case EventClear => NOTHING.(lua := true, sawRef := true)
    case EventLuaUnlock(fire) => NOTHING.(lua := true, fires := fire)
    case EventFire(fire) => NOTHING.(fires := fire)
    case ClosePeek => CLEANS
    case CloseLuaLock => CLEANS
    case CloseClear => CLEANS.(lua := true)
    case CloseLuaUnlock => CLEANS.(lua := true)
    case CloseForget => CLEANS
    case _ => NOTHING
  }

  /** The thread `t` may hold what it holds, given the connection. */
  ghost predicate At(c: Conn, t: Tid, k: Claims) {
    && (k.mutex <==> c.mutex == Some(t))
    && (k.lua <==> c.lua == Some(t))
    && (k.saw.Some? ==> k.mutex && k.saw.value == c.buf)
    && (k.sawRef ==> k.lua && c.ref)
    && (k.owns ==> !c.buf && c.freed == 0)
    && (k.fires ==> !c.ref && c.fired == 0)
    && (k.cleans ==> c.cleanedUp)
  }

  ghost predicate ConnOk(c: Conn) {
    && c.freed <= 1 && (c.buf ==> c.freed == 0)
    && c.fired <= 1 && (c.ref ==> c.fired == 0)
    && c.bodies == (if c.cleanedUp then 1 else 0)
    && !c.misused
  }

  /** Two different threads never both own the bufferevent, hold the callback or clean up. */
  ghost predicate Apart(p: Claims, q: Claims) {
    !(p.owns && q.owns) && !(p.fires && q.fires) && !(p.cleans && q.cleans)
  }

  ghost predicate Inv(w: World) {
    && ConnOk(w.c)
    && (forall t :: t in w.pc ==> At(w.c, t, Claim(w.pc[t])))
    && (forall t, u :: t in w.pc && u in w.pc && t != u ==> Apart(Claim(w.pc[t]), Claim(w.pc[u])))
    && (w.c.mutex.Some? ==> w.c.mutex.value in w.pc) && (w.c.lua.Some? ==> w.c.lua.value in w.pc)
  }

  ghost predicate SelfOk(c: Conn, t: Tid, d: Conn, q: Claims) {
    && ConnOk(d) && At(d, t, q)
    && (d.mutex == c.mutex || d.mutex == None || d.mutex == Some(t))
    && (d.lua == c.lua || d.lua == None || d.lua == Some(t))
  }

  /** What a move must preserve: the connection, the thread that moved, and any other thread. */
  ghost predicate Preserves(c: Conn, t: Tid, p: Claims, d: Conn, q: Claims, u: Tid, other: Claims) {
    && SelfOk(c, t, d, q)
    && (t != u && At(c, u, other) && Apart(p, other) ==> At(d, u, other) && Apart(q, other))
  }

  lemma SendPreserves(c: Conn, t: Tid, pc: Pc, u: Tid, other: Claims)
    requires ConnOk(c) && At(c, t, Claim(pc)) && IsSend(pc)
    ensures var (d, q) := MoveSend(c, t, pc); Preserves(c, t, Claim(pc), d, Claim(q), u, other)
  {}

  lemma TakeBegins(c: Conn, t: Tid, pc: Pc, u: Tid, other: Claims)
    requires ConnOk(c) && At(c, t, Claim(pc)) && (pc.TakeLock? || pc.TakeRead?)
    ensures var (d, q) := MoveTake(c, t, pc); Preserves(c, t, Claim(pc), d, Claim(q), u, other)
  {}

  lemma TakeClears(c: Conn, t: Tid, pc: Pc, u: Tid, other: Claims)
    requires ConnOk(c) && At(c, t, Claim(pc)) && pc.TakeNull?
    ensures var (d, q) := MoveTake(c, t, pc); Preserves(c, t, Claim(pc), d, Claim(q), u, other)
  {}

  lemma TakeEnds(c: Conn, t: Tid, pc: Pc, u: Tid, other: Claims)
    requires ConnOk(c) && At(c, t, Claim(pc)) && pc.TakeUnlock?
    ensures var (d, q) := MoveTake(c, t, pc); Preserves(c, t, Claim(pc), d, Claim(q), u, other)
  {}

  lemma TakeFrees(c: Conn, t: Tid, pc: Pc, u: Tid, other: Claims)
    requires ConnOk(c) && At(c, t, Claim(pc)) && pc.TakeFree?
    ensures var (d, q) := MoveTake(c, t, pc); Preserves(c, t, Claim(pc), d, Claim(q), u, other)
  {}

  lemma TakePreserves(c: Conn, t: Tid, pc: Pc, u: Tid, other: Claims)
    requires ConnOk(c) && At(c, t, Claim(pc)) && IsTake(pc)
    ensures var (d, q) := MoveTake(c, t, pc); Preserves(c, t, Claim(pc), d, Claim(q), u, other)
  {
    if pc.TakeLock? || pc.TakeRead? {
      TakeBegins(c, t, pc, u, other);
    } else if pc.TakeNull? {
      TakeClears(c, t, pc, u, other);
    } else if pc.TakeUnlock? {
      TakeEnds(c, t, pc, u, other);
    } else {
      TakeFrees(c, t, pc, u, other);
    }
  }

  predicate IsLook(pc: Pc) { pc.EventPeek? || pc.EventThread? || pc.EventLuaLock? || pc.EventRecheck? }

  lemma EventLooks(c: Conn, t: Tid, pc: Pc, u: Tid, other: Claims)
    requires ConnOk(c) && At(c, t, Claim(pc)) && IsLook(pc)
    ensures var (d, q) := MoveEvent(c, t, pc); Preserves(c, t, Claim(pc), d, Claim(q), u, other)
  {}

  lemma EventActs(c: Conn, t: Tid, pc: Pc, u: Tid, other: Claims)
    requires ConnOk(c) && At(c, t, Claim(pc)) && IsEvent(pc) && !IsLook(pc)
    ensures var (d, q) := MoveEvent(c, t, pc); Preserves(c, t, Claim(pc), d, Claim(q), u, other)
  {}

  lemma EventPreserves(c: Conn, t: Tid, pc: Pc, u: Tid, other: Claims)
    requires ConnOk(c) && At(c, t, Claim(pc)) && IsEvent(pc)
    ensures var (d, q) := MoveEvent(c, t, pc); Preserves(c, t, Claim(pc), d, Claim(q), u, other)
  {
    if IsLook(pc) { EventLooks(c, t, pc, u, other); } else { EventActs(c, t, pc, u, other); }
  }

  predicate IsClearing(pc: Pc) { pc.CloseClear? || pc.CloseLuaUnlock? }

  lemma CloseBegins(c: Conn, t: Tid, pc: Pc, u: Tid, other: Claims)
    requires ConnOk(c) && At(c, t, Claim(pc)) && pc.CloseSwap?
    ensures var (d, q) := MoveClose(c, t, pc); Preserves(c, t, Claim(pc), d, Claim(q), u, other)
  {}

  lemma CloseClears(c: Conn, t: Tid, pc: Pc, u: Tid, other: Claims)
    requires ConnOk(c) && At(c, t, Claim(pc)) && IsClearing(pc)
    ensures var (d, q) := MoveClose(c, t, pc); Preserves(c, t, Claim(pc), d, Claim(q), u, other)
  {}

  lemma CloseGoesOn(c: Conn, t: Tid, pc: Pc, u: Tid, other: Claims)
    requires ConnOk(c) && At(c, t, Claim(pc)) && IsClose(pc) && !IsClearing(pc) && !pc.CloseSwap?
    ensures var (d, q) := MoveClose(c, t, pc); Preserves(c, t, Claim(pc), d, Claim(q), u, other)
  {}

  lemma ClosePreserves(c: Conn, t: Tid, pc: Pc, u: Tid, other: Claims)
    requires ConnOk(c) && At(c, t, Claim(pc)) && IsClose(pc)
    ensures var (d, q) := MoveClose(c, t, pc); Preserves(c, t, Claim(pc), d, Claim(q), u, other)
  {
    if pc.CloseSwap? {
      CloseBegins(c, t, pc, u, other);
    } else if IsClearing(pc) {
      CloseClears(c, t, pc, u, other);
    } else {
      CloseGoesOn(c, t, pc, u, other);
    }
  }

  lemma MovePreserves(c: Conn, t: Tid, pc: Pc, u: Tid, other: Claims)
    requires ConnOk(c) && At(c, t, Claim(pc))
    ensures var (d, q) := Move(c, t, pc); Preserves(c, t, Claim(pc), d, Claim(q), u, other)
  {
    if IsSend(pc) {
      SendPreserves(c, t, pc, u, other);
    } else if IsTake(pc) {
      TakePreserves(c, t, pc, u, other);
    } else if IsEvent(pc) {
      EventPreserves(c, t, pc, u, other);
    } else {
      ClosePreserves(c, t, pc, u, other);
    }
  }

  lemma RunKeeps(w: World, t: Tid)
    requires Inv(w) && t in w.pc
    ensures Inv(Next(w, Run(t)))
  {
    var (c, q) := Move(w.c, t, w.pc[t]);
    MovePreserves(w.c, t, w.pc[t], t, NOTHING);
    forall u | u in w.pc && u != t ensures At(c, u, Claim(w.pc[u])) && Apart(Claim(q), Claim(w.pc[u])) {
      MovePreserves(w.c, t, w.pc[t], u, Claim(w.pc[u]));
    }
    Rebuilt(w, t, c, q);
  }

  lemma Rebuilt(w: World, t: Tid, c: Conn, q: Pc)
    requires Inv(w) && t in w.pc && SelfOk(w.c, t, c, Claim(q))
    requires forall u :: u in w.pc && u != t ==> At(c, u, Claim(w.pc[u])) && Apart(Claim(q), Claim(w.pc[u]))
    ensures Inv(World(c, w.pc[t := q]))
  {}

  // ---------- nothing is lost either ----------

  /** The thread won the guard and has not cleared the bufferevent field yet. */
  predicate Pending(pc: Pc) { pc == TakeLock(true) || pc == TakeRead(true) || (pc.TakeNull? && pc.closing) }

  /** A bufferevent that is gone but not freed has an owner; a connection that is cleaned up but
      still has its bufferevent has a cleaner on its way. */
  ghost predicate Owed(w: World) {
    && (!w.c.buf && w.c.freed == 0 ==> exists t :: t in w.pc && Claim(w.pc[t]).owns)
    && (w.c.buf && w.c.cleanedUp ==> exists t :: t in w.pc && Pending(w.pc[t]))
  }

  ghost predicate Owes(c: Conn, pc: Pc, d: Conn, q: Pc) {
    && (!d.buf && d.freed == 0 ==> Claim(q).owns || (!c.buf && c.freed == 0 && !Claim(pc).owns))
    && (d.buf && d.cleanedUp ==> Pending(q) || (c.buf && c.cleanedUp && !Pending(pc)))
  }

  lemma SendOwes(c: Conn, t: Tid, pc: Pc)
    requires IsSend(pc)
    ensures var (d, q) := MoveSend(c, t, pc); Owes(c, pc, d, q)
  {}

  lemma TakeOwes(c: Conn, t: Tid, pc: Pc)
    requires At(c, t, Claim(pc)) && IsTake(pc)
    ensures var (d, q) := MoveTake(c, t, pc); Owes(c, pc, d, q)
  {}

  lemma EventOwes(c: Conn, t: Tid, pc: Pc)
    requires IsEvent(pc)
    ensures var (d, q) := MoveEvent(c, t, pc); Owes(c, pc, d, q)
  {}

  lemma CloseOwes(c: Conn, t: Tid, pc: Pc)
    requires IsClose(pc)
    ensures var (d, q) := MoveClose(c, t, pc); Owes(c, pc, d, q)
  {}

  lemma MoveOwes(c: Conn, t: Tid, pc: Pc)
    requires At(c, t, Claim(pc))
    ensures var (d, q) := Move(c, t, pc); Owes(c, pc, d, q)
  {
    if IsSend(pc) {
      SendOwes(c, t, pc);
    } else if IsTake(pc) {
      TakeOwes(c, t, pc);
    } else if IsEvent(pc) {
      EventOwes(c, t, pc);
    } else {
      CloseOwes(c, t, pc);
    }
  }

  lemma NextOwes(w: World, s: Step)
    requires Inv(w) && Owed(w)
    ensures Owed(Next(w, s))
  {
    var v := Next(w, s);
    if s.Run? && s.t in w.pc {
      MoveOwes(w.c, s.t, w.pc[s.t]);
      assert v.pc[s.t] == Move(w.c, s.t, w.pc[s.t]).1;
    }
    forall t | t in w.pc && (s.Spawn? || t != s.t) ensures t in v.pc && v.pc[t] == w.pc[t] {}
  }

  lemma NextKeeps(w: World, s: Step)
    requires Inv(w) && Owed(w)
    ensures Inv(Next(w, s)) && Owed(Next(w, s))
  {
    NextOwes(w, s);
    match s
    case Spawn(t, entry) => if t !in w.pc && IsEntry(entry) { SpawnKeeps(w, t, entry); }
    case Run(t) => if t in w.pc { RunKeeps(w, t); }
  }

  lemma SpawnKeeps(w: World, t: Tid, entry: Pc)
    requires Inv(w) && t !in w.pc && IsEntry(entry)
    ensures Inv(w.(pc := w.pc[t := entry]))
  {}

  // ---------- every run ----------

  lemma {:induction false} TraceKeeps(w: World, steps: seq<Step>)
    requires Inv(w) && Owed(w)
    ensures Inv(Trace(w, steps)) && Owed(Trace(w, steps))
    decreases |steps|
  {
    if steps != [] {
      NextKeeps(w, steps[0]);
      TraceKeeps(Next(w, steps[0]), steps[1..]);
    }
  }

  function Opened(hasCallback: bool): World {
    World(Conn(true, None, None, hasCallback, true, false, 0, 0, 0, false), map[])
  }

  /** Over every interleaving of any number of senders, event callbacks and closers, with or
      without a callback registered: the bufferevent is freed at most once, no send uses it after
      that, the cleanup body runs at most once, ondisconnected fires at most once. */
  lemma EveryInterleaving(hasCallback: bool, steps: seq<Step>)
    ensures var w := Trace(Opened(hasCallback), steps);
      w.c.freed <= 1 && !w.c.misused && w.c.bodies <= 1 && w.c.fired <= 1
  {
    TraceKeeps(Opened(hasCallback), steps);
  }

  /** In every state reached: whoever is about to use the bufferevent finds it set and not freed;
      whoever is about to free it or to run the callback is the first and the only one; and one
      thread at most is inside the cleanup body. */
  lemma EveryStateIsSafe(hasCallback: bool, steps: seq<Step>)
    ensures var w := Trace(Opened(hasCallback), steps);
      && (forall t :: t in w.pc && w.pc[t].SendUse? ==> w.c.buf && w.c.freed == 0)
      && (forall t :: t in w.pc && w.pc[t].TakeFree? && w.pc[t].own ==> !w.c.buf && w.c.freed == 0)
      && (forall t :: t in w.pc && w.pc[t].EventFire? && w.pc[t].fire ==> !w.c.ref && w.c.fired == 0)
      && (forall t, u :: t in w.pc && u in w.pc && t != u ==> Apart(Claim(w.pc[t]), Claim(w.pc[u])))
  {
    TraceKeeps(Opened(hasCallback), steps);
    var w := Trace(Opened(hasCallback), steps);
    assert forall t :: t in w.pc ==> At(w.c, t, Claim(w.pc[t]));
  }

  /** Once every thread has returned, a cleaned-up connection has freed its bufferevent exactly
      once and run the cleanup body exactly once, and both locks are free. */
  lemma QuietMeansReleased(hasCallback: bool, steps: seq<Step>)
    requires var w := Trace(Opened(hasCallback), steps); w.c.cleanedUp && forall t :: t in w.pc ==> w.pc[t] == Done
    ensures var w := Trace(Opened(hasCallback), steps);
      !w.c.buf && w.c.freed == 1 && w.c.bodies == 1 && w.c.mutex == None && w.c.lua == None
  {
    TraceKeeps(Opened(hasCallback), steps);
  }
}
