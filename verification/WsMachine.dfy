/** httpd_websocket.c, delivery and teardown: the connection as a state machine whose steps are
    callbacks, API calls and timers in any order. */
module WsMachine {
  import opened Bytes
  import opened WsFrame

  const MAX_QUEUED: nat := 64

  datatype State = Connecting | Open | Closing | Closed
  {
    function Rank(): nat {
      match this case Connecting => 0 case Open => 1 case Closing => 2 case Closed => 3
    }
  }

  // ---------- mail: frames for the coroutine ----------

  /** The waiting coroutine and the bounded queue, with the frames handed to coroutines, those
      freed because the queue was full and those freed at cleanup, each in order. */
  datatype Mail = Mail(waiting: bool, queue: seq<Frame>, handed: seq<Frame>, dropped: seq<Frame>, cleared: seq<Frame>)

  function Push(m: Mail, f: Frame): Mail {
    if |m.queue| >= MAX_QUEUED then m.(dropped := m.dropped + [f]) else m.(queue := m.queue + [f])
  }

  /** The oldest queued frame is handed over. */
  function Pop(m: Mail): Mail
    requires m.queue != []
  {
    m.(queue := m.queue[1..], handed := m.handed + [m.queue[0]])
  }

  /** A data frame: to the waiting coroutine, else to the queue. */
  function Deliver(m: Mail, f: Frame): Mail {
    if m.waiting then m.(waiting := false, handed := m.handed + [f]) else Push(m, f)
  }

  function Clear(m: Mail): Mail { m.(queue := [], cleared := m.cleared + m.queue) }

  /** websocket_receive on an open connection: a queued frame at once, else wait. */
  function Ask(m: Mail): Mail { if m.queue != [] then Pop(m) else m.(waiting := true) }

  // ---------- references: what must be released ----------

  datatype Refs = Refs(req: bool, owns: bool, selfRef: bool, gcRef: bool, scheduled: nat,
                       freed: nat, selfReleased: nat, gcReleased: nat)

  function DropGuard(r: Refs): Refs {
    r.(gcRef := false, gcReleased := if r.gcRef then r.gcReleased + 1 else r.gcReleased)
  }

  /** The connection freed if it is still owned, then both registry references cleared. */
  function Release(r: Refs): Refs {
    DropGuard(r.(req := false, owns := false, freed := if r.owns && r.req then r.freed + 1 else r.freed,
                 selfRef := false, selfReleased := if r.selfRef then r.selfReleased + 1 else r.selfReleased))
  }

  // ---------- the connection ----------

  /** A frame written to the peer. */
  datatype Sent = Sent(opcode: nat, payload: seq<byte>)

  datatype Ws = Ws(isWebsocket: bool, state: State, bev: bool, cleaning: bool,
                   input: seq<byte>, mail: Mail, refs: Refs, sent: seq<Sent>)

  const Fresh := Ws(false, Connecting, false, false, [], Mail(false, [], [], [], []),
                    Refs(true, false, false, true, 0, 0, 0, 0), [])

  datatype Step =
    | Accept(hasBev: bool)
    | Arrive(chunk: seq<byte>)
    | ReadFrame(outputEmpty: bool)
    | HangUp(outputEmpty: bool)
    | Receive
    | Send(opcode: nat, data: seq<byte>)
    | Ping(data: seq<byte>)
    | Pong(data: seq<byte>)
    | CloseCall(payload: seq<byte>)
    | Finish(outputEmpty: bool)
    | DeferredFree
    | ConnectionClosed
    | ReleaseGuard

  function Write(w: Ws, opcode: nat, payload: seq<byte>): Ws {
    w.(sent := w.sent + [Sent(opcode, payload)])
  }

  /** ws_connection_cleanup, guarded by the compare-and-swap on ws_cleaning_up. */
  function Cleanup(w: Ws, outputEmpty: bool): Ws {
    if w.cleaning then w else
    w.(cleaning := true, mail := Clear(w.mail), bev := false,
       refs := if w.bev then (if outputEmpty then w.refs.(scheduled := w.refs.scheduled + 1) else w.refs)
               else if w.refs.owns && w.refs.req then Release(w.refs)
               else w.refs)
  }

  /** A waiting coroutine is resumed with an error; otherwise the connection is torn down. */
  function Stop(w: Ws, outputEmpty: bool): Ws {
    if w.mail.waiting then w.(mail := w.mail.(waiting := false)) else Cleanup(w, outputEmpty)
  }

  /** One round of the read loop, on a frame already taken from the input. */
  function Handle(w: Ws, f: Frame, outputEmpty: bool): Ws {
    if f.opcode == PING then (if w.bev && w.state == Open then Write(w, PONG, f.payload) else w)
    else if f.opcode == CLOSE then
      var c := w.(state := State.Closed);
      Stop(if w.bev then Write(c, CLOSE, f.payload) else c, outputEmpty)
    else if f.opcode == TEXT || f.opcode == BINARY then w.(mail := Deliver(w.mail, f))
    else w
  }

  function Read(w: Ws, outputEmpty: bool): Ws {
    var p := Parse(w.input);
    if p.More? then w
    else if p.Broken? then Stop(w.(state := State.Closed, input := p.rest), outputEmpty)
    else Handle(w.(input := p.rest), p.frame, outputEmpty)
  }

  predicate CanWrite(w: Ws) { w.isWebsocket && w.state == Open && w.bev }

  function Close(w: Ws, payload: seq<byte>): Ws {
    if !w.isWebsocket || w.state == State.Closed then w
    else if !w.bev then w.(state := State.Closed)
    else Write(w, CLOSE, payload).(state := Closing)
  }

  function DoAccept(w: Ws, hasBev: bool): Ws {
    if !w.refs.req || w.isWebsocket then w
    else if hasBev then
      w.(refs := w.refs.(owns := true, selfRef := true), isWebsocket := true, state := Open, bev := true)
    else w.(refs := w.refs.(owns := true))
  }

  function DoReceive(w: Ws): Ws { if w.isWebsocket && w.state == Open then w.(mail := Ask(w.mail)) else w }

  /** ws_deferred_free_cb */
  function DoFree(w: Ws): Ws
    requires w.refs.scheduled > 0
  {
    var r := w.refs.(scheduled := w.refs.scheduled - 1);
    w.(refs := if w.cleaning then Release(r) else r)
  }

  function Next(w: Ws, step: Step): Ws {
    match step
    case Accept(hasBev) => DoAccept(w, hasBev)
    case Arrive(chunk) => w.(input := w.input + chunk)
    case ReadFrame(outputEmpty) => if w.bev then Read(w, outputEmpty) else w
    case HangUp(outputEmpty) => if w.bev then Stop(w.(state := State.Closed), outputEmpty) else w
    case Receive => DoReceive(w)
    case Send(opcode, data) => if CanWrite(w) && opcode < 16 then Write(w, opcode, data) else w
    case Ping(data) => if CanWrite(w) && |data| <= 125 then Write(w, PING, data) else w
    case Pong(data) => if CanWrite(w) && |data| <= 125 then Write(w, PONG, data) else w
    case CloseCall(payload) => Close(w, payload)
    case Finish(outputEmpty) => if w.isWebsocket then Cleanup(w, outputEmpty) else w
    case DeferredFree => if w.refs.scheduled == 0 then w else DoFree(w)
    case ConnectionClosed => if w.isWebsocket then w else w.(refs := DropGuard(w.refs.(req := false)))
    case ReleaseGuard => w.(refs := DropGuard(w.refs))
  }

  function Run(w: Ws, steps: seq<Step>): Ws
    decreases |steps|
  {
    if steps == [] then w else Run(Next(w, steps[0]), steps[1..])
  }

  // ---------- what every step keeps ----------

  /** Nothing is queued while a coroutine waits; frames are cleared once, by the cleanup, and
      nothing is queued after it. */
  ghost predicate MailOk(m: Mail, cleaning: bool) {
    && (m.waiting ==> m.queue == [])
    && |m.queue| <= MAX_QUEUED
    && (if cleaning then m.queue == [] else m.cleared == [])
  }

  /** The connection and both registry references are released at most once. */
  ghost predicate RefsOk(r: Refs, isWebsocket: bool) {
    && r.freed <= 1 && (r.req ==> r.freed == 0)
    && r.selfReleased + (if r.selfRef then 1 else 0) <= (if isWebsocket then 1 else 0)
    && r.gcReleased + (if r.gcRef then 1 else 0) == 1
  }

  ghost predicate Inv(w: Ws) {
    && MailOk(w.mail, w.cleaning) && RefsOk(w.refs, w.isWebsocket)
    && (w.refs.freed > 0 ==> !w.bev)
    && (w.bev ==> w.isWebsocket && !w.cleaning)
    && (w.refs.scheduled > 0 ==> w.cleaning)
    && (w.cleaning ==> w.isWebsocket) && (w.isWebsocket <==> w.state != Connecting)
  }

  lemma CleanupKeeps(w: Ws, outputEmpty: bool)
    requires Inv(w) && w.isWebsocket
    ensures Inv(Cleanup(w, outputEmpty)) && Cleanup(w, outputEmpty).state == w.state
  {}

  lemma StopKeeps(w: Ws, outputEmpty: bool)
    requires Inv(w) && w.isWebsocket
    ensures Inv(Stop(w, outputEmpty)) && Stop(w, outputEmpty).state == w.state
  {
    CleanupKeeps(w, outputEmpty);
  }

  lemma ReadKeeps(w: Ws, outputEmpty: bool)
    requires Inv(w) && w.bev
    ensures Inv(Read(w, outputEmpty)) && w.state.Rank() <= Read(w, outputEmpty).state.Rank()
  {
    var p := Parse(w.input);
    if p.Broken? {
      StopKeeps(w.(state := State.Closed, input := p.rest), outputEmpty);
    } else if p.Got? && p.frame.opcode == CLOSE {
      StopKeeps(Write(w.(input := p.rest, state := State.Closed), CLOSE, p.frame.payload), outputEmpty);
    }
  }

  /** Every step keeps the invariant and never moves the state back. */
  lemma NextKeeps(w: Ws, step: Step)
    requires Inv(w)
    ensures Inv(Next(w, step)) && w.state.Rank() <= Next(w, step).state.Rank()
  {
    match step
    case ReadFrame(e) => if w.bev { ReadKeeps(w, e); }
    case HangUp(e) => if w.bev { StopKeeps(w.(state := State.Closed), e); }
    case Finish(e) => if w.isWebsocket { CleanupKeeps(w, e); }
    case _ =>
  }

  /** What was released is what was held and no longer is, and nothing released comes back. */
  ghost predicate Releases(r: Refs, n: Refs, freeing: bool) {
    && n.freed - r.freed == (if r.owns && r.req && !n.req && freeing then 1 else 0)
    && n.selfReleased - r.selfReleased == (if r.selfRef && !n.selfRef then 1 else 0)
    && n.gcReleased - r.gcReleased == (if r.gcRef && !n.gcRef then 1 else 0)
    && (!r.req ==> !n.req) && (!r.gcRef ==> !n.gcRef)
  }

  lemma StopReleases(w: Ws, outputEmpty: bool)
    ensures Releases(w.refs, Stop(w, outputEmpty).refs, true) && Releases(w.refs, Cleanup(w, outputEmpty).refs, true)
  {}

  lemma ReadReleases(w: Ws, outputEmpty: bool)
    ensures Releases(w.refs, Read(w, outputEmpty).refs, true)
  {
    var p := Parse(w.input);
    if p.Broken? {
      StopReleases(w.(state := State.Closed, input := p.rest), outputEmpty);
    } else if p.Got? && p.frame.opcode == CLOSE {
      var c := w.(input := p.rest, state := State.Closed);
      StopReleases(if w.bev then Write(c, CLOSE, p.frame.payload) else c, outputEmpty);
    }
  }

  lemma NextReleases(w: Ws, step: Step)
    requires Inv(w)
    ensures Releases(w.refs, Next(w, step).refs, w.isWebsocket)
  {
    match step
    case ReadFrame(e) => ReadReleases(w, e);
    case HangUp(e) => StopReleases(w.(state := State.Closed), e);
    case Finish(e) => StopReleases(w, e);
    case _ =>
  }

  lemma {:induction false} RunKeeps(w: Ws, steps: seq<Step>)
    requires Inv(w)
    ensures Inv(Run(w, steps)) && w.state.Rank() <= Run(w, steps).state.Rank()
    decreases |steps|
  {
    if steps != [] {
      NextKeeps(w, steps[0]);
      RunKeeps(Next(w, steps[0]), steps[1..]);
    }
  }

  /** In every run: at most 64 frames wait, never while a coroutine does; the connection and each
      reference are released at most once, the connection only after it is no longer used. */
  lemma EveryRun(steps: seq<Step>)
    ensures var w := Run(Fresh, steps);
      && (w.mail.waiting ==> w.mail.queue == []) && |w.mail.queue| <= MAX_QUEUED
      && w.refs.freed <= 1 && w.refs.selfReleased <= 1 && w.refs.gcReleased <= 1
      && (w.refs.freed > 0 ==> !w.bev)
  {
    RunKeeps(Fresh, steps);
  }

  // ---------- what is written ----------

  /** Whatever was written before is still written, and what is new is Close frames only. */
  ghost predicate OnlyCloseSince(was: seq<Sent>, now: seq<Sent>) {
    was <= now && forall i :: |was| <= i < |now| ==> now[i].opcode == CLOSE
  }

  lemma NextWrites(w: Ws, step: Step)
    requires Inv(w) && w.state.Rank() > Open.Rank()
    ensures OnlyCloseSince(w.sent, Next(w, step).sent)
  {}

  /** Once a connection has left the open state, only Close frames are ever written. */
  lemma {:induction false} OnlyCloseAfterOpen(w: Ws, steps: seq<Step>)
    requires Inv(w) && w.state.Rank() > Open.Rank()
    ensures OnlyCloseSince(w.sent, Run(w, steps).sent)
    decreases |steps|
  {
    if steps != [] {
      NextKeeps(w, steps[0]);
      NextWrites(w, steps[0]);
      OnlyCloseAfterOpen(Next(w, steps[0]), steps[1..]);
    }
  }

  // ---------- no frame is lost, repeated or reordered ----------

  /** The data frame that this step takes from the input, if any. */
  function Taken(w: Ws, step: Step): seq<Frame> {
    if step.ReadFrame? && w.bev && Parse(w.input).Got? && IsData(Parse(w.input).frame)
    then [Parse(w.input).frame] else []
  }

  predicate IsData(f: Frame) { f.opcode == TEXT || f.opcode == BINARY }

  /** The frame that a coroutine gets in this step: the oldest queued one when it asks, or the
      one just parsed when it was waiting. */
  function HandedBy(w: Ws, step: Step): seq<Frame> {
    if step.Receive? && w.isWebsocket && w.state == Open && w.mail.queue != [] then [w.mail.queue[0]]
    else if w.mail.waiting then Taken(w, step)
    else []
  }

  /** The frame freed in this step because nobody waits and the queue is full. */
  function DroppedBy(w: Ws, step: Step): seq<Frame> {
    if !w.mail.waiting && |w.mail.queue| >= MAX_QUEUED then Taken(w, step) else []
  }

  /** The mail after a teardown, whoever started it. */
  ghost predicate ClearedOnly(w: Ws, v: Ws) {
    && v.mail.handed == w.mail.handed && v.mail.dropped == w.mail.dropped && v.input == w.input
    && v.mail.cleared == w.mail.cleared + (if !w.cleaning && v.cleaning then w.mail.queue else [])
  }

  lemma StopClears(w: Ws, outputEmpty: bool)
    ensures ClearedOnly(w, Stop(w, outputEmpty)) && ClearedOnly(w, Cleanup(w, outputEmpty))
  {}

  lemma HandleFates(w: Ws, f: Frame, outputEmpty: bool)
    ensures var v := Handle(w, f, outputEmpty);
      && v.input == w.input
      && (IsData(f) ==> v.mail == Deliver(w.mail, f) && v.cleaning == w.cleaning)
      && (!IsData(f) ==> ClearedOnly(w, v))
  {
    if f.opcode == CLOSE {
      var c := w.(state := State.Closed);
      StopClears(if w.bev then Write(c, CLOSE, f.payload) else c, outputEmpty);
    }
  }

  /** The step does not take a data frame, and no coroutine asks for one. */
  lemma OtherFates(w: Ws, step: Step)
    requires Taken(w, step) == [] && !step.Receive? && !step.Arrive?
    ensures ClearedOnly(w.(input := Next(w, step).input), Next(w, step))
    ensures Next(w, step).input == if step.ReadFrame? && w.bev && !Parse(w.input).More? then Parse(w.input).rest
        else w.input
  {
    match step
    case ReadFrame(e) =>
      var p := Parse(w.input);
      if w.bev && p.Broken? { StopClears(w.(state := State.Closed, input := p.rest), e); }
      if w.bev && p.Got? { HandleFates(w.(input := p.rest), p.frame, e); }
    case HangUp(e) => StopClears(w.(state := State.Closed), e);
    case Finish(e) => StopClears(w, e);
    case _ =>
  }

  /** Each list grows by exactly the frames that have that fate in this step. */
  lemma NextFates(w: Ws, step: Step)
    ensures var m := Next(w, step).mail;
      && m.handed == w.mail.handed + HandedBy(w, step)
      && m.dropped == w.mail.dropped + DroppedBy(w, step)
      && m.cleared == w.mail.cleared + (if !w.cleaning && Next(w, step).cleaning then w.mail.queue else [])
  {
    if Taken(w, step) != [] {
      HandleFates(w.(input := Parse(w.input).rest), Parse(w.input).frame, step.outputEmpty);
    } else if !step.Receive? && !step.Arrive? {
      OtherFates(w, step);
    }
  }

  /** `all` is `a` and `b` merged: every element comes from one of them, in order. */
  ghost predicate Merges<T>(all: seq<T>, a: seq<T>, b: seq<T>)
    decreases |all|
  {
    if all == [] then a == [] && b == []
    else
      var n := |all| - 1;
      || (a != [] && a[|a| - 1] == all[n] && Merges(all[..n], a[..|a| - 1], b))
      || (b != [] && b[|b| - 1] == all[n] && Merges(all[..n], a, b[..|b| - 1]))
  }

  lemma MergeMore<T>(all: seq<T>, a: seq<T>, b: seq<T>, x: T)
    requires Merges(all, a, b)
    ensures Merges(all + [x], a + [x], b) && Merges(all + [x], a, b + [x])
  {
    assert (all + [x])[..|all|] == all && (a + [x])[..|a|] == a && (b + [x])[..|b|] == b;
  }

  lemma {:induction false} MergeCounts<T>(all: seq<T>, a: seq<T>, b: seq<T>)
    requires Merges(all, a, b)
    ensures multiset(all) == multiset(a) + multiset(b)
    decreases |all|
  {
    if all != [] {
      var n := |all| - 1;
      assert all == all[..n] + [all[n]];
      if a != [] && a[|a| - 1] == all[n] && Merges(all[..n], a[..|a| - 1], b) {
        MergeCounts(all[..n], a[..|a| - 1], b);
        assert a == a[..|a| - 1] + [a[|a| - 1]];
      } else {
        MergeCounts(all[..n], a, b[..|b| - 1]);
        assert b == b[..|b| - 1] + [b[|b| - 1]];
      }
    }
  }

  /** The frames not dropped: handed over, cleared at cleanup, or still queued. */
  function Kept(m: Mail): seq<Frame> { m.handed + m.cleared + m.queue }

  ghost predicate Accounts(all: seq<Frame>, m: Mail) { Merges(all, Kept(m), m.dropped) }

  lemma DeliverAccounts(all: seq<Frame>, m: Mail, f: Frame)
    requires Accounts(all, m) && MailOk(m, false)
    ensures Accounts(all + [f], Deliver(m, f))
  {
    MergeMore(all, Kept(m), m.dropped, f);
    if m.waiting {
      assert Kept(Deliver(m, f)) == Kept(m) + [f];
    } else if |m.queue| < MAX_QUEUED {
      Assoc(m.handed + m.cleared, m.queue, [f]);
    }
  }

  lemma AskAccounts(m: Mail, cleaning: bool)
    requires MailOk(m, cleaning)
    ensures Kept(Ask(m)) == Kept(m) && Ask(m).dropped == m.dropped
  {
    if m.queue != [] { assert m.queue == [m.queue[0]] + m.queue[1..]; }
  }

  lemma ClearAccounts(m: Mail)
    ensures Kept(Clear(m)) == Kept(m) && Clear(m).dropped == m.dropped
  {
    Assoc(m.handed, m.cleared, m.queue);
  }

  /** What a step does to the mail, other than reading a data frame. */
  lemma OtherMail(w: Ws, step: Step)
    requires Taken(w, step) == [] && !step.Receive?
    ensures var m := Next(w, step).mail;
      Kept(m) == Kept(w.mail) && m.dropped == w.mail.dropped
  {
    ClearAccounts(w.mail);
  }

  lemma NextAccounts(w: Ws, step: Step, all: seq<Frame>)
    requires Inv(w) && Accounts(all, w.mail)
    ensures Accounts(all + Taken(w, step), Next(w, step).mail)
  {
    if Taken(w, step) != [] {
      DeliverAccounts(all, w.mail, Parse(w.input).frame);
    } else {
      assert all + [] == all;
      AskAccounts(w.mail, w.cleaning);
      if !step.Receive? { OtherMail(w, step); }
    }
  }

  function TakenIn(w: Ws, steps: seq<Step>): seq<Frame>
    decreases |steps|
  {
    if steps == [] then [] else Taken(w, steps[0]) + TakenIn(Next(w, steps[0]), steps[1..])
  }

  function HandedIn(w: Ws, steps: seq<Step>): seq<Frame>
    decreases |steps|
  {
    if steps == [] then [] else HandedBy(w, steps[0]) + HandedIn(Next(w, steps[0]), steps[1..])
  }

  lemma {:induction false} RunAccounts(w: Ws, steps: seq<Step>, all: seq<Frame>)
    requires Inv(w) && Accounts(all, w.mail)
    ensures Accounts(all + TakenIn(w, steps), Run(w, steps).mail)
    ensures Run(w, steps).mail.handed == w.mail.handed + HandedIn(w, steps)
    decreases |steps|
  {
    if steps == [] {
      assert all + [] == all && w.mail.handed + [] == w.mail.handed;
    } else {
      var v := Next(w, steps[0]);
      NextKeeps(w, steps[0]);
      NextAccounts(w, steps[0], all);
      NextFates(w, steps[0]);
      RunAccounts(v, steps[1..], all + Taken(w, steps[0]));
      Assoc(all, Taken(w, steps[0]), TakenIn(v, steps[1..]));
      Assoc(w.mail.handed, HandedBy(w, steps[0]), HandedIn(v, steps[1..]));
    }
  }

  /** In every run the data frames parsed are, in order, those handed to coroutines, then those
      cleared or still queued, merged with those dropped because the queue was full. */
  lemma EveryFrameHasOneFate(steps: seq<Step>)
    ensures var m := Run(Fresh, steps).mail;
      && m.handed == HandedIn(Fresh, steps)
      && Merges(TakenIn(Fresh, steps), m.handed + m.cleared + m.queue, m.dropped)
      && multiset(TakenIn(Fresh, steps)) == multiset(m.handed + m.cleared + m.queue) + multiset(m.dropped)
  {
    RunAccounts(Fresh, steps, []);
    var m := Run(Fresh, steps).mail;
    assert [] + TakenIn(Fresh, steps) == TakenIn(Fresh, steps) && [] + HandedIn(Fresh, steps) == HandedIn(Fresh, steps);
    MergeCounts(TakenIn(Fresh, steps), Kept(m), m.dropped);
  }

  // ---------- the machine reads the stream ----------

  /** What the steps parse until the first Close or impossible length, and the input left. */
  function Reads(w: Ws, steps: seq<Step>): Drained
    decreases |steps|
  {
    if steps == [] then Drained([], w.input, Running)
    else if !steps[0].ReadFrame? || !w.bev || Parse(w.input).More? then Reads(Next(w, steps[0]), steps[1..])
    else if Parse(w.input).Broken? then Drained([], [], Failed)
    else if Parse(w.input).frame.opcode == CLOSE then Drained([Parse(w.input).frame], [], Status.Closed)
    else Joined([Parse(w.input).frame], Reads(Next(w, steps[0]), steps[1..]))
  }

  function ArrivedIn(steps: seq<Step>): seq<byte> {
    if steps == [] then [] else (if steps[0].Arrive? then steps[0].chunk else []) + ArrivedIn(steps[1..])
  }

  lemma NextInput(w: Ws, step: Step)
    ensures var p := Parse(w.input);
      Next(w, step).input == if step.Arrive? then w.input + step.chunk
        else if step.ReadFrame? && w.bev && !p.More? then p.rest else w.input
  {
    if Taken(w, step) != [] {
      HandleFates(w.(input := Parse(w.input).rest), Parse(w.input).frame, step.outputEmpty);
    } else if !step.Receive? && !step.Arrive? {
      OtherFates(w, step);
    }
  }

  /** Whatever else happens in between, reading takes the frames of the whole stream, in order,
      up to the first Close. */
  lemma {:induction false} StreamIsRead(w: Ws, steps: seq<Step>)
    ensures var d := Reads(w, steps);
      Drain(w.input + ArrivedIn(steps)) == if d.status == Running then Joined(d.frames, Drain(d.rest)) else d
    decreases |steps|
  {
    if steps == [] {
      assert w.input + [] == w.input && [] + Drain(w.input).frames == Drain(w.input).frames;
    } else {
      var v, more := Next(w, steps[0]), ArrivedIn(steps[1..]);
      NextInput(w, steps[0]);
      if steps[0].Arrive? { Assoc(w.input, steps[0].chunk, more); } else { assert [] + more == more; }
      StreamIsRead(v, steps[1..]);
      if steps[0].ReadFrame? && w.bev && !Parse(w.input).More? {
        ParseExtends(w.input, more);
        var d := Reads(v, steps[1..]);
        if Parse(w.input).Got? { Assoc([Parse(w.input).frame], d.frames, Drain(d.rest).frames); }
      }
    }
  }

  function Data(fs: seq<Frame>): seq<Frame> {
    if fs == [] then [] else (if IsData(fs[0]) then [fs[0]] else []) + Data(fs[1..])
  }

  /** Until then, the data frames taken are the data frames of the stream. */
  lemma {:induction false} DataIsTaken(w: Ws, steps: seq<Step>)
    requires Reads(w, steps).status == Running
    ensures TakenIn(w, steps) == Data(Reads(w, steps).frames)
    ensures Reads(w, steps).rest == Run(w, steps).input
    decreases |steps|
  {
    if steps != [] {
      var v := Next(w, steps[0]);
      DataIsTaken(v, steps[1..]);
      if steps[0].ReadFrame? && w.bev && Parse(w.input).Got? {
        assert Reads(w, steps).frames[1..] == Reads(v, steps[1..]).frames;
      }
    }
  }

  lemma {:induction false} RunConcat(w: Ws, a: seq<Step>, b: seq<Step>)
    ensures Run(w, a + b) == Run(Run(w, a), b)
    ensures HandedIn(w, a + b) == HandedIn(w, a) + HandedIn(Run(w, a), b)
    decreases |a|
  {
    if a == [] {
      assert a + b == b && [] + HandedIn(w, b) == HandedIn(w, b);
    } else {
      RunConcat(Next(w, a[0]), a[1..], b);
      assert (a + b)[1..] == a[1..] + b && (a + b)[0] == a[0];
      Assoc(HandedBy(w, a[0]), HandedIn(Next(w, a[0]), a[1..]), HandedIn(Run(w, a), b));
    }
  }

  lemma OneMoreStep(w: Ws, steps: seq<Step>, i: nat)
    requires i < |steps|
    ensures Run(w, steps[..i + 1]) == Next(Run(w, steps[..i]), steps[i])
    ensures HandedIn(w, steps[..i + 1]) == HandedIn(w, steps[..i]) + HandedBy(Run(w, steps[..i]), steps[i])
  {
    var v := Run(w, steps[..i]);
    RunConcat(w, steps[..i], [steps[i]]);
    assert steps[..i + 1] == steps[..i] + [steps[i]] && [steps[i]][1..] == [];
    assert HandedIn(v, [steps[i]]) == HandedBy(v, steps[i]) + [] == HandedBy(v, steps[i]);
  }

  // ---------- one read callback ----------

  /** Steps that neither bring input nor parse it: what a coroutine can do when it is resumed. */
  ghost predicate AllCalls(steps: seq<Step>) {
    forall i :: 0 <= i < |steps| ==> !steps[i].Arrive? && !steps[i].ReadFrame?
  }

  lemma {:induction false} CallsReadNothing(w: Ws, calls: seq<Step>)
    requires AllCalls(calls)
    ensures Reads(w, calls) == Drained([], w.input, Running) && ArrivedIn(calls) == []
    ensures Run(w, calls).input == w.input
    decreases |calls|
  {
    if calls != [] {
      NextInput(w, calls[0]);
      CallsReadNothing(Next(w, calls[0]), calls[1..]);
    }
  }

  lemma {:induction false} ReadsConcat(w: Ws, a: seq<Step>, b: seq<Step>)
    ensures Reads(w, a + b) == if Reads(w, a).status == Running
        then Joined(Reads(w, a).frames, Reads(Run(w, a), b)) else Reads(w, a)
    ensures ArrivedIn(a + b) == ArrivedIn(a) + ArrivedIn(b)
    decreases |a|
  {
    if a == [] {
      assert a + b == b && [] + Reads(w, b).frames == Reads(w, b).frames && [] + ArrivedIn(b) == ArrivedIn(b);
    } else {
      ReadsConcat(Next(w, a[0]), a[1..], b);
      assert (a + b)[1..] == a[1..] + b && (a + b)[0] == a[0];
      Assoc(if a[0].Arrive? then a[0].chunk else [], ArrivedIn(a[1..]), ArrivedIn(b));
      if a[0].ReadFrame? && w.bev && Parse(w.input).Got? {
        Assoc([Parse(w.input).frame], Reads(Next(w, a[0]), a[1..]).frames, Reads(Run(w, a), b).frames);
      }
    }
  }

  /** One round: the frame parsed, then the calls of the coroutine that it resumed. */
  lemma RoundReads(w: Ws, outputEmpty: bool, calls: seq<Step>)
    requires w.bev && !Parse(w.input).More? && AllCalls(calls)
    ensures var done, p := [ReadFrame(outputEmpty)] + calls, Parse(w.input);
      && Run(w, done) == Run(Read(w, outputEmpty), calls)
      && HandedIn(w, done) == HandedBy(w, ReadFrame(outputEmpty)) + HandedIn(Read(w, outputEmpty), calls)
      && ArrivedIn(done) == [] && Run(w, done).input == p.rest
      && (Reads(w, done).status == Running <==> p.Got? && p.frame.opcode != CLOSE)
  {
    var v := Read(w, outputEmpty);
    var done := [ReadFrame(outputEmpty)] + calls;
    assert done[1..] == calls && done[0] == ReadFrame(outputEmpty) && v == Next(w, done[0]);
    NextInput(w, done[0]);
    CallsReadNothing(v, calls);
  }

  /** With no input arriving, what was read is what the input held, if reading ran to its end. */
  lemma ReadAll(w: Ws, steps: seq<Step>)
    requires ArrivedIn(steps) == [] && (Reads(w, steps).status != Running || Parse(Run(w, steps).input).More?)
    ensures Reads(w, steps) == Drain(w.input)
  {
    StreamIsRead(w, steps);
    assert w.input + [] == w.input;
    var d := Reads(w, steps);
    if d.status == Running {
      DataIsTaken(w, steps);
      assert d.frames + [] == d.frames;
    }
  }
}
