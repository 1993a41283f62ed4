/** httpd_websocket.c, the Request object: a linked frame queue and the fields that callbacks and
    API calls update in place. Each method is one step of the machine. */
module WsRequest {
  import opened Bytes
  import opened WsFrame
  import opened WsMachine

  class Node {
    const frame: Frame
    var next: Node?

    constructor (frame: Frame)
      ensures this.frame == frame && next == null
    {
      this.frame, this.next := frame, null;
    }
  }

  /** The frames held by a list of nodes. */
  ghost function FramesOf(spine: seq<Node>): seq<Frame> {
    seq(|spine|, i requires 0 <= i < |spine| => spine[i].frame)
  }

  ghost function At(spine: seq<Node>, i: nat): Node? { if i < |spine| then spine[i] else null }

  ghost predicate LinkedAt(spine: seq<Node>, j: nat)
    reads spine
  {
    j < |spine| ==> spine[j].next == At(spine, j + 1)
  }

  /** The singly linked queue with head, tail and length. */
  class FrameQueue {
    var head: Node?
    var tail: Node?
    var len: nat
    ghost var spine: seq<Node>

    ghost predicate Valid()
      reads this, spine
    {
      && len == |spine|
      && Distinct(spine)
      && head == At(spine, 0)
      && tail == (if spine == [] then null else spine[|spine| - 1])
      && forall j: nat :: LinkedAt(spine, j)
    }

    ghost function Contents(): seq<Frame>
      reads this
    {
      FramesOf(spine)
    }

    constructor ()
      ensures Valid() && spine == []
    {
      head, tail, len, spine := null, null, 0, [];
    }

    /** ws_frame_queue_push: a full queue drops the frame. */
    method Push(frame: Frame) returns (kept: bool)
      requires Valid()
      modifies this, spine
      ensures Valid() && kept == (old(len) < MAX_QUEUED)
      ensures Contents() == if kept then old(Contents()) + [frame] else old(Contents())
      ensures forall i :: 0 <= i < |spine| ==> spine[i] in old(spine) || fresh(spine[i])
    {
      if len >= MAX_QUEUED { return false; }
      var node := new Node(frame);
      if tail != null { tail.next := node; } else { head := node; }
      tail := node;
      len := len + 1;
      ghost var s0 := spine;
      spine := spine + [node];
      forall j: nat ensures LinkedAt(spine, j) { assert old(LinkedAt(s0, j)); }
      return true;
    }

    /** ws_frame_queue_pop */
    method Pop() returns (frame: Option<Frame>)
      requires Valid()
      modifies this
      ensures Valid() && (forall i :: 0 <= i < |spine| ==> spine[i] in old(spine))
      ensures if old(Contents()) == [] then frame == None && spine == []
              else frame == Some(old(Contents())[0]) && Contents() == old(Contents())[1..]
    {
      if head == null { return None; }
      ghost var s0 := spine;
      assert LinkedAt(s0, 0);
      frame := Some(head.frame);
      head := head.next;
      if head == null { tail := null; }
      len := len - 1;
      spine := spine[1..];
      forall j: nat ensures LinkedAt(spine, j) { assert LinkedAt(s0, j + 1); }
    }

    /** ws_frame_queue_clear: walks the list and frees every node, oldest first. */
    method Clear() returns (freed: seq<Frame>)
      requires Valid()
      modifies this
      ensures Valid() && spine == [] && freed == old(Contents())
    {
      var node := head;
      freed := [];
      while node != null
        invariant |freed| <= |spine| && node == At(spine, |freed|)
        invariant freed == Contents()[..|freed|]
        decreases |spine| - |freed|
      {
        assert LinkedAt(spine, |freed|);
        freed := freed + [node.frame];
        node := node.next;
      }
      head, tail, len, spine := null, null, 0, [];
    }
  }

  ghost function Optional<T>(x: Option<T>): seq<T> { if x.Some? then [x.value] else [] }

  /** How a round of the read callback ends: no complete frame, the connection is over, or a frame
      was dealt with, perhaps by handing it to the waiting coroutine. */
  datatype Round = NeedMore | Ended | Passed(got: Option<Frame>)

  class Request {
    var isWebsocket: bool
    var state: State
    var bev: bool
    var cleaning: bool
    var waiting: bool
    const queue: FrameQueue
    var input: seq<byte>
    /** The connection, the registry references and the pending free, with a count of each release. */
    var refs: Refs
    /** What left the object: frames to coroutines, frames freed, frames written. */
    ghost var handed: seq<Frame>
    ghost var dropped: seq<Frame>
    ghost var cleared: seq<Frame>
    ghost var sent: seq<Sent>

    ghost predicate Valid()
      reads this, queue, queue.spine
    {
      queue.Valid()
    }

    /** The machine state this object stands for. */
    ghost function Abs(): Ws
      reads this, queue
    {
      Ws(isWebsocket, state, bev, cleaning, input, Mail(waiting, queue.Contents(), handed, dropped, cleared),
          refs, sent)
    }

    constructor ()
      ensures Valid() && Abs() == Fresh && fresh(queue)
    {
      isWebsocket, state, bev, cleaning, waiting, input := false, Connecting, false, false, false, [];
      refs := Refs(true, false, false, true, 0, 0, 0, 0);
      handed, dropped, cleared, sent := [], [], [], [];
      queue := new FrameQueue();
    }

    method WriteFrame(opcode: nat, payload: seq<byte>)
      requires Valid()
      modifies this`sent
      ensures Valid() && Abs() == Write(old(Abs()), opcode, payload)
    {
      sent := sent + [Sent(opcode, payload)];
    }

    // ---------- teardown ----------

    /** Frees the connection if this request still owns it. */
    method FreeConnection()
      modifies this`refs
      ensures refs == if old(refs.owns && refs.req) then old(refs).(req := false, owns := false,
          freed := old(refs.freed) + 1)
                      else old(refs)
    {
      if refs.owns && refs.req {
        refs := refs.(req := false);
        refs := refs.(owns := false);
        refs := refs.(freed := refs.freed + 1);
      }
    }

    /** Gives back each registry reference that is still held. */
    method ClearRefs()
      modifies this`refs
      ensures !refs.selfRef && refs.selfReleased == old(refs.selfReleased) + (if old(refs.selfRef) then 1 else 0)
      ensures !refs.gcRef && refs.gcReleased == old(refs.gcReleased) + (if old(refs.gcRef) then 1 else 0)
      ensures (refs.req, refs.owns, refs.scheduled, refs.freed)
          == old((refs.req, refs.owns, refs.scheduled, refs.freed))
    {
      if refs.selfRef { refs := refs.(selfRef := false, selfReleased := refs.selfReleased + 1); }
      if refs.gcRef { refs := refs.(gcRef := false, gcReleased := refs.gcReleased + 1); }
    }

    /** What ws_deferred_free_cb does behind its guard. */
    method ReleaseAll()
      modifies this`refs
      ensures refs == Release(old(refs)) && !refs.req && !refs.owns && !refs.selfRef && !refs.gcRef
      ensures refs.freed == old(refs.freed) + (if old(refs.owns && refs.req) then 1 else 0)
    {
      FreeConnection();
      refs := refs.(req := false);
      refs := refs.(owns := false);
      ClearRefs();
    }

    /** ws_deferred_free_cb. Afterwards a connection being torn down holds nothing, and what it
        held was released once: another call would release nothing. */
    method FreeLater()
      requires Valid() && refs.scheduled > 0
      modifies this`refs
      ensures Valid() && Abs() == DoFree(old(Abs()))
      ensures cleaning ==> !refs.req && !refs.owns && !refs.selfRef && !refs.gcRef && Release(refs) == refs
      ensures cleaning ==> refs.freed == old(refs.freed) + (if old(refs.owns && refs.req) then 1 else 0)
    {
      refs := refs.(scheduled := refs.scheduled - 1);
      if !cleaning { return; }
      ReleaseAll();
    }

    /** The last branch of ws_connection_cleanup. */
    method FreeOwned()
      requires refs.owns && refs.req
      modifies this`refs
      ensures refs == Release(old(refs)) && refs.freed == old(refs.freed) + 1 && !refs.selfRef && !refs.gcRef
    {
      FreeConnection();
      ClearRefs();
    }

    /** ws_connection_cleanup */
    method CleanUp(outputEmpty: bool)
      requires Valid()
      modifies this, queue
      ensures Valid() && Abs() == Cleanup(old(Abs()), outputEmpty)
      ensures forall i :: 0 <= i < |queue.spine| ==> queue.spine[i] in old(queue.spine)
    {
      if cleaning { return; }
      cleaning := true;
      var gone := queue.Clear();
      cleared := cleared + gone;
      if bev {
        bev := false;
        if outputEmpty { refs := refs.(scheduled := refs.scheduled + 1); }
      } else if refs.owns && refs.req {
        FreeOwned();
      }
    }

    /** The end of a connection: resume the waiting coroutine with an error, or clean up. */
    method StopAll(outputEmpty: bool)
      requires Valid()
      modifies this, queue
      ensures Valid() && Abs() == Stop(old(Abs()), outputEmpty)
      ensures forall i :: 0 <= i < |queue.spine| ==> queue.spine[i] in old(queue.spine)
    {
      if waiting { waiting := false; } else { CleanUp(outputEmpty); }
    }

    // ---------- reading ----------

    /** A data frame goes to the waiting coroutine, which is resumed with `got`, else to the queue. */
    method DeliverFrame(f: Frame) returns (got: Option<Frame>)
      requires Valid()
      modifies this, queue, queue.spine
      ensures Valid() && Abs() == old(Abs()).(mail := Deliver(old(Abs()).mail, f))
      ensures got == if old(waiting) then Some(f) else None
      ensures handed == old(handed) + Optional(got)
      ensures forall i :: 0 <= i < |queue.spine| ==> queue.spine[i] in old(queue.spine) || fresh(queue.spine[i])
    {
      if waiting {
        waiting := false;
        handed := handed + [f];
        return Some(f);
      }
      var kept := queue.Push(f);
      if !kept { dropped := dropped + [f]; }
      return None;
    }

    /** The switch of ws_readcb on a frame just taken from the input. */
    method HandleFrame(f: Frame, outputEmpty: bool) returns (r: Round)
      requires Valid() && bev
      modifies this, queue, queue.spine
      ensures Valid() && Abs() == Handle(old(Abs()), f, outputEmpty)
      ensures r == if f.opcode == CLOSE then Ended else Passed(if IsData(f) && old(waiting) then Some(f) else None)
      ensures forall i :: 0 <= i < |queue.spine| ==> queue.spine[i] in old(queue.spine) || fresh(queue.spine[i])
    {
      r := Passed(None);
      if f.opcode == PING {
        if state == Open { WriteFrame(PONG, f.payload); }
      } else if f.opcode == CLOSE {
        state := State.Closed;
        WriteFrame(CLOSE, f.payload);
        StopAll(outputEmpty);
        r := Ended;
      } else if f.opcode == TEXT || f.opcode == BINARY {
        var got := DeliverFrame(f);
        r := Passed(got);
      }
    }

    /** One round of ws_readcb. */
    method ReadRound(outputEmpty: bool) returns (r: Round)
      requires Valid() && bev
      modifies this, queue, queue.spine
      ensures Valid() && Abs() == Read(old(Abs()), outputEmpty)
      ensures match Parse(old(input))
        case More => r == NeedMore
        case Broken(_) => r == Ended
        case Got(f, _) =>
          r == if f.opcode == CLOSE then Ended else Passed(if IsData(f) && old(waiting) then Some(f) else None)
      ensures forall i :: 0 <= i < |queue.spine| ==> queue.spine[i] in old(queue.spine) || fresh(queue.spine[i])
    {
      var p := Parse(input);
      if p.More? { return NeedMore; }
      input := p.rest;
      if p.Broken? {
        state := State.Closed;
        StopAll(outputEmpty);
        return Ended;
      }
      r := HandleFrame(p.frame, outputEmpty);
    }

    // ---------- calls from Lua ----------

    /** websocket_receive: None means that the coroutine now waits, or an error was returned. */
    method ReceiveFrame() returns (got: Option<Frame>)
      requires Valid()
      modifies this, queue
      ensures Valid() && Abs() == DoReceive(old(Abs()))
      ensures got == if old(Abs()).isWebsocket && old(Abs()).state == Open && old(Abs()).mail.queue != []
                     then Some(old(Abs()).mail.queue[0]) else None
      ensures forall i :: 0 <= i < |queue.spine| ==> queue.spine[i] in old(queue.spine)
    {
      if !isWebsocket || state != Open { return None; }
      got := queue.Pop();
      if got.Some? { handed := handed + [got.value]; } else { waiting := true; }
    }

    /** websocket_close */
    method CloseNow(payload: seq<byte>)
      requires Valid()
      modifies this
      ensures Valid() && Abs() == Close(old(Abs()), payload)
    {
      if !isWebsocket || state == State.Closed { return; }
      if !bev {
        state := State.Closed;
        return;
      }
      WriteFrame(CLOSE, payload);
      state := Closing;
    }

    /** websocket_send, websocket_ping and websocket_pong, after their argument checks */
    method SendFrame(opcode: nat, data: seq<byte>) returns (ok: bool)
      requires Valid()
      modifies this`sent
      ensures Valid() && ok == CanWrite(old(Abs()))
      ensures Abs() == if ok then Write(old(Abs()), opcode, data) else old(Abs())
    {
      if !isWebsocket || state != Open { return false; }
      if !bev { return false; }
      WriteFrame(opcode, data);
      return true;
    }

    /** websocket_accept on a valid upgrade request */
    method AcceptUpgrade(hasBev: bool)
      requires Valid()
      modifies this
      ensures Valid() && Abs() == DoAccept(old(Abs()), hasBev)
    {
      if !refs.req || isWebsocket { return; }
      refs := refs.(owns := true);
      if hasBev {
        isWebsocket, state, bev := true, Open, true;
        refs := refs.(selfRef := true);
      }
    }

    /** A call that leaves the mail alone. */
    method PerformPlain(step: Step)
      requires Valid()
      requires step.Accept? || step.Arrive? || step.Send? || step.Ping? || step.Pong? || step.CloseCall?
      modifies this
      ensures Valid() && Abs() == Next(old(Abs()), step)
    {
      match step
      case Accept(hasBev) => AcceptUpgrade(hasBev);
      case Arrive(chunk) => input := input + chunk;
      case Send(opcode, data) => if opcode < 16 { var ok := SendFrame(opcode, data); }
      case Ping(data) => if |data| <= 125 { var ok := SendFrame(PING, data); }
      case Pong(data) => if |data| <= 125 { var ok := SendFrame(PONG, data); }
      case CloseCall(payload) => CloseNow(payload);
    }

    /** A step of the teardown. */
    method PerformTeardown(step: Step)
      requires Valid()
      requires step.HangUp? || step.Finish? || step.DeferredFree? || step.ConnectionClosed? || step.ReleaseGuard?
      modifies this, queue
      ensures Valid() && Abs() == Next(old(Abs()), step)
      ensures forall i :: 0 <= i < |queue.spine| ==> queue.spine[i] in old(queue.spine)
    {
      match step
      case HangUp(e) => if bev { HangUpNow(e); }
      case Finish(e) => if isWebsocket { CleanUp(e); }
      case DeferredFree => if refs.scheduled > 0 { FreeLater(); }
      case ConnectionClosed => if !isWebsocket { LoseConnection(); }
      case ReleaseGuard => DropGuardRef();
    }

    /** ws_eventcb on the end of the stream or an error */
    method HangUpNow(outputEmpty: bool)
      requires Valid()
      modifies this, queue
      ensures Valid() && Abs() == Stop(old(Abs()).(state := State.Closed), outputEmpty)
      ensures forall i :: 0 <= i < |queue.spine| ==> queue.spine[i] in old(queue.spine)
    {
      state := State.Closed;
      StopAll(outputEmpty);
    }

    /** httpd_conn_close_cb */
    method LoseConnection()
      modifies this`refs
      ensures refs == DropGuard(old(refs).(req := false))
    {
      refs := refs.(req := false);
      DropGuardRef();
    }

    /** Any step; `got` is the frame that a coroutine gets by it. */
    method Perform(step: Step) returns (got: Option<Frame>)
      requires Valid()
      modifies this, queue, queue.spine
      ensures Valid() && Abs() == Next(old(Abs()), step)
      ensures Optional(got) == HandedBy(old(Abs()), step)
      ensures forall i :: 0 <= i < |queue.spine| ==> queue.spine[i] in old(queue.spine) || fresh(queue.spine[i])
    {
      got := None;
      match step
      case ReadFrame(outputEmpty) =>
        if bev {
          var r := ReadRound(outputEmpty);
          if r.Passed? { got := r.got; }
        }
      case Receive => got := ReceiveFrame();
      case HangUp(_) => PerformTeardown(step);
      case Finish(_) => PerformTeardown(step);
      case DeferredFree => PerformTeardown(step);
      case ConnectionClosed => PerformTeardown(step);
      case ReleaseGuard => PerformTeardown(step);
      case _ => PerformPlain(step);
    }

    /** httpd_release_conn_guard */
    method DropGuardRef()
      modifies this`refs
      ensures refs == DropGuard(old(refs)) && !refs.gcRef
    {
      if refs.gcRef { refs := refs.(gcRef := false, gcReleased := refs.gcReleased + 1); }
    }

    /** Several steps; `out` is what coroutines get by them, in order. */
    method PerformAll(steps: seq<Step>) returns (out: seq<Frame>)
      requires Valid()
      modifies this, queue, queue.spine
      ensures Valid() && Abs() == Run(old(Abs()), steps) && out == HandedIn(old(Abs()), steps)
      ensures forall i :: 0 <= i < |queue.spine| ==> queue.spine[i] in old(queue.spine) || fresh(queue.spine[i])
    {
      out := [];
      var i := 0;
      ghost var w := Abs();
      assert steps[..0] == [];
      while i < |steps|
        invariant 0 <= i <= |steps| && Valid()
        invariant Abs() == Run(w, steps[..i]) && out == HandedIn(w, steps[..i])
        invariant forall i :: 0 <= i < |queue.spine| ==> queue.spine[i] in old(queue.spine) || fresh(queue.spine[i])
      {
        OneMoreStep(w, steps, i);
        var got := Perform(steps[i]);
        if got.Some? { out := out + [got.value]; }
        i := i + 1;
      }
      assert steps[..|steps|] == steps;
    }

    /** One round of ws_readcb and, if it resumed a coroutine, the calls of that coroutine. */
    method ReadAndResume(calls: seq<Step>, outputEmpty: bool) returns (r: Round, out: seq<Frame>, ghost done: seq<Step>)
      requires Valid() && bev && AllCalls(calls)
      modifies this, queue, queue.spine
      ensures Valid() && Abs() == Run(old(Abs()), done) && out == HandedIn(old(Abs()), done) && ArrivedIn(done) == []
      ensures r.NeedMore? <==> Parse(old(input)).More?
      ensures r.NeedMore? ==> done == []
      ensures r.Ended? ==> Reads(old(Abs()), done).status != Running
      ensures r.Passed? ==> Reads(old(Abs()), done).status == Running && |input| < |old(input)|
      ensures forall i :: 0 <= i < |queue.spine| ==> queue.spine[i] in old(queue.spine) || fresh(queue.spine[i])
    {
      ghost var w := Abs();
      var resumes := waiting;
      r := ReadRound(outputEmpty);
      out, done := [], [];
      if r.NeedMore? { return; }
      var acts := if r.Ended? then resumes else r.got.Some?;
      ghost var mine := if acts then calls else [];
      RoundReads(w, outputEmpty, mine);
      done := [ReadFrame(outputEmpty)] + mine;
      if r.Passed? && r.got.Some? { out := [r.got.value]; }
      if acts {
        var more := PerformAll(calls);
        out := out + more;
      } else {
        assert out + [] == out;
      }
    }

    /** ws_readcb: reads frames until none is complete, the connection ends, or a coroutine it
        resumed tore the connection down. The k-th round's coroutine makes the calls `script[k]`.
        Unless it was torn down, exactly the frames of the input were read, up to the first Close. */
    method ReadCallback(script: seq<seq<Step>>, outputEmpty: bool) returns (out: seq<Frame>, ghost steps: seq<Step>)
      requires Valid() && bev && forall k :: 0 <= k < |script| ==> AllCalls(script[k])
      modifies this, queue, queue.spine
      ensures Valid() && Abs() == Run(old(Abs()), steps) && out == HandedIn(old(Abs()), steps) && ArrivedIn(steps) == []
      ensures bev || Reads(old(Abs()), steps).status != Running ==> Reads(old(Abs()), steps) == Drain(old(input))
    {
      ghost var w := Abs();
      out, steps := [], [];
      var k := 0;
      while |input| > 0
        invariant Valid() && bev && 0 <= k
        invariant Abs() == Run(w, steps) && out == HandedIn(w, steps) && ArrivedIn(steps) == []
        invariant Reads(w, steps).status == Running
        invariant forall i :: 0 <= i < |queue.spine| ==> queue.spine[i] in old(queue.spine) || fresh(queue.spine[i])
        decreases |input|
      {
        var r, more;
        ghost var done;
        r, more, done := ReadAndResume(if k < |script| then script[k] else [], outputEmpty);
        RunConcat(w, steps, done);
        ReadsConcat(w, steps, done);
        out, steps, k := out + more, steps + done, k + 1;
        if r.NeedMore? { break; }
        if r.Ended? {
          ReadAll(w, steps);
          return;
        }
        if !bev { return; }
      }
      ReadAll(w, steps);
    }
  }

  /** A request driven through any steps: the frames its coroutines really got and those still
      queued are, in order, the data frames parsed, less those cleared and those dropped. */
  method Drive(steps: seq<Step>) returns (out: seq<Frame>, left: seq<Frame>)
    ensures out == HandedIn(Fresh, steps) && |left| <= MAX_QUEUED
    ensures exists cleared, dropped :: Merges(TakenIn(Fresh, steps), out + cleared + left, dropped)
  {
    var r := new Request();
    out := r.PerformAll(steps);
    RunKeeps(Fresh, steps);
    EveryFrameHasOneFate(steps);
    ghost var m := r.Abs().mail;
    assert Merges(TakenIn(Fresh, steps), out + m.cleared + m.queue, m.dropped);
    left := r.queue.Clear();
  }
}
