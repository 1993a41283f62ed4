/** Every run of buffer operations behaves like one byte stream with a cursor. */
module ByteFifo {
  import opened Bytes
  import opened Bits
  import opened ByteArrays

  datatype Op = Write(bs: seq<byte>) | Read(n: nat) | ReadReady | WriteReady | Mark | Reset

  /** Writes happen in write mode and reads, marks and resets in read mode. */
  predicate Legal(reading: bool, op: Op) {
    match op
    case Write(_) => !reading
    case Read(_) => reading
    case Mark => reading
    case Reset => reading
    case _ => true
  }

  predicate Switches(reading: bool, op: Op) {
    (op.ReadReady? && !reading) || (op.WriteReady? && reading)
  }

  /** A run of operations that respects the modes. */
  predicate LegalRun(reading: bool, ops: seq<Op>)
    decreases |ops|
  {
    ops == [] ||
    (Legal(reading, ops[0]) && LegalRun(if Switches(reading, ops[0]) then !reading else reading, ops[1..]))
  }

  /** What the methods of an unwrapped ByteArray do to its view, with the result of a read. */
  ghost function Step(v: View, op: Op): (r: (View, Option<seq<byte>>))
    requires v.Ok() && (v.Reading? ==> v.mark <= v.pos)
    requires Legal(v.Reading?, op)
    ensures r.0.Ok() && (r.0.Reading? ==> r.0.mark <= r.0.pos)
  {
    match op
    case Write(bs) => (Writing(v.bytes + bs), None)
    case Read(n) =>
      if n <= |v.Pending()| then (v.(pos := v.pos + n), Some(v.Pending()[..n])) else (v, None)
    case ReadReady => (if v.Writing? then Reading(v.bytes, 0, 0) else v, None)
    case WriteReady => (if v.Reading? then Writing(v.Pending()) else v, None)
    case Mark => (v.(mark := v.pos), None)
    case Reset => (v.(pos := v.mark), None)
  }

  /** The reference: everything ever written, and how far it has been consumed. */
  datatype Fifo = Fifo(stream: seq<byte>, cursor: nat, marked: nat, reading: bool)

  ghost function FifoStep(f: Fifo, op: Op): (Fifo, Option<seq<byte>>)
    requires f.cursor <= |f.stream|
  {
    match op
    case Write(bs) => (f.(stream := f.stream + bs), None)
    case Read(n) =>
      if f.cursor + n <= |f.stream|
      then (f.(cursor := f.cursor + n), Some(f.stream[f.cursor..f.cursor + n]))
      else (f, None)
    case ReadReady => (if f.reading then f else f.(reading := true, marked := f.cursor), None)
    case WriteReady => (f.(reading := false), None)
    case Mark => (f.(marked := f.cursor), None)
    case Reset => (f.(cursor := f.marked), None)
  }

  ghost predicate Sim(v: View, f: Fifo) {
    && v.Ok() && v.Reading? == f.reading
    && f.cursor <= |f.stream|
    && (v.Writing? ==> v.bytes == f.stream[f.cursor..])
    && (v.Reading? ==>
          && v.mark <= v.pos <= f.cursor
          && v.bytes == f.stream[f.cursor - v.pos..]
          && f.marked == f.cursor - v.pos + v.mark)
  }

  lemma StepSimulates(v: View, f: Fifo, op: Op)
    requires Sim(v, f) && Legal(v.Reading?, op)
    ensures FifoStep(f, op).1 == Step(v, op).1
    ensures Sim(Step(v, op).0, FifoStep(f, op).0)
  {
    var g := FifoStep(f, op).0;
    match op
    case Write(bs) => assert g.stream[g.cursor..] == f.stream[f.cursor..] + bs;
    case Read(n) =>
      assert v.Pending() == f.stream[f.cursor..];
      assert n <= |v.Pending()| ==> v.Pending()[..n] == f.stream[f.cursor..f.cursor + n];
    case WriteReady => if v.Reading? { assert v.Pending() == f.stream[f.cursor..]; }
    case _ =>
  }

  ghost function Outputs(v: View, ops: seq<Op>): seq<Option<seq<byte>>>
    requires v.Ok() && (v.Reading? ==> v.mark <= v.pos) && LegalRun(v.Reading?, ops)
    decreases |ops|
  {
    if ops == [] then [] else
    var (v', out) := Step(v, ops[0]);
    [out] + Outputs(v', ops[1..])
  }

  ghost function FifoOutputs(f: Fifo, ops: seq<Op>): seq<Option<seq<byte>>>
    requires f.marked <= |f.stream| && f.cursor <= |f.stream|
    decreases |ops|
  {
    if ops == [] then [] else
    var (f', out) := FifoStep(f, ops[0]);
    [out] + FifoOutputs(f', ops[1..])
  }

  lemma {:induction false} RunSimulates(v: View, f: Fifo, ops: seq<Op>)
    requires Sim(v, f) && LegalRun(v.Reading?, ops) && f.marked <= |f.stream|
    ensures FifoOutputs(f, ops) == Outputs(v, ops)
    decreases |ops|
  {
    if ops != [] {
      StepSimulates(v, f, ops[0]);
      RunSimulates(Step(v, ops[0]).0, FifoStep(f, ops[0]).0, ops[1..]);
    }
  }

  /** From an empty buffer, every legal run returns what the byte stream returns:
      mode switches, compaction and rewinds lose, repeat and reorder nothing. */
  lemma EmptyBufferIsFifo(ops: seq<Op>)
    requires LegalRun(false, ops)
    ensures Outputs(Writing([]), ops) == FifoOutputs(Fifo([], 0, 0, false), ops)
  {
    RunSimulates(Writing([]), Fifo([], 0, 0, false), ops);
  }

  // ---------- what reallocation moves ----------

  predicate Grows(v: View, capacity: nat, op: Op) { op.Write? && v.Writing? && |v.bytes| + |op.bs| > capacity }

  /** The bytes that this operation moves to a new allocation, and the capacity after it. */
  function Moved(v: View, capacity: nat, op: Op): nat { if Grows(v, capacity, op) then |v.bytes| else 0 }

  function CapacityAfter(v: View, capacity: nat, op: Op): nat {
    if Grows(v, capacity, op) then NewSize(|v.bytes| + |op.bs|) else capacity
  }

  ghost function MovedIn(v: View, capacity: nat, ops: seq<Op>): nat
    requires v.Ok() && (v.Reading? ==> v.mark <= v.pos) && LegalRun(v.Reading?, ops)
    decreases |ops|
  {
    if ops == [] then 0
    else Moved(v, capacity, ops[0]) + MovedIn(Step(v, ops[0]).0, CapacityAfter(v, capacity, ops[0]), ops[1..])
  }

  ghost function CapacityIn(v: View, capacity: nat, ops: seq<Op>): nat
    requires v.Ok() && (v.Reading? ==> v.mark <= v.pos) && LegalRun(v.Reading?, ops)
    decreases |ops|
  {
    if ops == [] then capacity
    else CapacityIn(Step(v, ops[0]).0, CapacityAfter(v, capacity, ops[0]), ops[1..])
  }

  lemma StepFits(v: View, capacity: nat, op: Op)
    requires v.Ok() && (v.Reading? ==> v.mark <= v.pos) && Legal(v.Reading?, op) && |v.bytes| <= capacity
    ensures |Step(v, op).0.bytes| <= CapacityAfter(v, capacity, op)
  {
    if op.Write? { NewSizeFits(|v.bytes| + |op.bs|); }
  }

  /** Over every run, all the bytes moved stay within four times the capacity reached. */
  lemma {:induction false} RunAmortised(v: View, capacity: nat, copied: nat, ops: seq<Op>)
    requires v.Ok() && (v.Reading? ==> v.mark <= v.pos) && LegalRun(v.Reading?, ops)
    requires |v.bytes| <= capacity && Amortised(capacity, copied)
    ensures Amortised(CapacityIn(v, capacity, ops), copied + MovedIn(v, capacity, ops))
    decreases |ops|
  {
    if ops != [] {
      var op := ops[0];
      StepFits(v, capacity, op);
      if Grows(v, capacity, op) { GrowthPays(capacity, |v.bytes| + |op.bs|, copied, |v.bytes|); }
      RunAmortised(Step(v, op).0, CapacityAfter(v, capacity, op), copied + Moved(v, capacity, op), ops[1..]);
    }
  }

  /** One operation on a real buffer is one step of its view, and moves what it must. */
  method Perform(ba: ByteArray, op: Op) returns (out: Option<seq<byte>>)
    requires ba.Valid() && !ba.wrapbuffer && (ba.reading ==> ba.mark <= ba.offset)
    requires Legal(ba.reading, op)
    modifies ba, ba.buffer
    ensures ba.Valid() && !ba.wrapbuffer && (ba.reading ==> ba.mark <= ba.offset)
    ensures ba.buffer == old(ba.buffer) || fresh(ba.buffer)
    ensures (ba.View(), out) == old(Step(ba.View(), op))
    ensures ba.copied == old(ba.copied) + Moved(old(ba.View()), old(ba.buflen), op)
    ensures ba.buflen == CapacityAfter(old(ba.View()), old(ba.buflen), op)
  {
    out := None;
    var ok;
    match op
    case Write(bs) => ok := ba.WriteValue(bs);
    case Read(n) => out := ba.ReadValue(n);
    case ReadReady => ok := ba.ReadReady();
    case WriteReady => ok := ba.WriteReady();
    case Mark => ok := ba.Mark();
    case Reset => ok := ba.Reset();
  }

  function FirstCapacity(requested: nat): nat { if requested == 0 then MIN_CAPACITY else requested }

  /** What the rest of a run adds up to, from a buffer in some state. */
  ghost predicate OnTrack(v: View, capacity: nat, copied: nat, outs: seq<Option<seq<byte>>>, left: seq<Op>,
                          first: nat, ops: seq<Op>)
    requires LegalRun(false, ops)
  {
    && v.Ok() && (v.Reading? ==> v.mark <= v.pos) && LegalRun(v.Reading?, left)
    && outs + Outputs(v, left) == Outputs(Writing([]), ops)
    && copied + MovedIn(v, capacity, left) == MovedIn(Writing([]), first, ops)
    && CapacityIn(v, capacity, left) == CapacityIn(Writing([]), first, ops)
  }

  lemma TrackStep(v: View, capacity: nat, copied: nat, outs: seq<Option<seq<byte>>>, left: seq<Op>, first: nat,
      ops: seq<Op>)
    requires LegalRun(false, ops) && OnTrack(v, capacity, copied, outs, left, first, ops) && left != []
    ensures var (w, out) := Step(v, left[0]);
      OnTrack(w, CapacityAfter(v, capacity, left[0]), copied + Moved(v, capacity, left[0]), outs + [out],
          left[1..], first, ops)
  {
    var (w, out) := Step(v, left[0]);
    Assoc(outs, [out], Outputs(w, left[1..]));
  }

  /** A fresh buffer of any capacity, driven through any legal run, returns what the byte
      stream returns; its reallocations move exactly the bytes they must, at most four times
      the capacity reached. */
  method Execute(capacity: nat, ops: seq<Op>)
    returns (outs: seq<Option<seq<byte>>>, buflen: nat, ghost copied: nat)
    requires LegalRun(false, ops)
    ensures outs == FifoOutputs(Fifo([], 0, 0, false), ops)
    ensures buflen == CapacityIn(Writing([]), FirstCapacity(capacity), ops)
    ensures copied == MovedIn(Writing([]), FirstCapacity(capacity), ops) <= 4 * buflen
  {
    var ba := new ByteArray.Alloc(capacity);
    outs := [];
    EmptyBufferIsFifo(ops);
    RunAmortised(Writing([]), FirstCapacity(capacity), 0, ops);
    var i := 0;
    assert ops[0..] == ops;
    while i < |ops|
      invariant 0 <= i <= |ops|
      invariant ba.Valid() && !ba.wrapbuffer && (ba.reading ==> ba.mark <= ba.offset)
      invariant fresh(ba) && fresh(ba.buffer)
      invariant OnTrack(ba.View(), ba.buflen, ba.copied, outs, ops[i..], FirstCapacity(capacity), ops)
    {
      assert ops[i..][1..] == ops[i + 1..];
      TrackStep(ba.View(), ba.buflen, ba.copied, outs, ops[i..], FirstCapacity(capacity), ops);
      var out := Perform(ba, ops[i]);
      outs := outs + [out];
      i := i + 1;
    }
    buflen, copied := ba.buflen, ba.copied;
  }
}
