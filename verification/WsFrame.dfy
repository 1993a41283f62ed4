/** httpd_websocket.c, frames: sections 5.2 and 5.3 of RFC 6455. */
module WsFrame {
  import opened Bytes
  import opened Bits

  const CLOSE: nat := 8
  const PING: nat := 9
  const PONG: nat := 10
  const TEXT: nat := 1
  const BINARY: nat := 2

  datatype Frame = Frame(fin: bool, rsv: nat, opcode: nat, masked: bool, payload: seq<byte>)

  // ---------- masking ----------

  function XorBits(a: nat, b: nat): nat {
    if a == 0 && b == 0 then 0 else (a % 2 + b % 2) % 2 + 2 * XorBits(a / 2, b / 2)
  }

  lemma {:induction false} XorBelow(a: nat, b: nat, n: nat)
    requires a < Pow2(n) && b < Pow2(n)
    ensures XorBits(a, b) < Pow2(n)
  {
    if n > 0 { XorBelow(a / 2, b / 2, n - 1); }
  }

  lemma XorParts(a: nat, b: nat)
    ensures XorBits(a, b) % 2 == (a % 2 + b % 2) % 2 && XorBits(a, b) / 2 == XorBits(a / 2, b / 2)
  {}

  lemma Parity(p: nat, q: nat)
    requires p < 2 && q < 2
    ensures ((p + q) % 2 + q) % 2 == p
  {}

  lemma SameParts(y: nat, a: nat)
    requires y % 2 == a % 2 && y / 2 == a / 2
    ensures y == a
  {}

  lemma {:induction false} XorTwice(a: nat, b: nat, x: nat, y: nat)
    requires x == XorBits(a, b) && y == XorBits(x, b)
    ensures y == a
    decreases a + b
  {
    if a != 0 || b != 0 {
      XorParts(a, b);
      XorParts(x, b);
      XorTwice(a / 2, b / 2, x / 2, y / 2);
      Parity(a % 2, b % 2);
      SameParts(y, a);
    }
  }

  /** `a ^ b` on bytes */
  function Xor(a: byte, b: byte): byte {
    assert Pow2(8) == 256;
    XorBelow(a, b, 8);
    XorBits(a, b)
  }

  function Masked(p: seq<byte>, key: seq<byte>): seq<byte>
    requires |key| == 4
  {
    seq(|p|, i requires 0 <= i < |p| => Xor(p[i], key[i % 4]))
  }

  /** Masking is its own inverse. */
  lemma MaskedTwice(p: seq<byte>, key: seq<byte>)
    requires |key| == 4
    ensures Masked(Masked(p, key), key) == p
  {
    forall i | 0 <= i < |p| ensures Masked(Masked(p, key), key)[i] == p[i] {
      var x := Xor(p[i], key[i % 4]);
      XorTwice(p[i], key[i % 4], x, Xor(x, key[i % 4]));
    }
  }

  /** websocket_mask_unmask, in place. */
  method MaskInPlace(data: array<byte>, key: seq<byte>)
    requires |key| == 4
    modifies data
    ensures data[..] == Masked(old(data[..]), key)
  {
    var i := 0;
    while i < data.Length
      invariant 0 <= i <= data.Length
      invariant forall j :: 0 <= j < i ==> data[j] == Xor(old(data[j]), key[j % 4])
      invariant forall j :: i <= j < data.Length ==> data[j] == old(data[j])
    {
      data[i] := Xor(data[i], key[i % 4]);
      i := i + 1;
    }
  }

  // ---------- lengths ----------

  function BigEndian(b: seq<byte>): nat {
    if b == [] then 0 else BigEndian(b[..|b| - 1]) * 256 + b[|b| - 1]
  }

  function BigEndianBytes(n: nat, k: nat): (b: seq<byte>)
    ensures |b| == k
  {
    if k == 0 then [] else BigEndianBytes(n / 256, k - 1) + [n % 256]
  }

  function Pow256(k: nat): (p: nat) ensures p > 0 { if k == 0 then 1 else 256 * Pow256(k - 1) }

  lemma {:induction false} BigEndianBack(n: nat, k: nat)
    requires n < Pow256(k)
    ensures BigEndian(BigEndianBytes(n, k)) == n
  {
    if k > 0 {
      BigEndianBack(n / 256, k - 1);
      assert BigEndianBytes(n, k)[..k - 1] == BigEndianBytes(n / 256, k - 1);
    }
  }

  // ---------- parsing ----------

  /** How long the length field is, beyond the two fixed bytes. */
  function Extra(len7: nat): nat { if len7 == 126 then 2 else if len7 == 127 then 8 else 0 }

  /** `More` leaves the input alone; `Broken` is a length no allocation can satisfy, met after the
      header was drained. */
  datatype Parsed = More | Broken(rest: seq<byte>) | Got(frame: Frame, rest: seq<byte>)

  /** Payload length and header size, once the length field is there. */
  function Header(b: seq<byte>): Option<(nat, nat)> {
    if |b| < 2 then None else
    var len7 := b[1] % 128;
    var x := Extra(len7);
    if |b| < 2 + x then None
    else Some((if x == 0 then len7 else BigEndian(b[2..2 + x]), 2 + x + (if b[1] >= 128 then 4 else 0)))
  }

  /** The frame behind a header of `hs` bytes that announces `len` more. */
  function Take(b: seq<byte>, len: nat, hs: nat): (r: Parsed)
    requires |b| >= 2 && hs >= (if b[1] >= 128 then 6 else 2)
    ensures r.Got? ==> |r.rest| < |b|
  {
    // a sum past 2^64 wraps, and once the bytes cover what is left of it the allocation fails
    if hs + len >= U64 then (if |b| < hs + len - U64 then More else Broken(if |b| < hs then [] else b[hs..]))
    else if |b| < hs + len then More
    else
      var raw := b[hs..hs + len];
      var payload := if b[1] >= 128 then Masked(raw, b[hs - 4..hs]) else raw;
      Got(Frame(b[0] >= 128, b[0] / 16 % 8, b[0] % 16, b[1] >= 128, payload), b[hs + len..])
  }

  function Parse(b: seq<byte>): (r: Parsed)
    ensures r.Got? ==> |r.rest| < |b|
  {
    match Header(b)
    case None => More
    case Some((len, hs)) => Take(b, len, hs)
  }

  // ---------- creating ----------

  function Create(opcode: nat, payload: seq<byte>, fin: bool): seq<byte> {
    var n := |payload|;
    [(if fin then 128 else 0) + opcode % 16] + LengthBytes(n) + payload
  }

  lemma Pow256Table()
    ensures Pow256(2) == 65536 && Pow256(8) == U64
  {
    assert Pow256(4) == 0x1_0000_0000;
  }

  /** The length field of a created frame. */
  function LengthBytes(n: nat): seq<byte> {
    if n < 126 then [n] else if n <= 65535 then [126] + BigEndianBytes(n, 2) else [127] + BigEndianBytes(n, 8)
  }

  lemma LengthParses(n: nat, first: byte, tail: seq<byte>)
    requires n < U64
    ensures Header([first] + LengthBytes(n) + tail) == Some((n, 1 + |LengthBytes(n)|))
  {
    var b, x := [first] + LengthBytes(n) + tail, |LengthBytes(n)| - 1;
    Pow256Table();
    assert b[1] == LengthBytes(n)[0];
    if x > 0 {
      BigEndianBack(n, x);
      assert b[2..2 + x] == BigEndianBytes(n, x);
    }
  }

  lemma FirstByte(fin: bool, opcode: nat)
    requires opcode < 16
    ensures var first := (if fin then 128 else 0) + opcode;
      opcode % 16 == opcode && (first >= 128 <==> fin) && first / 16 % 8 == 0 && first % 16 == opcode
  {}

  lemma LengthShort(n: nat)
    ensures 1 <= |LengthBytes(n)| <= 9 && LengthBytes(n)[0] < 128
  {}

  lemma TakePlain(b: seq<byte>, first: byte, len: seq<byte>, payload: seq<byte>, rest: seq<byte>)
    requires b == [first] + len + (payload + rest) && 1 <= |len| <= 9 && len[0] < 128 && |payload| < U64 - 14
    ensures Take(b, |payload|, 1 + |len|) == Got(Frame(first >= 128, first / 16 % 8, first % 16, false, payload), rest)
  {
    var hs := 1 + |len|;
    assert b[0] == first && b[1] == len[0];
    assert b[hs..hs + |payload|] == payload && b[hs + |payload|..] == rest;
  }

  /** What is created parses back, and whatever follows is left. */
  lemma CreateParses(opcode: nat, payload: seq<byte>, fin: bool, rest: seq<byte>)
    requires opcode < 16 && |payload| < U64 - 14
    ensures Parse(Create(opcode, payload, fin) + rest) == Got(Frame(fin, 0, opcode, false, payload), rest)
  {
    var first: byte, len := (if fin then 128 else 0) + opcode, LengthBytes(|payload|);
    FirstByte(fin, opcode);
    LengthShort(|payload|);
    Assoc([first] + len, payload, rest);
    LengthParses(|payload|, first, payload + rest);
    TakePlain([first] + len + (payload + rest), first, len, payload, rest);
  }

  /** What a client sends: the mask bit, the key, and the payload masked with it. */
  function ClientFrame(opcode: nat, payload: seq<byte>, fin: bool, key: seq<byte>): seq<byte>
    requires |key| == 4
  {
    var len := LengthBytes(|payload|);
    [(if fin then 128 else 0) + opcode % 16] + ([128 + len[0]] + len[1..]) + key + Masked(payload, key)
  }

  lemma Slices(head: seq<byte>, key: seq<byte>, body: seq<byte>, rest: seq<byte>)
    ensures var b := head + (key + (body + rest)); var hs := |head| + |key|;
      b[|head|..hs] == key && b[hs..hs + |body|] == body && b[hs + |body|..] == rest
  {}

  lemma TakeIs(b: seq<byte>, hs: nat, key: seq<byte>, body: seq<byte>, rest: seq<byte>)
    requires 6 <= hs && hs + |body| <= |b| && hs + |body| < U64 && b[1] >= 128 && |key| == 4
    requires b[hs - 4..hs] == key && b[hs..hs + |body|] == body && b[hs + |body|..] == rest
    ensures Take(b, |body|, hs) == Got(Frame(b[0] >= 128, b[0] / 16 % 8, b[0] % 16, true, Masked(body, key)), rest)
  {}

  lemma TakeMasked(b: seq<byte>, head: seq<byte>, key: seq<byte>, body: seq<byte>, rest: seq<byte>)
    requires b == head + (key + (body + rest))
    requires |head| >= 2 && head[1] >= 128 && |key| == 4 && |head| + 4 + |body| < U64
    ensures Take(b, |body|, |head| + 4)
         == Got(Frame(head[0] >= 128, head[0] / 16 % 8, head[0] % 16, true, Masked(body, key)), rest)
  {
    Slices(head, key, body, rest);
    assert b[0] == head[0] && b[1] == head[1];
    TakeIs(b, |head| + 4, key, body, rest);
  }

  lemma ParseMasked(head: seq<byte>, key: seq<byte>, body: seq<byte>, rest: seq<byte>)
    requires |head| >= 2 && head[1] >= 128 && |key| == 4 && |head| + 4 + |body| < U64
    requires Header(head + (key + (body + rest))) == Some((|body|, |head| + 4))
    ensures Parse(head + key + body + rest)
         == Got(Frame(head[0] >= 128, head[0] / 16 % 8, head[0] % 16, true, Masked(body, key)), rest)
  {
    Assoc(head + key, body, rest);
    Assoc(head, key, body + rest);
    TakeMasked(head + (key + (body + rest)), head, key, body, rest);
  }

  lemma ParseClient(first: byte, len: seq<byte>, key: seq<byte>, body: seq<byte>, rest: seq<byte>)
    requires 1 <= |len| <= 9 && len[0] < 128 && |key| == 4 && |body| < U64 - 14
    requires Header([first] + ([128 + len[0]] + len[1..]) + (key + (body + rest))) == Some((|body|, 5 + |len|))
    ensures Parse([first] + ([128 + len[0]] + len[1..]) + key + body + rest)
         == Got(Frame(first >= 128, first / 16 % 8, first % 16, true, Masked(body, key)), rest)
  {
    var head := [first] + ([128 + len[0]] + len[1..]);
    assert |head| == 1 + |len| && head[0] == first && head[1] == 128 + len[0];
    ParseMasked(head, key, body, rest);
  }

  /** A masked frame of any length parses to its unmasked payload. */
  lemma ClientFrameParses(opcode: nat, payload: seq<byte>, fin: bool, key: seq<byte>, rest: seq<byte>)
    requires opcode < 16 && |payload| < U64 - 14 && |key| == 4
    ensures Parse(ClientFrame(opcode, payload, fin, key) + rest) == Got(Frame(fin, 0, opcode, true, payload), rest)
  {
    FirstByte(fin, opcode);
    LengthShort(|payload|);
    var first: byte, body := (if fin then 128 else 0) + opcode, Masked(payload, key);
    MaskedLength(|payload|, first, key + (body + rest));
    ParseClient(first, LengthBytes(|payload|), key, body, rest);
    MaskedTwice(payload, key);
  }

  lemma MaskedLength(n: nat, first: byte, tail: seq<byte>)
    requires n < U64
    ensures var len := LengthBytes(n); Header([first] + ([128 + len[0]] + len[1..]) + tail) == Some((n, 5 + |len|))
  {
    var len := LengthBytes(n);
    var b, x := [first] + ([128 + len[0]] + len[1..]) + tail, |len| - 1;
    Pow256Table();
    assert b[1] == 128 + len[0];
    if x > 0 {
      BigEndianBack(n, x);
      assert b[2..2 + x] == len[1..] == BigEndianBytes(n, x);
    }
  }

  // ---------- prefixes and extensions ----------

  lemma HeaderExtends(b: seq<byte>, x: seq<byte>)
    requires Header(b).Some?
    ensures Header(b + x) == Header(b)
  {
    var k := 2 + Extra(b[1] % 128);
    assert (b + x)[2..k] == b[2..k];
  }

  lemma SliceExtends(b: seq<byte>, x: seq<byte>, i: nat, j: nat)
    requires i <= j <= |b|
    ensures (b + x)[i..j] == b[i..j] && (b + x)[j..] == b[j..] + x
  {}

  /** More input never changes a frame already complete. */
  lemma ParseExtends(b: seq<byte>, x: seq<byte>)
    requires !Parse(b).More?
    ensures Parse(b).Broken? ==> Parse(b + x).Broken?
    ensures Parse(b).Got? ==> Parse(b + x) == Got(Parse(b).frame, Parse(b).rest + x)
  {
    HeaderExtends(b, x);
    var (len, hs) := Header(b).value;
    if hs + len < U64 {
      SliceExtends(b, x, hs, hs + len);
      if b[1] >= 128 { SliceExtends(b, x, hs - 4, hs); }
    }
  }

  /** A strict prefix of a frame asks for more. */
  lemma PrefixWaits(b: seq<byte>, k: nat)
    requires Parse(b).Got? && k < |b| - |Parse(b).rest|
    ensures Parse(b[..k]) == More
  {
    assert b[..k] + b[k..] == b;
    if Header(b[..k]).Some? { HeaderExtends(b[..k], b[k..]); }
  }

  // ---------- streams ----------

  datatype Status = Running | Closed | Failed

  /** The frames read until the input runs out, a Close arrives or a length is impossible. */
  datatype Drained = Drained(frames: seq<Frame>, rest: seq<byte>, status: Status)

  function Drain(b: seq<byte>): Drained
    decreases |b|
  {
    match Parse(b)
    case More => Drained([], b, Running)
    case Broken(_) => Drained([], [], Failed)
    case Got(f, rest) =>
      if f.opcode == CLOSE then Drained([f], [], Closed)
      else var d := Drain(rest); d.(frames := [f] + d.frames)
  }

  function Joined(fs: seq<Frame>, d: Drained): Drained { d.(frames := fs + d.frames) }

  lemma {:induction false} DrainSplit(a: seq<byte>, b: seq<byte>)
    ensures Drain(a + b) == if Drain(a).status == Running then Joined(Drain(a).frames, Drain(Drain(a).rest + b))
        else Drain(a)
    decreases |a|
  {
    if Parse(a).More? {
      assert [] + Drain(a + b).frames == Drain(a + b).frames;
    } else {
      ParseExtends(a, b);
      if Parse(a).Got? && Parse(a).frame.opcode != CLOSE {
        DrainSplit(Parse(a).rest, b);
        if Drain(a).status == Running {
          Assoc([Parse(a).frame], Drain(Parse(a).rest).frames, Drain(Drain(Parse(a).rest).rest + b).frames);
        }
      }
    }
  }

  /** Reading callback by callback: each chunk is appended to what was left. */
  function DrainChunks(left: seq<byte>, chunks: seq<seq<byte>>): Drained
    decreases |chunks|
  {
    var d := Drain(left);
    if chunks == [] || d.status != Running then d
    else Joined(d.frames, DrainChunks(d.rest + chunks[0], chunks[1..]))
  }

  function Concat(chunks: seq<seq<byte>>): seq<byte> { Flat(chunks, c => c) }

  /** However the stream is cut into chunks, the same frames come out, up to the first Close. */
  lemma {:induction false} ChunkingIrrelevant(left: seq<byte>, chunks: seq<seq<byte>>)
    ensures DrainChunks(left, chunks) == Drain(left + Concat(chunks))
    decreases |chunks|
  {
    if chunks == [] {
      assert left + Concat(chunks) == left;
    } else {
      DrainSplit(left, Concat(chunks));
      var d := Drain(left);
      if d.status == Running {
        ChunkingIrrelevant(d.rest + chunks[0], chunks[1..]);
        Assoc(d.rest, chunks[0], Concat(chunks[1..]));
      }
    }
  }
}
