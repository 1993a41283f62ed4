/** stream_ffi.c: 7-bit variable-length integers, length-prefixed strings and doubles. */
module Stream {
  import opened Bytes
  import opened ByteArrays

  // ---------- wire format ----------

  /** Little-endian groups of seven bits; the high bit says that more follow. */
  function U30Bytes(u: nat): (s: seq<byte>)
    ensures |s| > 0
  {
    if u < 128 then [u] else [128 + u % 128] + U30Bytes(u / 128)
  }

  function StringBytes(d: seq<byte>): seq<byte> {
    U30Bytes(ToU32(|d|)) + d
  }

  // ---------- readers: the value and the bytes left ----------

  /** `x << shift` for the five group positions of a 32-bit word */
  function Shl(x: nat, shift: nat): nat {
    if shift == 0 then x
    else if shift == 7 then 0x80 * x
    else if shift == 14 then 0x4000 * x
    else if shift == 21 then 0x20_0000 * x
    else 0x1000_0000 * x
  }

  /** `value | (b & 127) << shift`: the group lands on bits that are still zero, and the fifth
      group keeps only the four bits that fit the word. */
  function OrGroup(value: nat, b: byte, shift: nat): nat {
    value + Shl(if shift < 28 then b % 128 else b % 16, shift)
  }

  function ReadU30From(s: seq<byte>, value: nat, shift: nat): (r: Option<(nat, seq<byte>)>)
    ensures r.Some? ==> |r.value.1| < |s|
  {
    if s == [] then None else
    var v := OrGroup(value, s[0], shift);
    if s[0] < 128 || shift + 7 > 30 then Some((v, s[1..])) else ReadU30From(s[1..], v, shift + 7)
  }

  function ReadU30(s: seq<byte>): (r: Option<(nat, seq<byte>)>)
    ensures r.Some? ==> |r.value.1| < |s|
  {
    ReadU30From(s, 0, 0)
  }

  /** A string, or how many bytes must be available before another attempt can succeed. */
  datatype StringResult = Got(data: seq<byte>, rest: seq<byte>) | Need(hint: nat)

  function ReadString(s: seq<byte>): (r: StringResult)
    ensures r.Got? ==> |r.data| + |r.rest| < |s|
    ensures r.Need? ==> r.hint > |s|
  {
    match ReadU30(s)
    case None => Need(|s| + 1)
    case Some((len, rest)) =>
      if len > |rest| then Need(len + (|s| - |rest|)) else Got(rest[..len], rest[len..])
  }

  // ---------- varint laws ----------

  predicate Group(shift: nat) { shift == 0 || shift == 7 || shift == 14 || shift == 21 || shift == 28 }

  lemma SplitGroup(u: nat, shift: nat)
    requires Group(shift) && Shl(u, shift) < U32
    ensures u >= 128 ==> Group(shift + 7) && Shl(u % 128, shift) + Shl(u / 128, shift + 7) == Shl(u, shift)
  {}

  lemma ReadFirst(b: byte, t: seq<byte>, value: nat, shift: nat, v: nat)
    requires value + Shl(b % 128, shift) == v < U32 && Group(shift)
    ensures b < 128 ==> ReadU30From([b] + t, value, shift) == Some((v, t))
    ensures b >= 128 && shift + 7 <= 30 ==> ReadU30From([b] + t, value, shift) == ReadU30From(t, v, shift + 7)
  {
    var s := [b] + t;
    assert s[0] == b && s[1..] == t;
  }

  lemma {:induction false} ReadFromBytes(u: nat, rest: seq<byte>, value: nat, shift: nat)
    requires Group(shift) && value + Shl(u, shift) < U32
    ensures ReadU30From(U30Bytes(u) + rest, value, shift) == Some((value + Shl(u, shift), rest))
    decreases u
  {
    if u < 128 {
      ReadFirst(u, rest, value, shift, value + Shl(u, shift));
    } else {
      var more := U30Bytes(u / 128) + rest;
      assert U30Bytes(u) + rest == [128 + u % 128] + more;
      SplitGroup(u, shift);
      var v := value + Shl(u % 128, shift);
      ReadFirst(128 + u % 128, more, value, shift, v);
      ReadFromBytes(u / 128, rest, v, shift + 7);
    }
  }

  /** Every 32-bit value reads back and leaves exactly what followed it. */
  lemma U30RoundTrip(u: nat, rest: seq<byte>)
    requires u < U32
    ensures ReadU30(U30Bytes(u) + rest) == Some((u, rest))
  {
    ReadFromBytes(u, rest, 0, 0);
  }

  /** One more than the largest value that `n` bytes can carry. */
  function Limit(n: nat): nat {
    if n >= 5 then U32 else Shl(1, 7 * n)
  }

  lemma {:induction false} BytesForWidth(u: nat, n: nat)
    requires 0 < n <= 5 && u < Limit(n)
    ensures |U30Bytes(u)| <= n
  {
    if u >= 128 { BytesForWidth(u / 128, n - 1); }
  }

  lemma {:induction false} ReadFromBound(s: seq<byte>, value: nat, n: nat)
    requires n < 5 && value < Limit(n)
    ensures var r := ReadU30From(s, value, 7 * n);
      r.Some? ==> var m := n + (|s| - |r.value.1|); m <= 5 && r.value.0 < Limit(m)
    decreases |s|
  {
    if s != [] {
      var v := OrGroup(value, s[0], 7 * n);
      assert v < Limit(n + 1);
      if s[0] >= 128 && n < 4 { ReadFromBound(s[1..], v, n + 1); }
    }
  }

  /** No byte string that reads as `u` is shorter than U30Bytes(u); five bytes always do. */
  lemma U30Shortest(s: seq<byte>)
    ensures var r := ReadU30(s);
      r.Some? ==> r.value.0 < U32 && |U30Bytes(r.value.0)| <= |s| - |r.value.1| <= 5
  {
    var r := ReadU30(s);
    if r.Some? {
      ReadFromBound(s, 0, 0);
      BytesForWidth(r.value.0, |s| - |r.value.1|);
    }
  }

  lemma {:induction false} PrefixFrom(u: nat, k: nat, value: nat, shift: nat)
    requires Group(shift) && Shl(u, shift) < U32
    requires k < |U30Bytes(u)|
    ensures ReadU30From(U30Bytes(u)[..k], value, shift) == None
    decreases u
  {
    if k > 0 {
      var s := U30Bytes(u)[..k];
      assert s[0] == 128 + u % 128 && s[1..] == U30Bytes(u / 128)[..k - 1];
      PrefixFrom(u / 128, k - 1, OrGroup(value, s[0], shift), shift + 7);
    }
  }

  // ---------- string laws ----------

  lemma StringRoundTrip(d: seq<byte>, rest: seq<byte>)
    requires |d| < U32
    ensures ReadString(StringBytes(d) + rest) == Got(d, rest)
  {
    assert StringBytes(d) + rest == U30Bytes(|d|) + (d + rest);
    U30RoundTrip(|d|, d + rest);
    assert (d + rest)[..|d|] == d && (d + rest)[|d|..] == rest;
  }

  /** A strict prefix of an encoded string asks for more than it has and for no more
      than the whole string, so waiting for the hint always progresses. */
  lemma StringStreams(d: seq<byte>, k: nat)
    requires |d| < U32 && k < |StringBytes(d)|
    ensures var r := ReadString(StringBytes(d)[..k]);
      r.Need? && k < r.hint <= |StringBytes(d)|
  {
    var full := StringBytes(d);
    var head := U30Bytes(|d|);
    if k < |head| {
      assert full[..k] == head[..k];
      PrefixFrom(|d|, k, 0, 0);
    } else {
      assert full[..k] == head + d[..k - |head|];
      U30RoundTrip(|d|, d[..k - |head|]);
    }
  }

  // ---------- sequences of items ----------

  datatype Item = Word(u: nat) | Text(d: seq<byte>) | Double(bits: seq<byte>)

  predicate Fits(i: Item) {
    match i
    case Word(u) => u < U32
    case Text(d) => |d| < U32
    case Double(bits) => |bits| == 8
  }

  function ItemBytes(i: Item): seq<byte> {
    match i
    case Word(u) => U30Bytes(u)
    case Text(d) => StringBytes(d)
    case Double(bits) => bits
  }

  /** Reads one item of the same kind as `shape`. */
  function ReadItem(s: seq<byte>, shape: Item): Option<(Item, seq<byte>)> {
    match shape
    case Word(_) => var r :- ReadU30(s); Some((Word(r.0), r.1))
    case Text(_) =>
      var r := ReadString(s);
      if r.Got? then Some((Text(r.data), r.rest)) else None
    case Double(_) => if |s| < 8 then None else Some((Double(s[..8]), s[8..]))
  }

  function ReadItems(s: seq<byte>, shapes: seq<Item>): Option<(seq<Item>, seq<byte>)>
    decreases |shapes|
  {
    if shapes == [] then Some(([], s)) else
    var (i, s1) :- ReadItem(s, shapes[0]);
    var (rest, s2) :- ReadItems(s1, shapes[1..]);
    Some(([i] + rest, s2))
  }

  /** Whatever sequence of varints, strings and doubles was written reads back item by item. */
  lemma {:induction false} ItemsRoundTrip(items: seq<Item>, rest: seq<byte>)
    requires forall i :: i in items ==> Fits(i)
    ensures ReadItems(Flat(items, ItemBytes) + rest, items) == Some((items, rest))
  {
    if items == [] {
      assert Flat(items, ItemBytes) + rest == rest;
    } else {
      assert Fits(items[0]);
      var i, tail := items[0], Flat(items[1..], ItemBytes) + rest;
      assert Flat(items, ItemBytes) + rest == ItemBytes(i) + tail;
      match i {
        case Word(u) => U30RoundTrip(u, tail);
        case Text(d) => StringRoundTrip(d, tail);
        case Double(bits) => assert (bits + tail)[..8] == bits && (bits + tail)[8..] == tail;
      }
      ItemsRoundTrip(items[1..], rest);
      assert items == [i] + items[1..];
    }
  }

  // ---------- operations on a buffer ----------

  method AddU30(ba: ByteArray, value: int)
    requires ba.Valid() && !ba.reading && !ba.wrapbuffer
    modifies ba, ba.buffer
    ensures ba.Valid() && !ba.reading && !ba.wrapbuffer
    ensures ba.buffer == old(ba.buffer) || fresh(ba.buffer)
    ensures ba.View() == Writing(old(ba.View()).bytes + U30Bytes(ToU32(value)))
  {
    var u: nat := ToU32(value);
    ghost var start := ba.View().bytes;
    var ok;
    while true
      invariant ba.Valid() && !ba.reading && !ba.wrapbuffer
      invariant ba.buffer == old(ba.buffer) || fresh(ba.buffer)
      invariant ba.View().bytes + U30Bytes(u) == start + U30Bytes(ToU32(value))
      decreases u
    {
      ghost var was := ba.View().bytes;
      assert u >= 128 ==> U30Bytes(u) == [128 + u % 128] + U30Bytes(u / 128);
      ok := ba.WriteValue([(if u / 128 != 0 then 128 else 0) + u % 128]);
      u := u / 128;
      if u == 0 { break; }
    }
  }

  /** On failure the bytes inspected are gone. */
  method GetU30(ba: ByteArray) returns (r: Option<nat>)
    requires ba.Valid() && ba.reading
    modifies ba`offset
    ensures ba.Valid()
    ensures match ReadU30(old(ba.View()).Pending())
      case Some((u, rest)) => r == Some(u) && ba.View().Pending() == rest
      case None => r == None && ba.View().Pending() == []
  {
    var value: nat, shift: nat := 0, 0;
    ghost var start := ba.View().Pending();
    while true
      invariant ba.Valid()
      invariant ReadU30From(ba.View().Pending(), value, shift) == ReadU30(start)
      decreases ba.total - ba.offset
    {
      ghost var was := ba.View().Pending();
      var b := ba.ReadValue(1);
      if b.None? { return None; }
      assert ba.View().Pending() == was[1..];
      value := OrGroup(value, b.value[0], shift);
      shift := shift + 7;
      if b.value[0] < 128 || shift > 30 { break; }
    }
    return Some(value);
  }

  method AddBytes(ba: ByteArray, d: seq<byte>)
    requires ba.Valid() && !ba.reading && !ba.wrapbuffer
    modifies ba, ba.buffer
    ensures ba.Valid() && !ba.reading && !ba.wrapbuffer
    ensures ba.buffer == old(ba.buffer) || fresh(ba.buffer)
    ensures ba.View() == Writing(old(ba.View()).bytes + d)
  {
    var ok := ba.WriteValue(d);
  }

  method AddString(ba: ByteArray, d: seq<byte>)
    requires ba.Valid() && !ba.reading && !ba.wrapbuffer
    modifies ba, ba.buffer
    ensures ba.Valid() && !ba.reading && !ba.wrapbuffer
    ensures ba.buffer == old(ba.buffer) || fresh(ba.buffer)
    ensures ba.View() == Writing(old(ba.View()).bytes + StringBytes(d))
  {
    AddU30(ba, |d|);
    AddBytes(ba, d);
  }

  /** Either the next string, or nothing consumed and the number of bytes to wait for. */
  method GetString(ba: ByteArray) returns (data: Option<seq<byte>>, hint: nat)
    requires ba.Valid() && ba.reading
    modifies ba`offset
    ensures ba.Valid()
    ensures match ReadString(old(ba.View()).Pending())
      case Got(d, rest) => data == Some(d) && ba.View().Pending() == rest && hint == |d|
      case Need(n) => data == None && hint == n && ba.offset == old(ba.offset)
  {
    var offset := ba.offset;
    ghost var start := ba.View().Pending();
    var len := GetU30(ba);
    if len.None? {
      ba.offset := offset;
      return None, ba.ReadAvailable() + 1;
    }
    var available := ba.ReadAvailable();
    if len.value > available {
      var diff := ba.offset - offset;
      ba.offset := offset;
      return None, len.value + diff;
    }
    data := ba.ReadValue(len.value);
    hint := len.value;
  }
}
