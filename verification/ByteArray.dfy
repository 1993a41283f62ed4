/** bytearray.c: a growable buffer with a write mode and a read mode. */
module ByteArrays {
  import opened Bytes
  import opened Bits

  const MAX_PREALLOC: nat := 4096
  const CACHE_LINE_SIZE: nat := 64

  /** What a client can observe: the bytes written so far, or the bytes being read
      with the read position and the mark. */
  datatype View = Writing(bytes: seq<byte>) | Reading(bytes: seq<byte>, pos: nat, mark: nat)
  {
    ghost predicate Ok() { Reading? ==> pos <= |bytes| }

    /** The bytes not yet consumed, in either mode. */
    ghost function Pending(): seq<byte> requires Ok() {
      if Writing? then bytes else bytes[pos..]
    }
  }

  /** The capacity that a request of `needed` bytes grows to. */
  function NewSize(needed: nat): nat {
    if needed <= MAX_PREALLOC then LeastPow2(needed)
    else (needed + needed / 4 + CACHE_LINE_SIZE - 1) / CACHE_LINE_SIZE * CACHE_LINE_SIZE
  }

  lemma NewSizeFits(needed: nat)
    ensures needed <= NewSize(needed)
    ensures needed > MAX_PREALLOC ==> 4 * NewSize(needed) >= 5 * needed - 4
    ensures NewSize(needed) <= MAX_PREALLOC ==> IsPow2(NewSize(needed))
  {
    LeastPow2Is(needed);
  }

  method GrownSize(needed: nat) returns (size: nat)
    ensures size == NewSize(needed) && needed <= size
  {
    NewSizeFits(needed);
    if needed <= MAX_PREALLOC {
      size := NextPowerOfTwo(needed);
    } else {
      size := needed + needed / 4;
      size := (size + CACHE_LINE_SIZE - 1) / CACHE_LINE_SIZE * CACHE_LINE_SIZE;
    }
  }

  /** The bytes moved by reallocations stay within four times the capacity; only the
      initial capacity can be an odd size below MAX_PREALLOC. */
  ghost predicate Amortised(capacity: nat, copied: nat) {
    && copied <= 4 * capacity
    && (capacity <= MAX_PREALLOC && !IsPow2(capacity) ==> copied == 0)
  }

  /** Each growth pays for the bytes it moves. */
  lemma GrowthPays(capacity: nat, needed: nat, copied: nat, moved: nat)
    requires capacity < needed && moved <= capacity && Amortised(capacity, copied)
    ensures Amortised(NewSize(needed), copied + moved)
  {
    NewSizeFits(needed);
    LeastPow2Is(needed);
    if needed <= MAX_PREALLOC && IsPow2(capacity) { PowerGrowth(capacity, NewSize(needed)); }
  }

  class ByteArray {
    var buffer: array<byte>
    var offset: nat
    var total: nat
    var buflen: nat
    var mark: nat
    var reading: bool
    var wrapbuffer: bool
    /** Live bytes moved by all reallocations so far. */
    ghost var copied: nat

    ghost predicate Valid()
      reads this
    {
      && offset <= total <= buflen == buffer.Length
      && (!reading ==> mark == 0 && total == buflen)
    }

    ghost function View(): (v: View)
      reads this, buffer
      requires Valid()
      ensures v.Ok()
    {
      if reading then Reading(buffer[..total], offset, mark) else Writing(buffer[..offset])
    }

    constructor Alloc(length: nat)
      ensures Valid() && fresh(buffer) && !reading && !wrapbuffer
      ensures View() == Writing([]) && copied == 0
      ensures buflen == if length == 0 then MIN_CAPACITY else length
    {
      var n := if length == 0 then MIN_CAPACITY else length;
      buffer := new byte[n];
      offset, total, buflen, mark := 0, n, n, 0;
      reading, wrapbuffer, copied := false, false, 0;
    }

    /** The buffer is shared with the caller; `mark` keeps whatever the struct held. */
    constructor Wrap(buff: array<byte>, stale: nat)
      ensures Valid() && buffer == buff && wrapbuffer
      ensures View() == Reading(buff[..], 0, stale) && copied == 0
    {
      buffer, offset, total, buflen, mark := buff, 0, buff.Length, buff.Length, stale;
      reading, wrapbuffer, copied := true, true, 0;
      new;
      assert buff[..] == buffer[..total];
    }

    /** The bytes that a reallocation must preserve. */
    ghost function Live(): nat
      reads this
    {
      if reading then total else offset
    }

    /** Makes room for `required` more bytes; fails only on a wrapped buffer without room. Nothing
        stops a call in read mode: growing then exposes bytes that nobody wrote. */
    method EnsureCapacity(required: nat) returns (ok: bool)
      requires Valid()
      modifies this`buffer, this`buflen, this`total, this`copied
      ensures Valid() && (buffer == old(buffer) || fresh(buffer))
      ensures ok <==> required <= old(total) - offset || !wrapbuffer
      ensures ok ==> offset + required <= total
      ensures !ok || required <= old(total) - offset ==> unchanged(this)
      ensures required > old(total) - offset && ok ==>
        buflen == NewSize(offset + required) && copied == old(copied) + old(Live()) && fresh(buffer)
      ensures !reading ==> View() == old(View())
      ensures reading ==> old(total) <= total && buffer[..old(total)] == old(buffer[..total])
    {
      if total - offset >= required { return true; }
      if wrapbuffer { return false; }
      var size := GrownSize(offset + required);
      var grown := new byte[size];
      var live := if reading then total else offset;
      forall i | 0 <= i < live { grown[i] := buffer[i]; }
      copied := copied + live;
      buffer, buflen, total := grown, size, size;
      return true;
    }

    /** Appends `value`; a wrapped buffer without room refuses and changes nothing. In read mode
        the bytes at the read position are overwritten. */
    method WriteValue(value: seq<byte>) returns (ok: bool)
      requires Valid()
      modifies this`buffer, this`buflen, this`total, this`copied, this`offset, buffer
      ensures Valid() && (buffer == old(buffer) || fresh(buffer))
      ensures ok <==> |value| <= old(total - offset) || !wrapbuffer
      ensures !ok ==> unchanged(this) && unchanged(buffer)
      ensures |value| <= old(total - offset) ==> buflen == old(buflen) && copied == old(copied)
      ensures |value| > old(total - offset) && ok ==>
        buflen == NewSize(old(offset) + |value|) && copied == old(copied) + old(Live())
      ensures ok && !reading ==> View() == Writing(old(View()).bytes + value)
      ensures ok && reading ==> offset == old(offset) + |value| && buffer[..offset] == old(buffer[..offset]) + value
      ensures ok && reading && |value| <= old(total - offset) ==>
        View() == Reading(old(buffer[..offset]) + value + old(buffer[..total])[offset..], offset, mark)
    {
      ok := EnsureCapacity(|value|);
      if ok {
        forall i | 0 <= i < |value| { buffer[offset + i] := value[i]; }
        offset := offset + |value|;
      }
    }

    /** Removes the next `size` bytes, or fails and changes nothing. In write mode it returns
        whatever lies behind the bytes written, and counts it as written. */
    method ReadValue(size: nat) returns (value: Option<seq<byte>>)
      requires Valid()
      modifies this`offset
      ensures Valid()
      ensures value.Some? <==> size <= old(total - offset)
      ensures value.Some? ==> value.value == old(buffer[offset..offset + size]) && offset == old(offset) + size
      ensures value.Some? && reading ==>
        && value.value == old(View()).Pending()[..size]
        && View() == old(View()).(pos := old(offset) + size)
      ensures value.Some? && !reading ==> View() == Writing(old(View()).bytes + value.value)
      ensures value.None? ==> unchanged(this)
    {
      if total - offset >= size {
        value := Some(buffer[offset..offset + size]);
        offset := offset + size;
      } else {
        value := None;
      }
    }

    /** Write mode to read mode. */
    method ReadReady() returns (ok: bool)
      requires Valid()
      modifies this
      ensures Valid() && reading && buffer == old(buffer) && wrapbuffer == old(wrapbuffer)
      ensures buflen == old(buflen) && copied == old(copied)
      ensures ok <==> !old(reading)
      ensures ok ==> View() == Reading(old(View()).bytes, 0, 0)
      ensures !ok ==> unchanged(this)
    {
      if reading { return false; }
      total, offset, reading := offset, 0, true;
      return true;
    }

    /** Read mode to write mode: unread bytes move to the front and stay pending. */
    method WriteReady() returns (ok: bool)
      requires Valid()
      modifies this, buffer
      ensures Valid() && !reading && buffer == old(buffer) && wrapbuffer == old(wrapbuffer)
      ensures buflen == old(buflen) && copied == old(copied)
      ensures ok <==> old(reading)
      ensures ok ==> View() == Writing(old(View()).Pending())
      ensures !ok ==> unchanged(this) && unchanged(buffer)
    {
      if !reading { return false; }
      if offset > 0 {
        var unreadleft := total - offset;
        forall i | 0 <= i < unreadleft { buffer[i] := buffer[offset + i]; }
        offset := unreadleft;
      } else {
        offset := total;
      }
      mark, total, reading := 0, buflen, false;
      return true;
    }

    function ReadAvailable(): (n: nat)
      reads this, buffer
      requires Valid()
      ensures n == if reading then |View().Pending()| else 0
    {
      if !reading then 0 else total - offset
    }

    method Mark() returns (ok: bool)
      requires Valid()
      modifies this`mark
      ensures Valid()
      ensures ok <==> reading
      ensures ok ==> View() == Reading(old(View()).bytes, offset, offset)
      ensures !ok ==> unchanged(this)
    {
      if reading { mark := offset; }
      return reading;
    }

    /** Back to the mark. A mark left over from before Wrap may lie behind the end; then, and only
        then, the position leaves the buffer. */
    method Reset() returns (ok: bool)
      requires Valid()
      modifies this`offset
      ensures ok <==> reading
      ensures !ok ==> unchanged(this)
      ensures ok ==> offset == mark
      ensures Valid() <==> !reading || mark <= total
      ensures ok && mark <= total ==> Valid() && View() == Reading(old(View()).bytes, mark, mark)
    {
      if reading { offset := mark; }
      return reading;
    }
  }

  lemma PowerGap(j: nat, k: nat)
    requires Pow2(j) < Pow2(k)
    ensures 2 * Pow2(j) <= Pow2(k)
  {
    if k <= j { Pow2Monotone(k, j); } else { Pow2Monotone(j + 1, k); }
  }

  /** Growing past a power of two at least doubles it. */
  lemma PowerGrowth(old_: nat, size: nat)
    requires size == MIN_CAPACITY || IsPow2(size)
    ensures IsPow2(size)
    ensures IsPow2(old_) && old_ < size ==> 2 * old_ <= size
  {
    Pow2Table();
    assert size == MIN_CAPACITY ==> size == Pow2(7);
    if IsPow2(old_) && old_ < size {
      var j: nat, k: nat :| old_ == Pow2(j) && size == Pow2(k);
      PowerGap(j, k);
    }
  }
}
