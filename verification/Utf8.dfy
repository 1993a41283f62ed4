/** luafan.c, UTF-8 validation and repair, against section 3 of RFC 3629. */
module Utf8 {
  import opened Bytes

  // ---------- the encoding of RFC 3629 ----------

  /** Unicode scalar values: code points without the surrogates. */
  predicate IsScalar(c: nat) { c < 0xD800 || 0xE000 <= c <= 0x10FFFF }

  function Encode(c: nat): (b: seq<byte>)
    requires IsScalar(c)
    ensures |b| > 0
  {
    if c < 0x80 then [c]
    else if c < 0x800 then [0xC0 + c / 64, 0x80 + c % 64]
    else if c < 0x10000 then [0xE0 + c / 4096, 0x80 + c / 64 % 64, 0x80 + c % 64]
    else [0xF0 + c / 262144, 0x80 + c / 4096 % 64, 0x80 + c / 64 % 64, 0x80 + c % 64]
  }

  ghost predicate AllScalars(cs: seq<nat>) { forall i :: 0 <= i < |cs| ==> IsScalar(cs[i]) }

  function EncodeAll(cs: seq<nat>): seq<byte>
    requires AllScalars(cs)
  {
    Flat(cs, c => if IsScalar(c) then Encode(c) else [])
  }

  /** The byte string is the encoding of some sequence of scalar values. */
  ghost predicate IsText(s: seq<byte>) { exists cs: seq<nat> :: AllScalars(cs) && EncodeAll(cs) == s }

  // ---------- utf8_decode_one ----------

  predicate Continues(b: byte) { 0x80 <= b <= 0xBF }

  /** The length of the well-formed unit at the front, or 0. */
  function UnitLen(s: seq<byte>): (n: nat)
    requires s != []
    ensures n <= 4 && n <= |s|
  {
    var b := s[0];
    if b < 0x80 then 1
    else if b < 0xC2 then 0
    else if b < 0xE0 then if |s| < 2 || !Continues(s[1]) then 0 else 2
    else if b < 0xF0 then
      if |s| < 3 then 0
      else if b == 0xE0 && (s[1] < 0xA0 || s[1] > 0xBF) then 0
      else if b == 0xED && (s[1] < 0x80 || s[1] > 0x9F) then 0
      else if b != 0xE0 && b != 0xED && !Continues(s[1]) then 0
      else if !Continues(s[2]) then 0 else 3
    else if b < 0xF5 then
      if |s| < 4 then 0
      else if b == 0xF0 && (s[1] < 0x90 || s[1] > 0xBF) then 0
      else if b == 0xF4 && (s[1] < 0x80 || s[1] > 0x8F) then 0
      else if b != 0xF0 && b != 0xF4 && !Continues(s[1]) then 0
      else if !Continues(s[2]) || !Continues(s[3]) then 0 else 4
    else 0
  }

  function Bits(b: byte, mark: int): int { b - mark }

  /** The scalar value of the unit at the front. */
  function Scalar(s: seq<byte>): nat
    requires s != [] && UnitLen(s) > 0
  {
    match UnitLen(s)
    case 1 => s[0]
    case 2 => Bits(s[0], 0xC0) * 64 + Bits(s[1], 0x80)
    case 3 => (Bits(s[0], 0xE0) * 64 + Bits(s[1], 0x80)) * 64 + Bits(s[2], 0x80)
    case _ => ((Bits(s[0], 0xF0) * 64 + Bits(s[1], 0x80)) * 64 + Bits(s[2], 0x80)) * 64 + Bits(s[3], 0x80)
  }

  lemma Mixed(hi: nat, lo: nat)
    requires lo < 64
    ensures (hi * 64 + lo) / 64 == hi && (hi * 64 + lo) % 64 == lo
  {}

  lemma Halves(c: nat)
    ensures c == c / 64 * 64 + c % 64 && c / 4096 == c / 64 / 64 && c / 262144 == c / 64 / 64 / 64
    ensures c / 64 == c / 4096 * 64 + c / 64 % 64 && c / 4096 == c / 262144 * 64 + c / 4096 % 64
  {}

  lemma TwoEncode(a: nat, b: nat)
    requires 2 <= a < 32 && b < 64
    ensures var c := a * 64 + b; 0x80 <= c < 0x800 && Encode(c) == [0xC0 + a, 0x80 + b]
  {
    Mixed(a, b);
  }

  lemma ThreeEncode(a: nat, b: nat, d: nat)
    requires a < 16 && b < 64 && d < 64 && (a == 0 ==> b >= 32) && (a == 13 ==> b < 32)
    ensures var c := (a * 64 + b) * 64 + d; IsScalar(c) && Encode(c) == [0xE0 + a, 0x80 + b, 0x80 + d]
  {
    var c := (a * 64 + b) * 64 + d;
    Mixed(a * 64 + b, d);
    Mixed(a, b);
    Halves(c);
  }

  lemma FourEncode(a: nat, b: nat, d: nat, e: nat)
    requires a < 5 && b < 64 && d < 64 && e < 64 && (a == 0 ==> b >= 16) && (a == 4 ==> b < 16)
    ensures var c := ((a * 64 + b) * 64 + d) * 64 + e;
      0x10000 <= c <= 0x10FFFF && Encode(c) == [0xF0 + a, 0x80 + b, 0x80 + d, 0x80 + e]
  {
    var c := ((a * 64 + b) * 64 + d) * 64 + e;
    Mixed((a * 64 + b) * 64 + d, e);
    Mixed(a * 64 + b, d);
    Mixed(a, b);
    Halves(c);
  }

  /** A unit is accepted only if it is the encoding of a scalar value. */
  lemma UnitEncodes(s: seq<byte>)
    requires s != [] && UnitLen(s) > 0
    ensures IsScalar(Scalar(s)) && Encode(Scalar(s)) == s[..UnitLen(s)]
  {
    var n := UnitLen(s);
    if n == 2 {
      TwoEncode(s[0] - 0xC0, s[1] - 0x80);
    } else if n == 3 {
      ThreeEncode(s[0] - 0xE0, s[1] - 0x80, s[2] - 0x80);
    } else if n == 4 {
      FourEncode(s[0] - 0xF0, s[1] - 0x80, s[2] - 0x80, s[3] - 0x80);
    }
  }

  lemma ThreeBytes(s: seq<byte>, c: nat)
    requires |s| >= 3 && 0x800 <= c < 0x10000 && IsScalar(c)
    requires s[0] == 0xE0 + c / 4096 && s[1] == 0x80 + c / 64 % 64 && s[2] == 0x80 + c % 64
    ensures UnitLen(s) == 3 && Scalar(s) == c
  {
    Halves(c);
  }

  lemma FourBytes(s: seq<byte>, c: nat)
    requires |s| >= 4 && 0x10000 <= c <= 0x10FFFF
    requires s[0] == 0xF0 + c / 262144 && s[1] == 0x80 + c / 4096 % 64
    requires s[2] == 0x80 + c / 64 % 64 && s[3] == 0x80 + c % 64
    ensures UnitLen(s) == 4 && Scalar(s) == c
  {
    Halves(c);
  }

  /** The encoding of every scalar value is accepted, whatever follows it. */
  lemma EncodedIsUnit(c: nat, rest: seq<byte>)
    requires IsScalar(c)
    ensures UnitLen(Encode(c) + rest) == |Encode(c)| && Scalar(Encode(c) + rest) == c
  {
    var s := Encode(c) + rest;
    if c < 0x800 {
      Halves(c);
    } else if c < 0x10000 {
      ThreeBytes(s, c);
    } else {
      FourBytes(s, c);
    }
  }

  /** Front to back, unit after unit. */
  function Valid(s: seq<byte>): bool
    decreases |s|
  {
    s == [] || (UnitLen(s) > 0 && Valid(s[UnitLen(s)..]))
  }

  lemma {:induction false} ValidIsText(s: seq<byte>) returns (cs: seq<nat>)
    requires Valid(s)
    ensures AllScalars(cs) && EncodeAll(cs) == s
    decreases |s|
  {
    if s == [] {
      cs := [];
    } else {
      var n := UnitLen(s);
      var rest := ValidIsText(s[n..]);
      UnitEncodes(s);
      cs := [Scalar(s)] + rest;
      assert s == s[..n] + s[n..];
    }
  }

  lemma {:induction false} TextIsValid(cs: seq<nat>)
    requires AllScalars(cs)
    ensures Valid(EncodeAll(cs))
  {
    if cs != [] {
      var rest := EncodeAll(cs[1..]);
      EncodedIsUnit(cs[0], rest);
      assert (Encode(cs[0]) + rest)[|Encode(cs[0])|..] == rest;
      TextIsValid(cs[1..]);
    }
  }

  /** Accepted exactly the concatenations of encodings of scalar values. */
  lemma ValidIffText(s: seq<byte>)
    ensures Valid(s) <==> IsText(s)
  {
    if Valid(s) { var cs := ValidIsText(s); }
    if IsText(s) {
      var cs: seq<nat> :| AllScalars(cs) && EncodeAll(cs) == s;
      TextIsValid(cs);
    }
  }

  /** utf8_decode_one at position `p`, and what it says about the rest. */
  method UnitAt(s: seq<byte>, p: nat) returns (n: nat)
    requires p < |s|
    ensures p + n <= |s| && (n == 0 ==> !Valid(s[p..])) && (n > 0 ==> (Valid(s[p..]) <==> Valid(s[p + n..])))
    ensures n > 0 ==> Repair(s[p..]) == s[p..p + n] + Repair(s[p + n..])
    ensures n == 0 ==> Repair(s[p..]) == REPLACEMENT_BYTES + Repair(s[p + 1..])
  {
    n := UnitLen(s[p..]);
    RestStep(s, p, n);
  }

  /** The loop of luafan_is_valid_utf8. */
  method AllUnits(s: seq<byte>) returns (ok: bool)
    ensures ok <==> Valid(s)
  {
    var p := 0;
    assert s[0..] == s;
    while p < |s|
      invariant 0 <= p <= |s|
      invariant Valid(s[p..]) <==> Valid(s)
    {
      var n := UnitAt(s, p);
      if n == 0 { return false; }
      p := p + n;
    }
    return true;
  }

  /** luafan_is_valid_utf8 */
  method IsValidUtf8(s: seq<byte>) returns (ok: bool)
    ensures ok <==> IsText(s)
  {
    ValidIffText(s);
    ok := AllUnits(s);
  }

  // ---------- repair ----------

  const REPLACEMENT: nat := 0xFFFD
  const REPLACEMENT_BYTES: seq<byte> := [0xEF, 0xBF, 0xBD]

  /** Decoding that never fails: U+FFFD stands for every byte that starts no unit. */
  function CodePoints(s: seq<byte>): (cs: seq<nat>)
    decreases |s|
  {
    if s == [] then []
    else if UnitLen(s) > 0 then [Scalar(s)] + CodePoints(s[UnitLen(s)..])
    else [REPLACEMENT] + CodePoints(s[1..])
  }

  lemma {:induction false} CodePointsAreScalars(s: seq<byte>)
    ensures AllScalars(CodePoints(s))
    decreases |s|
  {
    if s != [] {
      if UnitLen(s) > 0 {
        UnitEncodes(s);
        CodePointsAreScalars(s[UnitLen(s)..]);
      } else {
        CodePointsAreScalars(s[1..]);
      }
    }
  }

  /** What the repair loop writes for the rest of the input. */
  function Repair(s: seq<byte>): seq<byte>
    decreases |s|
  {
    if s == [] then []
    else if UnitLen(s) > 0 then s[..UnitLen(s)] + Repair(s[UnitLen(s)..])
    else REPLACEMENT_BYTES + Repair(s[1..])
  }

  /** Repair is lossy decoding followed by encoding: every well-formed unit stays, in order. */
  lemma {:induction false} RepairEncodes(s: seq<byte>)
    ensures AllScalars(CodePoints(s)) && Repair(s) == EncodeAll(CodePoints(s))
    decreases |s|
  {
    CodePointsAreScalars(s);
    if s != [] {
      var cs := CodePoints(s);
      if UnitLen(s) > 0 {
        UnitEncodes(s);
        RepairEncodes(s[UnitLen(s)..]);
        assert cs[1..] == CodePoints(s[UnitLen(s)..]);
      } else {
        RepairEncodes(s[1..]);
        assert cs[1..] == CodePoints(s[1..]) && Encode(REPLACEMENT) == REPLACEMENT_BYTES;
      }
    }
  }

  lemma RepairIsValid(s: seq<byte>)
    ensures Valid(Repair(s)) && IsText(Repair(s))
  {
    RepairEncodes(s);
    TextIsValid(CodePoints(s));
  }

  lemma {:induction false} RepairKeepsValid(s: seq<byte>)
    requires Valid(s)
    ensures Repair(s) == s
    decreases |s|
  {
    if s != [] {
      RepairKeepsValid(s[UnitLen(s)..]);
      assert s == s[..UnitLen(s)] + s[UnitLen(s)..];
    }
  }

  /** Repairing twice changes nothing more, and the text reads the same before and after. */
  lemma RepairIdempotent(s: seq<byte>)
    ensures Repair(Repair(s)) == Repair(s) && CodePoints(Repair(s)) == CodePoints(s)
  {
    RepairIsValid(s);
    RepairKeepsValid(Repair(s));
    RepairEncodes(s);
    EncodedReadsBack(CodePoints(s));
  }

  lemma {:induction false} EncodedReadsBack(cs: seq<nat>)
    requires AllScalars(cs)
    ensures CodePoints(EncodeAll(cs)) == cs
  {
    if cs != [] {
      var rest := EncodeAll(cs[1..]);
      EncodedIsUnit(cs[0], rest);
      assert (Encode(cs[0]) + rest)[|Encode(cs[0])|..] == rest;
      EncodedReadsBack(cs[1..]);
      assert cs == [cs[0]] + cs[1..];
    }
  }

  lemma {:induction false} RepairLength(s: seq<byte>)
    ensures |Repair(s)| <= 3 * |s|
    decreases |s|
  {
    if s != [] {
      if UnitLen(s) > 0 { RepairLength(s[UnitLen(s)..]); } else { RepairLength(s[1..]); }
    }
  }

  /** Appends to the output buffer, doubling it when it is full. */
  method Put(out: array<byte>, outlen: nat, b: seq<byte>) returns (grown: array<byte>, len: nat)
    requires outlen <= out.Length
    modifies out
    ensures (grown == out || fresh(grown)) && len == outlen + |b| <= grown.Length
    ensures grown[..len] == old(out[..outlen]) + b
  {
    grown := out;
    if outlen + |b| > out.Length {
      grown := new byte[(outlen + |b|) * 2];
      forall i | 0 <= i < outlen { grown[i] := out[i]; }
    }
    forall i | 0 <= i < |b| { grown[outlen + i] := b[i]; }
    len := outlen + |b|;
  }

  /** One unit of the rest of the input. */
  lemma RestStep(s: seq<byte>, q: nat, n: nat)
    requires q < |s| && n == UnitLen(s[q..])
    ensures n > 0 ==> q + n <= |s| && (Valid(s[q..]) <==> Valid(s[q + n..]))
    ensures n > 0 ==> q + n <= |s| && Repair(s[q..]) == s[q..q + n] + Repair(s[q + n..])
    ensures n == 0 ==> !Valid(s[q..]) && Repair(s[q..]) == REPLACEMENT_BYTES + Repair(s[q + 1..])
  {
    if n > 0 {
      assert s[q..][n..] == s[q + n..] && s[q..][..n] == s[q..q + n];
    } else {
      assert s[q..][1..] == s[q + 1..];
    }
  }

  /** The input is valid up to `q`. */
  ghost predicate Scanned(s: seq<byte>, q: nat) {
    q <= |s| && (Valid(s[q..]) <==> Valid(s)) && Repair(s) == s[..q] + Repair(s[q..])
  }

  lemma ScannedOn(s: seq<byte>, q: nat, n: nat)
    requires Scanned(s, q) && q + n <= |s| && (Valid(s[q..]) <==> Valid(s[q + n..]))
    requires Repair(s[q..]) == s[q..q + n] + Repair(s[q + n..])
    ensures Scanned(s, q + n)
  {
    Assoc(s[..q], s[q..q + n], Repair(s[q + n..]));
    assert s[..q + n] == s[..q] + s[q..q + n];
  }

  /** The fast path: how far the input is valid. */
  method ScanValid(s: seq<byte>) returns (q: nat)
    ensures q <= |s| && (q == |s| <==> Valid(s)) && Repair(s) == s[..q] + Repair(s[q..])
  {
    q := 0;
    assert s[0..] == s && s[..0] + Repair(s) == Repair(s);
    while q < |s|
      invariant Scanned(s, q)
    {
      var n := UnitAt(s, q);
      if n == 0 { return; }
      ScannedOn(s, q, n);
      q := q + n;
    }
  }

  /** The repair path: the valid prefix, then unit by unit or byte by byte. */
  method RepairFrom(s: seq<byte>, start: nat) returns (r: seq<byte>)
    requires start <= |s|
    ensures r == s[..start] + Repair(s[start..])
  {
    var out := new byte[|s| + 16];
    var q, outlen: nat := start, start;
    forall i | 0 <= i < q { out[i] := s[i]; }
    assert out[..outlen] == s[..q];
    while q < |s|
      invariant q <= |s| && outlen <= out.Length && fresh(out)
      invariant s[..start] + Repair(s[start..]) == out[..outlen] + Repair(s[q..])
    {
      var n := UnitAt(s, q);
      var b := if n > 0 then s[q..q + n] else REPLACEMENT_BYTES;
      q := if n > 0 then q + n else q + 1;
      Assoc(out[..outlen], b, Repair(s[q..]));
      out, outlen := Put(out, outlen, b);
    }
    r := out[..outlen];
    assert r + Repair(s[q..]) == r;
  }

  /** luafan_sanitize_utf8: the input itself when it is valid, else its repair. */
  method SanitizeUtf8(s: seq<byte>) returns (r: seq<byte>)
    ensures r == Repair(s) && IsText(r) && |r| <= 3 * |s|
    ensures IsText(s) ==> r == s
  {
    RepairIsValid(s);
    RepairLength(s);
    ValidIffText(s);
    var q := ScanValid(s);
    if Valid(s) { RepairKeepsValid(s); }
    if q == |s| { return s; }
    r := RepairFrom(s, q);
  }
}
