/** JSON string literals and UTF-8: proper escapes in valid text decode to valid text. */
module JsonUnicode {
  import opened Bytes
  import opened JsonText
  import opened JsonParse
  import opened Utf8

  // ---------- codepoint_to_utf8 ----------

  lemma CodepointEncodes(c: nat)
    requires IsScalar(c)
    ensures CodepointUtf8(c) == Some(Encode(c))
  {}

  /** Different code points never share bytes, surrogates included. */
  lemma CodepointInjective(a: nat, b: nat)
    requires a <= 0x10FFFF && b <= 0x10FFFF && CodepointUtf8(a) == CodepointUtf8(b)
    ensures a == b
  {
    Halves(a);
    Halves(b);
    var s, t := CodepointUtf8(a).value, CodepointUtf8(b).value;
    assert |s| == |t| && s[0] == t[0] && s[|s| - 1] == t[|t| - 1];
    if |s| == 3 { assert s[1] == t[1]; }
    if |s| == 4 { assert s[1] == t[1] && s[2] == t[2]; }
  }

  // ---------- valid text ----------

  lemma UnitExtends(a: seq<byte>, b: seq<byte>)
    requires a != [] && UnitLen(a) > 0
    ensures UnitLen(a + b) == UnitLen(a) && (a + b)[UnitLen(a)..] == a[UnitLen(a)..] + b
  {
    var n := UnitLen(a);
    UnitEncodes(a);
    EncodedIsUnit(Scalar(a), a[n..] + b);
    assert a + b == a[..n] + (a[n..] + b);
  }

  lemma {:induction false} ValidConcat(a: seq<byte>, b: seq<byte>)
    requires Valid(a) && Valid(b)
    ensures Valid(a + b)
    decreases |a|
  {
    if a == [] {
      assert a + b == b;
    } else {
      UnitExtends(a, b);
      ValidConcat(a[UnitLen(a)..], b);
    }
  }

  lemma {:induction false} DropAscii(t: seq<byte>, m: nat)
    requires Valid(t) && m <= |t| && forall i :: 0 <= i < m ==> t[i] < 0x80
    ensures Valid(t[m..])
  {
    if m == 0 {
      assert t[0..] == t;
    } else {
      DropAscii(t[1..], m - 1);
      assert t[1..][m - 1..] == t[m..];
    }
  }

  lemma ScalarIsValid(c: nat)
    requires IsScalar(c)
    ensures Valid(Encode(c))
  {
    EncodedIsUnit(c, []);
    assert Encode(c) + [] == Encode(c);
  }

  // ---------- escapes ----------

  /** A `\u` escape that is not a surrogate, or a high surrogate followed by a low one. */
  predicate ProperUnicode(t: seq<byte>) {
    var u := UnicodeEscape(t);
    u.Some? ==> if u.value.1 == 4 then IsScalar(Hex4(t)) else 0xDC00 <= Hex4(t[6..]) <= 0xDFFF
  }

  predicate ProperEscapes(s: seq<byte>)
    decreases |s|
  {
    if s == [] || s[0] == QUOTE then true
    else if s[0] == BACKSLASH then
      && (|s| > 1 && s[1] == 117 ==> ProperUnicode(s[2..]))
      && var e := ParseEscape(s[1..]); (e.Some? ==> ProperEscapes(e.value.1))
    else ProperEscapes(s[1..])
  }

  lemma HighSurrogate(s: seq<byte>)
    requires IsHighSurrogate(s)
    ensures 0xD800 <= Hex4(s) <= 0xDBFF
  {}

  /** A proper `\u` escape is that of a scalar value, in hexadecimal digits. */
  lemma CodeProper(t: seq<byte>)
    requires UnicodeEscape(t).Some? && ProperUnicode(t)
    ensures var (cp, used) := UnicodeEscape(t).value;
      IsScalar(cp) && forall i :: 0 <= i < used ==> t[i] < 0x80
  {
    var (cp, used) := UnicodeEscape(t).value;
    if used == 10 {
      HighSurrogate(t);
      assert t[6..][0] == t[6] && t[6..][1] == t[7] && t[6..][2] == t[8] && t[6..][3] == t[9];
    }
  }

  /** A proper escape yields valid text and is written in ASCII. */
  lemma EscapeValid(s: seq<byte>)
    requires s != [] && ParseEscape(s).Some? && (s[0] == 117 ==> ProperUnicode(s[1..]))
    ensures var (cs, rest) := ParseEscape(s).value;
      && Valid(cs) && rest == s[|s| - |rest|..]
      && forall i :: 0 <= i < |s| - |rest| ==> s[i] < 0x80
  {
    var (cs, rest) := ParseEscape(s).value;
    if s[0] == 117 {
      var t := s[1..];
      var (cp, used) := UnicodeEscape(t).value;
      CodeProper(t);
      CodepointEncodes(cp);
      ScalarIsValid(cp);
      assert forall i :: 0 <= i < used ==> s[i + 1] == t[i];
    } else {
      ScalarIsValid(cs[0]);
    }
  }

  // ---------- literals ----------

  /** Bytes from 0x80 on are copied. */
  lemma {:induction false} RawRun(s: seq<byte>, n: nat)
    requires n <= |s| && (forall i :: 0 <= i < n ==> s[i] >= 0x80)
    requires ParseChars(s).Some? && ProperEscapes(s)
    ensures ParseChars(s[n..]).Some? && ProperEscapes(s[n..])
    ensures ParseChars(s).value == (s[..n] + ParseChars(s[n..]).value.0, ParseChars(s[n..]).value.1)
  {
    if n == 0 {
      assert s[0..] == s && s[..0] + ParseChars(s).value.0 == ParseChars(s).value.0;
    } else {
      RawRun(s[1..], n - 1);
      assert s[1..][n - 1..] == s[n..];
      assert s[..n] == [s[0]] + s[1..][..n - 1];
      Assoc([s[0]], s[1..][..n - 1], ParseChars(s[n..]).value.0);
    }
  }

  lemma HighUnit(t: seq<byte>, i: nat)
    requires t != [] && t[0] >= 0x80 && UnitLen(t) > 0 && i < UnitLen(t)
    ensures t[i] >= 0x80
  {}

  lemma SliceSplit(s: seq<byte>, k: nat, n: nat)
    requires n <= k <= |s|
    ensures s[..k][n..] == s[n..][..k - n] && s[..k][..n] == s[..n]
  {}

  /** The valid unit at the front of `t`, and that the rest is valid. */
  lemma UnitIsValid(t: seq<byte>)
    requires t != [] && Valid(t)
    ensures UnitLen(t) > 0 && Valid(t[..UnitLen(t)]) && Valid(t[UnitLen(t)..])
    ensures if t[0] < 0x80 then UnitLen(t) == 1 else forall i :: 0 <= i < UnitLen(t) ==> t[i] >= 0x80
  {
    UnitEncodes(t);
    ScalarIsValid(Scalar(t));
    if t[0] >= 0x80 {
      forall i | 0 <= i < UnitLen(t) ensures t[i] >= 0x80 { HighUnit(t, i); }
    }
  }

  lemma AsciiRead(s: seq<byte>)
    requires ParseChars(s).Some? && s[0] != QUOTE && s[0] != BACKSLASH && ProperEscapes(s)
    ensures ParseChars(s[1..]).Some? && ProperEscapes(s[1..])
    ensures ParseChars(s).value == (s[..1] + ParseChars(s[1..]).value.0, ParseChars(s[1..]).value.1)
  {
    assert s[..1] == [s[0]];
  }

  /** The first `n` bytes are a valid unit, copied as it is, and the rest is a literal again. */
  ghost predicate Copies(s: seq<byte>, k: nat, n: nat) {
    && 0 < n <= k <= |s| && Valid(s[..n]) && Valid(s[n..][..k - n]) && ProperEscapes(s[n..])
    && ParseChars(s).Some? && ParseChars(s[n..]).Some?
    && ParseChars(s).value == (s[..n] + ParseChars(s[n..]).value.0, ParseChars(s[n..]).value.1)
  }

  lemma FirstUnit(s: seq<byte>, k: nat) returns (n: nat)
    requires ParseChars(s).Some? && 0 < k < |s| && s[0] != QUOTE && s[0] != BACKSLASH
    requires Valid(s[..k]) && ProperEscapes(s)
    ensures Copies(s, k, n)
  {
    UnitIsValid(s[..k]);
    n := UnitLen(s[..k]);
    SliceSplit(s, k, n);
    if s[0] >= 0x80 {
      assert forall i :: 0 <= i < n ==> s[i] == s[..k][i];
      RawRun(s, n);
    } else {
      AsciiRead(s);
    }
  }

  lemma FirstEscape(s: seq<byte>, k: nat) returns (m: nat)
    requires ParseChars(s).Some? && k == |s| - |ParseChars(s).value.1| - 1 && s[0] == BACKSLASH
    requires Valid(s[..k]) && ProperEscapes(s)
    ensures ParseEscape(s[1..]).Some? && var (cs, more) := ParseEscape(s[1..]).value;
      && m == |s| - |more| && 0 < m <= k && more == s[m..] && Valid(cs) && Valid(more[..k - m])
      && ProperEscapes(more) && ParseChars(more).Some?
      && ParseChars(s).value == (cs + ParseChars(more).value.0, ParseChars(more).value.1)
  {
    EscapeValid(s[1..]);
    var more := ParseEscape(s[1..]).value.1;
    m := |s| - |more|;
    assert forall i :: 1 <= i < m ==> s[i] == s[1..][i - 1];
    DropAscii(s[..k], m);
    SliceSplit(s, k, m);
  }

  /** If the bytes of a literal before its closing quote are valid text and its escapes are
      proper, the decoded string is valid text. */
  lemma {:induction false} LiteralIsValid(s: seq<byte>, k: nat)
    requires ParseChars(s).Some? && k == |s| - |ParseChars(s).value.1| - 1
    requires Valid(s[..k]) && ProperEscapes(s)
    ensures Valid(ParseChars(s).value.0)
    decreases |s|
  {
    if s[0] == QUOTE {
    } else if s[0] == BACKSLASH {
      var m := FirstEscape(s, k);
      LiteralIsValid(s[m..], k - m);
      ValidConcat(ParseEscape(s[1..]).value.0, ParseChars(s[m..]).value.0);
    } else {
      var n := FirstUnit(s, k);
      LiteralIsValid(s[n..], k - n);
      ValidConcat(s[..n], ParseChars(s[n..]).value.0);
    }
  }
}
