/** json.c, decoding: what each parser makes of the rest of the input. */
module JsonParse {
  import opened Bytes
  import opened LuaGraph
  import opened JsonText

  /** A parsed value and the input after it; None is a raised error. */
  type Parsed<T> = Option<(T, seq<byte>)>

  function SkipSpace(s: seq<byte>): (r: seq<byte>)
    ensures |r| <= |s|
  {
    if s != [] && IsSpace(s[0]) then SkipSpace(s[1..]) else s
  }

  /** How far the next delimiter is. */
  function SpanLen(s: seq<byte>): (n: nat)
    ensures n <= |s|
  {
    if s == [] || IsDelim(s[0]) then 0 else 1 + SpanLen(s[1..])
  }

  // ---------- strings ----------

  predicate IsHex(c: byte) { 48 <= c <= 57 || 97 <= c <= 102 || 65 <= c <= 70 }

  function HexValue(c: byte): nat {
    if 48 <= c <= 57 then c - 48 else if 97 <= c <= 102 then c - 87 else if 65 <= c <= 70 then c - 55 else 0
  }

  predicate AllHex(s: seq<byte>) { |s| >= 4 && IsHex(s[0]) && IsHex(s[1]) && IsHex(s[2]) && IsHex(s[3]) }

  function Hex4(s: seq<byte>): (n: nat)
    requires |s| >= 4
    ensures n < 0x10000
  {
    ((HexValue(s[0]) * 16 + HexValue(s[1])) * 16 + HexValue(s[2])) * 16 + HexValue(s[3])
  }

  predicate IsHighSurrogate(s: seq<byte>) {
    AllHex(s) && (s[0] == 100 || s[0] == 68) && (56 <= s[1] <= 57 || 97 <= s[1] <= 98 || 65 <= s[1] <= 66)
  }

  function CodepointUtf8(n: nat): Option<seq<byte>> {
    if n <= 0x7f then Some([n])
    else if n <= 0x7ff then Some([0xc0 + n / 64, 0x80 + n % 64])
    else if n <= 0xffff then Some([0xe0 + n / 4096, 0x80 + n / 64 % 64, 0x80 + n % 64])
    else if n <= 0x10ffff then Some([0xf0 + n / 262144, 0x80 + n / 4096 % 64, 0x80 + n / 64 % 64, 0x80 + n % 64])
    else None
  }

  /** The code point of a `\u` escape, given what follows the `u`, and how much of it was used. */
  function UnicodeEscape(s: seq<byte>): (r: Option<(nat, nat)>)
    ensures r.Some? ==> (r.value.1 == 4 || r.value.1 == 10) && r.value.1 <= |s|
  {
    if |s| < 4 then None
    else if IsHighSurrogate(s) && |s| >= 10 && s[4] == BACKSLASH && s[5] == 117 && AllHex(s[6..]) then
      Some(((Hex4(s) - 0xd800) * 0x400 + Hex4(s[6..]) - 0xdc00 + 0x10000, 10))
    else if AllHex(s) then Some((Hex4(s), 4))
    else None
  }

  function SimpleEscape(c: byte): Option<byte> {
    if c == BACKSLASH || c == 47 || c == QUOTE then Some(c)
    else if c == 98 then Some(8)
    else if c == 102 then Some(12)
    else if c == 110 then Some(10)
    else if c == 114 then Some(13)
    else if c == 116 then Some(9)
    else None
  }

  /** One escape sequence, after the backslash: the bytes it stands for and the input left. */
  function ParseEscape(s: seq<byte>): (r: Parsed<seq<byte>>)
    ensures r.Some? ==> |r.value.1| < |s|
  {
    if s == [] then None
    else if s[0] == 117 then
      var (cp, used) :- UnicodeEscape(s[1..]);
      var utf8 :- CodepointUtf8(cp);
      Some((utf8, s[1 + used..]))
    else
      var c :- SimpleEscape(s[0]);
      Some(([c], s[1..]))
  }

  /** The rest of a string, after the opening quote. */
  function ParseChars(s: seq<byte>): (r: Parsed<seq<byte>>)
    ensures r.Some? ==> |r.value.1| < |s|
    decreases |s|
  {
    if s == [] || s[0] < 32 then None
    else if s[0] == QUOTE then Some(([], s[1..]))
    else if s[0] == BACKSLASH then
      var (cs, rest) :- ParseEscape(s[1..]);
      var (more, end) :- ParseChars(rest);
      Some((cs + more, end))
    else
      var (more, end) :- ParseChars(s[1..]);
      Some(([s[0]] + more, end))
  }

  function ParseString(s: seq<byte>): (r: Parsed<seq<byte>>)
    ensures r.Some? ==> |r.value.1| < |s|
  {
    if s == [] || s[0] != QUOTE then None else ParseChars(s[1..])
  }

  // ---------- numbers and literals ----------

  predicate AllDigits(t: seq<byte>) { forall i :: 0 <= i < |t| ==> ZERO <= t[i] <= NINE }

  function DigitsValue(t: seq<byte>): nat
    requires AllDigits(t)
  {
    if t == [] then 0 else DigitsValue(t[..|t| - 1]) * 10 + (t[|t| - 1] - ZERO)
  }

  /** `strtod` on the whole span; up to fourteen digits it is exact. */
  function ParseFloat(f: Floats, t: seq<byte>): Option<Num> {
    if 1 <= |t| <= 14 && AllDigits(t) then Some(Finite(DigitsValue(t) as real))
    else if 2 <= |t| <= 15 && t[0] == MINUS && AllDigits(t[1..]) then Some(Finite((0 - DigitsValue(t[1..])) as real))
    else f.parse(t)
  }

  function ParseNumber(f: Floats, s: seq<byte>): (r: Parsed<Num>)
    ensures r.Some? ==> |r.value.1| < |s|
  {
    var n := SpanLen(s);
    if n == 0 || n >= 128 then None else
    var x :- ParseFloat(f, s[..n]);
    Some((x, s[n..]))
  }

  function ParseLiteral(s: seq<byte>): (r: Parsed<Json>)
    ensures r.Some? ==> |r.value.1| < |s|
  {
    var n := SpanLen(s);
    if s[..n] == TRUE then Some((JBool(true), s[n..]))
    else if s[..n] == FALSE then Some((JBool(false), s[n..]))
    else if s[..n] == NULL then Some((JNull, s[n..]))
    else None
  }

  // ---------- values ----------

  function ParseValue(f: Floats, s: seq<byte>): (r: Parsed<Json>)
    ensures r.Some? ==> |r.value.1| < |s|
    decreases |s|, 0
  {
    if s == [] then None
    else if s[0] == QUOTE then var (d, rest) :- ParseString(s); Some((JStr(d), rest))
    else if ZERO <= s[0] <= NINE || s[0] == MINUS then var (n, rest) :- ParseNumber(f, s); Some((JNum(n), rest))
    else if s[0] == 116 || s[0] == 102 || s[0] == 110 then ParseLiteral(s)
    else if s[0] == LBRACKET then var (vs, rest) :- ParseItems(f, s[1..]); Some((JArr(vs), rest))
    else if s[0] == LBRACE then var (m, rest) :- ParseFields(f, s[1..], map[]); Some((JObj(m), rest))
    else None
  }

  /** After a value: the closing bracket, or a comma and more. */
  function ParseItems(f: Floats, s: seq<byte>): (r: Parsed<seq<Json>>)
    ensures r.Some? ==> |r.value.1| < |s|
    decreases |s|, 1
  {
    var s1 := SkipSpace(s);
    if s1 != [] && s1[0] == RBRACKET then Some(([], s1[1..])) else
    var (v, s2) :- ParseValue(f, s1);
    var s3 := SkipSpace(s2);
    if s3 == [] then None
    else if s3[0] == RBRACKET then Some(([v], s3[1..]))
    else if s3[0] == COMMA then var (vs, rest) :- ParseItems(f, s3[1..]); Some(([v] + vs, rest))
    else None
  }

  /** A key, its colon, and where its value starts. */
  function ParseKey(s: seq<byte>): (r: Parsed<seq<byte>>)
    ensures r.Some? ==> |r.value.1| < |s|
  {
    var (k, s2) :- ParseString(s);
    var s3 := SkipSpace(s2);
    if s3 == [] || s3[0] != COLON then None else Some((k, SkipSpace(s3[1..])))
  }

  function ParseFields(f: Floats, s: seq<byte>, m: map<seq<byte>, Json>): (r: Parsed<map<seq<byte>, Json>>)
    ensures r.Some? ==> |r.value.1| < |s|
    decreases |s|, 1
  {
    var s1 := SkipSpace(s);
    if s1 != [] && s1[0] == RBRACE then Some((m, s1[1..])) else
    var (k, s2) :- ParseKey(s1);
    var (v, s3) :- ParseValue(f, s2);
    var s4 := SkipSpace(s3);
    if s4 == [] then None
    else if s4[0] == RBRACE then Some((m[k := v], s4[1..]))
    else if s4[0] == COMMA then ParseFields(f, s4[1..], m[k := v])
    else None
  }

  function Decode(f: Floats, s: seq<byte>): Option<Json> {
    var (v, rest) :- ParseValue(f, SkipSpace(s));
    if SkipSpace(rest) == [] then Some(v) else None
  }
}
