/** Decoding a printed document gives its meaning, wherever whitespace was placed. */
module JsonRoundTrip {
  import opened Bytes
  import opened LuaGraph
  import opened JsonText
  import opened JsonParse

  // ---------- whitespace and spans ----------

  /** The input ends or a delimiter follows: where a number or literal stops. */
  ghost predicate Stops(s: seq<byte>) { s == [] || IsDelim(s[0]) }

  ghost predicate NoSpace(s: seq<byte>) { s == [] || !IsSpace(s[0]) }

  lemma {:induction false} SkipAll(w: seq<byte>, s: seq<byte>)
    requires AllSpace(w) && NoSpace(s)
    ensures SkipSpace(w + s) == s
  {
    if w == [] {
      assert w + s == s;
    } else {
      assert (w + s)[1..] == w[1..] + s;
      SkipAll(w[1..], s);
    }
  }

  lemma {:induction false} SpanAll(t: seq<byte>, s: seq<byte>)
    requires (forall i :: 0 <= i < |t| ==> !IsDelim(t[i])) && Stops(s)
    ensures SpanLen(t + s) == |t|
  {
    if t == [] {
      assert t + s == s;
    } else {
      assert (t + s)[1..] == t[1..] + s;
      SpanAll(t[1..], s);
    }
  }

  // ---------- numbers ----------

  lemma {:induction false} DigitsBack(n: nat)
    ensures |Digits(n)| > 0 && AllDigits(Digits(n)) && DigitsValue(Digits(n)) == n
  {
    if n >= 10 {
      DigitsBack(n / 10);
      var t := Digits(n);
      assert t[..|t| - 1] == Digits(n / 10);
    } else {
      assert [ZERO + n][..0] == [];
    }
  }

  function Pow10(k: nat): nat { if k == 0 then 1 else 10 * Pow10(k - 1) }

  lemma {:induction false} DigitsShort(n: nat, k: nat)
    requires k > 0 && n < Pow10(k)
    ensures |Digits(n)| <= k
  {
    if n >= 10 { DigitsShort(n / 10, k - 1); }
  }

  lemma LimitDigits()
    ensures Pow10(14) == LIMIT
  {
    assert Pow10(7) == 10_000_000;
  }

  lemma IntText(f: Floats, n: Num)
    requires IsSmallInt(n)
    ensures var t := NumberText(f, n);
      && 0 < |t| <= 15 && (ZERO <= t[0] <= NINE || t[0] == MINUS)
      && (forall i :: 0 <= i < |t| ==> !IsDelim(t[i]))
      && ParseFloat(f, t) == Some(n)
  {
    var k := n.r.Floor;
    var a: nat := if k < 0 then -k else k;
    LimitDigits();
    DigitsShort(a, 14);
    DigitsBack(a);
    if k < 0 { assert ([MINUS] + Digits(a))[1..] == Digits(a); }
  }

  lemma NumberBack(f: Floats, n: Num, s: seq<byte>)
    requires IsSmallInt(n) && Stops(s)
    ensures ParseNumber(f, NumberText(f, n) + s) == Some((n, s))
  {
    var t := NumberText(f, n);
    IntText(f, n);
    SpanAll(t, s);
    assert (t + s)[..|t|] == t && (t + s)[|t|..] == s;
  }

  lemma LiteralBack(t: seq<byte>, s: seq<byte>)
    requires t == NULL || t == TRUE || t == FALSE
    requires Stops(s)
    ensures ParseLiteral(t + s) == Some((if t == NULL then JNull else JBool(t == TRUE), s))
  {
    SpanAll(t, s);
    assert (t + s)[..|t|] == t && (t + s)[|t|..] == s;
  }

  // ---------- strings ----------

  lemma HexBack(d: nat)
    requires d < 16
    ensures IsHex(HexDigit(d)) && HexValue(HexDigit(d)) == d
  {}

  lemma ControlBack(c: byte, s: seq<byte>)
    requires c < 32
    ensures ParseEscape([117, ZERO, ZERO, HexDigit(c / 16), HexDigit(c % 16)] + s) == Some(([c], s))
  {
    var t := [117, ZERO, ZERO, HexDigit(c / 16), HexDigit(c % 16)] + s;
    HexBack(c / 16);
    HexBack(c % 16);
    var u := t[1..];
    assert u[0] == ZERO && u[1] == ZERO && u[2] == HexDigit(c / 16) && u[3] == HexDigit(c % 16);
    assert Hex4(u) == c;
    assert t[5..] == s;
  }

  lemma EscapeBack(c: byte, s: seq<byte>)
    ensures var e := Escape(c);
      if e[0] == BACKSLASH then |e| > 1 && ParseEscape(e[1..] + s) == Some(([c], s))
      else e == [c] && c >= 32 && c != QUOTE && c != BACKSLASH
  {
    var e := Escape(c);
    if e[0] == BACKSLASH {
      if |e| == 2 {
        assert e[1..] + s == [e[1]] + s && ([e[1]] + s)[1..] == s;
      } else {
        assert e[1..] == [117, ZERO, ZERO, HexDigit(c / 16), HexDigit(c % 16)];
        ControlBack(c, s);
      }
    }
  }

  lemma CharsStep(e: seq<byte>, c: byte, t: seq<byte>, more: seq<byte>, s: seq<byte>)
    requires e != [] && ParseChars(t) == Some((more, s))
    requires if e[0] == BACKSLASH then ParseEscape(e[1..] + t) == Some(([c], t))
             else e == [c] && c >= 32 && c != QUOTE
    ensures ParseChars(e + t) == Some(([c] + more, s))
  {
    assert e == [e[0]] + e[1..];
    Assoc([e[0]], e[1..], t);
    assert (e + t)[0] == e[0] && (e + t)[1..] == e[1..] + t;
    if e[0] != BACKSLASH { assert e[1..] + t == t; }
  }

  lemma {:induction false} CharsBack(d: seq<byte>, s: seq<byte>)
    ensures ParseChars(Escaped(d) + ([QUOTE] + s)) == Some((d, s))
  {
    if d == [] {
      assert Escaped(d) + ([QUOTE] + s) == [QUOTE] + s;
      assert ([QUOTE] + s)[1..] == s;
    } else {
      var t := Escaped(d[1..]) + ([QUOTE] + s);
      Assoc(Escape(d[0]), Escaped(d[1..]), [QUOTE] + s);
      CharsBack(d[1..], s);
      EscapeBack(d[0], t);
      CharsStep(Escape(d[0]), d[0], t, d[1..], s);
      assert d == [d[0]] + d[1..];
    }
  }

  /** Every byte string, valid text or not, survives escaping and parsing. */
  lemma StringBack(d: seq<byte>, s: seq<byte>)
    ensures ParseString(StringText(d) + s) == Some((d, s))
  {
    CharsBack(d, s);
    Bracketed(QUOTE, Escaped(d), QUOTE, s);
  }

  // ---------- arrays and objects ----------

  /** A value's text starts with none of the characters that end or separate. */
  ghost predicate Starts(t: seq<byte>) { t != [] && !IsSpace(t[0]) && t[0] != RBRACKET && t[0] != RBRACE }

  lemma PrintStarts(f: Floats, d: Doc)
    requires Exact(d)
    ensures Starts(Print(f, d))
  {
    if d.Num? { IntText(f, d.n); }
  }

  lemma SpaceStops(w: seq<byte>, s: seq<byte>)
    requires AllSpace(w) && Stops(s)
    ensures Stops(w + s)
  {
    if w == [] { assert w + s == s; }
  }

  lemma ItemStep(f: Floats, before: seq<byte>, t: seq<byte>, after: seq<byte>, tail: seq<byte>, v: Json)
    requires AllSpace(before) && AllSpace(after) && Starts(t)
    requires tail != [] && (tail[0] == RBRACKET || tail[0] == COMMA)
    requires ParseValue(f, t + (after + tail)) == Some((v, after + tail))
    ensures var r := ParseItems(f, before + (t + (after + tail)));
      if tail[0] == RBRACKET then r == Some(([v], tail[1..]))
      else match ParseItems(f, tail[1..])
        case Some((vs, rest)) => r == Some(([v] + vs, rest))
        case None => r == None
  {
    SkipAll(before, t + (after + tail));
    SkipAll(after, tail);
  }

  /** A field whose key is written as `q` and means `k`. */
  lemma KeyedStep(f: Floats, w0: seq<byte>, q: seq<byte>, k: seq<byte>, w1: seq<byte>, w2: seq<byte>,
      t: seq<byte>, w3: seq<byte>, tail: seq<byte>, v: Json, m: map<seq<byte>, Json>)
    requires AllSpace(w0) && AllSpace(w1) && AllSpace(w2) && AllSpace(w3) && Starts(t) && q != [] && q[0] == QUOTE
    requires tail != [] && (tail[0] == RBRACE || tail[0] == COMMA)
    requires var s2 := w1 + ([COLON] + (w2 + (t + (w3 + tail)))); ParseString(q + s2) == Some((k, s2))
    requires ParseValue(f, t + (w3 + tail)) == Some((v, w3 + tail))
    ensures var r := ParseFields(f, w0 + (q + (w1 + ([COLON] + (w2 + (t + (w3 + tail)))))), m);
      if tail[0] == RBRACE then r == Some((m[k := v], tail[1..])) else r == ParseFields(f, tail[1..], m[k := v])
  {
    var s4 := t + (w3 + tail);
    var s3 := [COLON] + (w2 + s4);
    var s1 := q + (w1 + s3);
    SkipAll(w0, s1);
    SkipAll(w1, s3);
    assert s3[1..] == w2 + s4;
    SkipAll(w2, s4);
    assert ParseKey(s1) == Some((k, s4));
    SkipAll(w3, tail);
  }

  lemma FieldStep(f: Floats, w: Field, t: seq<byte>, tail: seq<byte>, v: Json, m: map<seq<byte>, Json>)
    requires AllSpace(w.beforeKey) && AllSpace(w.afterKey) && AllSpace(w.before) && AllSpace(w.after) && Starts(t)
    requires tail != [] && (tail[0] == RBRACE || tail[0] == COMMA)
    requires ParseValue(f, t + (w.after + tail)) == Some((v, w.after + tail))
    ensures var s2 := w.afterKey + ([COLON] + (w.before + (t + (w.after + tail))));
      var r := ParseFields(f, w.beforeKey + (StringText(w.key) + s2), m);
      if tail[0] == RBRACE then r == Some((m[w.key := v], tail[1..]))
      else r == ParseFields(f, tail[1..], m[w.key := v])
  {
    StringBack(w.key, w.afterKey + ([COLON] + (w.before + (t + (w.after + tail)))));
    KeyedStep(f, w.beforeKey, StringText(w.key), w.key, w.afterKey, w.before, t, w.after, tail, v, m);
  }

  /** What may follow the last item: the closing bracket, or a comma, whitespace and the bracket. */
  ghost predicate ItemsEnd(f: Floats, close: seq<byte>, s: seq<byte>) {
    && close != []
    && ((close[0] == RBRACKET && close[1..] == s) || (close[0] == COMMA && ParseItems(f, close[1..]) == Some(([], s))))
  }

  ghost predicate FieldsEnd(f: Floats, close: seq<byte>, s: seq<byte>) {
    && close != []
    && ((close[0] == RBRACE && close[1..] == s)
        || (close[0] == COMMA && forall m :: ParseFields(f, close[1..], m) == Some((m, s))))
  }

  lemma ItemThen(f: Floats, it: Item, t: seq<byte>, more: seq<byte>, close: seq<byte>, s: seq<byte>, v: Json,
      vs: seq<Json>)
    requires AllSpace(it.before) && AllSpace(it.after) && Starts(t) && ItemsEnd(f, close, s)
    requires more == [] || more[0] == COMMA
    requires ParseValue(f, t + (it.after + (more + close))) == Some((v, it.after + (more + close)))
    requires if more == [] then vs == [] else ParseItems(f, more[1..] + close) == Some((vs, s))
    ensures ParseItems(f, it.before + t + it.after + more + close) == Some(([v] + vs, s))
  {
    var tail := more + close;
    ItemStep(f, it.before, t, it.after, tail, v);
    Regroup(it.before, t, it.after, more, close);
    if more == [] { assert tail == close && [v] + vs == [v]; } else { assert tail[1..] == more[1..] + close; }
  }

  lemma FieldThen(f: Floats, w: Field, t: seq<byte>, more: seq<byte>, close: seq<byte>, s: seq<byte>, v: Json,
      m: map<seq<byte>, Json>, n: map<seq<byte>, Json>)
    requires AllSpace(w.beforeKey) && AllSpace(w.afterKey) && AllSpace(w.before) && AllSpace(w.after) && Starts(t)
    requires (more == [] || more[0] == COMMA) && FieldsEnd(f, close, s)
    requires ParseValue(f, t + (w.after + (more + close))) == Some((v, w.after + (more + close)))
    requires if more == [] then n == m[w.key := v] else ParseFields(f, more[1..] + close, m[w.key := v]) == Some((n, s))
    ensures ParseFields(f, w.beforeKey + StringText(w.key) + w.afterKey + [COLON] + (w.before + t + w.after)
        + more + close, m)
         == Some((n, s))
  {
    var tail := more + close;
    FieldStep(f, w, t, tail, v, m);
    RegroupField(w.beforeKey, StringText(w.key), w.afterKey, [COLON], w.before, t, w.after, more, close);
    if more == [] { assert tail == close; } else { assert tail[1..] == more[1..] + close; }
  }

  lemma Regroup(a: seq<byte>, b: seq<byte>, c: seq<byte>, d: seq<byte>, e: seq<byte>)
    ensures a + b + c + d + e == a + (b + (c + (d + e)))
  {}

  lemma RegroupField(a: seq<byte>, b: seq<byte>, c: seq<byte>, d: seq<byte>, e: seq<byte>, f: seq<byte>,
      g: seq<byte>, h: seq<byte>, i: seq<byte>)
    ensures a + b + c + d + (e + f + g) + h + i == a + (b + (c + (d + (e + (f + (g + (h + i)))))))
  {}

  /** What follows a value stops a number or literal. */
  lemma FollowStops(after: seq<byte>, more: seq<byte>, close: seq<byte>)
    requires AllSpace(after) && (more == [] || more[0] == COMMA) && close != [] && IsDelim(close[0])
    ensures Stops(after + (more + close))
  {
    if more == [] { assert more + close == close; }
    SpaceStops(after, more + close);
  }

  lemma {:induction false} ItemsBack(f: Floats, items: seq<Item>, close: seq<byte>, s: seq<byte>)
    requires items != [] && ItemsEnd(f, close, s)
    requires forall i :: 0 <= i < |items| ==> AllSpace(items[i].before) && AllSpace(items[i].after) && Exact(items[i].v)
    ensures ParseItems(f, PrintItems(f, items) + close) == Some((ItemMeanings(items), s))
    decreases items, 0
  {
    var it := items[0];
    var more := if |items| == 1 then [] else [COMMA] + PrintItems(f, items[1..]);
    PrintStarts(f, it.v);
    FollowStops(it.after, more, close);
    ValueBack(f, it.v, it.after + (more + close));
    if |items| > 1 {
      ItemsBack(f, items[1..], close, s);
      assert more[1..] == PrintItems(f, items[1..]);
    }
    ItemThen(f, it, Print(f, it.v), more, close, s, Meaning(it.v), ItemMeanings(items[1..]));
  }

  lemma {:induction false} FieldsBack(f: Floats, fields: seq<Field>, close: seq<byte>, s: seq<byte>,
      m: map<seq<byte>, Json>)
    requires fields != [] && FieldsEnd(f, close, s)
    requires forall i :: 0 <= i < |fields| ==>
      && AllSpace(fields[i].beforeKey) && AllSpace(fields[i].afterKey)
      && AllSpace(fields[i].before) && AllSpace(fields[i].after) && Exact(fields[i].v)
    ensures ParseFields(f, PrintFields(f, fields) + close, m) == Some((FieldMeanings(fields, m), s))
    decreases fields, 0
  {
    var w := fields[0];
    var more := if |fields| == 1 then [] else [COMMA] + PrintFields(f, fields[1..]);
    PrintStarts(f, w.v);
    FollowStops(w.after, more, close);
    ValueBack(f, w.v, w.after + (more + close));
    var m1 := m[w.key := Meaning(w.v)];
    if |fields| > 1 {
      FieldsBack(f, fields[1..], close, s, m1);
      assert more[1..] == PrintFields(f, fields[1..]);
    }
    FieldThen(f, w, Print(f, w.v), more, close, s, Meaning(w.v), m, FieldMeanings(fields[1..], m1));
  }

  /** A printed value parses to its meaning and leaves what follows it. */
  lemma {:induction false} ValueBack(f: Floats, d: Doc, s: seq<byte>)
    requires Exact(d) && Stops(s)
    ensures ParseValue(f, Print(f, d) + s) == Some((Meaning(d), s))
    decreases d, 1
  {
    match d
    case Null => LiteralBack(NULL, s);
    case Boolean(b) => LiteralBack(if b then TRUE else FALSE, s);
    case Num(n) =>
      IntText(f, n);
      NumberBack(f, n, s);
    case Text(t) => StringBack(t, s);
    case Array(blank, items) =>
      if items == [] {
        EmptyBack(f, blank, s);
      } else {
        ItemsBack(f, items, [RBRACKET] + s, s);
        ArrayBack(f, blank, items, s, ItemMeanings(items));
      }
    case Object(blank, fields) =>
      if fields == [] {
        EmptyBack(f, blank, s);
      } else {
        FieldsBack(f, fields, [RBRACE] + s, s, map[]);
        ObjectBack(f, blank, fields, s, FieldMeanings(fields, map[]));
      }
  }

  lemma ArrayBack(f: Floats, blank: seq<byte>, items: seq<Item>, s: seq<byte>, vs: seq<Json>)
    requires items != [] && ParseItems(f, PrintItems(f, items) + ([RBRACKET] + s)) == Some((vs, s))
    ensures ParseValue(f, Print(f, Array(blank, items)) + s) == Some((JArr(vs), s))
  {
    Bracketed(LBRACKET, PrintItems(f, items), RBRACKET, s);
  }

  lemma ObjectBack(f: Floats, blank: seq<byte>, fields: seq<Field>, s: seq<byte>, m: map<seq<byte>, Json>)
    requires fields != [] && ParseFields(f, PrintFields(f, fields) + ([RBRACE] + s), map[]) == Some((m, s))
    ensures ParseValue(f, Print(f, Object(blank, fields)) + s) == Some((JObj(m), s))
  {
    Bracketed(LBRACE, PrintFields(f, fields), RBRACE, s);
  }

  lemma Bracketed(open: byte, t: seq<byte>, close: byte, s: seq<byte>)
    ensures var all := [open] + t + [close] + s; all[0] == open && all[1..] == t + ([close] + s)
  {}

  /** Empty arrays and empty objects stay apart. */
  lemma EmptyBack(f: Floats, blank: seq<byte>, s: seq<byte>)
    requires AllSpace(blank)
    ensures ParseValue(f, [LBRACKET] + blank + [RBRACKET] + s) == Some((JArr([]), s))
    ensures ParseValue(f, [LBRACE] + blank + [RBRACE] + s) == Some((JObj(map[]), s))
  {
    Bracketed(LBRACKET, blank, RBRACKET, s);
    Bracketed(LBRACE, blank, RBRACE, s);
    SkipAll(blank, [RBRACKET] + s);
    SkipAll(blank, [RBRACE] + s);
    assert ([RBRACKET] + s)[1..] == s && ([RBRACE] + s)[1..] == s;
  }

  /** The decoder also takes a comma after the last item. */
  lemma ItemsTrailingComma(f: Floats, d: Doc, w: seq<byte>, s: seq<byte>)
    requires d.Array? && d.items != [] && Exact(d) && AllSpace(w)
    ensures ParseValue(f, [LBRACKET] + PrintItems(f, d.items) + [COMMA] + (w + ([RBRACKET] + s)))
        == Some((Meaning(d), s))
  {
    CommaEnds(f, w, s);
    ItemsBack(f, d.items, [COMMA] + (w + ([RBRACKET] + s)), s);
    Bracketed(LBRACKET, PrintItems(f, d.items), COMMA, w + ([RBRACKET] + s));
  }

  /** And after the last field. */
  lemma FieldsTrailingComma(f: Floats, d: Doc, w: seq<byte>, s: seq<byte>)
    requires d.Object? && d.fields != [] && Exact(d) && AllSpace(w)
    ensures ParseValue(f, [LBRACE] + PrintFields(f, d.fields) + [COMMA] + (w + ([RBRACE] + s))) == Some((Meaning(d), s))
  {
    CommaEnds(f, w, s);
    FieldsBack(f, d.fields, [COMMA] + (w + ([RBRACE] + s)), s, map[]);
    Bracketed(LBRACE, PrintFields(f, d.fields), COMMA, w + ([RBRACE] + s));
  }

  lemma CommaEnds(f: Floats, w: seq<byte>, s: seq<byte>)
    requires AllSpace(w)
    ensures ItemsEnd(f, [COMMA] + (w + ([RBRACKET] + s)), s) && FieldsEnd(f, [COMMA] + (w + ([RBRACE] + s)), s)
  {
    SkipAll(w, [RBRACKET] + s);
    SkipAll(w, [RBRACE] + s);
    assert ([COMMA] + (w + ([RBRACKET] + s)))[1..] == w + ([RBRACKET] + s);
    assert ([COMMA] + (w + ([RBRACE] + s)))[1..] == w + ([RBRACE] + s);
  }

  /** For every document, with any whitespace between tokens and around it. */
  lemma DecodePrinted(f: Floats, d: Doc, lead: seq<byte>, trail: seq<byte>)
    requires Exact(d) && AllSpace(lead) && AllSpace(trail)
    ensures Decode(f, lead + (Print(f, d) + trail)) == Some(Meaning(d))
  {
    PrintStarts(f, d);
    SkipAll(lead, Print(f, d) + trail);
    SpaceStops(trail, []);
    assert trail + [] == trail;
    ValueBack(f, d, trail);
    SkipAll(trail, []);
  }
}
