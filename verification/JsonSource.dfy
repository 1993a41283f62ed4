/** json.c, what the decoder accepts: a text decodes exactly when it is the text of a source tree. */
module JsonSource {
  import opened Bytes
  import opened LuaGraph
  import opened JsonText
  import opened JsonParse
  import opened JsonRoundTrip

  // ---------- source trees ----------

  /** A piece of a string literal: a byte, a one-letter escape, a `\u` escape, or two of them
      taken as a surrogate pair. */
  datatype Piece = Raw(c: byte) | Short(c: byte) | Code(hex: seq<byte>) | Pair(hi: seq<byte>, lo: seq<byte>)

  /** A value as written, whitespace, spelling and trailing commas included. */
  datatype Source =
    | Word(text: seq<byte>)
    | Numeral(text: seq<byte>)
    | Quoted(pieces: seq<Piece>)
    | Listing(entries: seq<Entry>, comma: bool, blank: seq<byte>)
    | Record(members: seq<Member>, comma: bool, blank: seq<byte>)

  datatype Entry = Entry(before: seq<byte>, v: Source, after: seq<byte>)
  datatype Member = Member(beforeKey: seq<byte>, key: seq<Piece>, afterKey: seq<byte>, before: seq<byte>,
      v: Source, after: seq<byte>)

  // ---------- their text ----------

  function PieceText(p: Piece): seq<byte> {
    match p
    case Raw(c) => [c]
    case Short(c) => [BACKSLASH, c]
    case Code(hex) => [BACKSLASH, 117] + hex
    case Pair(hi, lo) => [BACKSLASH, 117] + (hi + ([BACKSLASH, 117] + lo))
  }

  function PiecesText(ps: seq<Piece>): seq<byte> { Flat(ps, PieceText) }

  function QuotedText(ps: seq<Piece>): seq<byte> { [QUOTE] + PiecesText(ps) + [QUOTE] }

  function SourceText(v: Source): seq<byte>
    decreases v, 1
  {
    match v
    case Word(t) => t
    case Numeral(t) => t
    case Quoted(ps) => QuotedText(ps)
    case Listing(es, comma, blank) => [LBRACKET] + EntriesText(es, comma, blank) + [RBRACKET]
    case Record(ms, comma, blank) => [LBRACE] + MembersText(ms, comma, blank) + [RBRACE]
  }

  /** With `comma`, a comma follows the last entry; `blank` fills what is then empty. */
  function EntriesText(es: seq<Entry>, comma: bool, blank: seq<byte>): seq<byte>
    decreases es, 0
  {
    if es == [] then blank else
    es[0].before + (SourceText(es[0].v) + (es[0].after
      + (if |es| > 1 || comma then [COMMA] + EntriesText(es[1..], comma, blank) else [])))
  }

  function MembersText(ms: seq<Member>, comma: bool, blank: seq<byte>): seq<byte>
    decreases ms, 0
  {
    if ms == [] then blank else
    ms[0].beforeKey + (QuotedText(ms[0].key) + (ms[0].afterKey + ([COLON]
      + (ms[0].before + (SourceText(ms[0].v) + (ms[0].after
      + (if |ms| > 1 || comma then [COMMA] + MembersText(ms[1..], comma, blank) else [])))))))
  }

  // ---------- what is well formed ----------

  function PairCode(hi: seq<byte>, lo: seq<byte>): int
    requires |hi| == 4 && |lo| == 4
  {
    (Hex4(hi) - 0xd800) * 0x400 + Hex4(lo) - 0xdc00 + 0x10000
  }

  predicate GoodPiece(p: Piece) {
    match p
    case Raw(c) => c >= 32 && c != QUOTE && c != BACKSLASH
    case Short(c) => SimpleEscape(c).Some?
    case Code(hex) => |hex| == 4 && AllHex(hex)
    case Pair(hi, lo) =>
      |hi| == 4 && |lo| == 4 && IsHighSurrogate(hi) && AllHex(lo) && 0 <= PairCode(hi, lo) <= 0x10ffff
  }

  /** A high surrogate is taken together with any `\u` escape behind it. */
  predicate Splits(p: Piece, q: Piece) { p.Code? && IsHighSurrogate(p.hex) && (q.Code? || q.Pair?) }

  predicate GoodPieces(ps: seq<Piece>) {
    ps == [] || (GoodPiece(ps[0]) && GoodPieces(ps[1..]) && (|ps| > 1 ==> !Splits(ps[0], ps[1])))
  }

  predicate NoDelim(t: seq<byte>) { forall i :: 0 <= i < |t| ==> !IsDelim(t[i]) }

  ghost predicate GoodSource(f: Floats, v: Source)
    decreases v, 1
  {
    match v
    case Word(t) => t == TRUE || t == FALSE || t == NULL
    case Numeral(t) =>
      0 < |t| < 128 && (ZERO <= t[0] <= NINE || t[0] == MINUS) && NoDelim(t) && ParseFloat(f, t).Some?
    case Quoted(ps) => GoodPieces(ps)
    case Listing(es, comma, blank) => GoodEntries(f, es) && AllSpace(blank)
    case Record(ms, comma, blank) => GoodMembers(f, ms) && AllSpace(blank)
  }

  ghost predicate GoodEntries(f: Floats, es: seq<Entry>)
    decreases es, 0
  {
    es != [] ==>
      AllSpace(es[0].before) && GoodSource(f, es[0].v) && AllSpace(es[0].after) && GoodEntries(f, es[1..])
  }

  ghost predicate GoodMembers(f: Floats, ms: seq<Member>)
    decreases ms, 0
  {
    ms != [] ==>
      && AllSpace(ms[0].beforeKey) && GoodPieces(ms[0].key) && AllSpace(ms[0].afterKey)
      && AllSpace(ms[0].before) && GoodSource(f, ms[0].v) && AllSpace(ms[0].after) && GoodMembers(f, ms[1..])
  }

  // ---------- what it stands for ----------

  function PieceBytes(p: Piece): seq<byte> {
    if !GoodPiece(p) then [] else
    match p
    case Raw(c) => [c]
    case Short(c) => [SimpleEscape(c).value]
    case Code(hex) => CodepointUtf8(Hex4(hex)).value
    case Pair(hi, lo) => CodepointUtf8(PairCode(hi, lo)).value
  }

  function PiecesBytes(ps: seq<Piece>): seq<byte> { Flat(ps, PieceBytes) }

  function SourceValue(f: Floats, v: Source): Json
    decreases v, 1
  {
    match v
    case Word(t) => if t == NULL then JNull else JBool(t == TRUE)
    case Numeral(t) => (var n := ParseFloat(f, t); if n.Some? then JNum(n.value) else JNull)
    case Quoted(ps) => JStr(PiecesBytes(ps))
    case Listing(es, _, _) => JArr(EntryValues(f, es))
    case Record(ms, _, _) => JObj(MemberValues(f, ms, map[]))
  }

  function EntryValues(f: Floats, es: seq<Entry>): seq<Json>
    decreases es, 0
  {
    if es == [] then [] else [SourceValue(f, es[0].v)] + EntryValues(f, es[1..])
  }

  function MemberValues(f: Floats, ms: seq<Member>, m: map<seq<byte>, Json>): map<seq<byte>, Json>
    decreases ms, 0
  {
    if ms == [] then m else MemberValues(f, ms[1..], m[PiecesBytes(ms[0].key) := SourceValue(f, ms[0].v)])
  }

  // ---------- strings, both ways ----------

  predicate StartsCode(s: seq<byte>) { |s| >= 6 && s[0] == BACKSLASH && s[1] == 117 && AllHex(s[2..]) }

  lemma HexPrefix(hex: seq<byte>, s: seq<byte>)
    requires |hex| == 4
    ensures AllHex(hex + s) == AllHex(hex) && IsHighSurrogate(hex + s) == IsHighSurrogate(hex) && Hex4(hex + s)
        == Hex4(hex)
    ensures (hex + s)[4..] == s
  {}

  lemma CodeBack(hex: seq<byte>, s: seq<byte>)
    requires |hex| == 4 && AllHex(hex) && (IsHighSurrogate(hex) ==> !StartsCode(s))
    ensures ParseEscape([117] + hex + s) == Some((CodepointUtf8(Hex4(hex)).value, s))
  {
    var t := hex + s;
    HexPrefix(hex, s);
    assert ([117] + hex + s)[1..] == t && ([117] + hex + s)[5..] == s;
    if |t| >= 10 { assert t[6..] == s[2..] && t[4] == s[0] && t[5] == s[1]; }
    assert UnicodeEscape(t) == Some((Hex4(hex), 4));
  }

  lemma PairBack(hi: seq<byte>, lo: seq<byte>, s: seq<byte>)
    requires GoodPiece(Pair(hi, lo))
    ensures ParseEscape([117] + (hi + ([BACKSLASH, 117] + lo)) + s) == Some((CodepointUtf8(PairCode(hi, lo)).value, s))
  {
    var rest := [BACKSLASH, 117] + lo + s;
    var t := hi + rest;
    var all := [117] + (hi + ([BACKSLASH, 117] + lo)) + s;
    HexPrefix(hi, rest);
    HexPrefix(lo, s);
    assert all[1..] == t && all[11..] == s && t[6..] == lo + s && t[4] == BACKSLASH && t[5] == 117;
    assert UnicodeEscape(t) == Some((PairCode(hi, lo), 10));
  }

  lemma ShortBack(c: byte, s: seq<byte>)
    requires SimpleEscape(c).Some?
    ensures ParseEscape([c] + s) == Some(([SimpleEscape(c).value], s))
  {
    assert ([c] + s)[0] == c && ([c] + s)[1..] == s;
  }

  /** What follows the backslash. */
  lemma EscapeText(p: Piece)
    requires !p.Raw?
    ensures PieceText(p) == [BACKSLASH] + PieceText(p)[1..]
    ensures p.Short? ==> PieceText(p)[1..] == [p.c]
    ensures p.Code? ==> PieceText(p)[1..] == [117] + p.hex
    ensures p.Pair? ==> PieceText(p)[1..] == [117] + (p.hi + ([BACKSLASH, 117] + p.lo))
  {}

  /** An escape reads back, whatever follows that does not complete a surrogate pair. */
  lemma EscapeReads(p: Piece, s: seq<byte>)
    requires GoodPiece(p) && !p.Raw? && (p.Code? && IsHighSurrogate(p.hex) ==> !StartsCode(s))
    ensures ParseEscape(PieceText(p)[1..] + s) == Some((PieceBytes(p), s))
  {
    EscapeText(p);
    match p {
      case Short(c) => ShortBack(c, s);
      case Code(hex) => CodeBack(hex, s);
      case Pair(hi, lo) => PairBack(hi, lo, s);
    }
  }

  lemma PieceThen(p: Piece, tail: seq<byte>, d: seq<byte>, s: seq<byte>)
    requires GoodPiece(p) && (p.Code? && IsHighSurrogate(p.hex) ==> !StartsCode(tail))
    requires ParseChars(tail) == Some((d, s))
    ensures ParseChars(PieceText(p) + tail) == Some((PieceBytes(p) + d, s))
  {
    var all := PieceText(p) + tail;
    if p.Raw? {
      assert all[0] == p.c && all[1..] == tail;
    } else {
      EscapeText(p);
      EscapeReads(p, tail);
      Assoc([BACKSLASH], PieceText(p)[1..], tail);
      assert all[0] == BACKSLASH && all[1..] == PieceText(p)[1..] + tail;
    }
  }

  lemma {:induction false} PiecesRead(ps: seq<Piece>, s: seq<byte>)
    requires GoodPieces(ps)
    ensures ParseChars(PiecesText(ps) + ([QUOTE] + s)) == Some((PiecesBytes(ps), s))
  {
    if ps == [] {
      assert PiecesText(ps) + ([QUOTE] + s) == [QUOTE] + s && ([QUOTE] + s)[1..] == s;
    } else {
      var tail := PiecesText(ps[1..]) + ([QUOTE] + s);
      PiecesRead(ps[1..], s);
      Assoc(PieceText(ps[0]), PiecesText(ps[1..]), [QUOTE] + s);
      TailStarts(ps[1..], [QUOTE] + s);
      PieceThen(ps[0], tail, PiecesBytes(ps[1..]), s);
    }
  }

  /** Only a `\u` escape starts like one. */
  lemma PieceStarts(p: Piece, more: seq<byte>)
    requires GoodPiece(p)
    ensures StartsCode(PieceText(p) + more) <==> p.Code? || p.Pair?
  {
    if p.Raw? {
      assert (PieceText(p) + more)[0] == p.c;
    } else if p.Short? {
      assert (PieceText(p) + more)[1] == p.c;
    } else if p.Code? {
      HexStarts(p.hex, more);
    } else {
      HexStarts(p.hi, [BACKSLASH, 117] + p.lo + more);
      PairText(p.hi, p.lo, more);
    }
  }

  lemma HexStarts(hex: seq<byte>, more: seq<byte>)
    requires |hex| == 4 && AllHex(hex)
    ensures StartsCode([BACKSLASH, 117] + hex + more)
  {
    HexPrefix(hex, more);
    assert ([BACKSLASH, 117] + hex + more)[2..] == hex + more;
  }

  lemma PairText(hi: seq<byte>, lo: seq<byte>, more: seq<byte>)
    ensures [BACKSLASH, 117] + (hi + ([BACKSLASH, 117] + lo)) + more == [BACKSLASH, 117] + hi
        + ([BACKSLASH, 117] + lo + more)
  {}

  lemma TailStarts(ps: seq<Piece>, close: seq<byte>)
    requires GoodPieces(ps) && close != [] && close[0] == QUOTE
    ensures StartsCode(PiecesText(ps) + close) <==> ps != [] && (ps[0].Code? || ps[0].Pair?)
  {
    if ps == [] {
      assert PiecesText(ps) + close == close;
    } else {
      Assoc(PieceText(ps[0]), PiecesText(ps[1..]), close);
      PieceStarts(ps[0], PiecesText(ps[1..]) + close);
    }
  }

  lemma CodeSource(t: seq<byte>)
    requires UnicodeEscape(t).Some? && UnicodeEscape(t).value.1 == 4
    ensures var p := Code(t[..4]);
      && GoodPiece(p) && [BACKSLASH, 117] + t == PieceText(p) + t[4..] && UnicodeEscape(t).value.0 == Hex4(p.hex)
      && (IsHighSurrogate(p.hex) ==> !StartsCode(t[4..]))
  {
    assert t == t[..4] + t[4..];
    HexPrefix(t[..4], t[4..]);
    if |t| >= 10 { assert t[6..] == t[4..][2..] && t[4] == t[4..][0] && t[5] == t[4..][1]; }
  }

  lemma PairSource(t: seq<byte>)
    requires UnicodeEscape(t).Some? && UnicodeEscape(t).value.1 == 10 && UnicodeEscape(t).value.0 <= 0x10ffff
    ensures var p := Pair(t[..4], t[6..10]);
      GoodPiece(p) && [BACKSLASH, 117] + t == PieceText(p) + t[10..] && UnicodeEscape(t).value.0 == PairCode(p.hi, p.lo)
  {
    var rest := [BACKSLASH, 117] + t[6..10] + t[10..];
    assert t == t[..4] + rest && t[6..] == t[6..10] + t[10..];
    HexPrefix(t[..4], rest);
    HexPrefix(t[6..10], t[10..]);
  }

  /** The escape that was read. */
  lemma EscapeSource(s: seq<byte>) returns (p: Piece)
    requires ParseEscape(s).Some?
    ensures GoodPiece(p) && !p.Raw? && [BACKSLASH] + s == PieceText(p) + ParseEscape(s).value.1
    ensures PieceBytes(p) == ParseEscape(s).value.0
    ensures p.Code? && IsHighSurrogate(p.hex) ==> !StartsCode(ParseEscape(s).value.1)
  {
    assert s == [s[0]] + s[1..];
    if s[0] == 117 {
      var t := s[1..];
      assert [BACKSLASH] + s == [BACKSLASH, 117] + t;
      var used := UnicodeEscape(t).value.1;
      assert s[1 + used..] == t[used..];
      if used == 4 {
        CodeSource(t);
        p := Code(t[..4]);
      } else {
        PairSource(t);
        p := Pair(t[..4], t[6..10]);
      }
    } else {
      p := Short(s[0]);
    }
  }

  lemma {:induction false} CharsSource(s: seq<byte>) returns (ps: seq<Piece>)
    requires ParseChars(s).Some?
    ensures GoodPieces(ps) && s == PiecesText(ps) + ([QUOTE] + ParseChars(s).value.1)
    ensures PiecesBytes(ps) == ParseChars(s).value.0
    decreases |s|
  {
    if s[0] == QUOTE {
      ps := [];
      assert s == [QUOTE] + s[1..];
    } else {
      var p, rest;
      if s[0] == BACKSLASH {
        p := EscapeSource(s[1..]);
        rest := ParseEscape(s[1..]).value.1;
        assert s == [BACKSLASH] + s[1..];
      } else {
        p, rest := Raw(s[0]), s[1..];
        assert s == [s[0]] + s[1..];
      }
      var more := CharsSource(rest);
      TailStarts(more, [QUOTE] + ParseChars(s).value.1);
      ps := [p] + more;
      assert ps[1..] == more;
      Assoc(PieceText(p), PiecesText(more), [QUOTE] + ParseChars(s).value.1);
    }
  }

  // ---------- every source tree decodes ----------

  lemma SourceStarts(f: Floats, v: Source)
    requires GoodSource(f, v)
    ensures Starts(SourceText(v))
  {}

  lemma NumeralReads(f: Floats, t: seq<byte>, s: seq<byte>)
    requires GoodSource(f, Numeral(t)) && Stops(s)
    ensures ParseValue(f, t + s) == Some((JNum(ParseFloat(f, t).value), s))
  {
    SpanAll(t, s);
    assert (t + s)[..|t|] == t && (t + s)[|t|..] == s && (t + s)[0] == t[0];
  }

  lemma QuotedReads(ps: seq<Piece>, s: seq<byte>)
    requires GoodPieces(ps)
    ensures ParseString(QuotedText(ps) + s) == Some((PiecesBytes(ps), s))
  {
    PiecesRead(ps, s);
    Bracketed(QUOTE, PiecesText(ps), QUOTE, s);
  }

  lemma {:induction false} SourceReads(f: Floats, v: Source, s: seq<byte>)
    requires GoodSource(f, v) && Stops(s)
    ensures ParseValue(f, SourceText(v) + s) == Some((SourceValue(f, v), s))
    decreases v, 1
  {
    match v
    case Word(t) => LiteralBack(t, s);
    case Numeral(t) => NumeralReads(f, t, s);
    case Quoted(ps) =>
      QuotedReads(ps, s);
      assert (QuotedText(ps) + s)[0] == QUOTE;
    case Listing(es, comma, blank) =>
      EntriesRead(f, es, comma, blank, s);
      ListReads(f, EntriesText(es, comma, blank), s, EntryValues(f, es));
    case Record(ms, comma, blank) =>
      MembersRead(f, ms, comma, blank, s, map[]);
      RecordReads(f, MembersText(ms, comma, blank), s, MemberValues(f, ms, map[]));
  }

  lemma ListReads(f: Floats, t: seq<byte>, s: seq<byte>, vs: seq<Json>)
    requires ParseItems(f, t + ([RBRACKET] + s)) == Some((vs, s))
    ensures ParseValue(f, [LBRACKET] + t + [RBRACKET] + s) == Some((JArr(vs), s))
  {
    Bracketed(LBRACKET, t, RBRACKET, s);
  }

  lemma RecordReads(f: Floats, t: seq<byte>, s: seq<byte>, m: map<seq<byte>, Json>)
    requires ParseFields(f, t + ([RBRACE] + s), map[]) == Some((m, s))
    ensures ParseValue(f, [LBRACE] + t + [RBRACE] + s) == Some((JObj(m), s))
  {
    Bracketed(LBRACE, t, RBRACE, s);
  }

  /** What stands between an entry and the end: nothing, or a comma and the rest. */
  function EntriesTail(es: seq<Entry>, comma: bool, blank: seq<byte>): seq<byte>
    requires es != []
  {
    if |es| > 1 || comma then [COMMA] + EntriesText(es[1..], comma, blank) else []
  }

  function MembersTail(ms: seq<Member>, comma: bool, blank: seq<byte>): seq<byte>
    requires ms != []
  {
    if |ms| > 1 || comma then [COMMA] + MembersText(ms[1..], comma, blank) else []
  }

  lemma Glue4(a: seq<byte>, b: seq<byte>, c: seq<byte>, d: seq<byte>, e: seq<byte>)
    ensures a + (b + (c + d)) + e == a + (b + (c + (d + e)))
  {}

  lemma Glue8(a: seq<byte>, b: seq<byte>, c: seq<byte>, d: seq<byte>, e: seq<byte>, f: seq<byte>, g: seq<byte>,
      h: seq<byte>, i: seq<byte>)
    ensures a + (b + (c + (d + (e + (f + (g + h)))))) + i == a + (b + (c + (d + (e + (f + (g + (h + i)))))))
  {
    Glue4(e, f, g, h, i);
    Glue4(a, b, c, d + (e + (f + (g + h))), i);
    Assoc(d, e + (f + (g + h)), i);
  }

  lemma CommaTail(rest: seq<byte>, close: seq<byte>)
    ensures ([COMMA] + rest + close)[0] == COMMA && ([COMMA] + rest + close)[1..] == rest + close
  {}

  lemma {:induction false} EntriesRead(f: Floats, es: seq<Entry>, comma: bool, blank: seq<byte>, s: seq<byte>)
    requires GoodEntries(f, es) && AllSpace(blank)
    ensures ParseItems(f, EntriesText(es, comma, blank) + ([RBRACKET] + s)) == Some((EntryValues(f, es), s))
    decreases es, 0
  {
    var close := [RBRACKET] + s;
    assert close[1..] == s;
    if es == [] {
      SkipAll(blank, close);
    } else {
      var e, t, tail := es[0], SourceText(es[0].v), EntriesTail(es, comma, blank) + close;
      SourceStarts(f, e.v);
      if |es| > 1 || comma {
        EntriesRead(f, es[1..], comma, blank, s);
        CommaTail(EntriesText(es[1..], comma, blank), close);
      } else {
        assert tail == close;
        assert [SourceValue(f, e.v)] + EntryValues(f, es[1..]) == [SourceValue(f, e.v)];
      }
      SpaceStops(e.after, tail);
      SourceReads(f, e.v, e.after + tail);
      ItemStep(f, e.before, t, e.after, tail, SourceValue(f, e.v));
      Glue4(e.before, t, e.after, EntriesTail(es, comma, blank), close);
    }
  }

  lemma {:induction false} MembersRead(f: Floats, ms: seq<Member>, comma: bool, blank: seq<byte>, s: seq<byte>,
      m: map<seq<byte>, Json>)
    requires GoodMembers(f, ms) && AllSpace(blank)
    ensures ParseFields(f, MembersText(ms, comma, blank) + ([RBRACE] + s), m) == Some((MemberValues(f, ms, m), s))
    decreases ms, 0
  {
    var close := [RBRACE] + s;
    assert close[1..] == s;
    if ms == [] {
      SkipAll(blank, close);
    } else {
      var w, t, tail := ms[0], SourceText(ms[0].v), MembersTail(ms, comma, blank) + close;
      var k, v := PiecesBytes(w.key), SourceValue(f, w.v);
      SourceStarts(f, w.v);
      if |ms| > 1 || comma {
        MembersRead(f, ms[1..], comma, blank, s, m[k := v]);
        CommaTail(MembersText(ms[1..], comma, blank), close);
      } else {
        assert tail == close;
      }
      SpaceStops(w.after, tail);
      SourceReads(f, w.v, w.after + tail);
      QuotedReads(w.key, w.afterKey + ([COLON] + (w.before + (t + (w.after + tail)))));
      KeyedStep(f, w.beforeKey, QuotedText(w.key), k, w.afterKey, w.before, t, w.after, tail, v, m);
      Glue8(w.beforeKey, QuotedText(w.key), w.afterKey, [COLON], w.before, t, w.after,
          MembersTail(ms, comma, blank), close);
    }
  }

  // ---------- every accepted text is that of a source tree ----------

  lemma {:induction false} SpaceSource(s: seq<byte>)
    ensures var n := |s| - |SkipSpace(s)|; AllSpace(s[..n]) && s == s[..n] + SkipSpace(s) && NoSpace(SkipSpace(s))
  {
    if s != [] && IsSpace(s[0]) {
      SpaceSource(s[1..]);
      var n := |s| - |SkipSpace(s)|;
      var w := s[1..][..n - 1];
      assert s == [s[0]] + s[1..] && s[..n] == [s[0]] + w;
      Assoc([s[0]], w, SkipSpace(s));
    }
  }

  function Blank(s: seq<byte>): seq<byte> { s[..|s| - |SkipSpace(s)|] }

  lemma {:induction false} SpanSource(s: seq<byte>)
    ensures NoDelim(s[..SpanLen(s)]) && Stops(s[SpanLen(s)..])
  {
    if s != [] && !IsDelim(s[0]) {
      SpanSource(s[1..]);
      var n := SpanLen(s);
      assert s[..n] == [s[0]] + s[1..][..n - 1] && s[n..] == s[1..][n - 1..];
    }
  }

  lemma QuotedSource(s: seq<byte>) returns (ps: seq<Piece>)
    requires ParseString(s).Some?
    ensures GoodPieces(ps) && s == QuotedText(ps) + ParseString(s).value.1 && PiecesBytes(ps) == ParseString(s).value.0
  {
    ps := CharsSource(s[1..]);
    assert s == [QUOTE] + s[1..];
    Assoc([QUOTE] + PiecesText(ps), [QUOTE], ParseString(s).value.1);
    Assoc([QUOTE], PiecesText(ps), [QUOTE] + ParseString(s).value.1);
  }

  lemma SimpleSource(f: Floats, s: seq<byte>) returns (v: Source)
    requires ParseValue(f, s).Some? && s[0] != LBRACKET && s[0] != LBRACE
    ensures GoodSource(f, v) && s == SourceText(v) + ParseValue(f, s).value.1
    ensures SourceValue(f, v) == ParseValue(f, s).value.0
  {
    var n := SpanLen(s);
    assert s == s[..n] + s[n..];
    if s[0] == QUOTE {
      var ps := QuotedSource(s);
      v := Quoted(ps);
    } else if ZERO <= s[0] <= NINE || s[0] == MINUS {
      SpanSource(s);
      v := Numeral(s[..n]);
    } else {
      v := Word(s[..n]);
    }
  }

  lemma {:induction false} ValueSource(f: Floats, s: seq<byte>) returns (v: Source)
    requires ParseValue(f, s).Some?
    ensures GoodSource(f, v) && s == SourceText(v) + ParseValue(f, s).value.1
    ensures SourceValue(f, v) == ParseValue(f, s).value.0
    decreases |s|, 0
  {
    var rest := ParseValue(f, s).value.1;
    assert s == [s[0]] + s[1..];
    if s[0] == LBRACKET {
      var es, comma, blank := ItemsSource(f, s[1..], ParseItems(f, s[1..]).value.0, rest);
      v := Listing(es, comma, blank);
      Enclosed(LBRACKET, EntriesText(es, comma, blank), RBRACKET, rest);
    } else if s[0] == LBRACE {
      var ms, comma, blank := FieldsSource(f, s[1..], map[], ParseFields(f, s[1..], map[]).value.0, rest);
      v := Record(ms, comma, blank);
      Enclosed(LBRACE, MembersText(ms, comma, blank), RBRACE, rest);
    } else {
      v := SimpleSource(f, s);
    }
  }

  lemma Enclosed(open: byte, t: seq<byte>, close: byte, s: seq<byte>)
    ensures [open] + t + [close] + s == [open] + (t + ([close] + s))
  {}

  /** One more entry in front of others, which a comma separates or ends. */
  lemma EntriesCons(f: Floats, e: Entry, es: seq<Entry>, comma: bool, blank: seq<byte>, close: seq<byte>)
    requires AllSpace(e.before) && GoodSource(f, e.v) && AllSpace(e.after) && GoodEntries(f, es)
    ensures GoodEntries(f, [e] + es) && EntryValues(f, [e] + es) == [SourceValue(f, e.v)] + EntryValues(f, es)
    ensures EntriesText([e] + es, comma || es == [], blank) + close
         == e.before + (SourceText(e.v) + (e.after + ([COMMA] + (EntriesText(es, comma, blank) + close))))
  {
    var all := [e] + es;
    assert all[1..] == es;
    Glue4(e.before, SourceText(e.v), e.after, [COMMA] + EntriesText(es, comma, blank), close);
    Assoc([COMMA], EntriesText(es, comma, blank), close);
  }

  lemma EntriesLast(f: Floats, e: Entry, close: seq<byte>)
    requires AllSpace(e.before) && GoodSource(f, e.v) && AllSpace(e.after)
    ensures GoodEntries(f, [e]) && EntryValues(f, [e]) == [SourceValue(f, e.v)]
    ensures EntriesText([e], false, []) + close == e.before + (SourceText(e.v) + (e.after + close))
  {
    assert [e][1..] == [];
    Glue4(e.before, SourceText(e.v), e.after, [], close);
    assert [] + close == close;
  }

  /** The rest after the first value and the whitespace behind it. */
  function AfterItem(f: Floats, s: seq<byte>): seq<byte> {
    var r := ParseValue(f, SkipSpace(s)); if r.Some? then SkipSpace(r.value.1) else []
  }

  /** How an accepted list of items was read. */
  lemma ItemsRead(f: Floats, s: seq<byte>, vs: seq<Json>, rest: seq<byte>)
    requires ParseItems(f, s) == Some((vs, rest))
    ensures SkipSpace(s) != []
    ensures SkipSpace(s)[0] == RBRACKET ==> vs == [] && rest == SkipSpace(s)[1..]
    ensures SkipSpace(s)[0] != RBRACKET ==>
      ParseValue(f, SkipSpace(s)).Some? && vs != [] && AfterItem(f, s) != [] && |AfterItem(f, s)| < |s|
      && vs[0] == ParseValue(f, SkipSpace(s)).value.0 && var t := AfterItem(f, s);
      || (t[0] == RBRACKET && vs[1..] == [] && rest == t[1..])
      || (t[0] == COMMA && ParseItems(f, t[1..]) == Some((vs[1..], rest)))
  {}

  /** One entry, read up to the comma or bracket behind it. */
  lemma {:induction false} EntrySource(f: Floats, s: seq<byte>) returns (e: Entry)
    requires ParseValue(f, SkipSpace(s)).Some?
    ensures AllSpace(e.before) && GoodSource(f, e.v) && AllSpace(e.after)
    ensures s == e.before + (SourceText(e.v) + (e.after + AfterItem(f, s)))
    ensures SourceValue(f, e.v) == ParseValue(f, SkipSpace(s)).value.0
    decreases |s|, 1
  {
    SpaceSource(s);
    var v := ValueSource(f, SkipSpace(s));
    var s2 := ParseValue(f, SkipSpace(s)).value.1;
    SpaceSource(s2);
    e := Entry(Blank(s), v, Blank(s2));
  }

  /** The entries spell `s` up to its closing bracket, and mean `vs`. */
  ghost predicate ItemsSpell(f: Floats, s: seq<byte>, es: seq<Entry>, comma: bool, blank: seq<byte>,
      vs: seq<Json>, rest: seq<byte>) {
    && GoodEntries(f, es) && AllSpace(blank)
    && s == EntriesText(es, comma, blank) + ([RBRACKET] + rest) && EntryValues(f, es) == vs
  }

  lemma {:induction false} ItemsSource(f: Floats, s: seq<byte>, vs: seq<Json>, rest: seq<byte>)
    returns (es: seq<Entry>, comma: bool, blank: seq<byte>)
    requires ParseItems(f, s) == Some((vs, rest))
    ensures ItemsSpell(f, s, es, comma, blank, vs, rest)
    decreases |s|, 2
  {
    SpaceSource(s);
    ItemsRead(f, s, vs, rest);
    if SkipSpace(s)[0] == RBRACKET {
      assert SkipSpace(s) == [RBRACKET] + rest;
      es, comma, blank := [], false, Blank(s);
    } else {
      var e := EntrySource(f, s);
      var t := AfterItem(f, s);
      assert t == [t[0]] + t[1..] && vs == [vs[0]] + vs[1..];
      if t[0] == COMMA {
        es, comma, blank := ItemsSource(f, t[1..], vs[1..], rest);
        EntriesCons(f, e, es, comma, blank, [RBRACKET] + rest);
        es, comma := [e] + es, comma || es == [];
      } else {
        EntriesLast(f, e, [RBRACKET] + rest);
        es, comma, blank := [e], false, [];
      }
    }
  }

  ghost predicate GoodMember(f: Floats, w: Member) {
    && AllSpace(w.beforeKey) && GoodPieces(w.key) && AllSpace(w.afterKey)
    && AllSpace(w.before) && GoodSource(f, w.v) && AllSpace(w.after)
  }

  /** A member up to what follows it. */
  function MemberText(w: Member, tail: seq<byte>): seq<byte> {
    w.beforeKey + (QuotedText(w.key) + (w.afterKey + ([COLON] + (w.before + (SourceText(w.v) + (w.after + tail))))))
  }

  lemma MembersCons(f: Floats, w: Member, ms: seq<Member>, comma: bool, blank: seq<byte>, close: seq<byte>,
      m: map<seq<byte>, Json>)
    requires GoodMember(f, w) && GoodMembers(f, ms)
    ensures GoodMembers(f, [w] + ms)
    ensures MemberValues(f, [w] + ms, m) == MemberValues(f, ms, m[PiecesBytes(w.key) := SourceValue(f, w.v)])
    ensures MembersText([w] + ms, comma || ms == [], blank) + close
         == MemberText(w, [COMMA] + (MembersText(ms, comma, blank) + close))
  {
    var all := [w] + ms;
    assert all[1..] == ms;
    var tail := [COMMA] + MembersText(ms, comma, blank);
    Glue8(w.beforeKey, QuotedText(w.key), w.afterKey, [COLON], w.before, SourceText(w.v), w.after, tail, close);
    Assoc([COMMA], MembersText(ms, comma, blank), close);
  }

  lemma MembersLast(f: Floats, w: Member, close: seq<byte>, m: map<seq<byte>, Json>)
    requires GoodMember(f, w)
    ensures GoodMembers(f, [w]) && MemberValues(f, [w], m) == m[PiecesBytes(w.key) := SourceValue(f, w.v)]
    ensures MembersText([w], false, []) + close == MemberText(w, close)
  {
    assert [w][1..] == [];
    Glue8(w.beforeKey, QuotedText(w.key), w.afterKey, [COLON], w.before, SourceText(w.v), w.after, [], close);
    assert [] + close == close;
  }

  /** The key, the colon and the whitespace that were read in front of a value. */
  lemma KeySource(s: seq<byte>) returns (w: Member)
    requires ParseKey(s).Some?
    ensures GoodPieces(w.key) && AllSpace(w.afterKey) && AllSpace(w.before) && PiecesBytes(w.key) == ParseKey(s).value.0
    ensures s == QuotedText(w.key) + (w.afterKey + ([COLON] + (w.before + ParseKey(s).value.1)))
  {
    var ps := QuotedSource(s);
    var s2 := ParseString(s).value.1;
    var s3 := SkipSpace(s2);
    SpaceSource(s2);
    SpaceSource(s3[1..]);
    assert s3 == [COLON] + s3[1..];
    w := Member([], ps, Blank(s2), Blank(s3[1..]), Word(NULL), []);
  }

  /** The rest after the first key, after its value, and the whitespace behind that. */
  function AfterKey(s: seq<byte>): seq<byte> { var r := ParseKey(SkipSpace(s)); if r.Some? then r.value.1 else [] }

  function AfterMember(f: Floats, s: seq<byte>): seq<byte> {
    var r := ParseValue(f, AfterKey(s)); if r.Some? then SkipSpace(r.value.1) else []
  }

  /** How accepted fields were read. */
  lemma FieldsRead(f: Floats, s: seq<byte>, m: map<seq<byte>, Json>, n: map<seq<byte>, Json>, rest: seq<byte>)
    requires ParseFields(f, s, m) == Some((n, rest))
    ensures SkipSpace(s) != []
    ensures SkipSpace(s)[0] == RBRACE ==> n == m && rest == SkipSpace(s)[1..]
    ensures SkipSpace(s)[0] != RBRACE ==>
      ParseKey(SkipSpace(s)).Some? && ParseValue(f, AfterKey(s)).Some? && AfterMember(f, s) != []
          && |AfterMember(f, s)| < |s|
      && var k, v, t := ParseKey(SkipSpace(s)).value.0, ParseValue(f, AfterKey(s)).value.0, AfterMember(f, s);
      || (t[0] == RBRACE && n == m[k := v] && rest == t[1..])
      || (t[0] == COMMA && ParseFields(f, t[1..], m[k := v]) == Some((n, rest)))
  {}

  /** One member, read up to the comma or brace behind it. */
  lemma {:induction false} MemberSource(f: Floats, s: seq<byte>) returns (w: Member)
    requires ParseKey(SkipSpace(s)).Some? && ParseValue(f, AfterKey(s)).Some?
    ensures GoodMember(f, w) && s == MemberText(w, AfterMember(f, s))
    ensures PiecesBytes(w.key) == ParseKey(SkipSpace(s)).value.0 && SourceValue(f, w.v)
        == ParseValue(f, AfterKey(s)).value.0
    decreases |s|, 1
  {
    SpaceSource(s);
    w := KeySource(SkipSpace(s));
    var v := ValueSource(f, AfterKey(s));
    var s3 := ParseValue(f, AfterKey(s)).value.1;
    SpaceSource(s3);
    w := w.(beforeKey := Blank(s), v := v, after := Blank(s3));
  }

  /** The members spell `s` up to its closing brace, and mean `n`. */
  ghost predicate FieldsSpell(f: Floats, s: seq<byte>, m: map<seq<byte>, Json>, ms: seq<Member>, comma: bool,
      blank: seq<byte>, n: map<seq<byte>, Json>, rest: seq<byte>)
  {
    && GoodMembers(f, ms) && AllSpace(blank)
    && s == MembersText(ms, comma, blank) + ([RBRACE] + rest) && MemberValues(f, ms, m) == n
  }

  lemma FieldsMore(f: Floats, s: seq<byte>, m: map<seq<byte>, Json>, w: Member, t: seq<byte>, ms: seq<Member>,
      comma: bool, blank: seq<byte>, n: map<seq<byte>, Json>, rest: seq<byte>)
    requires GoodMember(f, w) && s == MemberText(w, [COMMA] + t)
    requires FieldsSpell(f, t, m[PiecesBytes(w.key) := SourceValue(f, w.v)], ms, comma, blank, n, rest)
    ensures FieldsSpell(f, s, m, [w] + ms, comma || ms == [], blank, n, rest)
  {
    MembersCons(f, w, ms, comma, blank, [RBRACE] + rest, m);
  }

  lemma FieldsEndWith(f: Floats, s: seq<byte>, m: map<seq<byte>, Json>, w: Member, rest: seq<byte>)
    requires GoodMember(f, w) && s == MemberText(w, [RBRACE] + rest)
    ensures FieldsSpell(f, s, m, [w], false, [], m[PiecesBytes(w.key) := SourceValue(f, w.v)], rest)
  {
    MembersLast(f, w, [RBRACE] + rest, m);
  }

  lemma {:induction false} FieldsSource(f: Floats, s: seq<byte>, m: map<seq<byte>, Json>, n: map<seq<byte>,
      Json>, rest: seq<byte>)
    returns (ms: seq<Member>, comma: bool, blank: seq<byte>)
    requires ParseFields(f, s, m) == Some((n, rest))
    ensures FieldsSpell(f, s, m, ms, comma, blank, n, rest)
    decreases |s|, 2
  {
    SpaceSource(s);
    FieldsRead(f, s, m, n, rest);
    if SkipSpace(s)[0] == RBRACE {
      assert SkipSpace(s) == [RBRACE] + rest;
      ms, comma, blank := [], false, Blank(s);
    } else {
      var w := MemberSource(f, s);
      var t := AfterMember(f, s);
      assert t == [t[0]] + t[1..];
      if t[0] == COMMA {
        ms, comma, blank := FieldsSource(f, t[1..], m[PiecesBytes(w.key) := SourceValue(f, w.v)], n, rest);
        FieldsMore(f, s, m, w, t[1..], ms, comma, blank, n, rest);
        ms, comma := [w] + ms, comma || ms == [];
      } else {
        FieldsEndWith(f, s, m, w, rest);
        ms, comma, blank := [w], false, [];
      }
    }
  }

  // ---------- the main result ----------

  /** `text` is the source tree `v` between whitespace. */
  ghost predicate Spells(f: Floats, text: seq<byte>, v: Source, lead: seq<byte>, trail: seq<byte>) {
    GoodSource(f, v) && AllSpace(lead) && AllSpace(trail) && text == lead + (SourceText(v) + trail)
  }

  lemma SourceDecodes(f: Floats, text: seq<byte>, v: Source, lead: seq<byte>, trail: seq<byte>)
    requires Spells(f, text, v, lead, trail)
    ensures Decode(f, text) == Some(SourceValue(f, v))
  {
    SourceStarts(f, v);
    SkipAll(lead, SourceText(v) + trail);
    SpaceStops(trail, []);
    assert trail + [] == trail;
    SourceReads(f, v, trail);
    SkipAll(trail, []);
  }

  lemma DecodedSource(f: Floats, text: seq<byte>) returns (v: Source, lead: seq<byte>, trail: seq<byte>)
    requires Decode(f, text).Some?
    ensures Spells(f, text, v, lead, trail) && Decode(f, text) == Some(SourceValue(f, v))
  {
    SpaceSource(text);
    var s := SkipSpace(text);
    v := ValueSource(f, s);
    lead, trail := Blank(text), ParseValue(f, s).value.1;
    SpaceSource(trail);
    assert trail == Blank(trail) + [];
  }

  /** The decoder accepts exactly the texts of source trees, trailing commas included, and
      returns what they stand for. */
  lemma AcceptedIff(f: Floats, text: seq<byte>, j: Json)
    ensures Decode(f, text) == Some(j)
       <==> exists v, lead, trail :: Spells(f, text, v, lead, trail) && SourceValue(f, v) == j
  {
    if Decode(f, text) == Some(j) {
      var v, lead, trail := DecodedSource(f, text);
    }
    if v, lead, trail :| Spells(f, text, v, lead, trail) && SourceValue(f, v) == j {
      SourceDecodes(f, text, v, lead, trail);
    }
  }
}
