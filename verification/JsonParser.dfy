/** json.c, the decoder itself: one cursor moved over the input by mutually recursive methods. */
module JsonParser {
  import opened Bytes
  import opened LuaGraph
  import opened JsonText
  import opened JsonParse

  class Parser {
    const str: seq<byte>
    const floats: Floats
    var idx: nat

    ghost predicate Valid()
      reads this
    {
      idx <= |str|
    }

    ghost function Rest(): seq<byte>
      reads this
      requires Valid()
    {
      str[idx..]
    }

    /** The method did what the specification does to the rest of the input. */
    ghost predicate Did<T>(r: Option<T>, spec: Parsed<T>)
      reads this
      requires Valid()
    {
      match spec
      case Some((v, rest)) => r == Some(v) && Rest() == rest
      case None => r == None
    }

    constructor (str: seq<byte>, floats: Floats)
      ensures Valid() && this.str == str && this.floats == floats && Rest() == str
    {
      this.str, this.floats, this.idx := str, floats, 0;
    }

    /** next_char with is_space, negated. */
    method SkipBlank()
      requires Valid()
      modifies this
      ensures Valid() && Rest() == SkipSpace(old(Rest()))
    {
      while idx < |str| && IsSpace(str[idx])
        invariant Valid() && SkipSpace(Rest()) == SkipSpace(old(Rest()))
      {
        assert Rest()[1..] == str[idx + 1..];
        idx := idx + 1;
      }
    }

    /** next_char with is_delim: the end of the span that starts at the cursor. */
    method SpanEnd() returns (x: nat)
      requires Valid()
      ensures idx <= x <= |str| && x - idx == SpanLen(Rest())
    {
      x := idx;
      while x < |str| && !IsDelim(str[x])
        invariant idx <= x <= |str| && x - idx + SpanLen(str[x..]) == SpanLen(Rest())
      {
        assert str[x..][1..] == str[x + 1..];
        x := x + 1;
      }
    }

    method ReadNumber() returns (r: Option<Num>)
      requires Valid()
      modifies this
      ensures Valid() && Did(r, ParseNumber(floats, old(Rest())))
    {
      var x := SpanEnd();
      var n := x - idx;
      if n == 0 || n >= 128 { return None; }
      assert Rest()[..n] == str[idx..x] && Rest()[n..] == str[x..];
      r := ParseFloat(floats, str[idx..x]);
      if r.Some? { idx := x; }
    }

    method ReadLiteral() returns (r: Option<Json>)
      requires Valid()
      modifies this
      ensures Valid() && Did(r, ParseLiteral(old(Rest())))
    {
      var x := SpanEnd();
      assert Rest()[..x - idx] == str[idx..x] && Rest()[x - idx..] == str[x..];
      var w := str[idx..x];
      if w == TRUE { r := Some(JBool(true)); }
      else if w == FALSE { r := Some(JBool(false)); }
      else if w == NULL { r := Some(JNull); }
      else { return None; }
      idx := x;
    }

    /** One escape; `i` is the position after the backslash. */
    method ReadEscape(i: nat) returns (r: Option<seq<byte>>, next: nat)
      requires i <= |str|
      ensures match ParseEscape(str[i..])
        case Some((cs, rest)) => r == Some(cs) && i < next <= |str| && str[next..] == rest
        case None => r == None
    {
      next := i;
      if i >= |str| { return None, i; }
      if str[i] == 117 {
        assert str[i..][1..] == str[i + 1..];
        var u := UnicodeEscape(str[i + 1..]);
        if u.None? { return None, i; }
        r := CodepointUtf8(u.value.0);
        next := i + 1 + u.value.1;
        assert str[i..][1 + u.value.1..] == str[next..];
      } else {
        assert str[i..][1..] == str[i + 1..];
        var c := SimpleEscape(str[i]);
        return if c.Some? then Some([c.value]) else None, i + 1;
      }
    }

    /** One character or escape of a string: `end` says that the closing quote was read, or an
        error (`r` is then None). */
    method ReadChar(i: nat, b: seq<byte>) returns (r: Option<seq<byte>>, next: nat, end: bool)
      requires i < |str|
      ensures r.Some? ==> i < next <= |str|
      ensures CharsLeft(b, str[i..]) == if r.None? then None
        else if end then Some((r.value, str[next..])) else CharsLeft(r.value, str[next..])
    {
      var x := str[i];
      assert str[i..][1..] == str[i + 1..];
      CharsUnfold(str[i..], b);
      if x < 32 { return None, i, true; }
      if x == BACKSLASH {
        var cs, after := ReadEscape(i + 1);
        return if cs.Some? then Some(b + cs.value) else None, after, false;
      } else if x == QUOTE {
        return Some(b), i + 1, true;
      } else {
        return Some(b + [x]), i + 1, false;
      }
    }

    method ReadString() returns (r: Option<seq<byte>>)
      requires Valid()
      modifies this
      ensures Valid() && Did(r, ParseString(old(Rest())))
    {
      if idx >= |str| || str[idx] != QUOTE { return None; }
      var i, b := idx + 1, [];
      assert Rest()[1..] == str[i..];
      AllCharsLeft(str[i..]);
      while i < |str|
        invariant idx < i <= |str|
        invariant CharsLeft([], str[idx + 1..]) == CharsLeft(b, str[i..])
        invariant Valid() && idx == old(idx)
        decreases |str| - i
      {
        var cs, next, end := ReadChar(i, b);
        if cs.None? { return None; }
        if end {
          idx := next;
          return cs;
        }
        b, i := cs.value, next;
      }
      NoCharsLeft(b);
      assert str[i..] == [];
      return None;
    }

    method ReadValue() returns (r: Option<Json>)
      requires Valid()
      modifies this
      ensures Valid() && Did(r, ParseValue(floats, old(Rest())))
      decreases |str| - idx, 1
    {
      if idx >= |str| { return None; }
      var c := str[idx];
      if c == QUOTE {
        var d := ReadString();
        return if d.Some? then Some(JStr(d.value)) else None;
      } else if ZERO <= c <= NINE || c == MINUS {
        var n := ReadNumber();
        return if n.Some? then Some(JNum(n.value)) else None;
      } else if c == 116 || c == 102 || c == 110 {
        r := ReadLiteral();
      } else if c == LBRACKET {
        var vs := ReadArray();
        return if vs.Some? then Some(JArr(vs.value)) else None;
      } else if c == LBRACE {
        var m := ReadObject();
        return if m.Some? then Some(JObj(m.value)) else None;
      } else {
        return None;
      }
    }

    /** Expects the separator after a value: None is an error, else whether the list goes on. */
    method ReadSeparator(close: byte) returns (more: Option<bool>)
      requires Valid()
      modifies this
      ensures Valid() && idx >= old(idx)
      ensures var s := SkipSpace(old(Rest()));
        if s == [] || (s[0] != close && s[0] != COMMA) then more == None
        else more == Some(s[0] != close) && Rest() == s[1..]
    {
      SkipBlank();
      if idx >= |str| { return None; }
      var chr := str[idx];
      assert Rest()[1..] == str[idx + 1..];
      idx := idx + 1;
      return if chr == close then Some(false) else if chr == COMMA then Some(true) else None;
    }

    method ReadArray() returns (r: Option<seq<Json>>)
      requires Valid() && idx < |str| && str[idx] == LBRACKET
      modifies this
      ensures Valid() && Did(r, ParseItems(floats, old(Rest())[1..]))
      decreases |str| - idx, 0
    {
      assert Rest()[1..] == str[idx + 1..];
      idx := idx + 1;
      ghost var all := ParseItems(floats, Rest());
      var vs: seq<Json> := [];
      assert all.Some? ==> [] + all.value.0 == all.value.0;
      while true
        invariant Valid() && idx > old(idx)
        invariant all == PrefixedItems(vs, ParseItems(floats, Rest()))
        decreases |str| - idx
      {
        ItemsUnfold(floats, Rest(), vs);
        SkipBlank();
        assert idx < |str| ==> Rest()[1..] == str[idx + 1..];
        if idx < |str| && str[idx] == RBRACKET {
          idx := idx + 1;
          return Some(vs);
        }
        var v := ReadValue();
        if v.None? { return None; }
        var more := ReadSeparator(RBRACKET);
        if more.None? { return None; }
        vs := vs + [v.value];
        if !more.value { return Some(vs); }
      }
    }

    method ReadKey() returns (r: Option<seq<byte>>)
      requires Valid()
      modifies this
      ensures Valid() && Did(r, ParseKey(old(Rest())))
    {
      r := ReadString();
      if r.None? { return; }
      SkipBlank();
      if idx >= |str| || str[idx] != COLON { return None; }
      assert Rest()[1..] == str[idx + 1..];
      idx := idx + 1;
      SkipBlank();
    }

    method ReadObject() returns (r: Option<map<seq<byte>, Json>>)
      requires Valid() && idx < |str| && str[idx] == LBRACE
      modifies this
      ensures Valid() && Did(r, ParseFields(floats, old(Rest())[1..], map[]))
      decreases |str| - idx, 0
    {
      assert Rest()[1..] == str[idx + 1..];
      idx := idx + 1;
      ghost var all := ParseFields(floats, Rest(), map[]);
      var m: map<seq<byte>, Json> := map[];
      while true
        invariant Valid() && idx > old(idx)
        invariant all == ParseFields(floats, Rest(), m)
        decreases |str| - idx
      {
        SkipBlank();
        assert idx < |str| ==> Rest()[1..] == str[idx + 1..];
        if idx < |str| && str[idx] == RBRACE {
          idx := idx + 1;
          return Some(m);
        }
        var k := ReadKey();
        if k.None? { return None; }
        var v := ReadValue();
        if v.None? { return None; }
        var more := ReadSeparator(RBRACE);
        if more.None? { return None; }
        m := m[k.value := v.value];
        if !more.value { return Some(m); }
      }
    }
  }

  /** json_decode on any input. */
  method DecodeText(floats: Floats, text: seq<byte>) returns (r: Option<Json>)
    ensures r == Decode(floats, text)
  {
    var p := new Parser(text, floats);
    p.SkipBlank();
    r := p.ReadValue();
    if r.None? { return; }
    p.SkipBlank();
    if p.idx < |text| { return None; }
  }

  ghost function PrefixedItems(b: seq<Json>, r: Parsed<seq<Json>>): Parsed<seq<Json>> {
    if r.Some? then Some((b + r.value.0, r.value.1)) else None
  }

  /** What the array loop does after a value. */
  ghost function AfterItem(f: Floats, b: seq<Json>, s: seq<byte>): Parsed<seq<Json>> {
    if s == [] || (s[0] != RBRACKET && s[0] != COMMA) then None
    else if s[0] == RBRACKET then Some((b, s[1..]))
    else PrefixedItems(b, ParseItems(f, s[1..]))
  }

  /** One round of the array loop. */
  lemma ItemsUnfold(f: Floats, s: seq<byte>, b: seq<Json>)
    ensures var s1 := SkipSpace(s); var all := PrefixedItems(b, ParseItems(f, s)); var v := ParseValue(f, s1);
      if s1 != [] && s1[0] == RBRACKET then all == Some((b, s1[1..]))
      else if v.None? then all == None
      else all == AfterItem(f, b + [v.value.0], SkipSpace(v.value.1))
  {
    assert b + [] == b;
    var v := ParseValue(f, SkipSpace(s));
    if v.Some? {
      var s3 := SkipSpace(v.value.1);
      if s3 != [] && s3[0] == COMMA && ParseItems(f, s3[1..]).Some? {
        Assoc(b, [v.value.0], ParseItems(f, s3[1..]).value.0);
      }
    }
  }

  /** The result of a string loop that has `b` and `s` to go. */
  ghost function CharsLeft(b: seq<byte>, s: seq<byte>): Parsed<seq<byte>> {
    var r := ParseChars(s);
    if r.Some? then Some((b + r.value.0, r.value.1)) else None
  }

  lemma AllCharsLeft(s: seq<byte>)
    ensures CharsLeft([], s) == ParseChars(s)
  {
    var r := ParseChars(s);
    if r.Some? { assert [] + r.value.0 == r.value.0; }
  }

  lemma NoCharsLeft(b: seq<byte>)
    ensures CharsLeft(b, []) == None
  {}

  /** One step of the string loop. */
  lemma CharsUnfold(s: seq<byte>, b: seq<byte>)
    requires s != []
    ensures s[0] < 32 ==> CharsLeft(b, s) == None
    ensures s[0] == QUOTE ==> CharsLeft(b, s) == Some((b, s[1..]))
    ensures s[0] == BACKSLASH ==> match ParseEscape(s[1..])
      case None => CharsLeft(b, s) == None
      case Some((cs, rest)) => CharsLeft(b, s) == CharsLeft(b + cs, rest)
    ensures s[0] >= 32 && s[0] != QUOTE && s[0] != BACKSLASH ==> CharsLeft(b, s) == CharsLeft(b + [s[0]], s[1..])
  {
    assert b + [] == b;
    if s[0] == BACKSLASH {
      var e := ParseEscape(s[1..]);
      if e.Some? && ParseChars(e.value.1).Some? { Assoc(b, e.value.0, ParseChars(e.value.1).value.0); }
    } else if ParseChars(s[1..]).Some? {
      Assoc(b, [s[0]], ParseChars(s[1..]).value.0);
    }
  }
}
