/** json.c, the encoder itself: a growing text buffer and the set of tables on the path. */
module JsonEncoder {
  import opened Bytes
  import L = LuaGraph
  import opened JsonText
  import opened JsonGraph

  /** strbuf_t: the text, always followed by a NUL. */
  class StrBuf {
    var data: array<byte>
    var len: nat
    var cap: nat

    ghost predicate Valid()
      reads this, data
    {
      cap == data.Length && len + 1 <= cap && data[len] == 0
    }

    ghost function Contents(): seq<byte>
      reads this, data
      requires Valid()
    {
      data[..len]
    }

    constructor ()
      ensures Valid() && fresh(data) && Contents() == []
    {
      cap, len := 256, 0;
      data := new byte[256](_ => 0);
    }

    /** Room for `need` more bytes and the NUL, by doubling no more often than needed. */
    method Reserve(need: nat)
      requires Valid()
      modifies this
      ensures Valid() && (data == old(data) || fresh(data)) && Contents() == old(Contents()) && len == old(len)
      ensures len + need + 1 <= cap
      ensures cap == old(cap) || cap < 2 * (len + need + 1)
    {
      if len + need + 1 <= cap { return; }
      var ncap := cap;
      while len + need + 1 > ncap
        invariant ncap >= cap && (ncap == cap || ncap < 2 * (len + need + 1))
        decreases len + need + 1 - ncap
      {
        ncap := ncap * 2;
      }
      var p := new byte[ncap](_ => 0);
      forall i | 0 <= i <= len { p[i] := data[i]; }
      data, cap := p, ncap;
    }

    method Append(s: seq<byte>)
      requires Valid()
      modifies this, data
      ensures Valid() && (data == old(data) || fresh(data))
      ensures Contents() == old(Contents()) + s
    {
      Reserve(|s|);
      forall i | 0 <= i < |s| { data[len + i] := s[i]; }
      len := len + |s|;
      data[len] := 0;
    }
  }

  class Encoder {
    const floats: Floats
    const heap: JHeap
    const buf: StrBuf
    var path: set<nat>

    constructor (floats: Floats, heap: JHeap)
      ensures this.floats == floats && this.heap == heap && path == {}
      ensures buf.Valid() && fresh(buf) && fresh(buf.data) && buf.Contents() == []
    {
      this.floats, this.heap, this.path := floats, heap, {};
      this.buf := new StrBuf();
    }

    ghost predicate Valid()
      reads this, buf, buf.data
    {
      Proper(heap) && buf.Valid()
    }

    /** The buffer grew by what the specification prints, or its error came back. */
    ghost predicate Did(err: Option<Err>, out: Out, was: seq<byte>, path0: set<nat>)
      reads this, buf, buf.data
      requires Valid()
    {
      match out
      case Good(t) => err == None && buf.Contents() == was + t && path == path0
      case Bad(e) => err == Some(e)
    }

    /** encode_string: quote, escape byte by byte, quote. */
    method PutString(s: seq<byte>)
      requires Valid()
      modifies buf, buf.data
      ensures Valid() && (buf.data == old(buf.data) || fresh(buf.data))
      ensures buf.Contents() == old(buf.Contents()) + StringText(s)
    {
      ghost var was := buf.Contents();
      buf.Append([QUOTE]);
      var i := 0;
      assert Escaped(s[..0]) == [];
      while i < |s|
        invariant 0 <= i <= |s|
        invariant Valid() && (buf.data == old(buf.data) || fresh(buf.data))
        invariant buf.Contents() == was + [QUOTE] + Escaped(s[..i])
      {
        EscapedSnoc(s, i);
        Assoc(was + [QUOTE], Escaped(s[..i]), Escape(s[i]));
        buf.Append(Escape(s[i]));
        i := i + 1;
      }
      assert s[..|s|] == s;
      buf.Append([QUOTE]);
      StringGlue(was, Escaped(s));
    }

    method PutValue(v: JV) returns (err: Option<Err>)
      requires Valid() && InHeap(heap, v)
      modifies this, buf, buf.data
      ensures Valid() && (buf.data == old(buf.data) || fresh(buf.data))
      ensures Did(err, EncodeValue(floats, heap, v, old(path)), old(buf.Contents()), old(path))
      decreases heap.Keys - path, 2, 0
    {
      match v
      case Nil => buf.Append(NULL); err := None;
      case Sentinel => buf.Append(NULL); err := None;
      case Bool(b) => buf.Append(if b then TRUE else FALSE); err := None;
      case Number(n) =>
        if !n.Finite? { return Some(BadNumber); }
        buf.Append(NumberText(floats, n));
        err := None;
      case Str(s) => PutString(s); err := None;
      case Tab(id) => err := PutTable(id);
      case Other => err := Some(BadType);
    }

    /** The keys of an array must all be numbers; how many there are. */
    method CountKeys(t: JTable) returns (n: Option<nat>)
      ensures n == if AllNumbers(t.keys) then Some(|t.keys|) else None
    {
      var i := 0;
      while i < |t.keys|
        invariant 0 <= i <= |t.keys| && AllNumbers(t.keys[..i])
      {
        if !t.keys[i].Number? { return None; }
        i := i + 1;
      }
      assert t.keys[..|t.keys|] == t.keys;
      return Some(i);
    }

    /** encode_table: the table is on the path while its contents are printed. */
    method PutTable(id: nat) returns (err: Option<Err>)
      requires Valid() && id in heap
      modifies this, buf, buf.data
      ensures Valid() && (buf.data == old(buf.data) || fresh(buf.data))
      ensures Did(err, EncodeTable(floats, heap, id, old(path)), old(buf.Contents()), old(path))
      decreases heap.Keys - path, 1, 0
    {
      if id in path { return Some(Circular); }
      var t := heap[id];
      path := path + {id};
      if JInt(1) in t.content || t.meta == ArrayMeta || (t.meta != ObjectMeta && t.keys == []) {
        if t.meta == NoMeta && t.keys == [] { return Some(Ambiguous); }
        var n := CountKeys(t);
        if n.None? { return Some(Mixed); }
        if n.value != t.len { return Some(Sparse); }
        AllLeft(floats, heap, t, path);
        err := PutItems(t);
      } else {
        AllLeft(floats, heap, t, path);
        err := PutFields(t);
      }
      path := path - {id};
      assert path == old(path) || err.Some?;
    }

    /** One item of an array; `more` is what the items give from here on. */
    method PutItem(t: JTable, i: nat, ghost done: seq<byte>, ghost was: seq<byte>)
        returns (err: Option<Err>, ghost more: seq<byte>)
      requires Valid() && (forall k :: k in t.content ==> InHeap(heap, t.content[k]))
      requires 1 <= i <= t.len && buf.Contents() == was + done
      modifies this, buf, buf.data
      ensures Valid() && (buf.data == old(buf.data) || fresh(buf.data))
      ensures err.None? ==> path == old(path) && buf.Contents() == was + more
      ensures ItemsLeft(floats, heap, t, i, old(path), done)
           == if err.None? then ItemsLeft(floats, heap, t, i + 1, old(path), more) else Bad(err.value)
      decreases heap.Keys - path, 3, 0
    {
      ItemsStep(floats, heap, t, i, path, done, was);
      more := done + ((if i > 1 then [COMMA] else []) + TextOf(EncodeValue(floats, heap, Get(t, JInt(i)), path)));
      if i > 1 { buf.Append([COMMA]); }
      err := PutValue(Get(t, JInt(i)));
    }

    method PutItems(t: JTable) returns (err: Option<Err>)
      requires Valid() && (forall k :: k in t.content ==> InHeap(heap, t.content[k]))
      modifies this, buf, buf.data
      ensures Valid() && (buf.data == old(buf.data) || fresh(buf.data))
      ensures Did(err, Wrapped(LBRACKET, ItemsLeft(floats, heap, t, 1, old(path), []), RBRACKET),
          old(buf.Contents()), old(path))
      decreases heap.Keys - path, 3, 1
    {
      ghost var was, done := buf.Contents() + [LBRACKET], [];
      buf.Append([LBRACKET]);
      assert was + [] == was;
      var i := 1;
      while i <= t.len
        invariant 1 <= i <= t.len + 1 && path == old(path)
        invariant Valid() && (buf.data == old(buf.data) || fresh(buf.data)) && buf.Contents() == was + done
        invariant ItemsLeft(floats, heap, t, 1, path, []) == ItemsLeft(floats, heap, t, i, path, done)
      {
        err, done := PutItem(t, i, done, was);
        if err.Some? { return; }
        i := i + 1;
      }
      buf.Append([RBRACKET]);
      WrapGlue(old(buf.Contents()), LBRACKET, done, RBRACKET);
      return None;
    }

    /** One field of an object. */
    method PutField(t: JTable, i: nat, ghost done: seq<byte>, ghost was: seq<byte>)
        returns (err: Option<Err>, ghost more: seq<byte>)
      requires Valid() && (forall k :: k in t.content ==> InHeap(heap, t.content[k]))
      requires i < |t.keys| && buf.Contents() == was + done
      modifies this, buf, buf.data
      ensures Valid() && (buf.data == old(buf.data) || fresh(buf.data))
      ensures err.None? ==> path == old(path) && buf.Contents() == was + more
      ensures FieldsLeft(floats, heap, t, i, old(path), done)
           == if err.None? then FieldsLeft(floats, heap, t, i + 1, old(path), more) else Bad(err.value)
      decreases heap.Keys - path, 3, 0
    {
      if !t.keys[i].Str? { return Some(Mixed), []; }
      FieldsStep(floats, heap, t, i, path, done, was);
      more := done + ((if i > 0 then [COMMA] else []) + StringText(t.keys[i].s) + [COLON]
                      + TextOf(EncodeValue(floats, heap, Get(t, t.keys[i]), path)));
      if i > 0 { buf.Append([COMMA]); }
      PutString(t.keys[i].s);
      buf.Append([COLON]);
      err := PutValue(Get(t, t.keys[i]));
    }

    method PutFields(t: JTable) returns (err: Option<Err>)
      requires Valid() && (forall k :: k in t.content ==> InHeap(heap, t.content[k]))
      modifies this, buf, buf.data
      ensures Valid() && (buf.data == old(buf.data) || fresh(buf.data))
      ensures Did(err, Wrapped(LBRACE, FieldsLeft(floats, heap, t, 0, old(path), []), RBRACE),
          old(buf.Contents()), old(path))
      decreases heap.Keys - path, 3, 1
    {
      ghost var was, done := buf.Contents() + [LBRACE], [];
      buf.Append([LBRACE]);
      assert was + [] == was;
      var i := 0;
      while i < |t.keys|
        invariant 0 <= i <= |t.keys| && path == old(path)
        invariant Valid() && (buf.data == old(buf.data) || fresh(buf.data)) && buf.Contents() == was + done
        invariant FieldsLeft(floats, heap, t, 0, path, []) == FieldsLeft(floats, heap, t, i, path, done)
      {
        err, done := PutField(t, i, done, was);
        if err.Some? { return; }
        i := i + 1;
      }
      buf.Append([RBRACE]);
      WrapGlue(old(buf.Contents()), LBRACE, done, RBRACE);
      return None;
    }
  }

  /** json_encode on any value. */
  method EncodeText(floats: Floats, heap: JHeap, v: JV) returns (text: seq<byte>, err: Option<Err>)
    requires Proper(heap) && InHeap(heap, v)
    ensures match EncodeValue(floats, heap, v, {})
      case Good(t) => err == None && text == t
      case Bad(e) => err == Some(e)
  {
    var e := new Encoder(floats, heap);
    err := e.PutValue(v);
    text := e.buf.data[..e.buf.len];
    assert forall t: seq<byte> :: [] + t == t;
  }

  ghost function Wrapped(open: byte, out: Out, close: byte): Out {
    if out.Good? then Good([open] + out.text + [close]) else out
  }

  ghost function After(done: seq<byte>, out: Out): Out {
    if out.Good? then Good(done + out.text) else out
  }

  ghost function TextOf(out: Out): seq<byte> { if out.Good? then out.text else [] }

  /** The result of an array loop that printed `done` and has the items from `i` on to go. */
  ghost function ItemsLeft(f: Floats, h: JHeap, t: JTable, i: nat, path: set<nat>, done: seq<byte>): Out
    requires Proper(h) && (forall k :: k in t.content ==> InHeap(h, t.content[k]))
  {
    After(done, EncodeItems(f, h, t, i, path))
  }

  ghost function FieldsLeft(f: Floats, h: JHeap, t: JTable, i: nat, path: set<nat>, done: seq<byte>): Out
    requires Proper(h) && (forall k :: k in t.content ==> InHeap(h, t.content[k]))
  {
    After(done, EncodeFields(f, h, t, i, path))
  }

  lemma AllLeft(f: Floats, h: JHeap, t: JTable, path: set<nat>)
    requires Proper(h) && (forall k :: k in t.content ==> InHeap(h, t.content[k]))
    ensures ItemsLeft(f, h, t, 1, path, []) == EncodeItems(f, h, t, 1, path)
    ensures FieldsLeft(f, h, t, 0, path, []) == EncodeFields(f, h, t, 0, path)
  {
    assert forall x: seq<byte> :: [] + x == x;
  }

  lemma StringGlue(was: seq<byte>, e: seq<byte>)
    ensures was + [QUOTE] + e + [QUOTE] == was + ([QUOTE] + e + [QUOTE])
  {}

  lemma WrapGlue(was: seq<byte>, open: byte, done: seq<byte>, close: byte)
    ensures was + [open] + done + [close] == was + ([open] + done + [close])
    ensures done + [] == done
  {}

  lemma StepGlue(was: seq<byte>, done: seq<byte>, c: seq<byte>, v: seq<byte>, more: seq<byte>)
    ensures done + (c + v + more) == done + (c + v) + more
    ensures was + done + c + v == was + (done + (c + v))
    ensures was + done == was + done + []
  {}

  /** One item of the array loop. */
  lemma ItemsStep(f: Floats, h: JHeap, t: JTable, i: nat, path: set<nat>, done: seq<byte>, was: seq<byte>)
    requires Proper(h) && (forall k :: k in t.content ==> InHeap(h, t.content[k])) && i <= t.len
    ensures var c := if i > 1 then [COMMA] else []; var v := EncodeValue(f, h, Get(t, JInt(i)), path);
      && was + done == was + done + []
      && (if v.Bad? then After(done, EncodeItems(f, h, t, i, path)) == v
          else After(done, EncodeItems(f, h, t, i, path)) == After(done + (c + v.text),
              EncodeItems(f, h, t, i + 1, path))
               && was + done + c + v.text == was + (done + (c + v.text)))
  {
    var c, v, more := if i > 1 then [COMMA] else [], EncodeValue(f, h, Get(t, JInt(i)), path),
        EncodeItems(f, h, t, i + 1, path);
    if v.Good? { StepGlue(was, done, c, v.text, if more.Good? then more.text else []); }
  }

  lemma FieldsStep(f: Floats, h: JHeap, t: JTable, i: nat, path: set<nat>, done: seq<byte>, was: seq<byte>)
    requires Proper(h) && (forall k :: k in t.content ==> InHeap(h, t.content[k]))
    requires i < |t.keys| && t.keys[i].Str?
    ensures var c := if i > 0 then [COMMA] else []; var k := StringText(t.keys[i].s);
      var v := EncodeValue(f, h, Get(t, t.keys[i]), path);
      && was + done == was + done + []
      && (if v.Bad? then After(done, EncodeFields(f, h, t, i, path)) == v
          else After(done, EncodeFields(f, h, t, i, path)) == After(done + (c + k + [COLON] + v.text),
              EncodeFields(f, h, t, i + 1, path))
               && was + done + c + k + [COLON] + v.text == was + (done + (c + k + [COLON] + v.text)))
  {
    var c, k := if i > 0 then [COMMA] else [], StringText(t.keys[i].s);
    var v, more := EncodeValue(f, h, Get(t, t.keys[i]), path), EncodeFields(f, h, t, i + 1, path);
    if v.Good? {
      StepGlue(was, done, c + k + [COLON], v.text, if more.Good? then more.text else []);
      Regroup(was + done, c, k, [COLON]);
    }
  }

  lemma Regroup(a: seq<byte>, b: seq<byte>, c: seq<byte>, d: seq<byte>)
    ensures a + b + c + d == a + (b + c + d)
  {}

  lemma EscapedSnoc(s: seq<byte>, i: nat)
    requires i < |s|
    ensures Escaped(s[..i + 1]) == Escaped(s[..i]) + Escape(s[i])
  {
    assert s[..i + 1] == s[..i] + [s[i]];
    FlatSnoc(s[..i], s[i], Escape);
  }
}
