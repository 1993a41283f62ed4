/** json.c, the text of a document: printing with any whitespace between tokens. */
module JsonText {
  import opened Bytes
  import opened LuaGraph

  const QUOTE: byte := 34
  const COMMA: byte := 44
  const MINUS: byte := 45
  const ZERO: byte := 48
  const NINE: byte := 57
  const COLON: byte := 58
  const LBRACKET: byte := 91
  const BACKSLASH: byte := 92
  const RBRACKET: byte := 93
  const LBRACE: byte := 123
  const RBRACE: byte := 125

  const NULL: seq<byte> := [110, 117, 108, 108]
  const TRUE: seq<byte> := [116, 114, 117, 101]
  const FALSE: seq<byte> := [102, 97, 108, 115, 101]

  predicate IsSpace(c: byte) { c == 32 || c == 9 || c == 13 || c == 10 }

  predicate IsDelim(c: byte) { IsSpace(c) || c == RBRACKET || c == RBRACE || c == COMMA }

  // ---------- numbers ----------

  /** `%.14g` and `strtod` beyond the integers that both treat exactly. */
  datatype Floats = Floats(format: Num -> seq<byte>, parse: seq<byte> -> Option<Num>)

  const LIMIT: int := 100_000_000_000_000

  predicate IsSmallInt(n: Num) {
    n.Finite? && n.r == n.r.Floor as real && -LIMIT < n.r.Floor < LIMIT
  }

  function Digits(n: nat): seq<byte> {
    if n < 10 then [ZERO + n] else Digits(n / 10) + [ZERO + n % 10]
  }

  function NumberText(f: Floats, n: Num): seq<byte> {
    if !IsSmallInt(n) then f.format(n)
    else if n.r.Floor < 0 then [MINUS] + Digits(-n.r.Floor)
    else Digits(n.r.Floor)
  }

  // ---------- strings ----------

  function HexDigit(d: nat): byte requires d < 16 { if d < 10 then ZERO + d else 87 + d }

  function Escape(c: byte): seq<byte> {
    if c == BACKSLASH then [BACKSLASH, BACKSLASH]
    else if c == QUOTE then [BACKSLASH, QUOTE]
    else if c == 8 then [BACKSLASH, 98]
    else if c == 12 then [BACKSLASH, 102]
    else if c == 10 then [BACKSLASH, 110]
    else if c == 13 then [BACKSLASH, 114]
    else if c == 9 then [BACKSLASH, 116]
    else if c < 32 then [BACKSLASH, 117, ZERO, ZERO, HexDigit(c / 16), HexDigit(c % 16)]
    else [c]
  }

  function Escaped(d: seq<byte>): seq<byte> { Flat(d, Escape) }

  function StringText(d: seq<byte>): seq<byte> { [QUOTE] + Escaped(d) + [QUOTE] }

  // ---------- documents ----------

  /** A value as written: trees with the whitespace around every token. */
  datatype Doc =
    | Null
    | Boolean(b: bool)
    | Num(n: Num)
    | Text(s: seq<byte>)
    | Array(blank: seq<byte>, items: seq<Item>)
    | Object(blank: seq<byte>, fields: seq<Field>)

  datatype Item = Item(before: seq<byte>, v: Doc, after: seq<byte>)
  datatype Field = Field(beforeKey: seq<byte>, key: seq<byte>, afterKey: seq<byte>, before: seq<byte>, v: Doc,
      after: seq<byte>)

  function Print(f: Floats, d: Doc): (t: seq<byte>)
    decreases d, 1
  {
    match d
    case Null => NULL
    case Boolean(b) => if b then TRUE else FALSE
    case Num(n) => NumberText(f, n)
    case Text(s) => StringText(s)
    case Array(blank, items) => [LBRACKET] + (if items == [] then blank else PrintItems(f, items)) + [RBRACKET]
    case Object(blank, fields) => [LBRACE] + (if fields == [] then blank else PrintFields(f, fields)) + [RBRACE]
  }

  function PrintItems(f: Floats, items: seq<Item>): seq<byte>
    decreases items, 0
  {
    if items == [] then [] else
    items[0].before + Print(f, items[0].v) + items[0].after
      + (if |items| == 1 then [] else [COMMA] + PrintItems(f, items[1..]))
  }

  function PrintFields(f: Floats, fields: seq<Field>): seq<byte>
    decreases fields, 0
  {
    if fields == [] then [] else
    fields[0].beforeKey + StringText(fields[0].key) + fields[0].afterKey + [COLON]
      + (fields[0].before + Print(f, fields[0].v) + fields[0].after)
      + (if |fields| == 1 then [] else [COMMA] + PrintFields(f, fields[1..]))
  }

  ghost predicate AllSpace(w: seq<byte>) { forall i :: 0 <= i < |w| ==> IsSpace(w[i]) }

  /** Only whitespace between tokens, and only numbers that print exactly. */
  ghost predicate Exact(d: Doc)
    decreases d
  {
    match d
    case Num(n) => IsSmallInt(n)
    case Array(blank, items) =>
      AllSpace(blank) && forall i :: 0 <= i < |items| ==>
        AllSpace(items[i].before) && AllSpace(items[i].after) && Exact(items[i].v)
    case Object(blank, fields) =>
      AllSpace(blank) && forall i :: 0 <= i < |fields| ==>
        && AllSpace(fields[i].beforeKey) && AllSpace(fields[i].afterKey)
        && AllSpace(fields[i].before) && AllSpace(fields[i].after) && Exact(fields[i].v)
    case _ => true
  }

  // ---------- what a document means ----------

  /** Decoded values: arrays and objects are told apart by their metatable, even when empty. */
  datatype Json =
    | JNull
    | JBool(b: bool)
    | JNum(n: Num)
    | JStr(s: seq<byte>)
    | JArr(items: seq<Json>)
    | JObj(fields: map<seq<byte>, Json>)

  function Meaning(d: Doc): Json
    decreases d, 1
  {
    match d
    case Null => JNull
    case Boolean(b) => JBool(b)
    case Num(n) => JNum(n)
    case Text(s) => JStr(s)
    case Array(_, items) => JArr(ItemMeanings(items))
    case Object(_, fields) => JObj(FieldMeanings(fields, map[]))
  }

  function ItemMeanings(items: seq<Item>): seq<Json>
    decreases items, 0
  {
    if items == [] then [] else [Meaning(items[0].v)] + ItemMeanings(items[1..])
  }

  /** A later field overwrites an earlier one with the same key. */
  function FieldMeanings(fields: seq<Field>, m: map<seq<byte>, Json>): map<seq<byte>, Json>
    decreases fields, 0
  {
    if fields == [] then m else FieldMeanings(fields[1..], m[fields[0].key := Meaning(fields[0].v)])
  }
}
