/** json.c, end to end: encode a table graph into a buffer, parse the text again. */
module JsonCodec {
  import opened Bytes
  import opened JsonText
  import opened JsonGraph
  import opened JsonCycle
  import JsonEncoder
  import JsonParser

  /** A graph of well-formed tables with exact numbers is refused as circular exactly when a cycle
      can be reached; otherwise its text decodes to the tree it unfolds to. */
  method EncodeThenDecode(floats: Floats, heap: JHeap, v: JV) returns (err: Option<Err>, r: Option<Json>)
    requires AllWellFormed(heap) && InHeap(heap, v) && Printable(v)
    requires ExactNumbers(heap) && (v.Number? ==> IsSmallInt(v.n))
    ensures if CycleFrom(heap, v) then err == Some(Circular)
            else err == None && exists d :: Unfolds(heap, v, d) && r == Some(Meaning(d))
  {
    CircularIffCycle(floats, heap, v);
    var text;
    text, err := JsonEncoder.EncodeText(floats, heap, v);
    if err.Some? { return err, None; }
    ghost var d := JsonCycle.EncodeThenDecode(floats, heap, v);
    r := JsonParser.DecodeText(floats, text);
  }
}
