# luafan, modelled and proved

A Dafny model of the parts of luafan that other code has to trust: the object
serializer and the buffers under it, the JSON codec, WebSocket framing and delivery,
UTF-8 validation and repair, the hand-over of a TCP bufferevent between threads, and
the list of HTTP requests in flight. `dafny verify dfyconfig.toml` checks all of it.

## The main results

* **objectbuf** (`ObjectBuf.EncodeThenDecode`, `ObjectIso.RoundTrip`). For every finite
  Lua table graph, with any sharing and cycles, any `lua_next` order and any symbol
  dictionary whose two maps are inverse, decoding the encoded bytes never fails, and the
  result is isomorphic to the graph reachable from the root **if and only if** no
  reachable table has a string key that Lua coerces to an index of its array part. A
  number or string root comes back unless it is itself a symbol, in which case nothing
  does. The walk ends on cyclic graphs, lists exactly what is reachable, each item once,
  and its numbering is a gap-free bijection that the decoder inverts.
* **bytearray and streams** (`ByteFifo.Execute`, `Stream.ItemsRoundTrip`). Every run of
  writes, reads, mode switches, marks and resets on a buffer returns what an ideal byte
  stream returns; the bytes that its reallocations move, summed over the run, stay within
  four times the capacity reached. Varints
  and strings read back, are as short as they can be, and a strict prefix of a string
  always asks for more than it has and never for more than the whole.
* **JSON** (`JsonSource.AcceptedIff`, `JsonRoundTrip.DecodePrinted`,
  `JsonCycle.CircularIffCycle`, `JsonCodec.EncodeThenDecode`). The decoder accepts exactly
  the texts of a grammar stated on its own, spelled-out escapes, whitespace and trailing
  commas included, and returns what they stand for. Any document, with any whitespace between its tokens,
  decodes to the tree it was printed from, `[]` and `{}` kept apart. Encoding a graph of
  well-formed tables fails with "circular reference" exactly when a cycle can be reached,
  and otherwise prints the unfolded tree.
* **WebSocket** (`WsFrame.ChunkingIrrelevant`, `WsMachine.StreamIsRead`,
  `WsMachine.EveryFrameHasOneFate`, `WsMachine.EveryRun`, `WsRequest.Drive`). However the
  stream is cut into reads and whatever else happens in between, the frames of the whole
  stream are read up to the first Close. In every run of callbacks, API calls and timers
  the data frames parsed are, in order, those that coroutines really got, those cleared and
  those still queued, merged with those dropped on overflow; the queue is bounded and empty
  while a coroutine waits, the state never goes back, only Close is written once it has
  left open, and the connection and its references are released at most once.
* **UTF-8** (`Utf8.IsValidUtf8`, `Utf8.SanitizeUtf8`). The validator accepts exactly the
  concatenations of the encodings of RFC 3629; repair is lossy decoding followed by
  encoding, hence valid, idempotent, the identity on valid text, and at most three times
  as long. JSON literals with proper escapes decode to text that the validator accepts.
* **TCP** (`TcpHandover.EveryInterleaving`, `TcpHandover.QuietMeansReleased`). For any
  number of threads interleaved step by step the bufferevent is freed at most once and
  never used after that, the cleanup body and the disconnect callback run at most once, and
  whoever uses, frees or fires is the only one (`TcpHandover.EveryStateIsSafe`);
  once every thread has returned a cleaned-up connection has been freed exactly once.
* **HTTP** (`HttpInflight.EveryRun` and the methods of `HttpInflight.Inflight`). The list
  stays well linked and free of duplicates, and the references held are the requests in
  flight plus the resumes scheduled.

## How it is laid out

`Bytes` and `LuaGraph` hold what is shared. Each component has a specification part
(wire format, parsers as functions of the remaining input, state machines) with the laws
about it, and an imperative part proved against it: `ByteArrays.ByteArray`,
`Packer.Context`, `ObjectEncode`, `ObjectDecode`, `JsonParser.Parser`,
`JsonEncoder.Encoder`, `WsRequest.Request`, `HttpInflight.Inflight`.

What the C code gets from outside is a parameter: the order of `lua_next`
(`LuaGraph.Order`), the order that `table.sort` puts a list in, what a resumed coroutine does, the eight-byte image of a double and Lua's string-to-number coercion
(`ObjectFormat.Env`), number formatting and parsing beyond exact integers
(`JsonText.Floats`), whether a bufferevent's output is empty (an argument of the
WebSocket steps), and the scheduler (`TcpHandover.Step`).

Where the code and its own words disagree, the model follows the code:

* `objectbuf.encode(false)` returns the empty string, because the one-byte literal is
  pushed as a C string (src/objectbuf.c:240-244); decoding reads no byte as `false`.
* The booleans have the indices 1 and 2 and the first section starts at 3, as in the code;
  docs/api/objectbuf.md starts it at 2.
* `sanitize_utf8` writes one U+FFFD for every byte that starts no unit, not one for a run
  of such bytes.
* The JSON decoder accepts a trailing comma in arrays and objects.

## Model

| member | source | states |
|---|---|---|
| Bits.NextPowerOfTwo | src/bytearray.c:19-29 | bit smearing yields the least power of two not below the argument, at least 128; the 64-bit word wraps to 0 above 2^63 |
| ByteArrays.GrownSize | src/bytearray.c:48-58 | the new capacity is the specified one and covers the request |
| ByteArrays.GrowthPays | src/bytearray.c:48-58 | each growth pays for the bytes it moves: the total stays within four times the capacity |
| ByteArrays.ByteArray.Alloc | src/bytearray.c:183-203 | an empty write-mode buffer of the requested size, 128 for a request of 0 |
| ByteArrays.ByteArray.Wrap | src/bytearray.c:217-226 | a read-mode view of the caller's bytes; the mark is whatever it was |
| ByteArrays.ByteArray.EnsureCapacity | src/bytearray.c:39-72 | contents survive reallocation, which moves exactly the live bytes; only a wrapped buffer without room refuses, and then nothing changes; in read mode it exposes bytes nobody wrote |
| ByteArrays.ByteArray.WriteValue | src/bytearray.c:75-91 | appends the bytes, or fails and changes nothing; in read mode, which the code does not refuse, overwrites at the read position |
| ByteArrays.ByteArray.ReadValue | src/bytearray.c:94-101 | removes exactly the next bytes, or fails and changes nothing; in write mode, which the code does not refuse, returns stale bytes and counts them as written |
| ByteArrays.ByteArray.ReadReady | src/bytearray.c:228-236 | everything written becomes readable from the start; refused in read mode |
| ByteArrays.ByteArray.WriteReady | src/bytearray.c:272-291 | the unread bytes move to the front and stay pending; refused in write mode |
| ByteArrays.ByteArray.ReadAvailable | src/bytearray.c:238-243 | the number of pending bytes in read mode, 0 in write mode |
| ByteArrays.ByteArray.Mark | src/bytearray.c:245-252 | remembers the read position, read mode only |
| ByteArrays.ByteArray.Reset | src/bytearray.c:254-261 | goes back to the mark, read mode only; leaves the buffer exactly when a stale mark lies behind the end |
| ByteFifo.StepSimulates | src/bytearray.c:75-101 | each operation on a buffer is one operation on an ideal byte stream with a cursor |
| ByteFifo.RunSimulates | src/bytearray.c:228-291 | over any legal run the outputs are those of the ideal stream |
| ByteFifo.EmptyBufferIsFifo | src/bytearray.c:228-291 | from an empty buffer, mode switches, compaction and rewinds lose, repeat and reorder nothing |
| ByteFifo.RunAmortised | src/bytearray.c:39-72 | over any legal run the bytes moved by all reallocations stay within four times the capacity reached |
| ByteFifo.Perform | src/bytearray.c:293-299 | one call on a real buffer is one step of its view, and moves and grows as specified |
| ByteFifo.Execute | src/bytearray.c:39-101 | a fresh buffer driven through any legal run returns what the stream returns; the bytes it moved are the sum over the run, at most four times its capacity |
| Stream.U30RoundTrip | src/stream_ffi.c:34-53 | every 32-bit value reads back and exactly the suffix is left |
| Stream.U30Shortest | src/stream_ffi.c:144-149 | no byte string that reads as a value is shorter than its encoding, and five bytes suffice |
| Stream.StringRoundTrip | src/stream_ffi.c:163-166 | a length-prefixed string reads back and exactly the suffix is left |
| Stream.StringStreams | src/stream_ffi.c:92-116 | a strict prefix asks for more than it has and at most for the whole string |
| Stream.ItemsRoundTrip | src/stream_ffi.c:144-171 | any sequence of varints, strings and doubles reads back item by item |
| Stream.AddU30 | src/stream_ffi.c:144-149 | the loop appends the varint of the 32-bit value |
| Stream.GetU30 | src/stream_ffi.c:34-53 | the loop returns the specified value and leaves the specified rest; on failure the bytes are gone |
| Stream.AddBytes | src/stream_ffi.c:168-171 | appends the bytes |
| Stream.AddString | src/stream_ffi.c:163-166 | appends length and bytes |
| Stream.GetString | src/stream_ffi.c:92-116 | a string, or nothing consumed and the number of bytes to wait for |
| Packer.Context.PackNumber | src/objectbuf.c:55-94 | interns a number once, in the word list or the double list |
| Packer.Context.PackString | src/objectbuf.c:96-116 | interns a string once |
| Packer.Context.PackTable | src/objectbuf.c:140-173 | lists the table before its contents, adds only what it reaches, and terminates on cycles |
| Packer.Context.Pack | src/objectbuf.c:175-195 | any value: what is added is reachable from it, and it is collected |
| Packer.ReachableIsCollected | src/objectbuf.c:163-172 | when every listed table is complete, everything reachable is listed |
| Packer.Collect | src/objectbuf.c:229-250 | lists exactly the reachable tables and atoms, each once, the root table first |
| ObjectRoundTrip.AtomRoundTrip | src/objectbuf.c:543-606 | a written double, word or string reads back |
| ObjectRoundTrip.SectionRoundTrip | src/objectbuf.c:280-384 | a section reads back as its atoms that are not symbols, absent sections included |
| ObjectRoundTrip.RefResolves | src/objectbuf.c:415-461 | every index written resolves to its value: symbols, atoms, tables and booleans never clash |
| ObjectRoundTrip.RenameInjective | src/objectbuf.c:391-396 | different listed tables get different numbers |
| ObjectRoundTrip.TableFilled | src/objectbuf.c:398-462 | a decoded table has the entries written, keys and values renamed, and no others |
| ObjectRoundTrip.WordsRoundTrip | src/objectbuf.c:424-457 | the varints of a body read back |
| ObjectRoundTrip.BodyRoundTrip | src/objectbuf.c:622-697 | a body decodes to its table less the keys taken for array indices |
| ObjectRoundTrip.BodiesRoundTrip | src/objectbuf.c:614-699 | so do all bodies, in order |
| ObjectRoundTrip.MessageRoundTrip | src/objectbuf.c:493-714 | a whole message decodes to the collected tables and the value at the root index |
| ObjectIso.RenamedIsIso | src/objectbuf.c:608-713 | with no key lost, the numbering is an isomorphism: same atoms, entries and sharing, root to root |
| ObjectIso.IsoKeepsEntries | src/objectbuf.c:386-462 | any isomorphism carries entries one to one |
| ObjectIso.DropLosesEntries | src/objectbuf.c:433-438 | a key taken for an array index leaves fewer entries |
| ObjectIso.NotIsomorphic | src/objectbuf.c:433-438 | then no renaming at all is an isomorphism |
| ObjectIso.IsoIff | src/objectbuf.c:433-438 | the decoded tables are isomorphic if and only if no key was lost |
| ObjectIso.DecodedTables | src/objectbuf.c:608-713 | what decoding returns in every case, lost keys or not |
| ObjectIso.RoundTrip | src/objectbuf.c:229-714 | decode after encode succeeds and is isomorphic if and only if no reachable string key coerces to an array index |
| ObjectEncode.NumberAtom | src/objectbuf.c:286-302 | a symbol is skipped, any other atom is written and gets the next index |
| ObjectEncode.NumberAtoms | src/objectbuf.c:288-303 | the loop numbers the kept atoms without a gap and writes them in order |
| ObjectEncode.AddSection | src/objectbuf.c:280-312 | the section's bytes and the index map extended by it |
| ObjectEncode.AddAtoms | src/objectbuf.c:271-384 | the three atom sections, their flag bits and the numbering so far |
| ObjectEncode.AddArrayPart | src/objectbuf.c:404-425 | the array values up to the first missing index |
| ObjectEncode.AddPair | src/objectbuf.c:434-460 | one key and value, unless the key coerces to an array index |
| ObjectEncode.AddPairs | src/objectbuf.c:428-462 | the remaining keys and values in the order of `lua_next` |
| ObjectEncode.BuildBody | src/objectbuf.c:401-471 | one table body, count first |
| ObjectEncode.AddTable | src/objectbuf.c:473-479 | the body behind its length |
| ObjectEncode.NumberTables | src/objectbuf.c:390-396 | tables numbered on from the atoms; the index map then agrees with the numbering |
| ObjectEncode.AddBodies | src/objectbuf.c:398-481 | every body in the order of the walk |
| ObjectEncode.AddTables | src/objectbuf.c:386-483 | the table section, or nothing |
| ObjectEncode.NumberingBijection | src/objectbuf.c:280-396 | own values take consecutive indices above the symbols and no two known values share one |
| ObjectEncode.Package | src/objectbuf.c:485-487 | the placeholder byte becomes the flag |
| ObjectEncode.Encode | src/objectbuf.c:229-491 | the bytes are the message of a collection of exactly the reachable values; booleans are one byte or none |
| ObjectDecode.GetAtom | src/objectbuf.c:551-603 | one atom, or failure at the same inputs as the format |
| ObjectDecode.GetAtoms | src/objectbuf.c:550-560 | the counted loop reads the atoms and extends the index map |
| ObjectDecode.GetSection | src/objectbuf.c:543-561 | a section, absent or present |
| ObjectDecode.GetAllAtoms | src/objectbuf.c:543-606 | three sections, and where the last one present starts |
| ObjectDecode.NextWord | src/objectbuf.c:633-648 | the next index of a body |
| ObjectDecode.GetArrayPart | src/objectbuf.c:640-662 | array slots filled in order; an unknown index raises, a short body fails |
| ObjectDecode.GetPairs | src/objectbuf.c:664-696 | pairs until the body ends; an unknown index raises, a half pair fails |
| ObjectDecode.GetBody | src/objectbuf.c:628-697 | one body on any bytes |
| ObjectDecode.GetBodies | src/objectbuf.c:622-698 | the counted loop over bodies on any bytes |
| ObjectDecode.NameTables | src/objectbuf.c:616-620 | empty tables named before any body is read |
| ObjectDecode.GetTables | src/objectbuf.c:608-699 | the table section on any bytes |
| ObjectDecode.GetGraph | src/objectbuf.c:517-709 | everything after the flag, root lookup included |
| ObjectDecode.DecodeBytes | src/objectbuf.c:493-714 | decoding any byte string, well formed or not, with its failures and raised errors |
| ObjectBuf.AddSymbols | modules/fan/objectbuf/init.lua:116-119 | the values of one list get the next indices, both ways |
| ObjectBuf.Dictionary | modules/fan/objectbuf/init.lua:102-147 | three lists numbered one after the other from 3 on, both ways |
| ObjectBuf.Symbols | modules/fan/objectbuf/init.lua:99-150 | the dictionary of an object holds exactly its reachable atoms and is always one that encoding and decoding can share |
| ObjectBuf.AtomRoot | src/objectbuf.c:701-709 | a number or string root comes back unless it is a symbol; then nothing does |
| ObjectBuf.EncodeThenDecode | src/objectbuf.c:229-714 | end to end on real buffers, for every kind of root |
| ObjectBuf.StringKeyLost | src/objectbuf.c:433-438 | the table with 1 = true and "1" = false meets every other condition and does not come back |
| JsonRoundTrip.NumberBack | src/json.c:275-291 | integers below 10^14 in magnitude print and parse exactly |
| JsonRoundTrip.EscapeBack | src/json.c:229-270 | each escape parses to the byte it stands for |
| JsonRoundTrip.StringBack | src/json.c:224-273 | every byte string survives escaping and parsing |
| JsonRoundTrip.ItemsBack | src/json.c:699-723 | printed items parse back, whatever whitespace surrounds them and however the array ends |
| JsonRoundTrip.FieldsBack | src/json.c:725-755 | printed fields parse back; a repeated key takes its last value |
| JsonRoundTrip.EmptyBack | src/json.c:699-755 | empty arrays and empty objects stay apart |
| JsonRoundTrip.ItemsTrailingComma | src/json.c:706-711 | a comma after the last item changes nothing |
| JsonRoundTrip.FieldsTrailingComma | src/json.c:731-736 | a comma after the last field changes nothing |
| JsonRoundTrip.ValueBack | src/json.c:757-796 | a printed value parses to its meaning and leaves what follows |
| JsonRoundTrip.DecodePrinted | src/json.c:798-816 | any document with any whitespace decodes to its tree |
| JsonSource.PiecesRead | src/json.c:545-641 | every spelling of a string literal reads back, a high surrogate taken with the escape behind it |
| JsonSource.CharsSource | src/json.c:545-641 | every string literal accepted is such a spelling |
| JsonSource.SourceReads | src/json.c:757-796 | every source tree reads back, whatever its whitespace, spelling and trailing commas |
| JsonSource.ValueSource | src/json.c:757-796 | every value accepted is the text of a source tree |
| JsonSource.AcceptedIff | src/json.c:798-816 | the decoder returns a value exactly when the text is that of a source tree standing for it |
| JsonParser.Parser.SkipBlank | src/json.c:477-484 | moves to the next byte that is not whitespace |
| JsonParser.Parser.ReadEscape | src/json.c:556-625 | an escape, surrogate pairs included, or an error |
| JsonParser.Parser.ReadChar | src/json.c:550-637 | one round of the string loop |
| JsonParser.Parser.ReadString | src/json.c:545-641 | the string loop returns what the grammar says, on any input |
| JsonParser.Parser.ReadNumber | src/json.c:643-665 | a number span of at most 127 bytes |
| JsonParser.Parser.ReadLiteral | src/json.c:667-697 | true, false and null up to a delimiter |
| JsonParser.Parser.ReadArray | src/json.c:699-723 | the array loop, trailing comma accepted |
| JsonParser.Parser.ReadObject | src/json.c:725-755 | the object loop, trailing comma accepted |
| JsonParser.Parser.ReadValue | src/json.c:757-796 | dispatch on the first byte |
| JsonParser.DecodeText | src/json.c:798-816 | decoding any byte string, trailing garbage refused |
| JsonGraph.UnfoldsOnce | src/json.c:293-384 | a value has at most one unfolded tree |
| JsonCycle.TableTree | src/json.c:293-384 | what is printed for a table is the text of its unfolded tree |
| JsonCycle.ValueTree | src/json.c:386-421 | what is printed for any value is the text of its unfolded tree |
| JsonCycle.GoodIsSimple | src/json.c:296-303 | a successful encoding rules out every walk that repeats a table |
| JsonCycle.BadHasWalk | src/json.c:296-307 | a failed encoding of well-formed tables exhibits a walk that repeats a table |
| JsonCycle.CircularIffCycle | src/json.c:293-384 | "circular reference" exactly when a cycle can be reached; sharing is accepted |
| JsonCycle.EncodeThenDecode | src/json.c:293-421 | acyclic graphs print as their tree, and the text decodes to it |
| JsonEncoder.StrBuf.Reserve | src/json.c:79-94 | room for the request and the NUL, by doubling no further than needed |
| JsonEncoder.StrBuf.Append | src/json.c:96-103 | appends to the text |
| JsonEncoder.Encoder.PutString | src/json.c:224-273 | appends the quoted, escaped string |
| JsonEncoder.Encoder.PutItem | src/json.c:348-354 | one item with its comma |
| JsonEncoder.Encoder.PutItems | src/json.c:346-356 | the array loop |
| JsonEncoder.Encoder.PutField | src/json.c:363-377 | one field with its comma |
| JsonEncoder.Encoder.PutFields | src/json.c:357-380 | the object loop |
| JsonEncoder.Encoder.PutTable | src/json.c:293-384 | a table, on the path while its contents are printed; the path is restored |
| JsonEncoder.Encoder.PutValue | src/json.c:386-421 | appends the text of the value or returns its error |
| JsonEncoder.EncodeText | src/json.c:423-448 | the whole text or the error |
| JsonCodec.EncodeThenDecode | src/json.c:293-816 | end to end: circular exactly on a cycle, else the decoded tree is the unfolded one |
| JsonUnicode.CodepointEncodes | src/json.c:486-509 | for scalar values it is the encoding of RFC 3629 |
| JsonUnicode.CodepointInjective | src/json.c:486-509 | different code points up to 0x10FFFF never share bytes |
| JsonUnicode.EscapeValid | src/json.c:556-625 | a proper escape yields valid text |
| JsonUnicode.LiteralIsValid | src/json.c:545-641 | a literal of valid raw bytes and proper escapes decodes to text the validator accepts |
| Utf8.UnitEncodes | src/luafan.c:219-248 | a unit is accepted only if it is the encoding of a scalar value |
| Utf8.EncodedIsUnit | src/luafan.c:219-248 | the encoding of every scalar value is accepted |
| Utf8.ValidIffText | src/luafan.c:250-262 | accepted exactly the concatenations of such encodings |
| Utf8.IsValidUtf8 | src/luafan.c:250-262 | the validator decides exactly that |
| Utf8.RepairEncodes | src/luafan.c:290-318 | repair is lossy decoding followed by encoding: every unit kept in order, U+FFFD for every other byte |
| Utf8.RepairIsValid | src/luafan.c:267-322 | the repair is always valid |
| Utf8.RepairKeepsValid | src/luafan.c:271-283 | valid input is its own repair |
| Utf8.RepairIdempotent | src/luafan.c:267-322 | repairing twice changes nothing more |
| Utf8.RepairLength | src/luafan.c:267-322 | at most three times the input |
| Utf8.ScanValid | src/luafan.c:271-283 | the fast path stops at the first byte that starts no unit |
| Utf8.RepairFrom | src/luafan.c:285-320 | the repair loop on a growing buffer |
| Utf8.SanitizeUtf8 | src/luafan.c:267-322 | valid output, identity on valid input, length bound |
| WsFrame.MaskedTwice | src/httpd_websocket.c:63-68 | masking is its own inverse |
| WsFrame.MaskInPlace | src/httpd_websocket.c:63-68 | the in-place loop masks every byte with its key byte |
| WsFrame.CreateParses | src/httpd_websocket.c:136-164 | a created frame parses to its fin, opcode and payload and leaves the rest |
| WsFrame.ClientFrameParses | src/httpd_websocket.c:70-134 | a masked frame of any length parses to its unmasked payload |
| WsFrame.ParseExtends | src/httpd_websocket.c:70-134 | more input never changes a complete frame |
| WsFrame.PrefixWaits | src/httpd_websocket.c:110-112 | a strict prefix of a frame is left alone |
| WsFrame.DrainSplit | src/httpd_websocket.c:366-374 | reading a stream in two parts reads the same frames |
| WsFrame.ChunkingIrrelevant | src/httpd_websocket.c:366-435 | any split into reads gives the same frames up to the first Close |
| WsMachine.NextKeeps | src/httpd_websocket.c:229-762 | every step keeps the invariant and never moves the state back |
| WsMachine.RunKeeps | src/httpd_websocket.c:229-762 | so does every run |
| WsMachine.NextReleases | src/httpd_websocket.c:229-318 | what a step releases is what it held and no longer holds, and nothing released comes back |
| WsMachine.EveryRun | src/httpd_websocket.c:177-318 | bounded queue, none while waiting, each release at most once, no use after the free |
| WsMachine.OnlyCloseAfterOpen | src/httpd_websocket.c:385-450 | once a connection has left open, whatever is written later is a Close frame |
| WsMachine.NextFates | src/httpd_websocket.c:177-223 | a step hands over, drops and clears exactly the frames it should: to a coroutine that waits or asks, on a full queue, at cleanup |
| WsMachine.RunAccounts | src/httpd_websocket.c:339-360 | no step loses, repeats or reorders a frame |
| WsMachine.EveryFrameHasOneFate | src/httpd_websocket.c:366-435 | the data frames parsed are those handed over, cleared and queued, in order, merged with those dropped |
| WsMachine.StreamIsRead | src/httpd_websocket.c:366-383 | whatever steps come between, reading takes the frames of the whole stream up to the first Close |
| WsMachine.DataIsTaken | src/httpd_websocket.c:420-428 | until then the data frames taken are those of the stream |
| WsRequest.FrameQueue.Push | src/httpd_websocket.c:177-197 | appends to the linked list, or drops when 64 are queued |
| WsRequest.FrameQueue.Pop | src/httpd_websocket.c:199-210 | removes the oldest frame |
| WsRequest.FrameQueue.Clear | src/httpd_websocket.c:212-223 | frees every queued frame, oldest first, and empties the list |
| WsRequest.Request.FreeOwned | src/httpd_websocket.c:303-317 | frees the owned connection once and gives both references back |
| WsRequest.Request.CleanUp | src/httpd_websocket.c:284-318 | is the cleanup step, guarded against a second run |
| WsRequest.Request.StopAll | src/httpd_websocket.c:324-337 | wakes the waiting coroutine with an error, or cleans up |
| WsRequest.Request.DeliverFrame | src/httpd_websocket.c:420-428 | the waiting coroutine is resumed with exactly this frame, else it is queued or dropped |
| WsRequest.Request.HandleFrame | src/httpd_websocket.c:385-433 | is the frame switch of the read callback |
| WsRequest.Request.ReadRound | src/httpd_websocket.c:366-435 | is one round of the read callback, with the frame it resumed a coroutine with |
| WsRequest.Request.ReadCallback | src/httpd_websocket.c:366-435 | the whole loop reads exactly the frames of the input up to the first Close, unless a resumed coroutine tears the connection down |
| WsRequest.Request.ReceiveFrame | src/httpd_websocket.c:725-762 | hands over the oldest queued frame or starts waiting |
| WsRequest.Request.CloseNow | src/httpd_websocket.c:652-702 | is the close step |
| WsRequest.Request.AcceptUpgrade | src/httpd_websocket.c:474-542 | is the accept step |
| WsRequest.Request.SendFrame | src/httpd_websocket.c:548-650 | writes the frame exactly when the connection is open and available |
| WsRequest.Request.HangUpNow | src/httpd_websocket.c:437-450 | is the hang-up step |
| WsRequest.Request.ReleaseAll | src/httpd_websocket.c:237-253 | nothing is held afterwards, and what was held was released once |
| WsRequest.Request.FreeLater | src/httpd_websocket.c:229-254 | refines the deferred free: on a connection being torn down nothing is held afterwards and another call would release nothing; on any other it only unschedules |
| WsRequest.Request.Perform | src/httpd_websocket.c:229-762 | any step on the object is the step of the machine, and returns the frame a coroutine gets |
| WsRequest.Drive | src/httpd_websocket.c:229-762 | a request driven through any steps: the frames returned to coroutines and those still queued are the frames parsed, in order, less those cleared and dropped |
| TcpHandover.SendPreserves | src/tcpd.c:228-241 | a send keeps the invariant of every thread |
| TcpHandover.TakePreserves | src/tcpd_event.c:301-308 | so does the take-over under the mutex and the free outside it |
| TcpHandover.EventPreserves | src/tcpd_event.c:311-356 | so does the disconnect callback, looked at again under the Lua lock |
| TcpHandover.ClosePreserves | src/tcpd_event.c:499-551 | so does the guarded cleanup |
| TcpHandover.RunKeeps | src/tcpd.c:186-211 | one step of any thread keeps the invariant of all |
| TcpHandover.TraceKeeps | src/tcpd_event.c:301-357 | so does any interleaving |
| TcpHandover.EveryInterleaving | src/tcpd_server.c:347-386 | freed at most once, never used after, cleanup and callback at most once |
| TcpHandover.EveryStateIsSafe | src/tcpd_event.c:301-357 | in every state a thread about to send finds the bufferevent set and not freed, and whoever frees, fires or cleans up is the only one |
| TcpHandover.QuietMeansReleased | src/tcpd_event.c:499-530 | once all threads have returned, a cleaned-up connection was freed exactly once and holds no lock |
| HttpInflight.StepBalances | src/http.c:98-118 | each event keeps requests apart and every reference accounted for |
| HttpInflight.EveryRun | src/http.c:1605-1662 | so does every run, and after a shutdown only scheduled resumes hold references |
| HttpInflight.CutIsLinked | src/http.c:107-118 | once its neighbours bypass a node, the others are a doubly linked list |
| HttpInflight.Inflight.Add | src/http.c:98-105 | the connection becomes the head of a well-linked list |
| HttpInflight.Inflight.Unlink | src/http.c:107-118 | the neighbours bypass the connection |
| HttpInflight.Inflight.Remove | src/http.c:107-118 | takes out that connection, the others keep their order and links |
| HttpInflight.Inflight.Start | src/http.c:1315-1318 | is the start event |
| HttpInflight.Inflight.Complete | src/http.c:169-186 | is the completion event; a second call does nothing |
| HttpInflight.Inflight.Resume | src/http.c:389-403 | is the resume event |
| HttpInflight.Inflight.Shutdown | src/http.c:1605-1662 | drains the list, one reference given back per request |

## Left out

- The Lua C API: values are datatypes, errors are results, the stack and its depth limit
  do not appear, and allocation always succeeds.
- objectbuf: functions as values, which are collected and never written; NaN, which
  cannot be a key; integers apart from doubles of the same value; and the cast to `int`
  in the array-part test for keys beyond the range of `int`.
- ObjectIso.RoundTrip: sizes are bounded by the 32-bit format, as `SizesFit` says:
  counts, indices, string lengths and body lengths below 2^32, and doubles whose eight
  bytes read back.
- ObjectBuf.EncodeThenDecode: the same size bound, stated for every order the walk can
  take.
- ByteArrays.GrownSize: size arithmetic does not wrap; `size_t` overflow is not modelled.
- bytearray: `bytearray_empty` and `bytearray_dealloc`, and the fixed-width readers and
  writers, which are easy members.
- ByteFifo.Execute: runs that write in write mode and read in read mode; what the calls do in
  the other mode is in the contracts of `WriteValue` and `ReadValue`.
- stream: the 8-, 16- and 24-bit items and `get_bytes`, which would only add easy members.
- JsonRoundTrip.DecodePrinted: numbers are integers below 10^14 in magnitude; other
  numbers go through the `Floats` parameter.
- JsonUnicode.LiteralIsValid: lone surrogates and a high surrogate followed by an escape
  that is not a low one; the decoder accepts both.
- JSON: the default of dropping nulls (the model is that of `enable_null(true)`), the
  text and position of error messages, and the flushing of literal spans in one copy.
- WsMachine.EveryRun: releases happen at most once; that they happen at all is not
  claimed, because pending output can leave the deferred release unscheduled.
- WebSocket: the accept key, reassembly of fragmented messages, one Close per side and
  the limit on control frames, none of which the code enforces; a coroutine that runs
  inside a callback appears as the steps it takes between two rounds of the loop.
- TcpHandover.EveryInterleaving: the model is a state machine over program points, not
  classes; the mutex is valid throughout, so `pthread_mutex_destroy` is not modelled, and
  neither is the use of the bufferevent outside the mutex in the read and EOF paths.
- HttpInflight.Inflight.Complete: the memory of a completed connection is not reused, so
  a call on a connection already given back to the allocator does not appear.
- libevent, OpenSSL, curl, MariaDB, sockets, DNS, signals, process spawning, hexadecimal
  helpers, metrics and configuration are not part of this model.
