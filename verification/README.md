# Mojo bindings: a Dafny model

Mojo components talk over message pipes.  A message is a header and a payload struct in one binary archive format,
which this repository implements independently in Go, JavaScript and Python; around the codecs sit small event
engines that route responses, wait for handles and start applications.  This project models those parts and proves
what they promise.

**One format, three languages.**  `Wire` defines schemas, values, the layout of blocks, and the relation
`RepBlock(env, buf, at, h, b, items)`: the bytes of `buf` from word `at` on represent the value `items`, with handles
numbered from `h`.  No encoder or decoder is mentioned there.  Every codec is proved against that relation:

- what an encoder writes represents the value (`GoEncoding.EncBlockRep`, `JsWriting.JsEncBlockRep`,
  `PythonWriting.IntoSerialized`);
- whatever represents a value is accepted and decoded to it (`GoDecoding.DecBlockRep`, `JsAccepts.BlockAccepted`,
  `JsReading.JsDecBlockRep`, `PythonReading.BlockRead`).

Round trips inside one language and between any two of them follow: `GoMessage.MessageRoundTrip`,
`GoVersions.AcrossVersions`, `JsMessage.JsToJs`, `JsMessage.GoToJs`, `JsMessage.JsToGo`, `PythonMessage.PyToPy`,
`PythonMessage.PyToEarlierPy`, `PythonMessage.PyToGo`, `PythonMessage.PyToJs`, `PythonMessage.GoToPy`,
`PythonMessage.JsToPy`.

Generated code is an interpreter over schemas that makes the calls of the templates, in packed order.  Struct
definitions carry the offsets of the packer; `GoLayout.Packed` says that they are first fit.

**Objects.**  What the sources update in place is a class here, proved against the value functions that the theorems
are about: `GoBindings.Encoder` and `Decoder`, `JsBindings.Buffer` and `Validator`, `JsCoders.Encoder` and `Decoder`,
`AsyncWaiter.Worker`, `GoRouter.RouterWorker`, `PythonRouter.Router`, `DartWatcher.HandleWatcher`,
`ApplicationTable.ApplicationManager`.  Protocols with several parties (`WaiterProtocol`, `GoRouter`) are state
machines whose steps interleave freely.

## Where the code and its promise differ

- *Go capacity guard.*  `ensureElementBitSizeAndCapacity` aligns to a byte count that is not a power of two when a byte
  of bools is partly filled.  `GoLayout.GuardExact` says exactly which slots it turns away although they fit: 8-byte
  slots that end their block, reached inside a byte of bools, in a block that ends at an odd multiple of 8.
- *Go round trip.*  The encoder aligns before it writes a pointer, the decoder does not, and the decoder starts the
  payload at 0.  A struct `{bool; string?}` is therefore encoded and not decoded
  (`GoMessage.BoolThenPointerIsRefused`).  `GoMessage.MessageRoundTrip` gives the exact condition (`ClearBlock`, which
  can be read off the schema and the position of each block), and `GoMessage.SafeSchemasRoundTrip` the schemas that
  never meet it.
- *Go decoder on odd sizes.*  In a block whose size is not a multiple of 8 the guard can let a read pass the end of the
  block, and at the end of the buffer the decoder panics.  An 11-byte struct of a newer version does that to the
  decoder of `{bool; uint16}` (`GoReads.GeneratedDecoderPanics`).  `GoReads.GuardLeaves` says exactly which slots leave
  their block, and `GoReads.RunPanics` that a run panics exactly by coming to such a slot; if every block ends at a
  multiple of 8 that never happens (`GoReads.WholeRunsNeverPanic`).
- *Go versions.*  A reader of any version reads what a writer of any other wrote exactly if its tables accept the headers
  and the guard lets it through (`GoVersions.BlockFor`).  An earlier reader may meet the guard's wrong refusal where the
  writer's own version does not (`GoVersions.EarlierIsRefused`).
- *Go encoder.*  A 32-bit size word that wraps around to 0 breaks the encoder's invariant (`GoInvariant.StartWraps`);
  every other sequence of calls keeps it, also past errors, and only a pointer outside of any block panics
  (`GoInvariant.PanicsExactly`).
- *Go router.*  A response to an id that is not registered blocks the worker for good, exactly if it is read while
  channels are registered (`GoRouter.BlocksExactly`); an honest peer never causes that (`GoRouter.HonestNeverBlocks`).
- *Go templates* drop the errors of `WriteNullPointer` and `WriteInvalidHandle`; the model drops them too.
- *Flags.*  JavaScript accepts every flags word except one with both bits set, Go accepts 0, 1 and 2 only, and Python
  decides by the two bits whether there is a request id.
- *JavaScript map values.*  The class of nullable arrays forgets its length, so fixed lengths of nullable arrays in
  a map value are not checked (`JsShapes.CodecDimensionsExact` says exactly when).  `JsGaps.ForgottenLength` is a buffer
  that validates and does not conform.  What the validator does promise is `JsShapes.ShapedBlock`, conformance with the
  lengths that it is handed: validated bytes are read as a shaped value, and whatever represents a shaped value is
  accepted.
- *JavaScript maps elsewhere.*  The validator does not look at maps inside arrays or at maps that are keys or values
  of maps.  For all such maps there are bytes that validate and lead the reader out of the buffer
  (`JsGaps.UncheckedMap`, `JsGaps.UncheckedMapKey`, `JsGaps.UncheckedMapValue`).  A map of nullable values may have no values at all: for all such maps there are bytes
  that validate and on which the reader trips over null (`JsGaps.NullValues`).  Everything else is sound
  (`JsSafety.BlockSound`): nullable map values never lead the reader out of the buffer, and without them validated bytes
  are read.  A map with arrays as keys is refused unless every key is null (`JsGaps.ArrayKeysRefused`).
- *Dart timers* with equal deadlines: the second is dropped (`DartWatcher.UpdatedHolds` says
  exactly when, `DartWatcher.EqualDeadlineIsLost` is an instance).
- *Application start.*  A script counts as started even if its content handler is not
  (`ApplicationTable.ScriptRequest` says exactly when, `ApplicationTable.ScriptRequestIsLost` is an instance).

## Model

| member | source | states |
|---|---|---|
| Wire.RepBlockMoves | public/go/bindings/message.go:166-177 | a representation depends only on the block's own bytes and on relative positions: it survives being moved up or down by whole words and being copied into another buffer |
| Wire.BlockFieldsOk | public/tools/bindings/pylib/mojom/generate/pack.py:101-120 | the elements of every array and the two pointers of every map lie inside its payload, as the fields of a well-formed struct do |
| GoLayout.AlignIsNext | public/go/bindings/util.go:13-17 | `align` gives the first multiple of 1, 2, 4 or 8 at or after its argument |
| GoLayout.GuardExactAtByte | public/go/bindings/encoder.go:80-92 | at a byte boundary the capacity guard admits a slot if and only if the aligned slot ends inside the block, for every limit |
| GoLayout.GuardExact | public/go/bindings/encoder.go:80-92 | for limits that are multiples of 8 the guard admits a slot if and only if it fits and is not the one rejected kind: 8 bytes, last of its block, inside a byte of bools, limit an odd multiple of 8 |
| GoLayout.GuardBool | public/go/bindings/encoder.go:247-257 | the guard admits a bool exactly when its byte is inside the block |
| GoLayout.InFrontOfRest | public/go/bindings/encoder.go:40-56 | writing or reading a slot moves the cursor to the packed place of the next slot |
| GoLayout.BlockPacked | public/go/bindings/encoder.go:161-187 | elements of arrays and the two pointers of a map are packed first fit, like struct fields |
| GoLayout.StuckIsLast | public/go/bindings/encoder.go:80-92 | a slot that the guard wrongly refuses is the last one of its block |
| GoEncoding.StepBool | public/go/bindings/encoder.go:247-257 | a bool write sets its bit, keeps every other bit behind the cursor and leaves everything ahead of it zero |
| GoEncoding.StepUint | public/go/bindings/encoder.go:265-328 | a number is stored little-endian at the aligned place, nothing behind the cursor or outside the block changes |
| GoEncoding.StepStart | public/go/bindings/encoder.go:96-129 | starting a block claims zeroed, 8-aligned bytes behind everything else and writes size and version or length |
| GoEncoding.EncSlotRep | public/tools/bindings/generators/go_templates/encoding_macros.tmpl:1-120 | one slot: written so that it represents its value, or refused exactly when the guard rejects it there |
| GoEncoding.EncSlotsRep | public/tools/bindings/generators/go_templates/struct.tmpl:1-71 | the slots of a block in order, with the blocks below them placed behind, represent the values |
| GoEncoding.EncBlockRep | public/go/bindings/encoder.go:158-406 | encoding a conforming block succeeds if and only if no tight struct ends at an odd word there, and then the claimed bytes represent it, the handles are appended in order and earlier bytes are unchanged |
| GoDecoding.DecBlockRep | public/go/bindings/decoder.go:92-429 | decoding bytes that represent a block succeeds if and only if no tight struct ends at an odd word, and returns the value; the claims end where the block ends |
| GoDecoding.DecSlotsRep | public/go/bindings/decoder.go:219-374 | the same for the slots of an open block, with handles claimed in increasing order |
| GoDecoding.OpenBlock | public/go/bindings/decoder.go:96-150 | a represented header is accepted by `StartArray`, `StartMap` and `StartStruct`, which claim its block |
| GoDecoding.UniformNotTight | public/go/bindings/decoder.go:219-302 | arrays never meet the guard's wrong refusal |
| GoMessage.EncHeaderIsBlock | public/go/bindings/message.go:80-94 | `MessageHeader.Encode` writes the header as the struct it is |
| GoMessage.HeaderParses | public/go/bindings/message.go:96-138 | a represented header is parsed if and only if its flags are 0, 1 or 2, and comes back as it was |
| GoMessage.EncodesMessage | public/go/bindings/message.go:179-194 | `EncodeMessage` succeeds exactly when the payload is clear behind its header, and the bytes are then the header and the payload |
| GoMessage.ParsesMessage | public/go/bindings/message.go:196-205 | `ParseMessage` succeeds exactly for flags 0, 1 and 2 and returns header, handles and payload; a message without flags loses its request id |
| GoMessage.DecodesPayload | public/go/bindings/message.go:170-177 | `DecodePayload`, which starts at 0, returns the payload exactly when it is clear there |
| GoMessage.MessageRoundTrip | public/go/bindings/message.go:80-205 | encode, parse, decode returns the same header, value and handles if and only if the flags are 0, 1 or 2, a message without flags has request id 0, and the payload is clear where it is written and where it is read |
| GoMessage.ClearEverywhere | public/go/bindings/encoder.go:80-92 | in schemas without tight structs every value is clear at every position |
| GoMessage.SafeSchemasRoundTrip | public/go/bindings/message.go:179-205 | for schemas without tight structs every message round trips |
| GoMessage.BoolThenPointerIsRefused | public/go/bindings/decoder.go:339-350 | a concrete message that is encoded and not decoded |
| GoVersions.CheckExactly | public/tools/bindings/generators/go_templates/struct.tmpl:33-57 | a header is accepted if and only if its version is behind the table or its size is that of the last version in the table that is not later |
| GoVersions.BlockFor | public/tools/bindings/generators/go_templates/struct.tmpl:39-71 | on bytes that represent a value, a reader with any version tables succeeds if and only if they accept the headers of what it reads and no tight struct, as the reader sees it, ends at an odd word; it returns the part of the value that it has fields for |
| GoVersions.EarlierReads | public/tools/bindings/generators/go_templates/struct.tmpl:44-64 | an earlier reader accepts what a later writer wrote, whatever its size, and reads all its fields of it |
| GoVersions.LaterReads | public/tools/bindings/generators/go_templates/struct.tmpl:44-64 | a later reader accepts what an earlier writer wrote and reads every field of it |
| GoVersions.LaterDecodes | public/go/bindings/message.go:170-177 | a later reader decodes the payload of an earlier writer exactly where a reader of the same version does |
| GoVersions.AcrossVersions | public/go/bindings/message.go:170-205 | Go to Go across versions: encoded, parsed, and decoded exactly if clear for the reader |
| GoVersions.EarlierIsRefused | public/tools/bindings/generators/go_templates/struct.tmpl:39-71 | a concrete struct that its own version reads and an earlier reader does not |
| GoInvariant.CallKeeps | public/go/bindings/encoder.go:94-328 | every encoder call keeps: end is a multiple of 8 inside the buffer, frames lie in disjoint claimed blocks, unwritten bits are zero, and bytes outside the top block do not change |
| GoInvariant.AfterKeeps | public/go/bindings/encoder.go:94-406 | the same for calls that return an error, with what they leave behind: an aligned cursor, an attached handle, half an interface |
| GoInvariant.PanicsExactly | public/go/bindings/encoder.go:368-372 | in a state with the invariant a call panics if and only if it writes a pointer outside of any block |
| GoInvariant.StartWraps | public/go/bindings/encoder.go:116-129 | a size word that wraps around to 0 is the one way to leave the invariant |
| GoInvariant.RunKeepsInv | public/go/bindings/encoder.go:140-406 | the invariant over every sequence of calls, going on after errors, whose size words do not wrap around to 0 |
| GoInvariant.NewEncoderInv | public/go/bindings/encoder.go:140-147 | a new encoder satisfies the invariant |
| GoInvariant.InnerRunKeepsOuter | public/go/bindings/encoder.go:94-129 | while a nested block is written, the bytes of all unfinished blocks around it stay as they are, also when the buffer grows |
| GoInvariant.DecCallAdvances | public/go/bindings/decoder.go:41-429 | on any bytes every decoder call moves forward, and what it claims lies behind everything claimed before |
| GoInvariant.RunClaimsInOrder | public/go/bindings/decoder.go:41-111 | over every run on any bytes, claimed blocks are disjoint, in increasing order and inside the buffer, and handle indices strictly increase |
| GoReads.GuardLeaves | public/go/bindings/encoder.go:80-92 | for every limit and width, the guard admits a slot that crosses the end of its block if and only if it is reached inside a byte of bools, its offset is an even number of widths, and the block ends inside the slot |
| GoReads.ReadInside | public/go/bindings/decoder.go:236-302 | a number is read inside its block if and only if the guard does not let the slot leave |
| GoReads.BoolReadInside | public/go/bindings/decoder.go:219-228 | a bool that the guard admits lies inside its block and is read |
| GoReads.StepOverruns | public/go/bindings/decoder.go:219-429 | on any bytes, in every reachable state, a call reads outside the buffer if and only if it reads a number through such a slot too close to the end of the buffer |
| GoReads.RunPanics | public/go/bindings/decoder.go:41-429 | on any bytes, a run panics if and only if it comes to such a slot |
| GoReads.DecoderPanics | public/go/bindings/decoder.go:41-429 | the same for every run of a new decoder |
| GoReads.WholeWordsHold | public/go/bindings/encoder.go:80-92 | in a block that ends at a multiple of 8 no slot leaves |
| GoReads.WholeRunsNeverPanic | public/go/bindings/decoder.go:41-429 | on any bytes, a run whose blocks all end at multiples of 8 never panics |
| GoReads.UniformArrayReads | public/go/bindings/decoder.go:96-113 | on any bytes, every number read from an array without bools lies inside the array, whatever was read before from it and from the blocks below it |
| GoReads.OddStructPanics | public/go/bindings/decoder.go:236-302 | eleven bytes on which three decoder calls panic |
| GoReads.GeneratedDecoderPanics | public/tools/bindings/generators/go_templates/struct.tmpl:39-71 | the generated decoder of `{bool; uint16}` accepts that header and panics |
| GoBindings.Encoder.ClaimData | public/go/bindings/encoder.go:96-107 | claims bytes and grows the buffer, keeping what is written |
| GoBindings.Encoder.StartBlock | public/go/bindings/encoder.go:116-129 | pushes a frame over a freshly claimed block and writes its header; without room for the header, which needs a size word that wraps around to 0, it panics |
| GoBindings.Encoder.Finish | public/go/bindings/encoder.go:226-236 | pops the frame, or reports missing elements or an empty stack |
| GoBindings.Encoder.Data | public/go/bindings/encoder.go:239-244 | the claimed bytes and the handles, only when every block is finished |
| GoBindings.Encoder.WriteBool | public/go/bindings/encoder.go:247-257 | agrees with the value function and keeps the invariant |
| GoBindings.Encoder.WriteUint | public/go/bindings/encoder.go:265-328 | agrees with the value function for all widths and keeps the invariant |
| GoBindings.Encoder.WritePointer | public/go/bindings/encoder.go:368-372 | writes the distance from the aligned slot to the end of the claimed bytes |
| GoBindings.Encoder.WriteHandle | public/go/bindings/encoder.go:380-387 | appends the handle and writes its index; an invalid handle is an error |
| GoBindings.Encoder.WriteInterface | public/go/bindings/encoder.go:399-406 | handle and version word count as one element |
| GoBindings.Encoder.WriteString | public/go/bindings/encoder.go:356-366 | the byte loop writes the string as an array block, or reports what encoding the block reports; a string of 2^32 bytes or more is an error |
| GoBindings.Decoder.StartArray | public/go/bindings/decoder.go:96-113 | claims the array after checking its size against its length |
| GoBindings.Decoder.StartStruct | public/go/bindings/decoder.go:136-150 | claims the struct and returns its header |
| GoBindings.Decoder.ReadPointer | public/go/bindings/decoder.go:339-361 | null, or a pointer that leads to aligned unclaimed bytes |
| GoBindings.Decoder.ReadHandle | public/go/bindings/decoder.go:365-374 | the claimed handle, or none for the invalid index |
| GoBindings.Decoder.ReadInterface | public/go/bindings/decoder.go:419-429 | a handle and an ignored version word |
| GoBindings.Decoder.ReadString | public/go/bindings/decoder.go:318-336 | the byte loop reads what decoding the array block reads |
| JsReading.Get64Reads | public/js/buffer.js:66-77 | two 32-bit reads give the 64-bit number, or fail exactly outside the buffer |
| JsReading.JsDecBlockRep | public/js/codec.js:117-209 | the unchecked decoder returns what the bytes represent |
| JsSafety.SlotSound | public/js/validator.js:102-116 | the same for one slot |
| JsSafety.BlockSound | public/js/validator.js:187-414 | on arbitrary bytes, if validation succeeds claimed ranges are disjoint and in order, claimed handles strictly increase, and the decoder does not leave the buffer: it reads a value with exactly the claimed handles, or trips over null; without nullable map values it always reads, and the value has the validated shape |
| JsShapes.DimensionsMeasure | public/js/validator.js:303-332 | the dimensions that the generator passes are the declared lengths of nested arrays |
| JsShapes.CodecDimensionsExact | public/js/codec.js:731-755 | the lengths that the codec's array classes report are the declared ones if and only if no nullable array among them has a fixed length |
| JsShapes.ConformsShapedBlock | public/js/validator.js:247-332 | every conforming value has the validated shape, unless map keys are arrays |
| JsShapes.ShapedConformsBlock | public/js/validator.js:247-332 | every value of the validated shape conforms, in schemas whose map values forget no length |
| JsAccepts.BlockAccepted | public/js/validator.js:247-414 | every buffer that represents a value of the right shape is accepted, and no claim passes its end |
| JsGaps.ForgottenLength | public/js/codec.js:731-755 | 104 bytes of a map value with a nullable array of length 2 that validate, are read, and do not conform |
| JsGaps.UncheckedMap | public/js/validator.js:331-356 | for all keys and values, 32 bytes that validate as an array of maps and whose reader leaves the buffer |
| JsGaps.UncheckedMapKey | public/js/validator.js:264-269 | for all inner keys and values, 72 bytes that validate as a map with maps as keys and whose reader leaves the buffer |
| JsGaps.UncheckedMapValue | public/js/validator.js:271-284 | for all keys and values, 72 bytes that validate as a map of maps and whose reader leaves the buffer |
| JsGaps.NullValues | public/js/validator.js:271-290 | for all nullable values, 64 bytes that validate as a map of them and whose reader trips over null |
| JsGaps.ArrayKeysRefused | public/js/validator.js:264-269 | a map with arrays as keys validates only if every key is null, so without keys if they are not nullable |
| JsWriting.Grows | public/js/buffer.js:31-55 | below a third of 2^31 bytes `alloc` always finds room, and growing keeps all bytes |
| JsWriting.Set64Holds | public/js/buffer.js:115-124 | two 32-bit writes store the 64-bit number |
| JsWriting.PackedBits | public/tools/bindings/generators/js_templates/struct_definition.tmpl:78-100 | the packed byte holds every bool at its own bit and nothing below the first |
| JsWriting.JsEncBlockRep | public/js/codec.js:290-418 | an encoded block represents its items, its children follow in order, and earlier bytes are unchanged, however often the buffer grows |
| JsWriting.PackedIsLaid | public/tools/bindings/pylib/mojom/generate/pack.py:80-93 | first-fit fields do not overlap |
| JsMessage.ValidatedMessageIsRead | public/js/validator.js:139-166 | whatever bytes arrive, if header and payload validate, the message reader does not leave the buffer; without nullable map values it succeeds, its value holds exactly the claimed handles and has the validated shape, and in schemas whose map values forget no length it conforms |
| JsMessage.JsReceives | public/js/router.js:79-91 | a represented message is accepted if and only if its flags do not have both bits, and is read as what it represents |
| JsMessage.JsSends | public/js/codec.js:466-517 | for every guess of the payload size, the finished message is its header and its payload |
| JsMessage.JsToJs | public/js/codec.js:466-538 | build, validate, read returns the header and the value |
| JsMessage.GoToJs | public/js/validator.js:139-414 | whatever Go encodes, which is whatever is clear behind its header, JavaScript accepts (unless both flag bits are set) and reads as the same value |
| JsMessage.JsToGo | public/go/bindings/message.go:170-205 | what JavaScript builds, Go parses exactly for flags 0, 1, 2 and decodes exactly when it is clear |
| JsBindings.Buffer.Alloc | public/js/buffer.js:31-39 | allocation agrees with the value function, growing if needed |
| JsBindings.Buffer.Grow | public/js/buffer.js:41-50 | the copied bytes, then zeros |
| JsBindings.Buffer.Trim | public/js/buffer.js:52-55 | exactly the allocated bytes |
| JsBindings.Buffer.GetUint | public/js/buffer.js:57-65 | little-endian read, or failure outside the buffer |
| JsBindings.Buffer.GetUint64 | public/js/buffer.js:66-77 | low word plus high word times 2^32 |
| JsBindings.Buffer.SetUint | public/js/buffer.js:106-114 | little-endian write in place, or failure outside the buffer |
| JsBindings.Buffer.SetUint64 | public/js/buffer.js:115-124 | the low word, then the high word |
| JsBindings.Validator.ClaimRange | public/js/validator.js:67-88 | advances the offset exactly for valid ranges |
| JsBindings.Validator.ValidateHandle | public/js/validator.js:90-112 | claims a handle, with the error for each way to fail |
| JsBindings.Validator.ValidateStructHeader | public/js/validator.js:118-137 | alignment, range, size and version, then the claim, which advances the offset |
| JsBindings.Validator.ValidateMessageHeader | public/js/validator.js:139-166 | agrees with the value function, error by error |
| JsBindings.Validator.ValidateElements | public/js/validator.js:363-414 | the loops over elements agree with the recursive definition |
| JsBindings.Validator.ValidateArray | public/js/validator.js:303-356 | agrees with the value function, error by error |
| JsBindings.Validator.ValidateMap | public/js/validator.js:247-293 | keys, values and equal lengths, error by error |
| JsBindings.Validator.ValidateBlock | public/js/validator.js:187-213 | validation terminates on all bytes, also for self-referential structs, because every followed pointer advances the offset |
| JsBindings.ValidateMessage | public/js/router.js:79-91 | a fresh validator over header and payload gives the verdict of the value function |
| JsCoders.PackBools | public/js/codec.js:330-338 | setting the bits one after the other gives the packed byte |
| JsCoders.Encoder.EncodeSlots | public/js/codec.js:320-344 | the loop over fields or elements, bools byte by byte, agrees with the recursive definition while the buffer may be replaced |
| JsCoders.Encoder.EncodeBlock | public/js/codec.js:310-418 | header and slots in place |
| JsCoders.Decoder.DecodeSlots | public/js/codec.js:42-161 | the loop over fields or elements, with a cursor that skips padding and reads each byte of bools once, agrees with the recursive definition |
| JsCoders.Decoder.DecodeBlock | public/js/codec.js:135-200 | agrees with the value function, including the exception on null keys |
| PythonLayout.PositionsAgree | public/python/mojo_bindings/serialization.py:136-223 | for every list of groups, the positions in `Serialize` and `Deserialize` are 8 plus the offsets in the format string of `_GetStruct` |
| PythonLayout.OneLayout | public/python/mojo_bindings/serialization.py:136-223 | the slots where `struct` packs and unpacks by the format string and the slots where the loops compute positions are the same |
| PythonLayout.SizeIsAligned | public/python/mojo_bindings/serialization.py:209-223 | the struct ends at the first multiple of 8 behind its last group |
| PythonLayout.LayoutPacked | public/python/mojo_bindings/serialization.py:209-223 | the offsets that Python computes are the packer's first fit |
| PythonLayout.FilterOwn | public/python/mojo_bindings/serialization.py:198-206 | filtering to the struct's own version changes nothing |
| PythonLayout.ConvertBooleansToByte | public/python/mojo_bindings/descriptor.py:803-805 | the number whose binary digits are the bools |
| PythonLayout.ConvertByteToBooleans | public/python/mojo_bindings/descriptor.py:808-815 | at least as many bools as asked for, and they are the bits of the number |
| PythonLayout.BoolsRoundTrip | public/python/mojo_bindings/descriptor.py:803-815 | unpacking a packed byte gives the bools back |
| PythonReading.ClassesPacked | public/python/mojo_bindings/serialization.py:103-117 | classes define well-formed, first-fit struct definitions |
| PythonReading.BlockRead | public/python/mojo_bindings/descriptor.py:210-250 | a represented block is deserialized to the part of its items that the reader has fields for, claiming memory and handles in increasing order |
| PythonReading.Deserializes | public/python/mojo_bindings/serialization.py:160-188 | the same in a root context, where the claims are disjoint and in order; the reader's classes may be later or earlier versions |
| PythonReading.ReadsOlder | public/python/mojo_bindings/serialization.py:122-134 | classes whose groups filtered to the writer's version are the writer's groups read every field of what the writer wrote |
| PythonReading.ReadsNewer | public/python/mojo_bindings/serialization.py:122-134 | classes whose fields are among the writer's, in place, read what a later writer wrote, because the version is cut off at their own |
| PythonReading.AppendedReads | public/python/mojo_bindings/serialization.py:209-223 | groups appended to a struct move no field and make it no smaller |
| Versions.SeenField | public/python/mojo_bindings/serialization.py:175-188 | an earlier reader sees as many fields as it has, each with the value that the writer gave it |
| Versions.SeesBlock | public/python/mojo_bindings/serialization.py:175-188 | a reader that has every field sees the whole value |
| PythonWriting.SlotsSerialized | public/python/mojo_bindings/serialization.py:136-158 | the loop over groups yields the right numbers to pack and appends the blocks below in order |
| PythonWriting.PackRep | public/python/mojo_bindings/serialization.py:157-158 | packing the numbers at the end makes the slots represent the values and disturbs nothing below |
| PythonWriting.IntoSerialized | public/python/mojo_bindings/descriptor.py:400-587 | a serialized block represents its items and leaves the data before it alone |
| PythonMessage.LaterVersionsRead | public/python/mojo_bindings/serialization.py:107-188 | values round trip, from any classes to the same or later versions of them, with memory claimed in increasing order |
| PythonMessage.OwnVersionReads | public/python/mojo_bindings/serialization.py:107-188 | values round trip inside one version |
| PythonMessage.EarlierVersionsRead | public/python/mojo_bindings/serialization.py:107-188 | values serialized by later classes are read by earlier ones as far as these have the fields, with memory claimed in increasing order |
| PythonMessage.HeaderHolds | public/python/mojo_bindings/messaging.py:105-118 | the serialized header has the fields of the format |
| PythonMessage.PySends | public/python/mojo_bindings/messaging.py:105-118 | a message is its header and its payload |
| PythonMessage.PyReceives | public/python/mojo_bindings/messaging.py:49-67 | a represented message is read as what it represents, as far as the reader has the fields, if the flags say whether there is a request id |
| PythonMessage.PyToPy | public/python/mojo_bindings/serialization.py:136-188 | Python to Python, also to later classes |
| PythonMessage.PyToEarlierPy | public/python/mojo_bindings/serialization.py:136-188 | Python to Python, from later classes to earlier ones |
| PythonMessage.PyToGo | public/go/bindings/message.go:170-205 | Go parses Python's messages exactly for flags 0, 1, 2 and decodes them exactly when they are clear |
| PythonMessage.PyToJs | public/js/validator.js:139-414 | JavaScript accepts and reads Python's messages |
| PythonMessage.GoToPy | public/python/mojo_bindings/serialization.py:160-188 | Python reads whatever Go encodes, which is whatever is clear behind its header |
| PythonMessage.JsToPy | public/python/mojo_bindings/serialization.py:160-188 | Python reads whatever JavaScript builds |
| WaiterProtocol.StepKeepsInv | public/go/bindings/async_waiter.go:175-201 | every step of callers and worker keeps the invariant that ties the flag, the pipe and the undrained requests |
| WaiterProtocol.NoLostWakeUp | public/go/bindings/async_waiter.go:258-282 | in every interleaving, if the worker is about to block while a request of a caller past its compare-and-swap is undrained, the pipe holds a message or a caller is committed to writing one |
| WaiterProtocol.InternalRunsAreShort | public/go/bindings/async_waiter.go:139-201 | without new calls the system comes to rest after a bounded number of steps, however they are scheduled |
| WaiterProtocol.EveryRequestIsServed | public/go/bindings/async_waiter.go:139-282 | whenever nothing can move any more without a new call or event, every request has been received |
| AsyncWaiter.Worker.RemoveHandle | public/go/bindings/async_waiter.go:96-108 | the four slices swap with the last entry and stay aligned |
| AsyncWaiter.Worker.SendWaitResponseAndRemove | public/go/bindings/async_waiter.go:112-118 | one answer with the entry's own channel, and the entry is gone |
| AsyncWaiter.Worker.RespondToSatisfiedWaits | public/go/bindings/async_waiter.go:120-135 | the loop terminates, answers exactly the entries that are hit, each with its own original state, and keeps the others and index 0 |
| AsyncWaiter.Worker.AddWait | public/go/bindings/async_waiter.go:142-150 | a new entry with the next number |
| AsyncWaiter.Worker.Cancel | public/go/bindings/async_waiter.go:151-165 | the first entry with the id is answered ABORTED; an unknown id changes nothing |
| AsyncWaiter.Worker.ProcessIncomingRequests | public/go/bindings/async_waiter.go:139-170 | both channels are drained, each in order, whichever `select` prefers; every request gets its number |
| AsyncWaiter.HitIsAnswered | public/go/bindings/async_waiter.go:120-135 | an entry is answered if and only if it is hit, otherwise it stays |
| AsyncWaiter.StepConserves | public/go/bindings/async_waiter.go:93-170 | every step keeps: each number issued so far is waiting or answered, exactly once |
| AsyncWaiter.AtMostOneAnswer | public/go/bindings/async_waiter.go:112-197 | over every run of fewer than 2^64 waits, ids are distinct and non-zero, each wait is answered at most once, and none is lost |
| AsyncWaiter.CancelAfterAnswer | public/go/bindings/async_waiter.go:151-165 | cancelling an answered wait changes nothing |
| GoRouter.ReadKeeps | public/go/bindings/router.go:50-73 | reading one message, whatever it is, keeps the invariant and hands a response to the channel of its id |
| GoRouter.StepKeepsInv | public/go/bindings/router.go:85-228 | every step of callers, worker, waiter and a peer that may send anything at any time keeps the invariant and takes no reply back |
| GoRouter.AtMostOneReply | public/go/bindings/router.go:50-228 | over every run a response channel gets at most one reply, and a response carries the channel's own non-zero id |
| GoRouter.NoRequestDropped | public/go/bindings/router.go:85-228 | every call's channel is queued, registered or replied to, except at most one, whose pipe write failed and stopped the worker |
| GoRouter.WaitsWhileRegistered | public/go/bindings/router.go:50-109 | while the worker runs, the wait id is zero exactly when no wait is outstanding, and a wait is outstanding whenever channels are registered |
| GoRouter.CancelsOnce | public/go/bindings/router.go:75-80 | at most one wait is cancelled, after the loop has ended and before any channel gets the error |
| GoRouter.DispatchIsReads | public/go/bindings/router.go:50-73 | the loop as a whole is a run of its rounds, between which anything may happen |
| GoRouter.AnswerRightAfterWrite | public/go/bindings/router.go:85-109 | an answer that arrives between the write of its request and the next read is handed over by that read |
| GoRouter.BlocksExactly | public/go/bindings/router.go:69-71 | the loop blocks if and only if it comes to a response whose id is not registered, or no longer, while channels are registered |
| GoRouter.HonestNeverBlocks | public/go/bindings/router.go:50-109 | over every run with a peer that answers pending ids once each, the worker never blocks |
| GoRouter.RouterWorker.ReadAndDispatchOutstandingMessages | public/go/bindings/router.go:50-73 | the loop agrees with the recursive definition |
| GoRouter.RouterWorker.CancelIfWaiting | public/go/bindings/router.go:75-80 | the outstanding wait, if any, is the one that is cancelled, and the wait id is zero |
| PythonRouter.Router.NextRequestId | public/python/mojo_bindings/messaging.py:365-370 | terminates whenever some id is free, and returns the first free id cyclically from the cursor |
| PythonRouter.FirstFreeUnique | public/python/mojo_bindings/messaging.py:365-370 | there is only one such id |
| PythonRouter.Router.AcceptWithResponder | public/python/mojo_bindings/messaging.py:327-336 | the responder is registered under the new id if and only if the connector accepts the message |
| PythonRouter.Router.HandleResponse | public/python/mojo_bindings/messaging.py:354-360 | the responder is popped, once; an unknown id is refused |
| PythonRouter.NeverOverwrites | public/python/mojo_bindings/messaging.py:327-370 | over every run no send overwrites a pending responder or uses id 0 |
| PythonRouter.EveryRequestAccounted | public/python/mojo_bindings/messaging.py:327-370 | over every run each accepted request is pending or was delivered to its own responder |
| DartWatcher.HandleWatcher.AddHandle | public/platform/dart/dart_handle_watcher.cc:134-166 | a new handle is watched, a known one gets more signals, a handle of another port is refused with PEER_CLOSED |
| DartWatcher.HandleWatcher.RemoveHandleAtIndex | public/platform/dart/dart_handle_watcher.cc:250-280 | the last entry takes the place, the inverse map stays exact, everything else is watched as before |
| DartWatcher.HandleWatcher.RemoveHandle | public/platform/dart/dart_handle_watcher.cc:168-182 | exactly this handle is no longer watched; an unknown one is ignored |
| DartWatcher.HandleWatcher.CloseHandle | public/platform/dart/dart_handle_watcher.cc:184-215 | the handle is closed, watched or not, and the right port is told |
| DartWatcher.HandleWatcher.NotifyHits | public/platform/dart/dart_handle_watcher.cc:418-441 | one post to each port that is hit, and the hit indices from high to low |
| DartWatcher.HandleWatcher.RemoveAll | public/platform/dart/dart_handle_watcher.cc:443-447 | removing from high to low removes exactly the collected handles |
| DartWatcher.HandleWatcher.ProcessReady | public/platform/dart/dart_handle_watcher.cc:403-459 | exactly the handles with a requested satisfied signal are told and dropped; all others keep signals and port, the control handle stays |
| DartWatcher.HandleWatcher.PruneClosedHandles | public/platform/dart/dart_handle_watcher.cc:361-401 | exactly the handles whose state has PEER_CLOSED, or that are gone when asked if the states are not valid, are closed, told and dropped |
| DartWatcher.HandleWatcher.ProcessControlMessage | public/platform/dart/dart_handle_watcher.cc:282-317 | every command that does not remove the control handle keeps the vectors parallel and the map inverse |
| DartWatcher.HitPostsExact | public/platform/dart/dart_handle_watcher.cc:418-441 | every post is made exactly as often as there are hit handles with that port and those signals |
| DartWatcher.HandleWatcher.UpdateTimer | public/platform/dart/dart_handle_watcher.cc:217-243 | the port's timer is replaced or cancelled |
| DartWatcher.UpdatedOk | public/platform/dart/dart_handle_watcher.cc:56-65 | every reachable set has distinct deadlines and at most one timer per port |
| DartWatcher.UpdatedHolds | public/platform/dart/dart_handle_watcher.cc:217-243 | other timers stay, and the new one is there if and only if its deadline is not negative and not taken by another port |
| DartWatcher.EqualDeadlineIsLost | public/platform/dart/dart_handle_watcher.cc:56-65 | a concrete timer that is lost |
| DartWatcher.HandleWatcher.ProcessTimers | public/platform/dart/dart_handle_watcher.cc:325-350 | with a monotone clock it terminates, completes timers in the order of their deadlines, none early, and afterwards a timer is left exactly if its deadline is later than the last reading |
| ApplicationTable.StartKeeps | application_manager/application_table.cc:15-29 | nested starts terminate; a call leaves exactly the placeholders it found, keeps running applications, and adds only applications initialised once |
| ApplicationTable.StartSucceeds | application_manager/application_manager.cc:50-64 | there is an instance exactly if one is running, or none exists and the file can be started |
| ApplicationTable.ScriptRequest | application_manager/application_launcher.cc:60-91 | where the request of a script goes: to the handler exactly if the handler is another application that runs or can be started, otherwise nowhere, although the script counts as started |
| ApplicationTable.ScriptRequestIsLost | application_manager/application_launcher.cc:60-91 | a concrete script whose request is lost |
| ApplicationTable.OutermostCall | application_manager/application_manager.cc:50-64 | after the outermost call every entry runs and was initialised exactly once |
| ApplicationTable.RunIsClean | application_manager/application_table.cc:15-33 | the same over every sequence of starts and stops |
| ApplicationTable.PathsDiffer | application_manager/application_launcher.cc:54-58 | different application names have different paths |
| ApplicationTable.ApplicationManager.GetOrStartApplicationInstance | application_manager/application_manager.cc:50-64 | an entry is null exactly while its start is on the call stack; a new instance is initialised once |
| ApplicationTable.ApplicationManager.GetOrStartApplication | application_manager/application_table.cc:15-29 | the placeholder is filled or erased |
| ApplicationTable.ApplicationManager.Launch | application_manager/application_launcher.cc:140-158 | a script starts its handler, a program a process |
| ApplicationTable.ApplicationManager.StopApplication | application_manager/application_table.cc:31-33 | the entry is erased |

## Left out

- Unions in all three codecs, floating-point numbers, and the conversion of strings to UTF-8 (strings are bytes).
- The order of map entries: a map is its list of keys and its list of values; sorting keys in Go is left out.
- The packer itself, which is outside this repository's bindings: struct definitions carry offsets and are required to
  be first fit, which `PythonLayout.LayoutPacked` proves for the offsets that Python computes.
- GoDecoding.DecBlockRep: one version per struct, as the writer has it; version tables are in `GoVersions`.
- JsReading.Get64Reads: JavaScript numbers round above 2^53 - 1 and the model does not; the message theorems therefore
  require safe integers.
- JsReading.JsDecBlockRep: a bool that is alone in its byte is read as a number by generated JavaScript; the model reads
  its bit.
- JsWriting.JsEncBlockRep: null handles are excluded, because the JavaScript encoder pushes them like any other.
- JsSafety.BlockSound: maps inside arrays, map keys and map values are excluded, because the property is false of them
  (`JsGaps.UncheckedMap`, `JsGaps.UncheckedMapKey`, `JsGaps.UncheckedMapValue`).
- JsShapes.ConformsShapedBlock: map keys that are arrays are excluded, because the validator refuses them
  (`JsGaps.ArrayKeysRefused`) and the generator rejects such schemas.
- PythonWriting.IntoSerialized: the serializer is modelled on values, so the sharing of one bytearray between nested
  arrays is not captured; interface versions are 0.
- PythonMessage.PyReceives: a byte with more bits than bools adds a nameless entry to the field dictionary, which the
  model ignores.
- GoRouter.AtMostOneReply: liveness at shutdown is left out; a queued one-way message blocks the drain on a nil
  channel, and the model stops there.
- AsyncWaiter.AtMostOneAnswer: after 2^64 waits the counter wraps and ids repeat.
- DartWatcher.HandleWatcher.PruneClosedHandles: what WaitMany and Wait answer are arguments, as is the clock of the
  timers; the control handle is never gone.
- ApplicationTable.StartKeeps: reading files, launching processes and iterators into a rehashed table are left out; the
  files are a finite map from names.
- The C and C++ system layers and their thunks, which forward calls to the kernel; the Dart and CPython glue, which
  converts arguments; container wrappers and promises of the C++ and JavaScript libraries; examples and tools.
