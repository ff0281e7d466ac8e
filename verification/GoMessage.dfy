/**
Messages of the Go bindings: a header, then a payload struct.  Encoding starts the payload behind a 16- or 24-byte
header; decoding starts it at 0.
*/
module GoMessage {
  import opened Bytes
  import opened Wire
  import opened GoArchive
  import opened GoLayout
  import GoEncoding
  import GoDecoding

  const NO_FLAG := 0
  const EXPECTS_RESPONSE := 1
  const IS_RESPONSE := 2

  datatype MessageHeader = MessageHeader(kind: nat, flags: nat, requestId: nat) {
    /** The field widths of the source. */
    predicate Valid() {
      kind < TWO_32 && flags < TWO_32 && requestId < TWO_64
    }

    function DataSize(): nat { if flags != NO_FLAG then 16 else 8 }

    function Version(): nat { if flags != NO_FLAG then 1 else 0 }
  }

  datatype Message = Message(header: MessageHeader, bytes: seq<Byte>, handles: seq<nat>, payload: seq<Byte>)

  /** `MessageHeader.Encode` */
  function EncHeader(e: Enc, h: MessageHeader): Result<Enc> {
    var e1 :- Start(e, h.DataSize(), h.Version(), false);
    var e2 :- WriteUint(e1, 4, h.kind);
    var e3 :- WriteUint(e2, 4, h.flags);
    if h.flags != NO_FLAG then
      var e4 :- WriteUint(e3, 8, h.requestId);
      EncFinish(e4)
    else
      EncFinish(e3)
  }

  /** `MessageHeader.Decode` */
  function DecHeader(inp: Input, d: Dec): Result<(Dec, MessageHeader)> {
    var (d1, header) :- DecStartStruct(inp, d);
    if header.second > 1 || header.size != (if header.second == 1 then 24 else 16) then Err(UnexpectedStructHeader)
    else
      var (d2, kind) :- ReadUint(inp, d1, 4);
      var (d3, flags) :- ReadUint(inp, d2, 4);
      if header.second == 1 then
        if flags != EXPECTS_RESPONSE && flags != IS_RESPONSE then Err(InvalidFlags)
        else
          var (d4, id) :- ReadUint(inp, d3, 8);
          var d5 :- DecFinish(d4);
          Ok((d5, MessageHeader(kind, flags, id)))
      else if flags != NO_FLAG then Err(MissingRequestId)
      else
        var d4 :- DecFinish(d3);
        Ok((d4, MessageHeader(kind, flags, 0)))
  }

  /** `newMessage` */
  function NewMessage(h: MessageHeader, bytes: seq<Byte>, handles: seq<nat>): Result<Message> {
    var size := h.DataSize() + HEADER_SIZE;
    if size > |bytes| then Err(OutOfRange) else Ok(Message(h, bytes, handles, bytes[size..]))
  }

  /** `EncodeMessage`, for a payload struct of the schema. */
  function EncodeMessage(env: Env, h: MessageHeader, id: nat, items: seq<Value>): Result<Message> {
    var e1 :- EncHeader(NewEnc, h);
    var e2 :- EncBlock(env, e1, BStruct(id), items);
    if e2.stack != [] then Err(NonEmptyStack)
    else if e2.end > |e2.buf| then Err(OutOfRange)
    else NewMessage(h, e2.buf[..e2.end], e2.handles)
  }

  /** `ParseMessage` */
  function ParseMessage(bytes: seq<Byte>, handles: seq<nat>): Result<Message> {
    var (_, h) :- DecHeader(Input(bytes, []), NewDec);
    NewMessage(h, bytes, handles)
  }

  /** `Message.DecodePayload` */
  function DecodePayload(env: Env, m: Message, id: nat): Result<seq<Value>> {
    var (_, items) :- DecBlock(env, Input(m.payload, m.handles), NewDec, BStruct(id));
    Ok(items)
  }

  // ---------------------------------------------------------------- the header is a struct

  /** The header as two struct definitions: without and with a request id. */
  const HeaderEnv: Env := map[
    0 := StructDef(8, 0, [Field(0, 0, TUint(4)), Field(4, 0, TUint(4))]),
    1 := StructDef(16, 1, [Field(0, 0, TUint(4)), Field(4, 0, TUint(4)), Field(8, 0, TUint(8))])]

  function HeaderItems(h: MessageHeader): seq<Value> {
    [VUint(h.kind), VUint(h.flags)] + (if h.flags != NO_FLAG then [VUint(h.requestId)] else [])
  }

  function HeaderBlock(h: MessageHeader): Block {
    BStruct(h.Version())
  }

  lemma HeaderEnvPacked()
    ensures PackedEnv(HeaderEnv)
  {
    var d0, d1 := HeaderEnv[0], HeaderEnv[1];
    var w4a, w4b, w8 := Field(0, 0, TUint(4)), Field(4, 0, TUint(4)), Field(8, 0, TUint(8));
    assert d0.fields == [w4a, w4b] && d1.fields == [w4a, w4b, w8];
    assert [w4a, w4b][1..] == [w4b] && [w4b][1..] == [];
    assert [w4a, w4b, w8][1..] == [w4b, w8] && [w4b, w8][1..] == [w8] && [w8][1..] == [];
    assert Packed(8, 0, []) && Packed(4, 0, [w4b]) && Packed(0, 0, [w4a, w4b]);
    assert Packed(16, 0, []) && Packed(8, 0, [w8]) && Packed(4, 0, [w4b, w8]) && Packed(0, 0, [w4a, w4b, w8]);
  }

  lemma EncHeaderIsBlock(e: Enc, h: MessageHeader)
    ensures EncHeader(e, h) == EncBlock(HeaderEnv, e, HeaderBlock(h), HeaderItems(h))
  {
    hide Start, WriteUint, EncFinish;
    var vs, fs := HeaderItems(h), HeaderEnv[h.Version()].fields;
    var r1 := Start(e, h.DataSize(), h.Version(), false);
    if r1.Ok? {
      assert EncSlots(HeaderEnv, r1.value, fs, vs) ==
        (var e2 :- WriteUint(r1.value, 4, h.kind); EncSlots(HeaderEnv, e2, fs[1..], vs[1..]));
      var r2 := WriteUint(r1.value, 4, h.kind);
      if r2.Ok? {
        assert EncSlots(HeaderEnv, r2.value, fs[1..], vs[1..]) ==
          (var e3 :- WriteUint(r2.value, 4, h.flags); EncSlots(HeaderEnv, e3, fs[1..][1..], vs[1..][1..]));
      }
    }
  }

  /** The words of an encoded header. */
  function HeaderWords(h: MessageHeader): nat {
    h.Version() + 2
  }

  lemma HeaderConforms(h: MessageHeader)
    requires h.Valid()
    ensures ConformsBlock(HeaderEnv, HeaderBlock(h), HeaderItems(h))
  {
    hide Pow256;
    Pow256Values();
    var vs, fs := HeaderItems(h), HeaderEnv[h.Version()].fields;
    if h.flags != NO_FLAG {
      assert fs[1..][1..] == [Field(8, 0, TUint(8))] && vs[1..][1..] == [VUint(h.requestId)];
      assert ConformsAll(HeaderEnv, [Field(8, 0, TUint(8))], [VUint(h.requestId)]);
    } else {
      assert fs[1..][1..] == [] && vs[1..][1..] == [];
      assert ConformsAll(HeaderEnv, [], []);
    }
    assert ConformsAll(HeaderEnv, fs[1..], vs[1..]);
    assert ConformsAll(HeaderEnv, fs, vs);
  }

  lemma HeaderSizes(h: MessageHeader)
    ensures TotalWords(HeaderEnv, HeaderBlock(h), HeaderItems(h)) == HeaderWords(h)
    ensures HandlesAll(HeaderItems(h)) == []
    ensures forall at :: ClearBlock(HeaderEnv, at, HeaderBlock(h), HeaderItems(h), false)
    ensures forall at :: ClearBlock(HeaderEnv, at, HeaderBlock(h), HeaderItems(h), true)
  {
    var vs, fs := HeaderItems(h), HeaderEnv[h.Version()].fields;
    NoBlocksBelow(HeaderEnv, fs, vs);
    forall decoding: bool, at: nat
      ensures ClearBlock(HeaderEnv, at, HeaderBlock(h), HeaderItems(h), decoding)
    {
      NoBoolsNotTight(fs, HeaderEnv[h.Version()].size, decoding);
      NoBlocksClear(HeaderEnv, at + BlockWords(HeaderEnv, HeaderBlock(h), |vs|), fs, vs, decoding);
    }
  }

  lemma {:induction false} NoBlocksBelow(env: Env, fs: seq<Field>, vs: seq<Value>)
    requires forall i | 0 <= i < |vs| :: vs[i].VUint?
    ensures ChildrenWords(env, fs, vs) == 0 && HandlesAll(vs) == []
    decreases |vs|
  {
    if fs != [] && vs != [] {
      NoBlocksBelow(env, fs[1..], vs[1..]);
    } else if vs != [] {
      NoBlocksBelow(env, fs, vs[1..]);
    }
  }

  lemma {:induction false} NoBlocksClear(env: Env, e: nat, fs: seq<Field>, vs: seq<Value>, decoding: bool)
    requires forall i | 0 <= i < |vs| :: vs[i].VUint?
    ensures ClearSlots(env, e, fs, vs, decoding)
    decreases |vs|
  {
    if fs != [] && vs != [] {
      NoBlocksClear(env, e + ChildWords(env, fs[0].kind, vs[0]), fs[1..], vs[1..], decoding);
    }
  }

  lemma {:induction false} NoBoolsNotTight(fs: seq<Field>, size: nat, decoding: bool)
    requires forall i | 0 <= i < |fs| :: !fs[i].kind.TBool?
    ensures !Tight(0, fs, size, decoding)
    decreases |fs|
  {
    if fs != [] {
      NoBoolsNotTight(fs[1..], size, decoding);
    }
  }

  /** What comes back from a header's bytes. */
  function ParsedHeader(h: MessageHeader): MessageHeader {
    if h.flags == NO_FLAG then h.(requestId := 0) else h
  }

  predicate ParsableFlags(flags: nat) {
    flags == NO_FLAG || flags == EXPECTS_RESPONSE || flags == IS_RESPONSE
  }

  lemma HeaderParses(inp: Input, h: MessageHeader)
    requires h.Valid() && inp.handles == []
    requires RepBlock(HeaderEnv, inp.buf, 0, 0, HeaderBlock(h), HeaderItems(h))
    ensures var r := DecHeader(inp, NewDec);
      && (r.Ok? <==> ParsableFlags(h.flags))
      && (r.Ok? ==> r.value.1 == ParsedHeader(h))
  {
    hide DecSlots, RepBlock, ReadUint, PackedEnv, ConformsBlock, RepSlots, DecFinish, Tight, ClearBlock, DecOpen;
    var d1, fs, vs := HeaderOpens(inp, h);
    ThreeReads(inp, d1, fs);
    DecFinishes(HeaderEnv, d1, fs, vs, DecSlots(HeaderEnv, inp, d1, fs).value);
  }

  lemma HeaderOpens(inp: Input, h: MessageHeader) returns (d1: Dec, fs: seq<Field>, vs: seq<Value>)
    requires h.Valid() && inp.handles == []
    requires RepBlock(HeaderEnv, inp.buf, 0, 0, HeaderBlock(h), HeaderItems(h))
    ensures fs == HeaderEnv[h.Version()].fields && vs == HeaderItems(h)
    ensures DecStartStruct(inp, NewDec) == Ok((d1, Header(HEADER_SIZE + h.DataSize(), h.Version())))
    ensures |d1.stack| == 1 && !Top(d1.stack).check && d1.end <= |inp.buf|
    ensures DecSlots(HeaderEnv, inp, d1, fs).Ok?
    ensures GoDecoding.SlotsRead(HeaderEnv, d1, HeaderWords(h), fs, vs, DecSlots(HeaderEnv, inp, d1, fs).value)
  {
    hide DecSlots, Tight, RepSlots, ConformsBlock, InFront, PackedEnv, UintAt, ClearSlots, ChildrenWords, HandlesAll;
    fs, vs := HeaderEnv[h.Version()].fields, HeaderItems(h);
    HeaderEnvPacked();
    HeaderConforms(h);
    HeaderSizes(h);
    GoDecoding.OpenBlock(HeaderEnv, inp, NewDec, 0, 0, HeaderBlock(h), vs);
    d1 := DecOpen(HeaderEnv, inp, NewDec, HeaderBlock(h)).value.0;
    InFrontOfBlock(HeaderEnv, HeaderBlock(h), vs, 0, HEADER_SIZE + h.DataSize(), false);
    GoDecoding.PartsOfBlock(HeaderEnv, HeaderBlock(h), vs);
    GoDecoding.OddLimit(HeaderEnv, HeaderBlock(h), |vs|, 0);
    assert ClearBlock(HeaderEnv, 0, HeaderBlock(h), vs, true);
    GoDecoding.DecSlotsRep(HeaderEnv, inp, d1, 0, HeaderWords(h), fs, h.DataSize(), vs);
  }

  /** The decoder of a header's fields, call by call. */
  lemma ThreeReads(inp: Input, d: Dec, fs: seq<Field>)
    requires d.end <= |inp.buf| && DecSlots(HeaderEnv, inp, d, fs).Ok?
    requires fs == HeaderEnv[0].fields || fs == HeaderEnv[1].fields
    ensures var (d', vs) := DecSlots(HeaderEnv, inp, d, fs).value;
      |vs| == |fs| && vs[0].VUint? && vs[1].VUint? &&
      var r1 := ReadUint(inp, d, 4);
      r1.Ok? && r1.value.1 == vs[0].n &&
      var r2 := ReadUint(inp, r1.value.0, 4);
      r2.Ok? && r2.value.1 == vs[1].n &&
      if |fs| == 2 then r2.value.0 == d'
      else vs[2].VUint? && ReadUint(inp, r2.value.0, 8) == Ok((d', vs[2].n))
  {
    hide ReadUint, DecSlots;
    OneRead(inp, d, fs);
    var d1 := ReadUint(inp, d, 4).value.0;
    OneRead(inp, d1, fs[1..]);
    var d2 := ReadUint(inp, d1, 4).value.0;
    if |fs| == 3 {
      OneRead(inp, d2, fs[1..][1..]);
      NoRead(inp, ReadUint(inp, d2, 8).value.0);
    } else {
      NoRead(inp, d2);
    }
  }

  /** Decoding numbers reads the first one and then the others. */
  lemma OneRead(inp: Input, d: Dec, fs: seq<Field>)
    requires d.end <= |inp.buf| && fs != [] && fs[0].kind.TUint? && fs[0].kind.width > 0 &&
      DecSlots(HeaderEnv, inp, d, fs).Ok?
    ensures var r := ReadUint(inp, d, fs[0].kind.width);
      r.Ok? && r.value.0.end <= |inp.buf| &&
      var rest := DecSlots(HeaderEnv, inp, r.value.0, fs[1..]);
      rest.Ok? && DecSlots(HeaderEnv, inp, d, fs) == Ok((rest.value.0, [VUint(r.value.1)] + rest.value.1))
  {
    hide ReadUint;
    var r := ReadUint(inp, d, fs[0].kind.width);
    assert r.Ok? && DecSlot(HeaderEnv, inp, d, fs[0].kind) == Ok((r.value.0, VUint(r.value.1)));
  }

  lemma NoRead(inp: Input, d: Dec)
    requires d.end <= |inp.buf|
    ensures DecSlots(HeaderEnv, inp, d, []) == Ok((d, []))
  {
  }

  lemma DecFinishes(env: Env, d1: Dec, fs: seq<Field>, vs: seq<Value>, r: (Dec, seq<Value>))
    requires exists e :: GoDecoding.SlotsRead(env, d1, e, fs, vs, r)
    requires |d1.stack| == 1 && !Top(d1.stack).check
    ensures DecFinish(r.0).Ok? && r.1 == vs
  {
  }

  // ---------------------------------------------------------------- the round trip

  /** The bytes are a header and, behind it, a payload. */
  ghost predicate RepMessage(env: Env, m: Message, id: nat, items: seq<Value>) {
    && |m.bytes| == 8 * (HeaderWords(m.header) + TotalWords(env, BStruct(id), items))
    && m.payload == m.bytes[8 * HeaderWords(m.header)..]
    && m.handles == HandlesAll(items)
    && RepBlock(HeaderEnv, m.bytes, 0, 0, HeaderBlock(m.header), HeaderItems(m.header))
    && RepBlock(env, m.bytes, HeaderWords(m.header), 0, BStruct(id), items)
  }

  /** What a sender has to supply: a first-fit schema, a conforming payload, and sizes within the format's widths. */
  predicate Sendable(env: Env, h: MessageHeader, id: nat, items: seq<Value>) {
    && PackedEnv(env)
    && h.Valid()
    && ConformsBlock(env, BStruct(id), items)
    && GoEncoding.Room(HeaderWords(h), TotalWords(env, BStruct(id), items), 0, |HandlesAll(items)|)
  }

  lemma HeaderWritten(h: MessageHeader)
    requires h.Valid()
    ensures EncHeader(NewEnc, h).Ok?
    ensures GoEncoding.BlockDone(HeaderEnv, NewEnc, 0, HeaderBlock(h), HeaderItems(h), EncHeader(NewEnc, h).value)
  {
    hide EncBlock, PackedEnv, ConformsBlock, ClearBlock, RepBlock, EncHeader, TotalWords, HandlesAll;
    EncHeaderIsBlock(NewEnc, h);
    HeaderEnvPacked();
    HeaderConforms(h);
    HeaderSizes(h);
    GoEncoding.EncBlockRep(HeaderEnv, NewEnc, 0, HeaderBlock(h), HeaderItems(h));
  }

  /** `EncodeMessage` succeeds exactly when the payload is clear behind the header, and writes the message. */
  lemma EncodesMessage(env: Env, h: MessageHeader, id: nat, items: seq<Value>)
    requires Sendable(env, h, id, items)
    ensures var r := EncodeMessage(env, h, id, items);
      && (r.Ok? <==> ClearBlock(env, HeaderWords(h), BStruct(id), items, false))
      && (r.Ok? ==> r.value.header == h && RepMessage(env, r.value, id, items))
  {
    hide EncHeader, EncBlock, PackedEnv, ConformsBlock, ClearBlock, RepBlock, TotalWords, HandlesAll,
      GoEncoding.ZeroFrom;
    HeaderWritten(h);
    HeaderSizes(h);
    var e1 := EncHeader(NewEnc, h).value;
    GoEncoding.EncBlockRep(env, e1, HeaderWords(h), BStruct(id), items);
    if EncBlock(env, e1, BStruct(id), items).Ok? {
      var e2 := EncBlock(env, e1, BStruct(id), items).value;
      var bytes := e2.buf[..e2.end];
      HeaderEnvPacked();
      HeaderConforms(h);
      PackedIsWf(env);
      PackedIsWf(HeaderEnv);
      RepBlockMoves(HeaderEnv, e1.buf, bytes, 0, 0, 0, HeaderBlock(h), HeaderItems(h));
      RepBlockMoves(env, e2.buf, bytes, 0, HeaderWords(h), 0, BStruct(id), items);
    }
  }

  /** `ParseMessage` gets the header back, up to the request id that a message without flags does not carry. */
  lemma ParsesMessage(env: Env, m: Message, id: nat, items: seq<Value>)
    requires m.header.Valid() && RepMessage(env, m, id, items)
    ensures var r := ParseMessage(m.bytes, m.handles);
      && (r.Ok? <==> ParsableFlags(m.header.flags))
      && (r.Ok? ==> r.value == m.(header := ParsedHeader(m.header)))
  {
    hide DecHeader, RepBlock, TotalWords, HandlesAll;
    HeaderParses(Input(m.bytes, []), m.header);
  }

  lemma ParsedRep(env: Env, m: Message, p: Message, id: nat, items: seq<Value>)
    requires RepMessage(env, m, id, items) && p == m.(header := ParsedHeader(m.header))
    ensures RepMessage(env, p, id, items)
  {
    hide RepBlock, TotalWords, HandlesAll;
    assert HeaderItems(p.header) == HeaderItems(m.header);
  }

  lemma DecodesPayload(env: Env, m: Message, id: nat, items: seq<Value>)
    requires PackedEnv(env) && ConformsBlock(env, BStruct(id), items) && RepMessage(env, m, id, items)
    requires |m.handles| <= INVALID_HANDLE
    ensures var r := DecodePayload(env, m, id);
      && (r.Ok? <==> ClearBlock(env, 0, BStruct(id), items, true))
      && (r.Ok? ==> r.value == items)
  {
    hide DecBlock, PackedEnv, ConformsBlock, ClearBlock, RepBlock, TotalWords, HandlesAll;
    PackedIsWf(env);
    RepBlockMoves(env, m.bytes, m.payload, HeaderWords(m.header), HeaderWords(m.header), 0, BStruct(id), items);
    assert m.handles[0..0 + |m.handles|] == m.handles;
    GoDecoding.DecBlockRep(env, Input(m.payload, m.handles), NewDec, 0, BStruct(id), items);
  }

  /** Encode, parse, decode: the receiver ends up with the sender's header, payload and handles. */
  ghost predicate RoundTrips(env: Env, h: MessageHeader, id: nat, items: seq<Value>) {
    var r := EncodeMessage(env, h, id, items);
    r.Ok? &&
    var p := ParseMessage(r.value.bytes, r.value.handles);
    p.Ok? && p.value.header == h && p.value.handles == HandlesAll(items) && DecodePayload(env, p.value, id) == Ok(items)
  }

  /** The round trip of the Go bindings, exactly: the flags are ones a parser accepts, a message without flags has
      request id 0, and no tight struct ends at an odd word, neither where it is written nor where it is read. */
  lemma MessageRoundTrip(env: Env, h: MessageHeader, id: nat, items: seq<Value>)
    requires Sendable(env, h, id, items)
    ensures RoundTrips(env, h, id, items) <==>
      && ParsableFlags(h.flags)
      && (h.flags == NO_FLAG ==> h.requestId == 0)
      && ClearBlock(env, HeaderWords(h), BStruct(id), items, false)
      && ClearBlock(env, 0, BStruct(id), items, true)
  {
    hide EncodeMessage, ParseMessage, DecodePayload, PackedEnv, ConformsBlock, ClearBlock, RepBlock, TotalWords,
      HandlesAll, ParsableFlags;
    EncodesMessage(env, h, id, items);
    var r := EncodeMessage(env, h, id, items);
    if r.Ok? {
      ParsesMessage(env, r.value, id, items);
      var p := ParseMessage(r.value.bytes, r.value.handles);
      if p.Ok? {
        if p.value.header == h {
          DecodesPayload(env, p.value, id, items);
        }
      }
    }
  }

  // ---------------------------------------------------------------- which schemas are safe

  /** No struct of the schema is tight. */
  predicate NeverTight(env: Env, decoding: bool) {
    forall id | id in env :: !Tight(0, env[id].fields, env[id].size, decoding)
  }

  lemma {:induction false} ClearEverywhere(env: Env, at: nat, b: Block, items: seq<Value>, decoding: bool)
    requires PackedEnv(env) && NeverTight(env, decoding) && ConformsBlock(env, b, items)
    ensures ClearBlock(env, at, b, items, decoding)
    decreases items, 1
  {
    hide PackedEnv, Tight, ShapeOk, NeverTight, Fields, PayloadSize;
    NotTight(env, b, |items|, decoding);
    ClearSlotsEverywhere(env, at + BlockWords(env, b, |items|), Fields(env, b, |items|), items, decoding);
  }

  lemma {:induction false} ClearSlotsEverywhere(env: Env, e: nat, fs: seq<Field>, vs: seq<Value>, decoding: bool)
    requires PackedEnv(env) && NeverTight(env, decoding) && ConformsAll(env, fs, vs)
    ensures ClearSlots(env, e, fs, vs, decoding)
    decreases vs, 0
  {
    hide PackedEnv, NeverTight, ClearBlock, ConformsBlock;
    if vs != [] {
      if fs[0].kind.TPtr? && vs[0].VBlock? {
        ClearEverywhere(env, e, fs[0].kind.target, vs[0].items, decoding);
      }
      ClearSlotsEverywhere(env, e + ChildWords(env, fs[0].kind, vs[0]), fs[1..], vs[1..], decoding);
    }
  }

  lemma NotTight(env: Env, b: Block, n: nat, decoding: bool)
    requires PackedEnv(env) && NeverTight(env, decoding) && WfBlock(env, b)
    ensures !Tight(0, Fields(env, b, n), PayloadSize(env, b, n), decoding)
  {
    hide Tight;
    match b
    case BStruct(id) =>
    case BArray(elem, _) =>
      GoDecoding.UniformNotTight(0, Fields(env, b, n), PayloadSize(env, b, n));
      TightDecoding(0, Fields(env, b, n), PayloadSize(env, b, n));
    case BMap(_, _) => NoBoolsNotTight(Fields(env, b, n), 16, decoding);
  }

  lemma {:induction false} TightDecoding(bit: nat, fs: seq<Field>, size: nat)
    ensures Tight(bit, fs, size, false) ==> Tight(bit, fs, size, true)
    decreases |fs|
  {
    if fs != [] {
      TightDecoding(NextBit(fs[0]), fs[1..], size);
    }
  }

  /** For schemas without tight structs every message round trips. */
  lemma SafeSchemasRoundTrip(env: Env, h: MessageHeader, id: nat, items: seq<Value>)
    requires Sendable(env, h, id, items) && NeverTight(env, false) && NeverTight(env, true)
    requires ParsableFlags(h.flags) && (h.flags == NO_FLAG ==> h.requestId == 0)
    ensures RoundTrips(env, h, id, items)
  {
    hide EncodeMessage, ParseMessage, DecodePayload, PackedEnv, ConformsBlock, ClearBlock, NeverTight, RoundTrips,
      TotalWords, HandlesAll;
    ClearEverywhere(env, HeaderWords(h), BStruct(id), items, false);
    ClearEverywhere(env, 0, BStruct(id), items, true);
    MessageRoundTrip(env, h, id, items);
  }

  /** struct { bool b; string? s; } */
  const BoolThenPointer: Env := map[
    0 := StructDef(16, 0, [Field(0, 0, TBool), Field(8, 0, TPtr(true, BArray(TUint(1), 0)))])]

  const BoolField := Field(0, 0, TBool)
  const PointerField := Field(8, 0, TPtr(true, BArray(TUint(1), 0)))

  lemma BoolThenPointerFields()
    ensures BoolThenPointer[0].fields == [BoolField, PointerField]
    ensures [BoolField, PointerField][1..] == [PointerField] && [PointerField][1..] == []
    ensures [VBool(true), VNull][1..] == [VNull] && [VNull][1..] == []
  {
  }

  lemma BoolThenPointerPacked()
    ensures PackedEnv(BoolThenPointer)
  {
    BoolThenPointerFields();
    assert Packed(16, 0, []) && Packed(0, 1, [PointerField]) && Packed(0, 0, [BoolField, PointerField]);
    assert WfType(BoolThenPointer, PointerField.kind);
    assert WfDef(BoolThenPointer, BoolThenPointer[0]);
  }

  lemma BoolThenPointerConforms()
    ensures var env, items := BoolThenPointer, [VBool(true), VNull];
      ConformsBlock(env, BStruct(0), items) && TotalWords(env, BStruct(0), items) == 3 && HandlesAll(items) == []
  {
    hide ConformsAll, ChildrenWords, HandlesAll;
    BoolThenPointerFields();
    BoolThenPointerItems();
  }

  lemma BoolThenPointerItems()
    ensures var env, fs, items := BoolThenPointer, [BoolField, PointerField], [VBool(true), VNull];
      ConformsAll(env, fs, items) && ChildrenWords(env, fs, items) == 0 && HandlesAll(items) == []
  {
    var env, items := BoolThenPointer, [VBool(true), VNull];
    BoolThenPointerFields();
    assert ConformsAll(env, [], []) && ConformsAll(env, [PointerField], [VNull]);
    assert ChildrenWords(env, [], []) == 0 && ChildrenWords(env, [PointerField], [VNull]) == 0;
    assert HandlesAll([]) == [] && HandlesAll([VNull]) == [];
  }

  lemma BoolThenPointerSendable(kind: nat)
    requires kind < TWO_32
    ensures Sendable(BoolThenPointer, MessageHeader(kind, NO_FLAG, 0), 0, [VBool(true), VNull])
  {
    hide PackedEnv, ConformsBlock, TotalWords, HandlesAll;
    BoolThenPointerPacked();
    BoolThenPointerConforms();
  }

  lemma BoolThenPointerClear()
    ensures ClearBlock(BoolThenPointer, 2, BStruct(0), [VBool(true), VNull], false)
    ensures !ClearBlock(BoolThenPointer, 0, BStruct(0), [VBool(true), VNull], true)
  {
    var env, items := BoolThenPointer, [VBool(true), VNull];
    var b, p := Field(0, 0, TBool), Field(8, 0, TPtr(true, BArray(TUint(1), 0)));
    assert env[0].fields == [b, p] && [b, p][1..] == [p] && [p][1..] == [];
    assert items[1..] == [VNull] && items[1..][1..] == [];
    assert !Tight(0, [], 16, false) && !Tight(1, [p], 16, false) && !Tight(0, [b, p], 16, false);
    assert Tight(1, [p], 16, true) && Tight(0, [b, p], 16, true);
    assert ClearSlots(env, 5, [], [], false) && ClearSlots(env, 5, [p], [VNull], false) &&
      ClearSlots(env, 5, [b, p], items, false);
  }

  /** The receiver cannot decode `{true, null}`, although the sender encodes it and the header parses. */
  lemma BoolThenPointerIsRefused(kind: nat)
    requires kind < TWO_32
    ensures var h, items := MessageHeader(kind, NO_FLAG, 0), [VBool(true), VNull];
      && Sendable(BoolThenPointer, h, 0, items)
      && EncodeMessage(BoolThenPointer, h, 0, items).Ok?
      && !RoundTrips(BoolThenPointer, h, 0, items)
  {
    hide EncodeMessage, RoundTrips, RepMessage, Sendable, ClearBlock;
    var h, items := MessageHeader(kind, NO_FLAG, 0), [VBool(true), VNull];
    BoolThenPointerSendable(kind);
    BoolThenPointerClear();
    EncodesMessage(BoolThenPointer, h, 0, items);
    MessageRoundTrip(BoolThenPointer, h, 0, items);
  }
}
