/**
Messages of the JavaScript bindings: builders, the message validator and the message reader; and what happens when
a message is sent by one language and received by the other.
*/
module JsMessage {
  import opened Bytes
  import opened Wire
  import opened JsCodec
  import opened JsSafety
  import opened JsShapes
  import JsReading
  import JsAccepts
  import JsWriting
  import GoLayout
  import GoMessage

  type MessageHeader = GoMessage.MessageHeader

  // ---------------------------------------------------------------- codec.js and validator.js

  /** The header that `MessageBuilder` (no flags) or `MessageWithRequestIDBuilder` writes into a fresh buffer. */
  function BuildHeader(h: MessageHeader, payloadSize: nat): Result<Js> {
    var size := HEADER_SIZE + h.DataSize();
    var j1 :- Alloc(Js(seq(size + payloadSize, _ => 0), 0, []), size);
    var j2 :- Set(j1, 0, 4, size);
    var j3 :- Set(j2, 4, 4, h.Version());
    var j4 :- Set(j3, 8, 4, h.kind);
    var j5 :- Set(j4, 12, 4, h.flags);
    if h.flags != 0 then Set64(j5, 16, h.requestId) else Ok(j5)
  }

  /** A builder, `encodeStruct` and `finish`; `payloadSize` is the caller's guess. */
  function Build(env: Env, h: MessageHeader, id: nat, items: seq<Value>, payloadSize: nat): Result<GoMessage.Message> {
    var j1 :- BuildHeader(h, payloadSize);
    var j2 :- Alloc(j1, HEADER_SIZE + PayloadSize(env, BStruct(id), |items|));
    var j3 :- JsEncBlock(env, j2, j1.next, BStruct(id), items);
    if j3.next > |j3.buf| || HEADER_SIZE + h.DataSize() > j3.next then Err(RangeError)
    else Ok(GoMessage.Message(h, j3.buf[..j3.next], j3.handles, j3.buf[HEADER_SIZE + h.DataSize()..j3.next]))
  }

  /** `validateMessageHeader` */
  function ValidateMessageHeader(m: Input): (r: Result<Val>)
    ensures r.Ok? ==> r.value.offset <= |m.buf| && 16 <= |m.buf|
  {
    var v :- ValidateStructHeader(m, NewVal, 0, 16, 0);
    var numBytes, version, flags := UintAt(m.buf, 0, 4), UintAt(m.buf, 4, 4), UintAt(m.buf, 12, 4);
    if !((version == 0 && numBytes == 16) || (version == 1 && numBytes == 24) || (version > 1 && numBytes >= 24)) then
      Err(UnexpectedStructHeader)
    else if version == 0 && (Bit(flags, 0) || Bit(flags, 1)) then Err(MessageHeaderMissingRequestId)
    else if Bit(flags, 0) && Bit(flags, 1) then Err(MessageHeaderInvalidFlags)
    else Ok(v)
  }

  /** `validateMessageHeader`, then the generated validator of the payload struct. */
  function ValidateMessage(env: Env, m: Input, id: nat): Result<Val> {
    var v :- ValidateMessageHeader(m);
    ValidateBlock(env, m, v, UintAt(m.buf, 0, 4), BStruct(id), [], 0)
  }

  /** `MessageReader` and its `decodeStruct`; without a request id the number is 0 here. */
  function ReadMessage(env: Env, bytes: seq<Byte>, handles: seq<nat>, id: nat): Result<(MessageHeader, seq<Value>)> {
    var size :- Get(bytes, 0, 4);
    var version :- Get(bytes, 4, 4);
    var kind :- Get(bytes, 8, 4);
    var flags :- Get(bytes, 12, 4);
    var requestId :- if version >= 1 then Get64(bytes, 16) else Ok(0);
    var items :- JsDecBlock(env, bytes, handles, size, BStruct(id));
    Ok((GoMessage.MessageHeader(kind, flags, requestId), items))
  }

  // ---------------------------------------------------------------- safety

  /**
  Whatever bytes arrive: if validation succeeds, the claims are disjoint and the reader does not leave the buffer.
  Unless map values are nullable it does not trip over null either, and what it reads conforms to the schema, except for
  lengths that map values forget.
  */
  lemma ValidatedMessageIsRead(env: Env, m: Input, handles: seq<nat>, id: nat)
    requires WfEnv(env) && CoveredEnv(env, false) && id in env && |handles| == m.handleCount <= INVALID_HANDLE
    requires ValidateMessage(env, m, id).Ok?
    ensures var v, r := ValidateMessage(env, m, id).value, ReadMessage(env, m.buf, handles, id);
      && Tracked(m, v)
      && Readable(r, CoveredEnv(env, true))
      && (r.Ok? ==> Picked(handles, v.taken) == HandlesAll(r.value.1))
      && (CoveredEnv(env, true) ==> ShapedBlock(env, BStruct(id), r.value.1, [], 0))
      && (CoveredEnv(env, true) && ExactEnv(env) ==> ConformsBlock(env, BStruct(id), r.value.1))
  {
    hide WfEnv, CoveredEnv, UintAt, Get64, ValidateBlock, JsDecBlock, ConformsBlock, ShapedBlock, HandlesAll, Tracked,
      ExactEnv;
    var v, at, strict := ValidateMessageHeader(m).value, UintAt(m.buf, 0, 4), CoveredEnv(env, true);
    NothingTracked(m);
    ClaimTracked(m, NewVal, 0, at);
    JsReading.Get64Reads(m.buf, 16);
    BlockSound(env, m, v, handles, at, BStruct(id), [], 0, strict);
    if strict && ExactEnv(env) {
      ShapedConformsBlock(env, BStruct(id), JsDecBlock(env, m.buf, handles, at, BStruct(id)).value, [], 0);
    }
  }

  lemma NothingTracked(m: Input)
    ensures Tracked(m, NewVal)
  {
  }

  // ---------------------------------------------------------------- receiving

  /** The header is a struct of two or three numbers. */
  lemma HeaderFields(buf: seq<Byte>, h: MessageHeader)
    requires RepBlock(GoMessage.HeaderEnv, buf, 0, 0, GoMessage.HeaderBlock(h), GoMessage.HeaderItems(h))
    ensures Holds(buf, 0, 4, HEADER_SIZE + h.DataSize()) && Holds(buf, 4, 4, h.Version())
    ensures Holds(buf, 8, 4, h.kind) && Holds(buf, 12, 4, h.flags)
    ensures h.flags != 0 ==> Holds(buf, 16, 8, h.requestId)
  {
    hide UintAt;
    var env, vs := GoMessage.HeaderEnv, GoMessage.HeaderItems(h);
    var fs := env[h.Version()].fields;
    var e := BlockWords(env, GoMessage.HeaderBlock(h), |vs|);
    assert fs[0] == Field(0, 0, TUint(4)) && fs[1] == Field(4, 0, TUint(4)) && vs[0] == VUint(h.kind) &&
      vs[1] == VUint(h.flags);
    assert RepSlots(env, buf, 0, e, 0, fs, vs) && RepSlot(env, buf, 0, e, 0, fs[0], vs[0]);
    assert fs[1..][0] == fs[1] && vs[1..][0] == vs[1];
    assert RepSlots(env, buf, 0, e, 0, fs[1..], vs[1..]) && RepSlot(env, buf, 0, e, 0, fs[1], vs[1]);
    if h.flags != 0 {
      assert fs[1..][1..][0] == Field(8, 0, TUint(8)) && vs[1..][1..][0] == VUint(h.requestId);
      assert RepSlots(env, buf, 0, e, 0, fs[1..][1..], vs[1..][1..]);
      assert RepSlot(env, buf, 0, e, 0, Field(8, 0, TUint(8)), VUint(h.requestId));
    }
  }

  lemma FlagBits(flags: nat)
    ensures flags == 0 ==> !Bit(flags, 0) && !Bit(flags, 1)
    ensures flags == 1 || flags == 2 ==> !(Bit(flags, 0) && Bit(flags, 1))
  {
  }

  lemma HeaderValidates(m: Input, h: MessageHeader)
    requires RepBlock(GoMessage.HeaderEnv, m.buf, 0, 0, GoMessage.HeaderBlock(h), GoMessage.HeaderItems(h))
    requires |m.buf| <= MAX_SAFE_INTEGER && 8 * GoMessage.HeaderWords(h) <= |m.buf|
    ensures var r := ValidateMessageHeader(m);
      && (r.Ok? <==> !(Bit(h.flags, 0) && Bit(h.flags, 1)))
      && (r.Ok? ==> r.value.offset == 8 * GoMessage.HeaderWords(h) == UintAt(m.buf, 0, 4) && r.value.handleIndex == 0)
  {
    hide UintAt, RepBlock, Bit;
    HeaderFields(m.buf, h);
    FlagBits(h.flags);
  }

  /** Every integer is one that a JavaScript number holds exactly. */
  predicate SafeInts(v: Value) {
    match v
    case VUint(n) => n <= MAX_SAFE_INTEGER
    case VBlock(items) => forall i | 0 <= i < |items| :: SafeInts(items[i])
    case _ => true
  }

  predicate AllSafe(h: MessageHeader, items: seq<Value>) {
    h.requestId <= MAX_SAFE_INTEGER && SafeInts(VBlock(items))
  }

  /** What a receiver has to be able to rely on. */
  predicate Receivable(env: Env, m: GoMessage.Message, id: nat, items: seq<Value>) {
    && WfEnv(env)
    && PlainKeysEnv(env)
    && ConformsBlock(env, BStruct(id), items)
    && AllSafe(m.header, items)
    && |m.bytes| <= MAX_SAFE_INTEGER
    && |m.handles| <= INVALID_HANDLE
  }

  /** A message is accepted unless both flag bits are set, and then read as what it represents. */
  lemma JsReceives(env: Env, m: GoMessage.Message, id: nat, items: seq<Value>)
    requires Receivable(env, m, id, items) && GoMessage.RepMessage(env, m, id, items)
    ensures ValidateMessage(env, Input(m.bytes, |m.handles|), id).Ok? <==>
      !(Bit(m.header.flags, 0) && Bit(m.header.flags, 1))
    ensures ReadMessage(env, m.bytes, m.handles, id) == Ok((GoMessage.ParsedHeader(m.header), items))
  {
    hide SafeInts, WfEnv, PlainKeysEnv, UintAt, Get64, ValidateBlock, JsDecBlock, ConformsBlock, HandlesAll, RepBlock,
      TotalWords, Bit, ValidateMessageHeader;
    var inp, words := Input(m.bytes, |m.handles|), GoMessage.HeaderWords(m.header);
    HeaderFields(m.bytes, m.header);
    HeaderValidates(inp, m.header);
    JsReading.Get64Reads(m.bytes, 16);
    assert m.handles[0..0 + |m.handles|] == m.handles;
    JsReading.JsDecBlockRep(env, m.bytes, m.handles, words, 0, BStruct(id), items);
    if ValidateMessageHeader(inp).Ok? {
      ConformsShapedBlock(env, BStruct(id), items, [], 0);
      JsAccepts.BlockAccepted(env, inp, ValidateMessageHeader(inp).value, words, 0, BStruct(id), items, [], 0);
    }
  }

  // ---------------------------------------------------------------- sending

  lemma PackedEnvIsLaid(env: Env)
    requires GoLayout.PackedEnv(env)
    ensures JsWriting.LaidEnv(env)
  {
    forall id | id in env
      ensures JsWriting.Laid(0, 0, env[id].fields)
    {
      assert WfDef(env, env[id]);
      forall i | 0 <= i < |env[id].fields| ensures env[id].fields[i].bit < 8 {
        assert FieldOk(env, env[id].fields[i], env[id].size);
      }
      JsWriting.PackedIsLaid(0, 0, env[id].fields);
    }
  }

  lemma BuildHeaderIsBlock(j: Js, h: MessageHeader)
    ensures JsEncBlock(GoMessage.HeaderEnv, j, 0, GoMessage.HeaderBlock(h), GoMessage.HeaderItems(h)) ==
      (var j2 :- Set(j, 0, 4, HEADER_SIZE + h.DataSize());
       var j3 :- Set(j2, 4, 4, h.Version());
       var j4 :- Set(j3, 8, 4, h.kind);
       var j5 :- Set(j4, 12, 4, h.flags);
       if h.flags != 0 then Set64(j5, 16, h.requestId) else Ok(j5))
  {
    hide Set, Set64;
    var env, vs := GoMessage.HeaderEnv, GoMessage.HeaderItems(h);
    var fs := env[h.Version()].fields;
    forall j3: Js
      ensures JsEncSlots(env, j3, 8, fs, vs) ==
        (var j4 :- Set(j3, 8, 4, h.kind);
         var j5 :- Set(j4, 12, 4, h.flags);
         if h.flags != 0 then Set64(j5, 16, h.requestId) else Ok(j5))
    {
      HeaderSlots(j3, h);
    }
  }

  lemma HeaderSlots(j: Js, h: MessageHeader)
    ensures JsEncSlots(GoMessage.HeaderEnv, j, 8, GoMessage.HeaderEnv[h.Version()].fields, GoMessage.HeaderItems(h)) ==
      (var j4 :- Set(j, 8, 4, h.kind);
       var j5 :- Set(j4, 12, 4, h.flags);
       if h.flags != 0 then Set64(j5, 16, h.requestId) else Ok(j5))
  {
    hide Set, Set64;
    var env, vs := GoMessage.HeaderEnv, GoMessage.HeaderItems(h);
    var fs := env[h.Version()].fields;
    var r4 := Set(j, 8, 4, h.kind);
    if r4.Ok? {
      var r5 := Set(r4.value, 12, 4, h.flags);
      assert JsEncSlots(env, j, 8, fs, vs) == JsEncSlots(env, r4.value, 8, fs[1..], vs[1..]);
      if r5.Ok? {
        assert JsEncSlots(env, r4.value, 8, fs[1..], vs[1..]) ==
          JsEncSlots(env, r5.value, 8, fs[1..][1..], vs[1..][1..]);
        if h.flags != 0 {
          var w8, id := Field(8, 0, TUint(8)), VUint(h.requestId);
          assert fs[1..][1..] == [w8] && vs[1..][1..] == [id] && [w8][1..] == [];
          LastSlot(r5.value, w8, id);
        } else {
          assert fs[1..][1..] == [];
        }
      } else {
        assert JsEncSlots(env, r4.value, 8, fs[1..], vs[1..]).Err?;
      }
    }
  }

  lemma LastSlot(j: Js, f: Field, v: Value)
    requires !f.kind.TBool?
    ensures JsEncSlots(GoMessage.HeaderEnv, j, 8, [f], [v]) ==
      JsEncSlot(GoMessage.HeaderEnv, j, 8 + f.offset, f.kind, v)
  {
    assert [f][1..] == [];
    assert forall j1 :: JsEncSlots(GoMessage.HeaderEnv, j1, 8, [f][1..], [v][1..]) == Ok(j1);
  }

  /** What a sender has to supply: a schema without overlaps, a conforming payload without null handles and unsafe
      integers, and less than a third of 2^31 bytes in all. */
  predicate Buildable(env: Env, h: MessageHeader, id: nat, items: seq<Value>) {
    && GoLayout.PackedEnv(env)
    && h.Valid()
    && AllSafe(h, items)
    && ConformsBlock(env, BStruct(id), items)
    && JsWriting.EncodableAll(items)
    && 24 * (GoMessage.HeaderWords(h) + TotalWords(env, BStruct(id), items)) < 0x8000_0000
    && |HandlesAll(items)| <= INVALID_HANDLE
  }

  lemma HeaderBuilt(h: MessageHeader, payloadSize: nat)
    requires h.Valid()
    ensures var r := BuildHeader(h, payloadSize);
      && r.Ok? && r.value.handles == []
      && r.value.next == 8 * GoMessage.HeaderWords(h) <= |r.value.buf|
      && RepBlock(GoMessage.HeaderEnv, r.value.buf, 0, 0, GoMessage.HeaderBlock(h), GoMessage.HeaderItems(h))
  {
    hide JsEncBlock, Set, Set64, RepBlock, ConformsBlock, HandlesAll, TotalWords;
    var env, b, items := GoMessage.HeaderEnv, GoMessage.HeaderBlock(h), GoMessage.HeaderItems(h);
    var size := HEADER_SIZE + h.DataSize();
    var j1 := Alloc(Js(seq(size + payloadSize, _ => 0), 0, []), size).value;
    HeaderPlan(h);
    BuildHeaderIsBlock(j1, h);
    JsWriting.JsEncBlockRep(env, j1, 0, b, items);
  }

  lemma HeaderPlan(h: MessageHeader)
    requires h.Valid()
    ensures var env, b, items := GoMessage.HeaderEnv, GoMessage.HeaderBlock(h), GoMessage.HeaderItems(h);
      && JsWriting.LaidEnv(env) && ConformsBlock(env, b, items) && JsWriting.EncodableAll(items)
      && BlockWords(env, b, |items|) == TotalWords(env, b, items) == GoMessage.HeaderWords(h)
      && ChildrenWords(env, Fields(env, b, |items|), items) == 0 && HandlesAll(items) == []
  {
    hide ConformsBlock, GoLayout.ClearBlock;
    GoMessage.HeaderEnvPacked();
    PackedEnvIsLaid(GoMessage.HeaderEnv);
    GoMessage.HeaderConforms(h);
    GoMessage.HeaderSizes(h);
  }

  /** Whatever size the caller guessed, the finished message is the header and the payload. */
  lemma JsSends(env: Env, h: MessageHeader, id: nat, items: seq<Value>, payloadSize: nat)
    requires Buildable(env, h, id, items)
    ensures var r := Build(env, h, id, items, payloadSize);
      r.Ok? && r.value.header == h && GoMessage.RepMessage(env, r.value, id, items)
  {
    hide SafeInts, BuildHeader, JsEncBlock, RepBlock, ConformsBlock, HandlesAll, Alloc, GoLayout.PackedEnv, PayloadSize,
      Fields, ChildrenWords;
    var b, words := BStruct(id), GoMessage.HeaderWords(h);
    var own := BlockWords(env, b, |items|);
    HeaderBuilt(h, payloadSize);
    PackedEnvIsLaid(env);
    StructWords(env, id, items);
    var j1 := BuildHeader(h, payloadSize).value;
    JsWriting.Grows(j1, words, own, ChildrenWords(env, Fields(env, b, |items|), items));
    var j2 := Alloc(j1, 8 * own).value;
    JsWriting.JsEncBlockRep(env, j2, words, b, items);
    var j3 := JsEncBlock(env, j2, 8 * words, b, items).value;
    Trimmed(env, j1, j2, j3, h, id, items);
  }

  lemma StructWords(env: Env, id: nat, items: seq<Value>)
    requires GoLayout.PackedEnv(env) && ConformsBlock(env, BStruct(id), items)
    ensures HEADER_SIZE + PayloadSize(env, BStruct(id), |items|) == 8 * BlockWords(env, BStruct(id), |items|)
  {
    hide ConformsAll, FieldsOk;
    assert WfDef(env, env[id]);
  }

  lemma Trimmed(env: Env, j1: Js, j2: Js, j3: Js, h: MessageHeader, id: nat, items: seq<Value>)
    requires GoLayout.PackedEnv(env) && h.Valid() && ConformsBlock(env, BStruct(id), items)
    requires j1.next == 8 * GoMessage.HeaderWords(h) <= |j1.buf|
    requires j3.next == 8 * (GoMessage.HeaderWords(h) + TotalWords(env, BStruct(id), items)) <= |j3.buf|
    requires JsWriting.Kept(j1.buf, j2.buf, |j1.buf|, 0, 0) && JsWriting.Kept(j2.buf, j3.buf, j1.next, j1.next, j1.next)
    requires RepBlock(GoMessage.HeaderEnv, j1.buf, 0, 0, GoMessage.HeaderBlock(h), GoMessage.HeaderItems(h))
    requires RepBlock(env, j3.buf, GoMessage.HeaderWords(h), 0, BStruct(id), items)
    ensures var bytes := j3.buf[..j3.next];
      && RepBlock(GoMessage.HeaderEnv, bytes, 0, 0, GoMessage.HeaderBlock(h), GoMessage.HeaderItems(h))
      && RepBlock(env, bytes, GoMessage.HeaderWords(h), 0, BStruct(id), items)
      && j3.buf[HEADER_SIZE + h.DataSize()..j3.next] == bytes[8 * GoMessage.HeaderWords(h)..]
  {
    hide RepBlock, ConformsBlock, GoLayout.PackedEnv, TotalWords, GoLayout.ClearBlock;
    var bytes, words := j3.buf[..j3.next], GoMessage.HeaderWords(h);
    GoMessage.HeaderEnvPacked();
    GoMessage.HeaderConforms(h);
    GoMessage.HeaderSizes(h);
    GoLayout.PackedIsWf(env);
    GoLayout.PackedIsWf(GoMessage.HeaderEnv);
    RepBlockMoves(GoMessage.HeaderEnv, j1.buf, bytes, 0, 0, 0, GoMessage.HeaderBlock(h), GoMessage.HeaderItems(h));
    RepBlockMoves(env, j3.buf, bytes, 0, words, 0, BStruct(id), items);
  }

  // ---------------------------------------------------------------- end to end

  predicate BothFlags(flags: nat) {
    Bit(flags, 0) && Bit(flags, 1)
  }

  lemma SafeSize(env: Env, h: MessageHeader, id: nat, items: seq<Value>)
    requires Buildable(env, h, id, items)
    ensures 8 * (GoMessage.HeaderWords(h) + TotalWords(env, BStruct(id), items)) <= MAX_SAFE_INTEGER && WfEnv(env)
  {
    hide SafeInts, TotalWords, ConformsBlock;
  }

  /** JavaScript to JavaScript. */
  lemma JsToJs(env: Env, h: MessageHeader, id: nat, items: seq<Value>, payloadSize: nat)
    requires Buildable(env, h, id, items) && PlainKeysEnv(env)
    ensures Build(env, h, id, items, payloadSize).Ok?
    ensures var m := Build(env, h, id, items, payloadSize).value;
      && m.handles == HandlesAll(items)
      && (ValidateMessage(env, Input(m.bytes, |m.handles|), id).Ok? <==> !BothFlags(h.flags))
      && ReadMessage(env, m.bytes, m.handles, id) == Ok((GoMessage.ParsedHeader(h), items))
  {
    hide SafeInts, Build, ValidateMessage, ReadMessage, ConformsBlock, HandlesAll, RepBlock, TotalWords,
      GoLayout.PackedEnv, PlainKeysEnv, Bit, JsWriting.EncodableAll, GoMessage.ParsedHeader;
    JsSends(env, h, id, items, payloadSize);
    SafeSize(env, h, id, items);
    JsReceives(env, Build(env, h, id, items, payloadSize).value, id, items);
  }

  /** Go to JavaScript: what Go encodes (`GoMessage.EncodesMessage`), JavaScript accepts and reads. */
  lemma GoToJs(env: Env, h: MessageHeader, id: nat, items: seq<Value>)
    requires GoMessage.Sendable(env, h, id, items) && PlainKeysEnv(env) && AllSafe(h, items)
    requires 8 * (GoMessage.HeaderWords(h) + TotalWords(env, BStruct(id), items)) <= MAX_SAFE_INTEGER
    requires GoLayout.ClearBlock(env, GoMessage.HeaderWords(h), BStruct(id), items, false)
    ensures GoMessage.EncodeMessage(env, h, id, items).Ok?
    ensures var m := GoMessage.EncodeMessage(env, h, id, items).value;
      && m.handles == HandlesAll(items)
      && (ValidateMessage(env, Input(m.bytes, |m.handles|), id).Ok? <==> !BothFlags(h.flags))
      && ReadMessage(env, m.bytes, m.handles, id) == Ok((GoMessage.ParsedHeader(h), items))
  {
    hide SafeInts, GoMessage.EncodeMessage, ValidateMessage, ReadMessage, ConformsBlock, HandlesAll, RepBlock,
      TotalWords, GoLayout.PackedEnv, PlainKeysEnv, Bit, GoLayout.ClearBlock, GoMessage.ParsedHeader;
    GoMessage.EncodesMessage(env, h, id, items);
    GoLayout.PackedIsWf(env);
    JsReceives(env, GoMessage.EncodeMessage(env, h, id, items).value, id, items);
  }

  /** JavaScript to Go: Go parses it if it knows the flags, and decodes it if no tight struct ends at an odd word. */
  lemma JsToGo(env: Env, h: MessageHeader, id: nat, items: seq<Value>, payloadSize: nat)
    requires Buildable(env, h, id, items)
    ensures Build(env, h, id, items, payloadSize).Ok?
    ensures var m := Build(env, h, id, items, payloadSize).value;
      var p := GoMessage.ParseMessage(m.bytes, m.handles);
      && (p.Ok? <==> GoMessage.ParsableFlags(h.flags))
      && (p.Ok? ==>
        && p.value.header == GoMessage.ParsedHeader(h)
        && p.value.handles == HandlesAll(items)
        && var d := GoMessage.DecodePayload(env, p.value, id);
        && (d.Ok? <==> GoLayout.ClearBlock(env, 0, BStruct(id), items, true))
        && (d.Ok? ==> d.value == items))
  {
    hide SafeInts, Build, GoMessage.ParseMessage, GoMessage.DecodePayload, ConformsBlock, HandlesAll, RepBlock,
      TotalWords, GoLayout.PackedEnv, JsWriting.EncodableAll, GoMessage.ParsableFlags, GoLayout.ClearBlock;
    JsSends(env, h, id, items, payloadSize);
    var m := Build(env, h, id, items, payloadSize).value;
    GoMessage.ParsesMessage(env, m, id, items);
    var p := GoMessage.ParseMessage(m.bytes, m.handles);
    if p.Ok? {
      GoMessage.ParsedRep(env, m, p.value, id, items);
      GoMessage.DecodesPayload(env, p.value, id, items);
    }
  }
}
