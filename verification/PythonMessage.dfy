/** Messages of the Python bindings, and what happens to them in the other two languages. */
module PythonMessage {
  import opened Bytes
  import opened Wire
  import opened PythonCodec
  import opened PythonReading
  import opened Versions
  import PythonLayout
  import PythonWriting
  import GoLayout
  import GoMessage
  import JsCodec
  import JsMessage
  import JsShapes
  import JsWriting

  type MessageHeader = GoMessage.MessageHeader

  // ---------------------------------------------------------------- messaging.py

  /** `_HasRequestId` */
  predicate HasRequestId(flags: nat) {
    Bit(flags, 0) || Bit(flags, 1)
  }

  /** `MessageHeader.Serialize` */
  function SerializeHeader(h: MessageHeader): seq<Byte> {
    var size, version := if HasRequestId(h.flags) then 24 else 16, if HasRequestId(h.flags) then 1 else 0;
    var d := Put(Put(Put(Put(Zeros(size), 0, 4, size), 4, 4, version), 8, 4, h.kind), 12, 4, h.flags);
    if HasRequestId(h.flags) then Put(d, 16, 8, h.requestId) else d
  }

  /** A header, and behind it the serialized payload struct. */
  function Send(py: Classes, h: MessageHeader, id: nat, items: seq<Value>): Result<GoMessage.Message> {
    var out :- SerializeInto(py, [], BStruct(id), items, 0);
    Ok(GoMessage.Message(h, SerializeHeader(h) + out.data, out.handles, out.data))
  }

  /** `MessageHeader.Deserialize`, then the payload behind the header. */
  function Receive(py: Classes, bytes: seq<Byte>, handles: seq<nat>, id: nat): Result<(MessageHeader, seq<Value>)> {
    if |bytes| < 16 then Err(TooShort)
    else
      var size, version, kind, flags := UintAt(bytes, 0, 4), UintAt(bytes, 4, 4), UintAt(bytes, 8, 4),
        UintAt(bytes, 12, 4);
      if HasRequestId(flags) then
        if version < 1 then Err(HeaderSizeIncorrect)
        else if size < 24 || |bytes| < 24 then Err(TooShort)
        else
          var (_, items) :- Deserialize(py, bytes[24..], handles, id);
          Ok((GoMessage.MessageHeader(kind, flags, UintAt(bytes, 16, 8)), items))
      else
        var (_, items) :- Deserialize(py, bytes[16..], handles, id);
        Ok((GoMessage.MessageHeader(kind, flags, 0), items))
  }

  // ---------------------------------------------------------------- round trips of structs

  /** What is serialized represents the items. */
  lemma Serializes(py: Classes, id: nat, items: seq<Value>)
    requires WfClasses(py) && ConformsBlock(EnvOf(py), BStruct(id), items)
    requires PythonWriting.Room(0, TotalWords(EnvOf(py), BStruct(id), items), |HandlesAll(items)|)
    ensures GoLayout.PackedEnv(EnvOf(py))
    ensures var r := SerializeInto(py, [], BStruct(id), items, 0);
      && r.Ok? && r.value.handles == HandlesAll(items) && RepBlock(EnvOf(py), r.value.data, 0, 0, BStruct(id), items)
      && |r.value.data| == 8 * TotalWords(EnvOf(py), BStruct(id), items)
  {
    hide EnvOf, WfClasses, SerializeInto, ConformsBlock, HandlesAll, TotalWords, RepBlock, GoLayout.PackedEnv;
    ClassesPacked(py);
    PythonWriting.IntoSerialized(py, EnvOf(py), [], 0, BStruct(id), items, 0);
  }

  /** What is serialized by some classes is read back by any later version of them, with memory claimed in order. */
  lemma LaterVersionsRead(older: Classes, newer: Classes, id: nat, items: seq<Value>)
    requires WfClasses(older) && Evolves(older, newer) && ConformsBlock(EnvOf(older), BStruct(id), items)
    requires PythonWriting.Room(0, TotalWords(EnvOf(older), BStruct(id), items), |HandlesAll(items)|)
    ensures var r := SerializeInto(older, [], BStruct(id), items, 0);
      && r.Ok? && r.value.handles == HandlesAll(items)
      && var d := Deserialize(newer, r.value.data, r.value.handles, id);
      && d.Ok? && d.value.1 == items && InOrder(d.value.0.claims, |r.value.data|)
  {
    hide WfClasses, SerializeInto, Deserialize, ConformsAll, HandlesAll, TotalWords, RepBlock, Reads,
      GoLayout.PackedEnv, InOrder, SeenBlock, PythonLayout.Filter, PythonLayout.Version, PythonLayout.Layout,
      PythonLayout.PayloadBytes;
    Serializes(older, id, items);
    ReadsOlder(older, newer);
    var out := SerializeInto(older, [], BStruct(id), items, 0).value;
    Deserializes(newer, EnvOf(older), out.data, out.handles, id, items);
    SeesBlock(PicksOf(newer, EnvOf(older)), EnvOf(older), BStruct(id), items);
  }

  /** Classes read what they write. */
  lemma OwnVersionReads(py: Classes, id: nat, items: seq<Value>)
    requires WfClasses(py) && ConformsBlock(EnvOf(py), BStruct(id), items)
    requires PythonWriting.Room(0, TotalWords(EnvOf(py), BStruct(id), items), |HandlesAll(items)|)
    ensures var r := SerializeInto(py, [], BStruct(id), items, 0);
      && r.Ok? && r.value.handles == HandlesAll(items)
      && var d := Deserialize(py, r.value.data, r.value.handles, id);
      && d.Ok? && d.value.1 == items && InOrder(d.value.0.claims, |r.value.data|)
  {
    hide WfClasses, EnvOf, SerializeInto, Deserialize, ConformsBlock, HandlesAll, TotalWords, Evolves, InOrder;
    EvolvesSelf(py);
    LaterVersionsRead(py, py, id, items);
  }

  /** What is serialized by some classes is read by any earlier version of them as far as it has the fields. */
  lemma EarlierVersionsRead(older: Classes, newer: Classes, id: nat, items: seq<Value>)
    requires WfClasses(newer) && Extends(older, newer) && id in older && ConformsBlock(EnvOf(newer), BStruct(id), items)
    requires PythonWriting.Room(0, TotalWords(EnvOf(newer), BStruct(id), items), |HandlesAll(items)|)
    ensures var r := SerializeInto(newer, [], BStruct(id), items, 0);
      && r.Ok? && r.value.handles == HandlesAll(items)
      && var d := Deserialize(older, r.value.data, r.value.handles, id);
      && d.Ok? && d.value.1 == SeenBlock(PicksOf(older, EnvOf(newer)), EnvOf(newer), BStruct(id), items)
      && InOrder(d.value.0.claims, |r.value.data|)
  {
    hide WfClasses, EnvOf, SerializeInto, Deserialize, ConformsBlock, HandlesAll, TotalWords, RepBlock, Reads, Extends,
      GoLayout.PackedEnv, InOrder, SeenBlock;
    Serializes(newer, id, items);
    ReadsNewer(older, newer);
    var out := SerializeInto(newer, [], BStruct(id), items, 0).value;
    Deserializes(older, EnvOf(newer), out.data, out.handles, id, items);
  }

  // ---------------------------------------------------------------- messages

  /** Python's test for a request id and the header's version say the same. */
  predicate Plain(flags: nat) {
    flags == 0 || HasRequestId(flags)
  }

  lemma NoFlagNoId()
    ensures !HasRequestId(0)
  {
  }

  lemma HeaderHolds(h: MessageHeader)
    requires h.Valid() && Plain(h.flags)
    ensures var d := SerializeHeader(h);
      && |d| == 8 * GoMessage.HeaderWords(h)
      && Holds(d, 0, 4, HEADER_SIZE + h.DataSize()) && Holds(d, 4, 4, h.Version())
      && Holds(d, 8, 4, h.kind) && Holds(d, 12, 4, h.flags)
      && (h.flags != 0 ==> Holds(d, 16, 8, h.requestId))
  {
    hide UintAt, Put, Bit, Zeros;
    NoFlagNoId();
    var size, version := HEADER_SIZE + h.DataSize(), h.Version();
    ZerosLength(size);
    var d2 := Put(Put(Zeros(size), 0, 4, size), 4, 4, version);
    PythonWriting.HeaderPut(Zeros(size), 0, size, version);
    PythonWriting.HeaderPut(d2, 8, h.kind, h.flags);
    var d4 := Put(Put(d2, 8, 4, h.kind), 12, 4, h.flags);
    JsWriting.HoldsKept(d2, d4, size, 8, 16, 0, 4, size);
    JsWriting.HoldsKept(d2, d4, size, 8, 16, 4, 4, version);
    if h.flags != 0 {
      IdPut(d4, h);
    }
  }

  lemma ZerosLength(n: nat)
    ensures |Zeros(n)| == n
  {
  }

  lemma IdPut(d: seq<Byte>, h: MessageHeader)
    requires |d| == 24 && h.Valid()
    requires Holds(d, 0, 4, 24) && Holds(d, 4, 4, 1) && Holds(d, 8, 4, h.kind) && Holds(d, 12, 4, h.flags)
    ensures var d' := Put(d, 16, 8, h.requestId);
      && Holds(d', 0, 4, 24) && Holds(d', 4, 4, 1) && Holds(d', 8, 4, h.kind) && Holds(d', 12, 4, h.flags) &&
        Holds(d', 16, 8, h.requestId)
  {
    hide UintAt, Put, Pow256;
    Pow256Values();
    PythonWriting.PutHolds(d, 16, 8, h.requestId);
    var d' := Put(d, 16, 8, h.requestId);
    JsWriting.HoldsKept(d, d', 24, 16, 24, 0, 4, 24);
    JsWriting.HoldsKept(d, d', 24, 16, 24, 4, 4, 1);
    JsWriting.HoldsKept(d, d', 24, 16, 24, 8, 4, h.kind);
    JsWriting.HoldsKept(d, d', 24, 16, 24, 12, 4, h.flags);
  }

  /** The fields of a header make it a representation; the other direction is `JsMessage.HeaderFields`. */
  lemma HeaderRep(buf: seq<Byte>, h: MessageHeader)
    requires 8 * GoMessage.HeaderWords(h) <= |buf|
    requires Holds(buf, 0, 4, HEADER_SIZE + h.DataSize()) && Holds(buf, 4, 4, h.Version())
    requires Holds(buf, 8, 4, h.kind) && Holds(buf, 12, 4, h.flags) && (h.flags != 0 ==> Holds(buf, 16, 8, h.requestId))
    ensures RepBlock(GoMessage.HeaderEnv, buf, 0, 0, GoMessage.HeaderBlock(h), GoMessage.HeaderItems(h))
  {
    hide UintAt, GoLayout.ClearBlock;
    var env, vs := GoMessage.HeaderEnv, GoMessage.HeaderItems(h);
    var fs := env[h.Version()].fields;
    var e := BlockWords(env, GoMessage.HeaderBlock(h), |vs|);
    GoMessage.HeaderSizes(h);
    assert RepSlot(env, buf, 0, e, 0, fs[0], vs[0]) && RepSlot(env, buf, 0, e, 0, fs[1], vs[1]);
    if h.flags != 0 {
      var w8, id := Field(8, 0, TUint(8)), VUint(h.requestId);
      assert fs[1..][1..] == [w8] && vs[1..][1..] == [id] && [w8][1..] == [] && [id][1..] == [];
      assert RepSlots(env, buf, 0, e, 0, [], []);
      assert RepSlot(env, buf, 0, e, 0, w8, id);
      assert RepSlots(env, buf, 0, e, 0, [w8], [id]);
    } else {
      assert fs[1..][1..] == [] && vs[1..][1..] == [];
      assert RepSlots(env, buf, 0, e, 0, [], []);
    }
    assert fs[1..][0] == fs[1] && vs[1..][0] == vs[1];
    assert RepSlots(env, buf, 0, e, 0, fs[1..], vs[1..]);
    assert RepSlots(env, buf, 0, e, 0, fs, vs);
  }

  /** What a Python sender has to supply. */
  predicate Sendable(py: Classes, h: MessageHeader, id: nat, items: seq<Value>) {
    && WfClasses(py)
    && h.Valid() && Plain(h.flags)
    && ConformsBlock(EnvOf(py), BStruct(id), items)
    && PythonWriting.Room(GoMessage.HeaderWords(h), TotalWords(EnvOf(py), BStruct(id), items), |HandlesAll(items)|)
  }

  lemma PySends(py: Classes, h: MessageHeader, id: nat, items: seq<Value>)
    requires Sendable(py, h, id, items)
    ensures var r := Send(py, h, id, items);
      r.Ok? && r.value.header == h && GoMessage.RepMessage(EnvOf(py), r.value, id, items) &&
        GoLayout.PackedEnv(EnvOf(py))
  {
    hide EnvOf, WfClasses, SerializeInto, SerializeHeader, ConformsBlock, HandlesAll, TotalWords, RepBlock,
      GoLayout.PackedEnv, UintAt, GoLayout.ClearBlock;
    var env, words := EnvOf(py), GoMessage.HeaderWords(h);
    Serializes(py, id, items);
    var head, out := SerializeHeader(h), SerializeInto(py, [], BStruct(id), items, 0).value;
    var bytes := head + out.data;
    HeaderHolds(h);
    HeaderRep(head, h);
    GoMessage.HeaderEnvPacked();
    GoMessage.HeaderConforms(h);
    GoMessage.HeaderSizes(h);
    GoLayout.PackedIsWf(GoMessage.HeaderEnv);
    GoLayout.PackedIsWf(env);
    RepBlockMoves(GoMessage.HeaderEnv, head, bytes, 0, 0, 0, GoMessage.HeaderBlock(h), GoMessage.HeaderItems(h));
    var below: int := words;
    var up: int := -below;
    RepBlockMoves(env, out.data, bytes, up, 0, 0, BStruct(id), items);
    assert bytes[8 * words..] == out.data;
  }

  /** What a Python receiver has to be able to rely on: its classes are later or earlier versions of the sender's. */
  predicate Receivable(py: Classes, env: Env, m: GoMessage.Message, id: nat, items: seq<Value>) {
    && Reads(py, env) && GoLayout.PackedEnv(env) && id in py
    && ConformsBlock(env, BStruct(id), items)
    && Plain(m.header.flags)
    && |m.handles| <= MAX_HANDLE
  }

  lemma PyReceives(py: Classes, env: Env, m: GoMessage.Message, id: nat, items: seq<Value>)
    requires Receivable(py, env, m, id, items) && GoMessage.RepMessage(env, m, id, items)
    ensures Receive(py, m.bytes, m.handles, id) ==
      Ok((GoMessage.ParsedHeader(m.header), SeenBlock(PicksOf(py, env), env, BStruct(id), items)))
  {
    hide SeenBlock, Reads, GoLayout.PackedEnv, ConformsBlock, Deserialize, HandlesAll, TotalWords, RepBlock, UintAt,
      Bit;
    var words := GoMessage.HeaderWords(m.header);
    NoFlagNoId();
    JsMessage.HeaderFields(m.bytes, m.header);
    GoLayout.PackedIsWf(env);
    RepBlockMoves(env, m.bytes, m.payload, words, words, 0, BStruct(id), items);
    Deserializes(py, env, m.payload, m.handles, id, items);
  }

  // ---------------------------------------------------------------- end to end

  /** A receiver that knows every field gets everything. */
  lemma PyReceivesAll(py: Classes, env: Env, m: GoMessage.Message, id: nat, items: seq<Value>)
    requires ReadsAll(py, env) && GoLayout.PackedEnv(env) && ConformsBlock(env, BStruct(id), items)
    requires Plain(m.header.flags) && |m.handles| <= MAX_HANDLE && GoMessage.RepMessage(env, m, id, items)
    ensures Receive(py, m.bytes, m.handles, id) == Ok((GoMessage.ParsedHeader(m.header), items))
  {
    hide SeenBlock, Reads, GoLayout.PackedEnv, ConformsAll, Receive, GoMessage.RepMessage, PythonLayout.Layout,
      GroupsFor;
    PyReceives(py, env, m, id, items);
    SeesBlock(PicksOf(py, env), env, BStruct(id), items);
  }

  /** Python to Python, from older classes to the same or later ones. */
  lemma PyToPy(older: Classes, newer: Classes, h: MessageHeader, id: nat, items: seq<Value>)
    requires Sendable(older, h, id, items) && Evolves(older, newer)
    ensures Send(older, h, id, items).Ok?
    ensures var m := Send(older, h, id, items).value;
      m.handles == HandlesAll(items) && Receive(newer, m.bytes, m.handles, id) == Ok((GoMessage.ParsedHeader(h), items))
  {
    hide EnvOf, WfClasses, Send, Receive, ReadsAll, Evolves, GoLayout.PackedEnv, ConformsBlock, HandlesAll, TotalWords,
      RepBlock, Bit;
    PySends(older, h, id, items);
    ReadsOlder(older, newer);
    PyReceivesAll(newer, EnvOf(older), Send(older, h, id, items).value, id, items);
  }

  /** Python to Python, from newer classes to earlier ones. */
  lemma PyToEarlierPy(older: Classes, newer: Classes, h: MessageHeader, id: nat, items: seq<Value>)
    requires Sendable(newer, h, id, items) && Extends(older, newer) && id in older
    ensures Send(newer, h, id, items).Ok?
    ensures var m := Send(newer, h, id, items).value;
      && m.handles == HandlesAll(items)
      && Receive(older, m.bytes, m.handles, id) ==
        Ok((GoMessage.ParsedHeader(h), SeenBlock(PicksOf(older, EnvOf(newer)), EnvOf(newer), BStruct(id), items)))
  {
    hide EnvOf, WfClasses, Send, Receive, Reads, Extends, GoLayout.PackedEnv, ConformsBlock, HandlesAll, TotalWords,
      RepBlock, Bit, SeenBlock;
    PySends(newer, h, id, items);
    ReadsNewer(older, newer);
    PyReceives(older, EnvOf(newer), Send(newer, h, id, items).value, id, items);
  }

  /** Python to Go. */
  lemma PyToGo(py: Classes, h: MessageHeader, id: nat, items: seq<Value>)
    requires Sendable(py, h, id, items)
    ensures Send(py, h, id, items).Ok?
    ensures var m := Send(py, h, id, items).value;
      var p := GoMessage.ParseMessage(m.bytes, m.handles);
      && (p.Ok? <==> GoMessage.ParsableFlags(h.flags))
      && (p.Ok? ==>
        && p.value.header == GoMessage.ParsedHeader(h)
        && p.value.handles == HandlesAll(items)
        && var d := GoMessage.DecodePayload(EnvOf(py), p.value, id);
        && (d.Ok? <==> GoLayout.ClearBlock(EnvOf(py), 0, BStruct(id), items, true))
        && (d.Ok? ==> d.value == items))
  {
    hide EnvOf, WfClasses, Send, GoMessage.ParseMessage, GoMessage.DecodePayload, GoMessage.ParsableFlags,
      GoLayout.PackedEnv, GoLayout.ClearBlock, ConformsBlock, HandlesAll, TotalWords, RepBlock, Bit;
    PySends(py, h, id, items);
    var m := Send(py, h, id, items).value;
    GoMessage.ParsesMessage(EnvOf(py), m, id, items);
    var p := GoMessage.ParseMessage(m.bytes, m.handles);
    if p.Ok? {
      GoMessage.ParsedRep(EnvOf(py), m, p.value, id, items);
      GoMessage.DecodesPayload(EnvOf(py), p.value, id, items);
    }
  }

  /** Python to JavaScript. */
  lemma PyToJs(py: Classes, h: MessageHeader, id: nat, items: seq<Value>)
    requires Sendable(py, h, id, items) && JsShapes.PlainKeysEnv(EnvOf(py)) && JsMessage.AllSafe(h, items)
    requires 8 * (GoMessage.HeaderWords(h) + TotalWords(EnvOf(py), BStruct(id), items)) <= JsCodec.MAX_SAFE_INTEGER
    ensures Send(py, h, id, items).Ok?
    ensures var m := Send(py, h, id, items).value;
      && m.handles == HandlesAll(items)
      && (JsMessage.ValidateMessage(EnvOf(py), JsCodec.Input(m.bytes, |m.handles|), id).Ok? <==>
        !JsMessage.BothFlags(h.flags))
      && JsMessage.ReadMessage(EnvOf(py), m.bytes, m.handles, id) == JsCodec.Ok((GoMessage.ParsedHeader(h), items))
  {
    hide EnvOf, WfClasses, Send, JsMessage.ValidateMessage, JsMessage.ReadMessage, GoLayout.PackedEnv,
      JsShapes.PlainKeysEnv, JsMessage.SafeInts, GoMessage.ParsedHeader, ConformsBlock, HandlesAll, TotalWords,
      RepBlock, Bit;
    PySends(py, h, id, items);
    GoLayout.PackedIsWf(EnvOf(py));
    JsMessage.JsReceives(EnvOf(py), Send(py, h, id, items).value, id, items);
  }

  /** Go to Python. */
  lemma GoToPy(py: Classes, env: Env, h: MessageHeader, id: nat, items: seq<Value>)
    requires GoMessage.Sendable(env, h, id, items) &&
      GoLayout.ClearBlock(env, GoMessage.HeaderWords(h), BStruct(id), items, false)
    requires ReadsAll(py, env) && Plain(h.flags) && |HandlesAll(items)| <= MAX_HANDLE
    ensures GoMessage.EncodeMessage(env, h, id, items).Ok?
    ensures var m := GoMessage.EncodeMessage(env, h, id, items).value;
      Receive(py, m.bytes, m.handles, id) == Ok((GoMessage.ParsedHeader(h), items))
  {
    hide GoMessage.EncodeMessage, Receive, ReadsAll, GoLayout.PackedEnv, GoLayout.ClearBlock, ConformsBlock, HandlesAll,
      TotalWords, RepBlock, Bit;
    GoMessage.EncodesMessage(env, h, id, items);
    PyReceivesAll(py, env, GoMessage.EncodeMessage(env, h, id, items).value, id, items);
  }

  /** JavaScript to Python. */
  lemma JsToPy(py: Classes, env: Env, h: MessageHeader, id: nat, items: seq<Value>, payloadSize: nat)
    requires JsMessage.Buildable(env, h, id, items)
    requires ReadsAll(py, env) && Plain(h.flags) && |HandlesAll(items)| <= MAX_HANDLE
    ensures JsMessage.Build(env, h, id, items, payloadSize).Ok?
    ensures var m := JsMessage.Build(env, h, id, items, payloadSize).value;
      Receive(py, m.bytes, m.handles, id) == Ok((GoMessage.ParsedHeader(h), items))
  {
    hide JsMessage.Build, Receive, ReadsAll, GoLayout.PackedEnv, ConformsBlock, HandlesAll, TotalWords, RepBlock, Bit,
      JsMessage.SafeInts, JsWriting.EncodableAll;
    JsMessage.JsSends(env, h, id, items, payloadSize);
    PyReceivesAll(py, env, JsMessage.Build(env, h, id, items, payloadSize).value, id, items);
  }
}
