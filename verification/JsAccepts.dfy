/** The JavaScript validator accepts every buffer that represents a shaped value. */
module JsAccepts {
  import opened Bytes
  import opened Collections
  import opened Wire
  import opened JsCodec
  import opened JsSafety
  import opened JsShapes
  import JsReading

  // ---------------------------------------------------------------- acceptance

  /** Enough handles, and every position in the buffer is a safe integer. */
  predicate Fits(m: Input, handles: nat) {
    |m.buf| <= MAX_SAFE_INTEGER && handles <= m.handleCount <= INVALID_HANDLE
  }

  /** Nothing from word `at` or handle `h` on has been claimed. */
  predicate Before(v: Val, at: nat, h: nat) {
    v.offset <= 8 * at && v.handleIndex <= h
  }

  lemma {:induction false} SlotAccepted(env: Env, m: Input, v: Val, at: nat, e: nat, h: nat, f: Field, value: Value,
                                        t: Type, dims: seq<nat>, cur: nat)
    requires WfEnv(env) && WfType(env, f.kind) && Shaped(env, f.kind, value, dims, cur)
    requires Fits(m, h + |HandlesOf(value)|) && Before(v, e, h) && v.offset <= |m.buf|
    requires RepSlot(env, m.buf, at, e, h, f, value)
    requires t == f.kind || (f.kind.TPtr? && t == f.kind.(nullable := true))
    ensures var r := ValidateSlot(env, m, v, 8 * at + HEADER_SIZE + f.offset, t, dims, cur);
      r.Ok? && Before(r.value, e + ChildWords(env, f.kind, value), h + |HandlesOf(value)|)
    decreases value, 1
  {
    hide UintAt, ShapedBlock, ConformsBlock, RepBlock, WfEnv, WfBlock, HandlesAll, ValidateBlock, Get64, TotalWords;
    var pos := 8 * at + HEADER_SIZE + f.offset;
    match f.kind
    case TBool =>
    case TUint(w) =>
    case THandle(_) =>
    case TInterface(_) => JsReading.InterfaceWords(m.buf, pos, SlotNumber(value, pos, e, h));
    case TPtr(_, b) =>
      JsReading.Get64Reads(m.buf, pos);
      if value.VBlock? {
        RepInside(env, m.buf, e, h, b, value.items);
        BlockAccepted(env, m, v, e, h, b, value.items, dims, cur);
      }
  }

  lemma RepInside(env: Env, buf: seq<Byte>, at: nat, h: nat, b: Block, items: seq<Value>)
    requires RepBlock(env, buf, at, h, b, items)
    ensures 8 * at <= |buf|
  {
  }

  lemma {:induction false} SlotsAccepted(env: Env, m: Input, v: Val, at: nat, e: nat, h: nat, fs: seq<Field>,
                                         vs: seq<Value>, size: nat, inner: Option<(seq<nat>, nat)>)
    requires WfEnv(env) && FieldsOk(env, fs, size) && ShapedAll(env, fs, vs, inner)
    requires Fits(m, h + |HandlesAll(vs)|) && Before(v, e, h) && v.offset <= |m.buf|
    requires RepSlots(env, m.buf, at, e, h, fs, vs)
    ensures var r := ValidateSlots(env, m, v, 8 * at + HEADER_SIZE, fs, inner);
      r.Ok? && Before(r.value, e + ChildrenWords(env, fs, vs), h + |HandlesAll(vs)|)
    decreases vs, 2
  {
    hide WfEnv, WfType, Shaped, RepSlot, HandlesOf, ChildWords, ValidateSlot, Dimensions;
    if vs != [] {
      var f := fs[0];
      var (dims, cur) := Expected(f.kind, inner);
      assert FieldOk(env, f, size);
      SlotAccepted(env, m, v, at, e, h, f, vs[0], f.kind, dims, cur);
      var v1 := ValidateSlot(env, m, v, 8 * at + HEADER_SIZE + f.offset, f.kind, dims, cur).value;
      SlotsAccepted(env, m, v1, at, e + ChildWords(env, f.kind, vs[0]), h + |HandlesOf(vs[0])|, fs[1..], vs[1..], size,
        inner);
    }
  }

  /** Bytes that represent a value are accepted, and no claim passes their end. */
  lemma {:induction false} BlockAccepted(env: Env, m: Input, v: Val, at: nat, h: nat, b: Block, items: seq<Value>,
                                         dims: seq<nat>, cur: nat)
    requires WfEnv(env) && ShapedBlock(env, b, items, dims, cur)
    requires Fits(m, h + |HandlesAll(items)|) && Before(v, at, h) && v.offset <= |m.buf|
    requires RepBlock(env, m.buf, at, h, b, items)
    ensures var r := ValidateBlock(env, m, v, 8 * at, b, dims, cur);
      r.Ok? && Before(r.value, at + TotalWords(env, b, items), h + |HandlesAll(items)|)
    decreases items, 4
  {
    hide *;
    match b
    case BStruct(id) => StructAccepted(env, m, v, at, h, id, items, dims, cur);
    case BArray(elem, fixed) => ArrayAccepted(env, m, v, at, h, elem, fixed, items, dims, cur);
    case BMap(key, value) => MapAccepted(env, m, v, at, h, key, value, items, dims, cur);
  }

  lemma {:induction false} StructAccepted(env: Env, m: Input, v: Val, at: nat, h: nat, id: nat, items: seq<Value>,
                                          dims: seq<nat>, cur: nat)
    requires WfEnv(env) && ShapedBlock(env, BStruct(id), items, dims, cur)
    requires Fits(m, h + |HandlesAll(items)|) && Before(v, at, h) && v.offset <= |m.buf|
    requires RepBlock(env, m.buf, at, h, BStruct(id), items)
    ensures var r := ValidateBlock(env, m, v, 8 * at, BStruct(id), dims, cur);
      r.Ok? && Before(r.value, at + TotalWords(env, BStruct(id), items), h + |HandlesAll(items)|)
    decreases items, 3
  {
    hide UintAt, FieldsOk, ShapedAll, HandlesAll, RepSlots, ValidateSlots, ChildrenWords;
    var def := env[id];
    assert WfDef(env, def);
    var v1 := ValidateStructHeader(m, v, 8 * at, HEADER_SIZE + def.size, def.version).value;
    SlotsAccepted(env, m, v1, at, at + BlockWords(env, BStruct(id), |items|), h, def.fields, items, def.size, None);
  }

  lemma {:induction false} ArrayAccepted(env: Env, m: Input, v: Val, at: nat, h: nat, elem: Type, fixed: nat,
                                         items: seq<Value>, dims: seq<nat>, cur: nat)
    requires WfEnv(env) && ShapedBlock(env, BArray(elem, fixed), items, dims, cur)
    requires Fits(m, h + |HandlesAll(items)|) && Before(v, at, h) && v.offset <= |m.buf|
    requires RepBlock(env, m.buf, at, h, BArray(elem, fixed), items)
    ensures var b := BArray(elem, fixed);
      var r := ValidateBlock(env, m, v, 8 * at, b, dims, cur);
      r.Ok? && Before(r.value, at + TotalWords(env, b, items), h + |HandlesAll(items)|)
    decreases items, 3
  {
    hide UintAt, WfEnv, FieldsOk, ShapedAll, HandlesAll, RepSlots, ValidateSlots, ChildrenWords, ElemFields, WfType,
      BytesForBits, ElemBits, SlotBytes;
    var b, n := BArray(elem, fixed), |items|;
    ArrayBytes(env, elem, n);
    BlockFieldsOk(env, b, n);
    var v1 := ValidateArrayHeader(m, v, 8 * at, elem, dims, cur).value.0;
    SlotsAccepted(env, m, v1, at, at + BlockWords(env, b, n), h, ElemFields(elem, 0, n), items, PayloadSize(env, b, n),
      Inner(b, dims, cur));
  }

  lemma {:induction false} MapAccepted(env: Env, m: Input, v: Val, at: nat, h: nat, key: Type, value: Type,
                                       items: seq<Value>, dims: seq<nat>, cur: nat)
    requires WfEnv(env) && ShapedBlock(env, BMap(key, value), items, dims, cur)
    requires Fits(m, h + |HandlesAll(items)|) && Before(v, at, h) && v.offset <= |m.buf|
    requires RepBlock(env, m.buf, at, h, BMap(key, value), items)
    ensures var b := BMap(key, value);
      var r := ValidateBlock(env, m, v, 8 * at, b, dims, cur);
      r.Ok? && Before(r.value, at + TotalWords(env, b, items), h + |HandlesAll(items)|)
    decreases items, 3
  {
    hide UintAt, WfEnv, HandlesAll, HandlesOf, RepSlots, RepSlot, RepBlock, ValidateSlot, ChildrenWords, ChildWords,
      WfType, Shaped, CodecDimensions, ArrayLength, TotalWords, IsNullable;
    var keys, values := Field(0, 0, TPtr(false, BArray(key, 0))), Field(8, 0, TPtr(false, BArray(value, 0)));
    MapRep(env, m.buf, at, h, key, value, items);
    MapTypes(env, key, value);
    var e, h1 := at + 3, h + |HandlesOf(items[0])|;
    var e1 := e + ChildWords(env, keys.kind, items[0]);
    var v1 := ValidateStructHeader(m, v, 8 * at, HEADER_SIZE + 16, 0).value;
    SlotAccepted(env, m, v1, at, e, h, keys, items[0], keys.kind, [0], 0);
    var v2 := ValidateSlot(env, m, v1, 8 * at + HEADER_SIZE, keys.kind, [0], 0).value;
    SlotAccepted(env, m, v2, at, e1, h1, values, items[1], TPtr(IsNullable(value), BArray(value, 0)),
      [0] + CodecDimensions(value), 0);
    LengthRead(env, m, at, e, h, keys, items[0]);
    LengthRead(env, m, at, e1, h1, values, items[1]);
  }

  /** A map is its header, the pointers to the keys and the values, the keys, and the values. */
  lemma MapRep(env: Env, buf: seq<Byte>, at: nat, h: nat, key: Type, value: Type, items: seq<Value>)
    requires |items| == 2 && RepBlock(env, buf, at, h, BMap(key, value), items)
    ensures var keys, values := Field(0, 0, TPtr(false, BArray(key, 0))), Field(8, 0, TPtr(false, BArray(value, 0)));
      && 8 * at + 8 * TotalWords(env, BMap(key, value), items) <= |buf|
      && TotalWords(env, BMap(key, value), items) == 3 + ChildWords(env, keys.kind, items[0]) +
        ChildWords(env, values.kind, items[1])
      && Holds(buf, 8 * at, 4, 24) && Holds(buf, 8 * at + 4, 4, 0)
      && RepSlot(env, buf, at, at + 3, h, keys, items[0])
      && RepSlot(env, buf, at, at + 3 + ChildWords(env, keys.kind, items[0]), h + |HandlesOf(items[0])|, values,
        items[1])
      && |HandlesAll(items)| == |HandlesOf(items[0])| + |HandlesOf(items[1])|
  {
    hide UintAt, RepSlot, ChildWords, HandlesOf;
    var keys, values := Field(0, 0, TPtr(false, BArray(key, 0))), Field(8, 0, TPtr(false, BArray(value, 0)));
    var fs := [keys, values];
    assert Fields(env, BMap(key, value), 2) == fs;
    assert fs[1..] == [values] && items[1..] == [items[1]] && fs[1..][1..] == [] && items[1..][1..] == [];
    assert RepSlots(env, buf, at, at + 3 + ChildWords(env, keys.kind, items[0]), h + |HandlesOf(items[0])|, fs[1..],
      items[1..]);
    assert ChildrenWords(env, fs[1..], items[1..]) == ChildWords(env, values.kind, items[1]);
    assert HandlesAll(items[1..]) == HandlesOf(items[1]) + HandlesAll([]);
  }

  lemma MapTypes(env: Env, key: Type, value: Type)
    requires WfBlock(env, BMap(key, value))
    ensures WfType(env, ArrayPointer(key)) && WfType(env, ArrayPointer(value))
  {
    assert WfBlock(env, BArray(key, 0)) && WfBlock(env, BArray(value, 0));
  }

  lemma LengthRead(env: Env, m: Input, at: nat, e: nat, h: nat, f: Field, value: Value)
    requires RepSlot(env, m.buf, at, e, h, f, value) && value.VBlock? && f.kind.TPtr? && f.kind.target.BArray?
    requires |m.buf| <= MAX_SAFE_INTEGER
    ensures ArrayLength(m, 8 * at + HEADER_SIZE + f.offset) == Ok(|value.items|)
  {
    hide UintAt, RepSlots, Get64, TotalWords;
    JsReading.Get64Reads(m.buf, 8 * at + HEADER_SIZE + f.offset);
  }
}
