/**
The JavaScript codec on values: a growing buffer, an encoder, a decoder that checks nothing, and the validator that
is run before it.  Structs are encoded, decoded and validated field by field at their packed offsets, as the
generated classes do.
*/
module JsCodec {
  import opened Bytes
  import opened Collections
  import opened Wire

  datatype Error =
    | MisalignedObject | IllegalMemoryRange | UnexpectedStructHeader | UnexpectedArrayHeader
    | IllegalHandle | UnexpectedInvalidHandle | IllegalPointer | UnexpectedNullPointer
    | MessageHeaderInvalidFlags | MessageHeaderMissingRequestId | DifferentSizedArraysInMap
    | RangeError  // thrown by DataView and ArrayBuffer
    | TypeError   // thrown on a property of null
    | BadValue

  datatype Result<+T> = Ok(value: T) | Err(error: Error) {
    predicate IsFailure() { Err? }

    function PropagateFailure<U>(): Result<U>
      requires Err?
    {
      Err(error)
    }

    function Extract(): T
      requires Ok?
    {
      value
    }
  }

  // ---------------------------------------------------------------- buffer.js

  /** A buffer, the first byte that is not allocated, and the handles pushed so far. */
  datatype Js = Js(buf: seq<Byte>, next: nat, handles: seq<nat>)

  /** `x | 0` for a non-negative number. */
  function ToInt32(x: nat): int {
    var w := x % TWO_32;
    if w < 0x8000_0000 then w else w - TWO_32
  }

  /** `Buffer.alloc` and `Buffer.grow`: the pointer is the old `next`. */
  function Alloc(j: Js, size: nat): Result<Js> {
    var next := j.next + size;
    if next <= |j.buf| then Ok(j.(next := next))
    else
      var newSize := ToInt32(3 * (|j.buf| + size) / 2);
      if newSize < |j.buf| then Err(RangeError)
      else Ok(j.(next := next, buf := j.buf + seq(newSize - |j.buf|, _ => 0)))
  }

  /** `setUint8`, `setUint16` and `setUint32` */
  function Set(j: Js, at: nat, width: nat, n: nat): Result<Js> {
    if at + width > |j.buf| then Err(RangeError) else Ok(j.(buf := PutUint(j.buf, at, width, n)))
  }

  /** `setUint64`: the low word, then the high word. */
  function Set64(j: Js, at: nat, n: nat): Result<Js> {
    var j1 :- Set(j, at, 4, n % TWO_32);
    Set(j1, at + 4, 4, n / TWO_32 % TWO_32)
  }

  /** `getUint8`, `getUint16` and `getUint32` */
  function Get(buf: seq<Byte>, at: nat, width: nat): Result<nat> {
    if at + width > |buf| then Err(RangeError) else Ok(UintAt(buf, at, width))
  }

  /** `getUint64`: low word plus high word times 2^32, exact below 2^53. */
  function Get64(buf: seq<Byte>, at: nat): Result<nat> {
    var lo :- Get(buf, at, 4);
    var hi :- Get(buf, at + 4, 4);
    Ok(lo + hi * TWO_32)
  }

  // ---------------------------------------------------------------- Encoder

  function Align8(size: nat): nat {
    size + (8 - size % 8) % 8
  }

  /** The bools of one byte: the first one and those behind it with the same offset. */
  function BoolRun(fs: seq<Field>): (k: nat)
    ensures k <= |fs| && (fs != [] ==> k >= 1)
    ensures forall i | 1 <= i < k :: fs[i].kind.TBool? && fs[i].offset == fs[0].offset
    ensures k < |fs| && k >= 1 ==> !(fs[k].kind.TBool? && fs[k].offset == fs[0].offset)
    decreases |fs|
  {
    if fs == [] then 0
    else if |fs| >= 2 && fs[1].kind.TBool? && fs[1].offset == fs[0].offset then 1 + BoolRun(fs[1..])
    else 1
  }

  /** `packed |= (val & 1) << bit` for each of them. */
  function PackBools(fs: seq<Field>, vs: seq<Value>): nat
    decreases |fs|
  {
    if fs == [] || vs == [] then 0
    else if vs[0] == VBool(true) then OrBit(PackBools(fs[1..], vs[1..]), fs[0].bit)
    else PackBools(fs[1..], vs[1..])
  }

  /** A slot other than a bool, at byte `at`. */
  function JsEncSlot(env: Env, j: Js, at: nat, t: Type, v: Value): Result<Js>
    decreases v, 1
  {
    match v
    case VUint(n) => if t == TUint(8) then Set64(j, at, n) else Set(j, at, SlotBytes(t), n)
    case VHandle(Some(h)) =>
      var j1 :- Set(j.(handles := j.handles + [h]), at, 4, |j.handles|);
      if t.TInterface? then Set(j1, at + 4, 4, 0) else Ok(j1)
    case VNull => Set64(j, at, 0)
    case VBlock(items) =>
      if !t.TPtr? then Err(BadValue)
      else
        var size := HEADER_SIZE + PayloadSize(env, t.target, |items|);
        var j1 :- Alloc(j, Align8(size));
        if j.next < at then Err(BadValue)
        else
          var j2 :- Set64(j1, at, j.next - at);
          JsEncBlock(env, j2, j.next, t.target, items)
    case _ => Err(BadValue)
  }

  /** The slots of a block whose payload starts at byte `base`. */
  function JsEncSlots(env: Env, j: Js, base: nat, fs: seq<Field>, vs: seq<Value>): Result<Js>
    decreases vs, 1, |vs|
  {
    if fs == [] || vs == [] then Ok(j)
    else if fs[0].kind.TBool? then
      var k := if BoolRun(fs) <= |vs| then BoolRun(fs) else |vs|;
      var j1 :- Set(j, base + fs[0].offset, 1, PackBools(fs[..k], vs[..k]));
      JsEncSlots(env, j1, base, fs[k..], vs[k..])
    else
      var j1 :- JsEncSlot(env, j, base + fs[0].offset, fs[0].kind, vs[0]);
      JsEncSlots(env, j1, base, fs[1..], vs[1..])
  }

  /** `encodeArray`, `encodeMap`, `encodeString` or a generated struct encoder, in a block allocated at byte `at`. */
  function JsEncBlock(env: Env, j: Js, at: nat, b: Block, items: seq<Value>): Result<Js>
    decreases items, 2, 0
  {
    var n := |items|;
    var j1 :- Set(j, at, 4, HEADER_SIZE + PayloadSize(env, b, n));
    var j2 :- Set(j1, at + 4, 4, SecondWord(env, b, n));
    JsEncSlots(env, j2, at + HEADER_SIZE, Fields(env, b, n), items)
  }

  // ---------------------------------------------------------------- Decoder

  /** The bytes from `at` on. */
  function Left(buf: seq<Byte>, at: nat): nat {
    if at < |buf| then |buf| - at else 0
  }

  /** A slot at byte `at`.  Nothing is checked; a handle number out of range reads as null. */
  function JsDecSlot(env: Env, buf: seq<Byte>, handles: seq<nat>, at: nat, bit: nat, t: Type): Result<Value>
    decreases Left(buf, at), 1, 0
  {
    match t
    case TBool =>
      var byte :- Get(buf, at, 1);
      Ok(VBool(Bit(byte, bit)))
    case TUint(w) =>
      var n :- if w == 8 then Get64(buf, at) else Get(buf, at, w);
      Ok(VUint(n))
    case THandle(_) =>
      var index :- Get(buf, at, 4);
      Ok(VHandle(if index < |handles| then Some(handles[index]) else None))
    case TInterface(_) =>
      var index :- Get(buf, at, 4);
      var _ :- Get(buf, at + 4, 4);
      Ok(VHandle(if index < |handles| then Some(handles[index]) else None))
    case TPtr(_, b) =>
      var offset :- Get64(buf, at);
      if offset == 0 then Ok(VNull)
      else
        var items :- JsDecBlock(env, buf, handles, at + offset, b);
        Ok(VBlock(items))
  }

  function JsDecSlots(env: Env, buf: seq<Byte>, handles: seq<nat>, base: nat, fs: seq<Field>): Result<seq<Value>>
    decreases Left(buf, base), 2, |fs|
  {
    if fs == [] then Ok([])
    else
      var v :- JsDecSlot(env, buf, handles, base + fs[0].offset, fs[0].bit, fs[0].kind);
      var vs :- JsDecSlots(env, buf, handles, base, fs[1..]);
      Ok([v] + vs)
  }

  /** `decodeArray`, `decodeMap` or a generated struct decoder; the sizes in headers are ignored. */
  function JsDecBlock(env: Env, buf: seq<Byte>, handles: seq<nat>, at: nat, b: Block): Result<seq<Value>>
    decreases Left(buf, at), 0, 0
  {
    if at + HEADER_SIZE > |buf| then Err(RangeError)
    else
      var n := if b.BArray? then UintAt(buf, at + 4, 4) else 2;
      var items :- JsDecSlots(env, buf, handles, at + HEADER_SIZE, Fields(env, b, n));
      if b.BMap? && LengthOfNull(items) then Err(TypeError) else Ok(items)
  }

  /** `keys.length` on null keys, or `values[i]` on null values. */
  predicate LengthOfNull(items: seq<Value>) {
    |items| == 2 && (items[0].VNull? || (items[1].VNull? && items[0].VBlock? && items[0].items != []))
  }

  // ---------------------------------------------------------------- Validator

  const MAX_SAFE_INTEGER := 0x1F_FFFF_FFFF_FFFF

  /** The message under validation: its bytes and how many handles came with it. */
  datatype Input = Input(buf: seq<Byte>, handleCount: nat)

  /** Bytes before `offset` and handles before `handleIndex` are taken; `claims` and `taken` record by which claims. */
  datatype Val = Val(offset: nat, handleIndex: nat, claims: seq<(nat, nat)>, taken: seq<nat>)

  const NewVal := Val(0, 0, [], [])

  predicate IsValidRange(m: Input, v: Val, start: nat, numBytes: nat) {
    && v.offset <= start
    && 0 < numBytes
    && start <= MAX_SAFE_INTEGER && numBytes <= MAX_SAFE_INTEGER
    && start + numBytes <= MAX_SAFE_INTEGER
    && start + numBytes <= |m.buf|
  }

  function ClaimRange(m: Input, v: Val, start: nat, numBytes: nat): Result<Val> {
    if IsValidRange(m, v, start, numBytes) then
      Ok(v.(offset := start + numBytes, claims := v.claims + [(start, numBytes)]))
    else Err(IllegalMemoryRange)
  }

  /** `validateHandle` and `claimHandle` */
  function ValidateHandle(m: Input, v: Val, at: nat, nullable: bool): Result<Val> {
    var index :- Get(m.buf, at, 4);
    if index == INVALID_HANDLE then (if nullable then Ok(v) else Err(UnexpectedInvalidHandle))
    else if index < v.handleIndex || index >= m.handleCount then Err(IllegalHandle)
    else Ok(v.(handleIndex := index + 1, taken := v.taken + [index]))
  }

  /** `validateStructHeader` */
  function ValidateStructHeader(m: Input, v: Val, at: nat, minNumBytes: nat, minVersion: nat): Result<Val> {
    if at % 8 != 0 then Err(MisalignedObject)
    else if !IsValidRange(m, v, at, HEADER_SIZE) then Err(IllegalMemoryRange)
    else
      var numBytes, version := UintAt(m.buf, at, 4), UintAt(m.buf, at + 4, 4);
      if numBytes < minNumBytes || version < minVersion then Err(UnexpectedStructHeader)
      else ClaimRange(m, v, at, numBytes)
  }

  /** `decodePointer`: where a pointer leads, or None for null. */
  function ValidatePointer(m: Input, at: nat): Result<Option<nat>> {
    var value :- Get64(m.buf, at);
    if value == 0 then Ok(None)
    else if at + value > MAX_SAFE_INTEGER then Err(IllegalPointer)
    else Ok(Some(at + value))
  }

  predicate IsString(t: Type) {
    t.TPtr? && t.target == BArray(TUint(1), 0)
  }

  predicate IsArray(t: Type) {
    t.TPtr? && t.target.BArray? && !IsString(t)
  }

  /** The declared lengths of nested arrays, outermost first; 0 means any. */
  function Dimensions(t: Type): seq<nat> {
    if IsString(t) then [0]
    else if IsArray(t) then [t.target.fixed] + (if IsArray(t.target.elem) then Dimensions(t.target.elem) else [])
    else []
  }

  /** The same as the codec's array classes know them: a nullable array class forgets its length. */
  function CodecDimensions(t: Type): seq<nat> {
    if IsArray(t) then
      [if t.nullable then 0 else t.target.fixed] +
        (if IsArray(t.target.elem) then CodecDimensions(t.target.elem) else [])
    else []
  }

  /** The header checks of `validateArray`: the new state and the number of elements. */
  function ValidateArrayHeader(m: Input, v: Val, at: nat, elem: Type, dims: seq<nat>, cur: nat): (r: Result<(Val, nat)>)
    ensures r.Ok? ==> v.offset < r.value.0.offset <= |m.buf|
  {
    if at % 8 != 0 then Err(MisalignedObject)
    else if !IsValidRange(m, v, at, HEADER_SIZE) then Err(IllegalMemoryRange)
    else
      var numBytes, n := UintAt(m.buf, at, 4), UintAt(m.buf, at + 4, 4);
      if numBytes < HEADER_SIZE + (if elem.TBool? then (n + 7) / 8 else SlotBytes(elem) * n) then
        Err(UnexpectedArrayHeader)
      else if cur >= |dims| || (dims[cur] != 0 && n != dims[cur]) then Err(UnexpectedArrayHeader)
      else
        var v1 :- ClaimRange(m, v, at, numBytes);
        Ok((v1, n))
  }

  /** A slot at byte `at`; `dims` and `cur` are the expected lengths if the slot is an array pointer. */
  function ValidateSlot(env: Env, m: Input, v: Val, at: nat, t: Type, dims: seq<nat>, cur: nat): (r: Result<Val>)
    requires v.offset <= |m.buf|
    ensures r.Ok? ==> v.offset <= r.value.offset <= |m.buf|
    decreases |m.buf| - v.offset, 1, 0
  {
    match t
    case TBool => Ok(v)
    case TUint(_) => Ok(v)
    case THandle(nullable) => ValidateHandle(m, v, at, nullable)
    case TInterface(nullable) => ValidateHandle(m, v, at, nullable)
    case TPtr(nullable, b) =>
      var target :- ValidatePointer(m, at);
      if target.None? then (if nullable then Ok(v) else Err(UnexpectedNullPointer))
      else ValidateBlock(env, m, v, target.value, b, dims, cur)
  }

  /** The slots of a block; elements that are arrays share the expected lengths of the array around them. */
  function ValidateSlots(env: Env, m: Input, v: Val, base: nat, fs: seq<Field>,
                         inner: Option<(seq<nat>, nat)>): (r: Result<Val>)
    requires v.offset <= |m.buf|
    ensures r.Ok? ==> v.offset <= r.value.offset <= |m.buf|
    decreases |m.buf| - v.offset, 2, |fs|
  {
    if fs == [] then Ok(v)
    else
      var t := fs[0].kind;
      var (dims, cur) := if inner.Some? then inner.value else (Dimensions(t), 0);
      var v1 :- ValidateSlot(env, m, v, base + fs[0].offset, t, dims, cur);
      ValidateSlots(env, m, v1, base, fs[1..], inner)
  }

  /** `validateArray`, `validateMapPointer` behind its pointer, or a generated struct validator. */
  function ValidateBlock(env: Env, m: Input, v: Val, at: nat, b: Block, dims: seq<nat>, cur: nat): (r: Result<Val>)
    requires v.offset <= |m.buf|
    ensures r.Ok? ==> v.offset <= r.value.offset <= |m.buf|
    decreases |m.buf| - v.offset, 0, 0
  {
    match b
    case BStruct(id) =>
      if id !in env then Err(BadValue)
      else
        var v1 :- ValidateStructHeader(m, v, at, HEADER_SIZE + env[id].size, env[id].version);
        ValidateSlots(env, m, v1, at + HEADER_SIZE, env[id].fields, None)
    case BArray(elem, _) =>
      var (v1, n) :- ValidateArrayHeader(m, v, at, elem, dims, cur);
      if elem.TPtr? && elem.target.BMap? then Ok(v1)  // maps inside arrays are not looked at
      else
        var inner := if IsArray(elem) then Some((dims, cur + 1)) else None;
        ValidateSlots(env, m, v1, at + HEADER_SIZE, ElemFields(elem, 0, n), inner)
    case BMap(key, value) =>
      var v1 :- ValidateStructHeader(m, v, at, HEADER_SIZE + 16, 0);
      var v2 :- ValidateSlot(env, m, v1, at + HEADER_SIZE, TPtr(false, BArray(key, 0)), [0], 0);
      var v3 :- ValidateSlot(env, m, v2, at + HEADER_SIZE + 8, TPtr(IsNullable(value), BArray(value, 0)),
        [0] + CodecDimensions(value), 0);
      var keys :- ArrayLength(m, at + HEADER_SIZE);
      var values :- ArrayLength(m, at + HEADER_SIZE + 8);
      if keys != values then Err(DifferentSizedArraysInMap) else Ok(v3)
  }

  predicate IsNullable(t: Type) {
    match t
    case THandle(nullable) => nullable
    case TInterface(nullable) => nullable
    case TPtr(nullable, _) => nullable
    case _ => false
  }

  /** `arrayLength`: reads through the pointer at `at`; a null pointer reads at 0. */
  function ArrayLength(m: Input, at: nat): Result<nat> {
    var target :- ValidatePointer(m, at);
    Get(m.buf, if target.Some? then target.value + 4 else 0, 4)
  }
}
