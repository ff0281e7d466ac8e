/**
The Python serializer and deserializer on values.  The serializer reserves a block, appends the blocks it points to
behind it, and packs the slots at the end; the deserializer claims memory and handles in increasing order and picks
the field groups of the version it finds in the header.
*/
module PythonCodec {
  import opened Bytes
  import opened Collections
  import opened Wire
  import opened PythonLayout
  import JsCodec

  datatype Error =
    | NullForNonNullable | IncorrectArraySize | OutOfRange | NotAStruct
    | TooShort | HeaderSizeIncorrect | PointerMisaligned | OutOfOrder | StructSizeIncorrect | DifferentLengths

  datatype Result<+T> = Ok(value: T) | Err(error: Error) {
    predicate IsFailure() { Err? }

    function PropagateFailure<U>(): Result<U>
      requires Err?
    {
      Err(error)
    }

    function Extract(): T
      requires Ok?
    {
      value
    }
  }

  /** Struct classes by number; each is its list of field groups. */
  type Classes = map<nat, seq<Group>>

  /** The classes as a schema: sizes, versions and offsets are all computed from the groups. */
  function EnvOf(py: Classes): Env {
    map id | id in py :: StructDef(PayloadBytes(py[id]), Version(py[id]), Layout(py[id], 0))
  }

  predicate WfClasses(py: Classes) {
    forall id | id in py ::
      && WfGroups(EnvOf(py), py[id])
      && HEADER_SIZE + PayloadBytes(py[id]) < TWO_32
      && Version(py[id]) < TWO_32
  }

  /** The slots of a block for `pack_into`; arrays and maps are laid out the same way everywhere. */
  function PackFields(py: Classes, b: Block, n: nat): seq<Field> {
    if !b.BStruct? then Fields(map[], b, n) else if b.id in py then Formatted(py[b.id]) else []
  }

  /** The slots of a block for the loop that serializes them. */
  function WalkFields(py: Classes, b: Block, n: nat): seq<Field> {
    if !b.BStruct? then Fields(map[], b, n) else if b.id in py then Walked(py[b.id]) else []
  }

  lemma SameFields(py: Classes, b: Block, n: nat)
    requires WfClasses(py) && WfBlock(EnvOf(py), b)
    ensures PackFields(py, b, n) == WalkFields(py, b, n) == Fields(EnvOf(py), b, n)
  {
    hide WfGroup, Formatted, Walked, Layout;
    if b.BStruct? {
      assert WfGroups(EnvOf(py), py[b.id]);
      OneLayout(EnvOf(py), py[b.id]);
    }
  }

  // ---------------------------------------------------------------- serializing

  /** Bytes so far, and the handles of the part just serialized. */
  datatype Out = Out(data: seq<Byte>, handles: seq<nat>)

  const MAX_HANDLE := 0x7FFF_FFFF

  /** `bytearray` item assignment by `pack_into`. */
  function Put(data: seq<Byte>, at: nat, width: nat, n: nat): (r: seq<Byte>)
    ensures |r| == |data|
  {
    if at + width <= |data| then PutUint(data, at, width, n) else data
  }

  /** `Type.Serialize`: the number for the slot; `offset` is the distance from the slot to the end of the data. */
  function SerializeSlot(py: Classes, data: seq<Byte>, t: Type, v: Value, offset: nat, h: nat): (r: Result<(nat, Out)>)
    ensures r.Ok? ==> |data| <= |r.value.1.data|
    decreases v, 1
  {
    match t
    case TBool => if v.VBool? then Ok((if v.b then 1 else 0, Out(data, []))) else Err(OutOfRange)
    case TUint(w) => if v.VUint? && v.n < Pow256(w) then Ok((v.n, Out(data, []))) else Err(OutOfRange)
    case THandle(nullable) => SerializeHandle(data, nullable, v, h)
    case TInterface(nullable) => SerializeHandle(data, nullable, v, h)
    case TPtr(nullable, b) =>
      match v
      case VNull => if nullable then Ok((0, Out(data, []))) else Err(NullForNonNullable)
      case VBlock(items) =>
        if b.BArray? then
          // arrays are appended to the data in place
          if b.fixed != 0 && |items| != b.fixed then Err(IncorrectArraySize)
          else
            var out :- SerializeInto(py, data, b, items, h);
            Ok((offset, out))
        else
          // structs are serialized by themselves and then appended
          var out :- SerializeInto(py, [], b, items, h);
          Ok((offset, Out(data + out.data, out.handles)))
      case _ => Err(OutOfRange)
  }

  function SerializeHandle(data: seq<Byte>, nullable: bool, v: Value, h: nat): Result<(nat, Out)> {
    if !v.VHandle? then Err(OutOfRange)
    else if v.handle.None? then (if nullable then Ok((INVALID_HANDLE, Out(data, []))) else Err(NullForNonNullable))
    else if h > MAX_HANDLE then Err(OutOfRange)
    else Ok((h, Out(data, [v.handle.value])))
  }

  /** The loop over the groups or elements: the numbers to pack, and the data with everything below appended. */
  function SerializeSlots(py: Classes, data: seq<Byte>, base: nat, fs: seq<Field>, vs: seq<Value>,
                          h: nat): (r: Result<(seq<nat>, Out)>)
    ensures r.Ok? ==> |data| <= |r.value.1.data|
    decreases vs, 1
  {
    if fs == [] || vs == [] then Ok(([], Out(data, [])))
    else
      var position := base + fs[0].offset;
      var offset := if position <= |data| then |data| - position else 0;
      var (entry, out) :- SerializeSlot(py, data, fs[0].kind, vs[0], offset, h);
      var (entries, rest) :- SerializeSlots(py, out.data, base, fs[1..], vs[1..], h + |out.handles|);
      Ok(([entry] + entries, Out(rest.data, out.handles + rest.handles)))
  }

  /** `struct.pack_into`: bools of one byte go together. */
  function Pack(data: seq<Byte>, base: nat, fs: seq<Field>, entries: seq<nat>): (r: seq<Byte>)
    ensures |r| == |data|
    decreases |fs|
  {
    if fs == [] || entries == [] then data
    else if fs[0].kind.TBool? then
      var k := if JsCodec.BoolRun(fs) <= |entries| then JsCodec.BoolRun(fs) else |entries|;
      Pack(Put(data, base + fs[0].offset, 1, ToByte(Truths(entries[..k]))), base, fs[k..], entries[k..])
    else
      Pack(Put(data, base + fs[0].offset, SlotBytes(fs[0].kind), entries[0]), base, fs[1..], entries[1..])
  }

  function Truths(entries: seq<nat>): seq<bool> {
    seq(|entries|, i requires 0 <= i < |entries| => entries[i] != 0)
  }

  /** A block behind `data`: `Serialization.Serialize`, `SerializeArray`, and maps as structs of two arrays. */
  function SerializeInto(py: Classes, data: seq<Byte>, b: Block, items: seq<Value>, h: nat): (r: Result<Out>)
    ensures r.Ok? ==> |data| <= |r.value.data|
    decreases items, 2
  {
    var n, base := |items|, |data| + HEADER_SIZE;
    var env := EnvOf(py);
    var size, words := HEADER_SIZE + PayloadSize(env, b, n), BlockWords(env, b, n);
    var (entries, out) :- SerializeSlots(py, data + Zeros(8 * words), base, WalkFields(py, b, n), items, h);
    var headed := Put(Put(out.data, |data|, 4, size), |data| + 4, 4, SecondWord(env, b, n));
    Ok(Out(Pack(headed, base, PackFields(py, b, n), entries), out.handles))
  }

  // ---------------------------------------------------------------- deserializing

  /** `RootDeserializationContext`; `claims` records the claimed memory. */
  datatype Context = Context(memory: nat, handle: nat, claims: seq<(nat, nat)>)

  const Fresh := Context(0, 0, [])

  function ClaimMemory(c: Context, start: nat, size: nat): Result<Context> {
    if start < c.memory then Err(OutOfOrder)
    else Ok(c.(memory := start + size, claims := c.claims + [(start, size)]))
  }

  /** The slot is a signed integer: -1 is null, and other negative numbers are out of order. */
  function DeserializeHandle(c: Context, handles: seq<nat>, index: nat, nullable: bool): Result<(Context, Value)> {
    if index == INVALID_HANDLE then (if nullable then Ok((c, VHandle(None))) else Err(NullForNonNullable))
    else if index > MAX_HANDLE || index < c.handle then Err(OutOfOrder)
    else if index >= |handles| then Err(OutOfRange)
    else Ok((c.(handle := index + 1), VHandle(Some(handles[index]))))
  }

  /** `Type.Deserialize` of the number unpacked at byte `at`; pointers count from `position`.  `generic` arrays are
      those of a map. */
  function DeserializeSlot(py: Classes, buf: seq<Byte>, handles: seq<nat>, c: Context, at: nat, bit: nat, position: nat,
                           t: Type, generic: bool): (r: Result<(Context, Value)>)
    requires c.memory <= |buf|
    ensures r.Ok? ==> c.memory <= r.value.0.memory <= |buf|
    decreases |buf| - c.memory, 1, 0
  {
    if at + SlotBytes(t) > |buf| then Err(TooShort)
    else
      match t
      case TBool => Ok((c, VBool(Bit(UintAt(buf, at, 1), bit))))
      case TUint(w) => Ok((c, VUint(UintAt(buf, at, w))))
      case THandle(nullable) => DeserializeHandle(c, handles, UintAt(buf, at, 4), nullable)
      case TInterface(nullable) => DeserializeHandle(c, handles, UintAt(buf, at, 4), nullable)
      case TPtr(nullable, b) =>
        var value := UintAt(buf, at, 8);
        if value == 0 then (if nullable then Ok((c, VNull)) else Err(NullForNonNullable))
        else if value % 8 != 0 then Err(PointerMisaligned)
        else
          var target := position + value;
          if target + HEADER_SIZE > |buf| then Err(TooShort)
          else
            var size := UintAt(buf, target, 4);
            if |buf| - target < size || size < HEADER_SIZE then Err(HeaderSizeIncorrect)
            else
              var c1 :- ClaimMemory(c, target, size);
              var (c2, items) :- DeserializeBlock(py, buf, handles, c1, target, b, generic);
              Ok((c2, VBlock(items)))
  }

  /** The unpacked slots `fs`, each with its position in `walk`. */
  function DeserializeSlots(py: Classes, buf: seq<Byte>, handles: seq<nat>, c: Context, base: nat, fs: seq<Field>,
                            walk: seq<Field>, generic: bool): (r: Result<(Context, seq<Value>)>)
    requires c.memory <= |buf|
    ensures r.Ok? ==> c.memory <= r.value.0.memory <= |buf|
    decreases |buf| - c.memory, 2, |fs|
  {
    if fs == [] || walk == [] then Ok((c, []))
    else
      var at, position := base + fs[0].offset, base + walk[0].offset;
      var (c1, v) :- DeserializeSlot(py, buf, handles, c, at, fs[0].bit, position, fs[0].kind, generic);
      var (c2, vs) :- DeserializeSlots(py, buf, handles, c1, base, fs[1..], walk[1..], generic);
      Ok((c2, [v] + vs))
  }

  /** The groups that a reader uses for a struct of the given version. */
  function GroupsFor(groups: seq<Group>, version: nat): seq<Group> {
    Filter(groups, if version <= Version(groups) then version else Version(groups))
  }

  /** How many elements an array has: arrays of numbers take every byte of their block, others count. */
  function ElementCount(elem: Type, size: nat, second: nat, generic: bool): Result<nat>
    requires size >= HEADER_SIZE
  {
    if !elem.TUint? || elem.width == 0 || generic then Ok(second)
    else if (size - HEADER_SIZE) % elem.width != 0 then Err(IncorrectArraySize)
    else Ok((size - HEADER_SIZE) / elem.width)
  }

  /** A claimed block at byte `at`: `DeserializePointer`, or `Serialization.Deserialize` of a struct. */
  function DeserializeBlock(py: Classes, buf: seq<Byte>, handles: seq<nat>, c: Context, at: nat, b: Block,
                            generic: bool)
    : (r: Result<(Context, seq<Value>)>)
    requires c.memory <= |buf| && at + HEADER_SIZE <= |buf|
    ensures r.Ok? ==> c.memory <= r.value.0.memory <= |buf|
    decreases |buf| - c.memory, 3, 0
  {
    var size, second, base := UintAt(buf, at, 4), UintAt(buf, at + 4, 4), at + HEADER_SIZE;
    match b
    case BStruct(id) =>
      if id !in py then Err(NotAStruct)
      else
        var groups := GroupsFor(py[id], second);
        var needed := HEADER_SIZE + PayloadBytes(groups);
        if (second <= Version(py[id]) && size != needed) || size < needed then Err(StructSizeIncorrect)
        else DeserializeSlots(py, buf, handles, c, base, Formatted(groups), Walked(groups), false)
    case BArray(elem, fixed) =>
      if fixed != 0 && second != fixed then Err(IncorrectArraySize)
      else if size < HEADER_SIZE + PayloadSize(map[], b, second) then Err(IncorrectArraySize)
      else
        var n :- ElementCount(elem, size, second, generic);
        DeserializeSlots(py, buf, handles, c, base, ElemFields(elem, 0, n), ElemFields(elem, 0, n), false)
    case BMap(key, value) =>
      if (second == 0 && size != 24) || size < 24 then Err(StructSizeIncorrect)
      else
        var fs := Fields(map[], b, 2);
        var (c1, items) :- DeserializeSlots(py, buf, handles, c, base, fs, fs, true);
        if |items| == 2 && items[0].VBlock? && items[1].VBlock? && |items[0].items| != |items[1].items| then
          Err(DifferentLengths)
        else Ok((c1, items))
  }

  /** `Deserialize` in a root context. */
  function Deserialize(py: Classes, buf: seq<Byte>, handles: seq<nat>, id: nat): Result<(Context, seq<Value>)> {
    if |buf| < HEADER_SIZE then Err(TooShort)
    else
      var size := UintAt(buf, 0, 4);
      if |buf| < size || size < HEADER_SIZE then Err(HeaderSizeIncorrect)
      else
        var c :- ClaimMemory(Fresh, 0, size);
        DeserializeBlock(py, buf, handles, c, 0, BStruct(id), false)
  }
}
