/**
Where the JavaScript validator promises less than the schema says.  A gap is a buffer that validates: lengths that a
nullable array class forgets inside a map value, maps inside arrays or as keys or values of maps, null values of a map.
And maps with arrays as keys are refused unless every key is null.
*/
module JsGaps {
  import opened Bytes
  import opened Collections
  import opened Wire
  import opened JsCodec
  import opened JsShapes
  import opened JsSafety

  // ---------------------------------------------------------------- array keys

  /** A map with arrays as keys is accepted only if every key is null, so only without keys if they are not nullable. */
  lemma ArrayKeysRefused(env: Env, m: Input, v: Val, at: nat, key: Type, value: Type, dims: seq<nat>, cur: nat)
    requires IsArray(key)
    requires v.offset <= |m.buf| && ValidateBlock(env, m, v, at, BMap(key, value), dims, cur).Ok?
    ensures var keys, n := ValidatePointer(m, at + HEADER_SIZE), ArrayLength(m, at + HEADER_SIZE);
      && keys.Ok? && keys.value.Some? && n.Ok?
      && (forall i | 0 <= i < n.value :: ValidatePointer(m, keys.value.value + HEADER_SIZE + 8 * i) == Ok(None))
      && (!key.nullable ==> n.value == 0)
  {
    hide UintAt, Get64, CodecDimensions, Dimensions, ValidateStructHeader, ValidateSlots;
    var v1 := ValidateStructHeader(m, v, at, HEADER_SIZE + 16, 0).value;
    var target := ValidatePointer(m, at + HEADER_SIZE).value;
    assert ValidateSlot(env, m, v1, at + HEADER_SIZE, ArrayPointer(key), [0], 0).Ok?;
    assert ValidateBlock(env, m, v1, target.value, BArray(key, 0), [0], 0).Ok?;
    var (v2, n) := ValidateArrayHeader(m, v1, target.value, key, [0], 0).value;
    forall i | 0 <= i < n ensures ValidatePointer(m, target.value + HEADER_SIZE + 8 * i) == Ok(None) && key.nullable {
      NullKeys(env, m, v2, target.value + HEADER_SIZE, key, 0, n, i);
    }
    if n > 0 { NullKeys(env, m, v2, target.value + HEADER_SIZE, key, 0, n, 0); }
  }

  lemma {:induction false} NullKeys(env: Env, m: Input, v: Val, base: nat, key: Type, k: nat, n: nat, i: nat)
    requires IsArray(key) && v.offset <= |m.buf| && k <= i < n
    requires ValidateSlots(env, m, v, base, ElemFields(key, k, n), Some(([0], 1))).Ok?
    ensures ValidatePointer(m, base + 8 * i) == Ok(None) && key.nullable
    decreases n - k
  {
    hide ValidateSlot, ValidatePointer;
    var fs := ElemFields(key, k, n);
    assert fs[0] == ElemField(key, k) && fs[0].offset == k * 8 && fs[1..] == ElemFields(key, k + 1, n);
    NoThirdLength(env, m, v, base + 8 * k, key);
    if k < i {
      NullKeys(env, m, ValidateSlot(env, m, v, base + 8 * k, key, [0], 1).value, base, key, k + 1, n, i);
    }
  }

  /** The keys come with one expected length; an array among them needs a second. */
  lemma NoThirdLength(env: Env, m: Input, v: Val, at: nat, key: Type)
    requires IsArray(key) && v.offset <= |m.buf|
    ensures ValidateSlot(env, m, v, at, key, [0], 1).Ok? ==> ValidatePointer(m, at) == Ok(None) && key.nullable
  {
    hide UintAt, Get64;
    var target := ValidatePointer(m, at);
    if target.Ok? && target.value.Some? {
      assert ValidateArrayHeader(m, v, target.value.value, key.target.elem, [0], 1).Err?;
      assert ValidateBlock(env, m, v, target.value.value, key.target, [0], 1).Err?;
    }
  }

  // ---------------------------------------------------------------- a forgotten length

  const Pair := BArray(TUint(1), 2)
  const Pairs := BArray(TPtr(true, Pair), 0)
  const PairsMap := BMap(TUint(1), TPtr(false, Pairs))

  /** `struct { map<uint8, array<array<uint8, 2>?>> m; }` */
  const PairsEnv: Env := map[0 := StructDef(8, 0, [Field(0, 0, TPtr(false, PairsMap))])]

  /** `{7: [[5]]}` */
  const PairsItems := [VBlock([VBlock([VUint(7)]), VBlock([VBlock([VBlock([VUint(5)])])])])]

  /** 104 bytes, all 0 but for sizes, lengths, pointers and the two numbers. */
  const PairsBytes: seq<Byte> := seq(104, i requires 0 <= i < 104 => PairsByte(i))

  function PairsByte(i: nat): Byte {
    match i
    case 0 => 16 case 8 => 8                               // the struct at 0
    case 16 => 24 case 24 => 16 case 32 => 24              // the map at 16
    case 40 => 9 case 44 => 1 case 48 => 7                 // its keys at 40
    case 56 => 16 case 60 => 1 case 64 => 8                // its values at 56
    case 72 => 16 case 76 => 1 case 80 => 8                // the outer array at 72
    case 88 => 9 case 92 => 1 case 96 => 5                 // the inner array at 88, of length 1
    case _ => 0
  }

  const PairsInput := Input(PairsBytes, 0)

  /** The number at `at`, of which only the lowest byte is not zero. */
  predicate Low(buf: seq<Byte>, at: nat, width: nat, n: nat) {
    && (width == 4 || width == 8) && at + width <= |buf|
    && buf[at] == n && buf[at + 1] == buf[at + 2] == buf[at + 3] == 0
    && (width == 8 ==> buf[at + 4] == buf[at + 5] == buf[at + 6] == buf[at + 7] == 0)
  }

  lemma LowReads(buf: seq<Byte>, at: nat, width: nat, n: nat)
    requires Low(buf, at, width, n)
    ensures at + width <= |buf| && UintAt(buf, at, width) == n
    ensures width == 8 ==> Get64(buf, at) == Ok(n)
  {
    hide UintAt;
    SmallNumber(buf, at, width);
    if width == 8 {
      SmallNumber(buf, at, 4);
      ZeroNumber(buf, at + 4, 4);
    }
  }

  function Claimed(v: Val, at: nat, numBytes: nat): Val {
    v.(offset := at + numBytes, claims := v.claims + [(at, numBytes)])
  }

  /** A header of `numBytes` bytes that can be claimed. */
  predicate Head(m: Input, v: Val, at: nat, numBytes: nat, second: nat) {
    && at % 8 == 0 && v.offset <= at && 0 < numBytes && at + numBytes <= |m.buf| <= MAX_SAFE_INTEGER
    && Low(m.buf, at, 4, numBytes) && Low(m.buf, at + 4, 4, second)
  }

  lemma PointerStep(env: Env, m: Input, v: Val, at: nat, nullable: bool, b: Block, dims: seq<nat>, cur: nat,
                    distance: nat)
    requires Low(m.buf, at, 8, distance) && distance > 0 && at + distance <= |m.buf| <= MAX_SAFE_INTEGER
    requires v.offset <= |m.buf|
    ensures ValidateSlot(env, m, v, at, TPtr(nullable, b), dims, cur) ==
      ValidateBlock(env, m, v, at + distance, b, dims, cur)
    ensures var d := JsDecBlock(env, m.buf, [], at + distance, b);
      JsDecSlot(env, m.buf, [], at, 0, TPtr(nullable, b)) == if d.Ok? then Ok(VBlock(d.value)) else Err(d.error)
  {
    hide ValidateBlock, JsDecBlock, Get64;
    LowReads(m.buf, at, 8, distance);
  }

  /** An array of one element, with no expected length. */
  lemma OneElement(env: Env, m: Input, v: Val, at: nat, elem: Type, fixed: nat, dims: seq<nat>, cur: nat)
    requires Head(m, v, at, HEADER_SIZE + SlotBytes(elem), 1) && !elem.TBool? && !IsMap(elem)
    requires cur < |dims| && dims[cur] == 0
    ensures var b, v1 := BArray(elem, fixed), Claimed(v, at, HEADER_SIZE + SlotBytes(elem));
      var (d, c) := Expected(elem, Inner(b, dims, cur));
      ValidateBlock(env, m, v, at, b, dims, cur) == ValidateSlot(env, m, v1, at + HEADER_SIZE, elem, d, c)
    ensures var d := JsDecSlot(env, m.buf, [], at + HEADER_SIZE, 0, elem);
      JsDecBlock(env, m.buf, [], at, BArray(elem, fixed)) == if d.Ok? then Ok([d.value]) else Err(d.error)
  {
    hide UintAt, ValidateSlot, JsDecSlot, Dimensions, SlotBytes, Low;
    var b, numBytes := BArray(elem, fixed), HEADER_SIZE + SlotBytes(elem);
    LowReads(m.buf, at, 4, numBytes);
    LowReads(m.buf, at + 4, 4, 1);
    var f := ElemField(elem, 0);
    assert ElemFields(elem, 0, 1) == [f] && f.offset == f.bit == 0 && f.kind == elem;
    OneSlot(env, m, Claimed(v, at, numBytes), at + HEADER_SIZE, f, Inner(b, dims, cur));
  }

  lemma OneSlot(env: Env, m: Input, v: Val, base: nat, f: Field, inner: Option<(seq<nat>, nat)>)
    requires v.offset <= |m.buf|
    ensures var (d, c) := Expected(f.kind, inner);
      ValidateSlots(env, m, v, base, [f], inner) == ValidateSlot(env, m, v, base + f.offset, f.kind, d, c)
    ensures var d := JsDecSlot(env, m.buf, [], base + f.offset, f.bit, f.kind);
      JsDecSlots(env, m.buf, [], base, [f]) == if d.Ok? then Ok([d.value]) else Err(d.error)
  {
    hide ValidateSlot, JsDecSlot, Dimensions;
    assert [f][1..] == [];
    assert JsDecSlots(env, m.buf, [], base, []) == Ok([]);
    var d := JsDecSlot(env, m.buf, [], base + f.offset, f.bit, f.kind);
    assert d.Ok? ==> [d.value] + [] == [d.value];
  }

  /** A struct of one field. */
  lemma OneField(env: Env, m: Input, v: Val, at: nat, f: Field, dims: seq<nat>, cur: nat)
    requires env == map[0 := StructDef(8, 0, [f])] && Head(m, v, at, 16, 0)
    ensures ValidateBlock(env, m, v, at, BStruct(0), dims, cur) ==
      ValidateSlot(env, m, Claimed(v, at, 16), at + HEADER_SIZE + f.offset, f.kind, Dimensions(f.kind), 0)
    ensures var d := JsDecSlot(env, m.buf, [], at + HEADER_SIZE + f.offset, f.bit, f.kind);
      JsDecBlock(env, m.buf, [], at, BStruct(0)) == if d.Ok? then Ok([d.value]) else Err(d.error)
  {
    hide UintAt, ValidateSlot, JsDecSlot, Dimensions, Low;
    LowReads(m.buf, at, 4, 16);
    LowReads(m.buf, at + 4, 4, 0);
    OneSlot(env, m, Claimed(v, at, 16), at + HEADER_SIZE, f, None);
  }

  /** An array of one number. */
  lemma OneByte(env: Env, m: Input, v: Val, at: nat, fixed: nat, dims: seq<nat>, cur: nat)
    requires Head(m, v, at, 9, 1) && cur < |dims| && dims[cur] == 0
    ensures ValidateBlock(env, m, v, at, BArray(TUint(1), fixed), dims, cur) == Ok(Claimed(v, at, 9))
    ensures at + HEADER_SIZE < |m.buf|
    ensures JsDecBlock(env, m.buf, [], at, BArray(TUint(1), fixed)) == Ok([VUint(m.buf[at + HEADER_SIZE])])
  {
    hide Low, UintAt;
    OneElement(env, m, v, at, TUint(1), fixed, dims, cur);
    SmallNumber(m.buf, at + HEADER_SIZE, 1);
  }

  lemma PairsInner(v: Val)
    requires v.offset <= 88
    ensures var r := ValidateSlot(PairsEnv, PairsInput, v, 80, TPtr(true, Pair), [0, 0, 0], 2);
      r.Ok? && r.value.offset == 97
    ensures JsDecSlot(PairsEnv, PairsBytes, [], 80, 0, TPtr(true, Pair)) == Ok(VBlock([VUint(5)]))
  {
    hide ValidateBlock, JsDecBlock, ValidateSlot, JsDecSlot;
    PointerStep(PairsEnv, PairsInput, v, 80, true, Pair, [0, 0, 0], 2, 8);
    OneByte(PairsEnv, PairsInput, v, 88, 2, [0, 0, 0], 2);
  }

  lemma PairsOuter(v: Val)
    requires v.offset <= 72
    ensures var r := ValidateSlot(PairsEnv, PairsInput, v, 64, TPtr(false, Pairs), [0, 0, 0], 1);
      r.Ok? && r.value.offset == 97
    ensures JsDecSlot(PairsEnv, PairsBytes, [], 64, 0, TPtr(false, Pairs)) == Ok(VBlock([VBlock([VUint(5)])]))
  {
    hide ValidateBlock, JsDecBlock, ValidateSlot, JsDecSlot;
    PointerStep(PairsEnv, PairsInput, v, 64, false, Pairs, [0, 0, 0], 1, 8);
    OneElement(PairsEnv, PairsInput, v, 72, TPtr(true, Pair), 0, [0, 0, 0], 1);
    PairsInner(Claimed(v, 72, 16));
  }

  /** The values of the map, with the lengths that the codec's array classes know. */
  lemma PairsValues(v: Val)
    requires v.offset <= 56
    ensures var r := ValidateSlot(PairsEnv, PairsInput, v, 32, ArrayPointer(TPtr(false, Pairs)), [0, 0, 0], 0);
      r.Ok? && r.value.offset == 97
    ensures JsDecSlot(PairsEnv, PairsBytes, [], 32, 0, ArrayPointer(TPtr(false, Pairs))) ==
      Ok(VBlock([VBlock([VBlock([VUint(5)])])]))
  {
    hide ValidateBlock, JsDecBlock, ValidateSlot, JsDecSlot;
    var b := BArray(TPtr(false, Pairs), 0);
    PointerStep(PairsEnv, PairsInput, v, 32, false, b, [0, 0, 0], 0, 24);
    OneElement(PairsEnv, PairsInput, v, 56, TPtr(false, Pairs), 0, [0, 0, 0], 0);
    PairsOuter(Claimed(v, 56, 16));
  }

  lemma PairsDimensions()
    ensures [0] + CodecDimensions(TPtr(false, Pairs)) == [0, 0, 0]
  {
    assert CodecDimensions(TPtr(true, Pair)) == [0];
  }

  lemma PairsAccepted()
    ensures ValidateBlock(PairsEnv, PairsInput, NewVal, 0, BStruct(0), [], 0).Ok?
    ensures JsDecBlock(PairsEnv, PairsBytes, [], 0, BStruct(0)) == Ok(PairsItems)
  {
    hide ValidateBlock, JsDecBlock, ValidateSlot, JsDecSlot;
    var env, m, t := PairsEnv, PairsInput, TPtr(false, PairsMap);
    OneField(env, m, NewVal, 0, Field(0, 0, t), [], 0);
    var v := Claimed(NewVal, 0, 16);
    PointerStep(env, m, v, 8, false, PairsMap, Dimensions(t), 0, 8);
    PairsMapAccepted(v);
  }

  lemma PairsKeys(v: Val)
    requires v.offset <= 40
    ensures ValidateSlot(PairsEnv, PairsInput, v, 24, ArrayPointer(TUint(1)), [0], 0) == Ok(Claimed(v, 40, 9))
    ensures JsDecSlot(PairsEnv, PairsBytes, [], 24, 0, ArrayPointer(TUint(1))) == Ok(VBlock([VUint(7)]))
  {
    hide ValidateSlot, JsDecSlot, ValidateBlock, JsDecBlock;
    PointerStep(PairsEnv, PairsInput, v, 24, false, BArray(TUint(1), 0), [0], 0, 16);
    OneByte(PairsEnv, PairsInput, v, 40, 0, [0], 0);
  }

  lemma PairsHead()
    ensures Low(PairsBytes, 16, 4, 24) && Low(PairsBytes, 20, 4, 0)
  {
  }

  lemma PairsMapAccepted(v: Val)
    requires v.offset <= 16
    ensures ValidateBlock(PairsEnv, PairsInput, v, 16, PairsMap, [], 0).Ok?
    ensures JsDecBlock(PairsEnv, PairsBytes, [], 16, PairsMap) ==
      Ok([VBlock([VUint(7)]), VBlock([VBlock([VBlock([VUint(5)])])])])
  {
    hide ValidateSlot, JsDecSlot, ValidateStructHeader, ArrayLength, CodecDimensions, UintAt, PairsByte;
    var v1 := Claimed(v, 16, 24);
    assert Head(PairsInput, v, 16, 24, 0) by { PairsHead(); }
    MapHeader(PairsInput, v);
    PairsKeys(v1);
    PairsValues(Claimed(v1, 40, 9));
    PairsDimensions();
    PairsLengths();
    TwoSlots(PairsEnv, PairsBytes, [], 24, ArrayPointer(TUint(1)), ArrayPointer(TPtr(false, Pairs)));
  }

  lemma PairsLengths()
    ensures ArrayLength(PairsInput, 24) == ArrayLength(PairsInput, 32) == Ok(1)
  {
    hide UintAt, Get64;
    LowReads(PairsBytes, 24, 8, 16);
    LowReads(PairsBytes, 32, 8, 24);
    LowReads(PairsBytes, 44, 4, 1);
    LowReads(PairsBytes, 60, 4, 1);
  }

  lemma PairsDoNotConform()
    ensures !ConformsBlock(PairsEnv, BStruct(0), PairsItems)
  {
    var env := PairsEnv;
    var inner, outer := [VUint(5)], [VBlock([VUint(5)])];
    assert !ConformsBlock(env, Pair, inner);
    assert !ConformsAll(env, Fields(env, Pairs, 1), outer);
    assert !ConformsBlock(env, Pairs, outer);
    assert !ConformsAll(env, Fields(env, BArray(TPtr(false, Pairs), 0), 1), [VBlock(outer)]);
    assert !Conforms(env, ArrayPointer(TPtr(false, Pairs)), VBlock([VBlock(outer)]));
    var items := [VBlock([VUint(7)]), VBlock([VBlock(outer)])];
    TwoConform(env, TUint(1), TPtr(false, Pairs), items);
    assert !ConformsBlock(env, PairsMap, items);
  }

  /** These bytes validate, and what is read from them does not conform. */
  lemma ForgottenLength()
    ensures ValidateBlock(PairsEnv, PairsInput, NewVal, 0, BStruct(0), [], 0).Ok?
    ensures JsDecBlock(PairsEnv, PairsBytes, [], 0, BStruct(0)) == Ok(PairsItems)
    ensures !ConformsBlock(PairsEnv, BStruct(0), PairsItems)
  {
    hide *;
    PairsAccepted();
    PairsDoNotConform();
  }

  // ---------------------------------------------------------------- maps inside arrays

  /** A struct whose one field is a pointer. */
  function Wrapped(b: Block): Env {
    map[0 := StructDef(8, 0, [Field(0, 0, TPtr(false, b))])]
  }

  /** What the struct at 0 adds to its field. */
  lemma WrappedRead(m: Input, b: Block)
    requires Head(m, NewVal, 0, 16, 0) && Low(m.buf, 8, 8, 8)
    ensures ValidateBlock(Wrapped(b), m, NewVal, 0, BStruct(0), [], 0) ==
      ValidateBlock(Wrapped(b), m, Claimed(NewVal, 0, 16), 16, b, Dimensions(TPtr(false, b)), 0)
    ensures var d := JsDecBlock(Wrapped(b), m.buf, [], 16, b);
      JsDecBlock(Wrapped(b), m.buf, [], 0, BStruct(0)) == if d.Ok? then Ok([VBlock(d.value)]) else Err(d.error)
  {
    hide ValidateSlot, JsDecSlot, ValidateBlock, JsDecBlock, Dimensions, Low;
    var f := Field(0, 0, TPtr(false, b));
    OneField(Wrapped(b), m, NewVal, 0, f, [], 0);
    LowReads(m.buf, 8, 8, 8);
    PointerStep(Wrapped(b), m, Claimed(NewVal, 0, 16), 8, false, b, Dimensions(f.kind), 0, 8);
  }

  /** An array of one map, with a pointer to the end of the buffer. */
  lemma DanglingMap(env: Env, m: Input, v: Val, at: nat, nullable: bool, key: Type, value: Type, dims: seq<nat>)
    requires Head(m, v, at, 16, 1) && Low(m.buf, at + 8, 8, |m.buf| - at - 8) && dims != [] && dims[0] == 0
    ensures var b := BArray(TPtr(nullable, BMap(key, value)), 0);
      && ValidateBlock(env, m, v, at, b, dims, 0) == Ok(Claimed(v, at, 16))
      && JsDecBlock(env, m.buf, [], at, b) == Err(RangeError)
  {
    hide ValidateSlot, JsDecSlot, UintAt, Get64, Low;
    var elem := TPtr(nullable, BMap(key, value));
    LowReads(m.buf, at, 4, 16);
    LowReads(m.buf, at + 4, 4, 1);
    PointerStep(env, m, v, at + 8, nullable, elem.target, [], 0, |m.buf| - at - 8);
    var f := ElemField(elem, 0);
    assert ElemFields(elem, 0, 1) == [f] && f.offset == f.bit == 0 && f.kind == elem;
    OneSlot(env, m, v, at + 8, f, None);
  }

  const MapsBytes: seq<Byte> := seq(32, i requires 0 <= i < 32 => MapsByte(i))
  const MapsInput := Input(MapsBytes, 0)

  function MapsByte(i: nat): Byte {
    match i
    case 0 => 16 case 8 => 8                 // the struct at 0
    case 16 => 16 case 20 => 1 case 24 => 8  // the array at 16
    case _ => 0
  }

  /** Whatever the keys and values: these bytes validate as `struct { array<map<key, value>> a; }`, and reading them
      leaves the buffer. */
  lemma UncheckedMap(nullable: bool, key: Type, value: Type)
    ensures var b := BArray(TPtr(nullable, BMap(key, value)), 0);
      && ValidateBlock(Wrapped(b), MapsInput, NewVal, 0, BStruct(0), [], 0).Ok?
      && JsDecBlock(Wrapped(b), MapsBytes, [], 0, BStruct(0)) == Err(RangeError)
  {
    hide ValidateBlock, JsDecBlock;
    var b := BArray(TPtr(nullable, BMap(key, value)), 0);
    WrappedRead(MapsInput, b);
    var dims := Dimensions(TPtr(false, b));
    assert dims == [0] + [];
    DanglingMap(Wrapped(b), MapsInput, Claimed(NewVal, 0, 16), 16, nullable, key, value, dims);
  }

  // ---------------------------------------------------------------- maps inside map values

  const NestedBytes: seq<Byte> := seq(72, i requires 0 <= i < 72 => NestedByte(i))
  const NestedInput := Input(NestedBytes, 0)

  function NestedByte(i: nat): Byte {
    match i
    case 0 => 16 case 8 => 8                    // the struct at 0
    case 16 => 24 case 24 => 16 case 32 => 24   // the map at 16
    case 40 => 9 case 44 => 1 case 48 => 7      // its keys at 40
    case 56 => 16 case 60 => 1 case 64 => 8     // its values at 56
    case _ => 0
  }

  lemma NestedKeys(env: Env, v: Val)
    requires v.offset <= 40
    ensures ValidateSlot(env, NestedInput, v, 24, ArrayPointer(TUint(1)), [0], 0) == Ok(Claimed(v, 40, 9))
    ensures JsDecSlot(env, NestedBytes, [], 24, 0, ArrayPointer(TUint(1))).Ok?
  {
    hide ValidateSlot, JsDecSlot, ValidateBlock, JsDecBlock;
    PointerStep(env, NestedInput, v, 24, false, BArray(TUint(1), 0), [0], 0, 16);
    OneByte(env, NestedInput, v, 40, 0, [0], 0);
  }

  lemma NestedValues(env: Env, v: Val, nullable: bool, key: Type, value: Type)
    requires v.offset <= 56
    ensures var b := BArray(TPtr(nullable, BMap(key, value)), 0);
      && ValidateSlot(env, NestedInput, v, 32, TPtr(nullable, b), [0], 0).Ok?
      && JsDecSlot(env, NestedBytes, [], 32, 0, TPtr(false, b)) == Err(RangeError)
  {
    hide ValidateSlot, JsDecSlot, ValidateBlock, JsDecBlock;
    var b := BArray(TPtr(nullable, BMap(key, value)), 0);
    PointerStep(env, NestedInput, v, 32, nullable, b, [0], 0, 24);
    PointerStep(env, NestedInput, v, 32, false, b, [0], 0, 24);
    DanglingMap(env, NestedInput, v, 56, nullable, key, value, [0]);
  }

  lemma NestedLengths()
    ensures ArrayLength(NestedInput, 24) == Ok(1)
    ensures ArrayLength(NestedInput, 32) == Ok(1)
  {
    hide UintAt, Get64;
    LowReads(NestedBytes, 24, 8, 16);
    LowReads(NestedBytes, 32, 8, 24);
    LowReads(NestedBytes, 44, 4, 1);
    LowReads(NestedBytes, 60, 4, 1);
  }

  /** The header of the map at 16. */
  lemma MapHeader(m: Input, v: Val)
    requires Head(m, v, 16, 24, 0)
    ensures ValidateStructHeader(m, v, 16, HEADER_SIZE + 16, 0) == Ok(Claimed(v, 16, 24))
  {
    hide UintAt, Low;
    LowReads(m.buf, 16, 4, 24);
    LowReads(m.buf, 20, 4, 0);
  }

  /** Whatever the inner keys and values: these bytes validate as `struct { map<uint8, map<key, value>> m; }`, and
      reading them leaves the buffer. */
  lemma UncheckedMapValue(nullable: bool, key: Type, value: Type)
    ensures var b := BMap(TUint(1), TPtr(nullable, BMap(key, value)));
      && ValidateBlock(Wrapped(b), NestedInput, NewVal, 0, BStruct(0), [], 0).Ok?
      && JsDecBlock(Wrapped(b), NestedBytes, [], 0, BStruct(0)) == Err(RangeError)
  {
    hide ValidateSlot, JsDecSlot, UintAt, ArrayLength, ValidateStructHeader, Dimensions, NestedByte, Low;
    var b, v1 := BMap(TUint(1), TPtr(nullable, BMap(key, value))), Claimed(Claimed(NewVal, 0, 16), 16, 24);
    NestedHeads();
    WrappedRead(NestedInput, b);
    MapHeader(NestedInput, Claimed(NewVal, 0, 16));
    NestedKeys(Wrapped(b), v1);
    NestedValues(Wrapped(b), Claimed(v1, 40, 9), nullable, key, value);
    NestedLengths();
    assert [0] + CodecDimensions(b.value) == [0];
    TwoSlots(Wrapped(b), NestedBytes, [], 24, ArrayPointer(TUint(1)), ArrayPointer(b.value));
  }

  lemma NestedHeads()
    ensures Head(NestedInput, NewVal, 0, 16, 0) && Low(NestedBytes, 8, 8, 8)
    ensures Head(NestedInput, Claimed(NewVal, 0, 16), 16, 24, 0)
  {
  }

  // ---------------------------------------------------------------- maps as map keys

  const KeyedBytes: seq<Byte> := seq(72, i requires 0 <= i < 72 => KeyedByte(i))
  const KeyedInput := Input(KeyedBytes, 0)

  function KeyedByte(i: nat): Byte {
    match i
    case 0 => 16 case 8 => 8                    // the struct at 0
    case 16 => 24 case 24 => 16 case 32 => 24   // the map at 16
    case 40 => 16 case 44 => 1 case 48 => 24    // its keys at 40
    case 56 => 9 case 60 => 1 case 64 => 7      // its values at 56
    case _ => 0
  }

  lemma KeyedKeys(env: Env, v: Val, key: Type, value: Type)
    requires v.offset <= 40
    ensures var b := BArray(TPtr(false, BMap(key, value)), 0);
      && ValidateSlot(env, KeyedInput, v, 24, TPtr(false, b), [0], 0) == Ok(Claimed(v, 40, 16))
      && JsDecSlot(env, KeyedBytes, [], 24, 0, TPtr(false, b)) == Err(RangeError)
  {
    hide ValidateSlot, JsDecSlot, ValidateBlock, JsDecBlock;
    var b := BArray(TPtr(false, BMap(key, value)), 0);
    PointerStep(env, KeyedInput, v, 24, false, b, [0], 0, 16);
    DanglingMap(env, KeyedInput, v, 40, false, key, value, [0]);
  }

  lemma KeyedValues(env: Env, v: Val)
    requires v.offset <= 56
    ensures ValidateSlot(env, KeyedInput, v, 32, ArrayPointer(TUint(1)), [0], 0).Ok?
  {
    hide ValidateSlot, JsDecSlot, ValidateBlock, JsDecBlock;
    PointerStep(env, KeyedInput, v, 32, false, BArray(TUint(1), 0), [0], 0, 24);
    OneByte(env, KeyedInput, v, 56, 0, [0], 0);
  }

  lemma KeyedLengths()
    ensures ArrayLength(KeyedInput, 24) == Ok(1)
    ensures ArrayLength(KeyedInput, 32) == Ok(1)
  {
    hide UintAt, Get64;
    LowReads(KeyedBytes, 24, 8, 16);
    LowReads(KeyedBytes, 32, 8, 24);
    LowReads(KeyedBytes, 44, 4, 1);
    LowReads(KeyedBytes, 60, 4, 1);
  }

  lemma KeyedHeads()
    ensures Head(KeyedInput, NewVal, 0, 16, 0) && Low(KeyedBytes, 8, 8, 8)
    ensures Head(KeyedInput, Claimed(NewVal, 0, 16), 16, 24, 0)
  {
  }

  /** Whatever the inner keys and values: these bytes validate as `struct { map<map<key, value>, uint8> m; }`, and
      reading them leaves the buffer. */
  lemma UncheckedMapKey(key: Type, value: Type)
    ensures var b := BMap(TPtr(false, BMap(key, value)), TUint(1));
      && ValidateBlock(Wrapped(b), KeyedInput, NewVal, 0, BStruct(0), [], 0).Ok?
      && JsDecBlock(Wrapped(b), KeyedBytes, [], 0, BStruct(0)) == Err(RangeError)
  {
    hide ValidateSlot, JsDecSlot, UintAt, ArrayLength, ValidateStructHeader, Dimensions, KeyedByte, Low;
    var b, v1 := BMap(TPtr(false, BMap(key, value)), TUint(1)), Claimed(Claimed(NewVal, 0, 16), 16, 24);
    KeyedHeads();
    WrappedRead(KeyedInput, b);
    MapHeader(KeyedInput, Claimed(NewVal, 0, 16));
    KeyedKeys(Wrapped(b), v1, key, value);
    KeyedValues(Wrapped(b), Claimed(v1, 40, 16));
    KeyedLengths();
    assert [0] + CodecDimensions(TUint(1)) == [0];
    TwoSlots(Wrapped(b), KeyedBytes, [], 24, ArrayPointer(b.key), ArrayPointer(TUint(1)));
  }

  // ---------------------------------------------------------------- null values

  /** 16 keys, and a null pointer for the values. */
  const NullsBytes: seq<Byte> := seq(64, i requires 0 <= i < 64 => NullsByte(i))
  const NullsInput := Input(NullsBytes, 0)

  function NullsByte(i: nat): Byte {
    match i
    case 0 => 16 case 8 => 8       // the struct at 0, whose size is taken for the length of the values
    case 16 => 24 case 24 => 16    // the map at 16
    case 40 => 24 case 44 => 16    // its keys at 40
    case _ => 0
  }

  lemma {:induction false} NumbersRead(env: Env, m: Input, v: Val, base: nat, k: nat, n: nat)
    requires k <= n && base + n <= |m.buf| && v.offset <= |m.buf|
    ensures ValidateSlots(env, m, v, base, ElemFields(TUint(1), k, n), None) == Ok(v)
    ensures var d := JsDecSlots(env, m.buf, [], base, ElemFields(TUint(1), k, n)); d.Ok? && |d.value| == n - k
    decreases n - k
  {
    hide UintAt;
    if k < n {
      NumbersRead(env, m, v, base, k + 1, n);
      var fs := ElemFields(TUint(1), k, n);
      assert fs[0] == ElemField(TUint(1), k) == Field(k, 0, TUint(1)) && fs[1..] == ElemFields(TUint(1), k + 1, n);
      assert Get(m.buf, base + k, 1).Ok?;
      assert ValidateSlots(env, m, v, base, fs[1..], None) == Ok(v);
    }
  }

  lemma NullsKeys(env: Env, v: Val)
    requires v.offset <= 40
    ensures ValidateSlot(env, NullsInput, v, 24, ArrayPointer(TUint(1)), [0], 0) == Ok(Claimed(v, 40, 24))
    ensures var d := JsDecSlot(env, NullsBytes, [], 24, 0, ArrayPointer(TUint(1)));
      d.Ok? && d.value.VBlock? && |d.value.items| == 16
  {
    hide ValidateSlot, JsDecSlot, ValidateSlots, JsDecSlots, UintAt;
    PointerStep(env, NullsInput, v, 24, false, BArray(TUint(1), 0), [0], 0, 16);
    LowReads(NullsBytes, 40, 4, 24);
    LowReads(NullsBytes, 44, 4, 16);
    NumbersRead(env, NullsInput, Claimed(v, 40, 24), 48, 0, 16);
  }

  lemma NullStep(env: Env, m: Input, v: Val, at: nat, b: Block, dims: seq<nat>, cur: nat)
    requires v.offset <= |m.buf| && Low(m.buf, at, 8, 0)
    ensures ValidateSlot(env, m, v, at, TPtr(true, b), dims, cur) == Ok(v)
    ensures JsDecSlot(env, m.buf, [], at, 0, TPtr(false, b)) == Ok(VNull)
  {
    hide UintAt, Get64, ValidateBlock, JsDecBlock;
    LowReads(m.buf, at, 8, 0);
  }

  lemma NullsLengths()
    ensures ArrayLength(NullsInput, 24) == Ok(16)
    ensures ArrayLength(NullsInput, 32) == Ok(16)
  {
    hide UintAt, Get64;
    LowReads(NullsBytes, 24, 8, 16);
    LowReads(NullsBytes, 32, 8, 0);
    LowReads(NullsBytes, 44, 4, 16);
    LowReads(NullsBytes, 0, 4, 16);
  }

  lemma NullsHeads()
    ensures Head(NullsInput, NewVal, 0, 16, 0) && Low(NullsBytes, 8, 8, 8) && Low(NullsBytes, 32, 8, 0)
    ensures Head(NullsInput, Claimed(NewVal, 0, 16), 16, 24, 0)
  {
  }

  /** Whatever the nullable values: these bytes validate as `struct { map<uint8, value> m; }`, and reading them trips
      over null. */
  lemma NullValues(value: Type)
    requires IsNullable(value)
    ensures var b := BMap(TUint(1), value);
      && ValidateBlock(Wrapped(b), NullsInput, NewVal, 0, BStruct(0), [], 0).Ok?
      && JsDecBlock(Wrapped(b), NullsBytes, [], 0, BStruct(0)) == Err(TypeError)
  {
    hide ValidateSlot, JsDecSlot, UintAt, ArrayLength, ValidateStructHeader, Dimensions, CodecDimensions, IsNullable,
      NullsByte, Low;
    var b, v1 := BMap(TUint(1), value), Claimed(Claimed(NewVal, 0, 16), 16, 24);
    NullsHeads();
    WrappedRead(NullsInput, b);
    MapHeader(NullsInput, Claimed(NewVal, 0, 16));
    NullsKeys(Wrapped(b), v1);
    NullStep(Wrapped(b), NullsInput, Claimed(v1, 40, 24), 32, BArray(value, 0), [0] + CodecDimensions(value), 0);
    NullsLengths();
    TwoSlots(Wrapped(b), NullsBytes, [], 24, ArrayPointer(TUint(1)), ArrayPointer(value));
  }
}
