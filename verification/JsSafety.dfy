/**
What the JavaScript validator guarantees.  On arbitrary bytes, if validation succeeds then the claimed ranges are in
order and disjoint, no handle is claimed twice, and the decoder, which checks nothing, does not leave the buffer.  It
may trip over null if map values are nullable; otherwise it reads a value that has the shape that was validated and
holds exactly the claimed handles.
*/
module JsSafety {
  import opened Bytes
  import opened Collections
  import opened Wire
  import opened JsCodec
  import opened JsShapes
  import JsReading

  // ---------------------------------------------------------------- schemas the validator covers

  /** No maps inside arrays and no maps as map keys or map values, because the validator does not look at them there;
      if `strict`, no nullable map values either. */
  predicate Covered(t: Type, strict: bool)
    decreases t, 0
  {
    t.TPtr? ==> CoveredBlock(t.target, strict)
  }

  predicate CoveredBlock(b: Block, strict: bool)
    decreases b, 1
  {
    match b
    case BStruct(_) => true
    case BArray(elem, _) => !IsMap(elem) && Covered(elem, strict)
    case BMap(key, value) =>
      && !IsMap(key) && Covered(key, strict)
      && !IsMap(value) && Covered(value, strict)
      && (strict ==> !IsNullable(value))
  }

  predicate IsMap(t: Type) {
    t.TPtr? && t.target.BMap?
  }

  predicate CoveredFields(fs: seq<Field>, strict: bool) {
    forall i | 0 <= i < |fs| :: Covered(fs[i].kind, strict)
  }

  predicate CoveredEnv(env: Env, strict: bool) {
    forall id | id in env :: CoveredFields(env[id].fields, strict)
  }

  // ---------------------------------------------------------------- claims

  predicate Increasing(taken: seq<nat>, limit: nat) {
    && (forall i | 0 <= i < |taken| :: taken[i] < limit)
    && (forall i, k | 0 <= i < k < |taken| :: taken[i] < taken[k])
  }

  /** Claimed ranges are disjoint, in order and inside the buffer; claimed handles are distinct, ordered and present. */
  predicate Tracked(m: Input, v: Val) {
    && v.offset <= |m.buf|
    && v.handleIndex <= m.handleCount
    && InOrder(v.claims, v.offset)
    && Increasing(v.taken, v.handleIndex)
  }

  lemma ClaimTracked(m: Input, v: Val, start: nat, numBytes: nat)
    requires Tracked(m, v) && ClaimRange(m, v, start, numBytes).Ok?
    ensures Tracked(m, ClaimRange(m, v, start, numBytes).value)
  {
  }

  lemma HandleTracked(m: Input, v: Val, at: nat, nullable: bool)
    requires Tracked(m, v) && ValidateHandle(m, v, at, nullable).Ok?
    ensures Tracked(m, ValidateHandle(m, v, at, nullable).value)
  {
    hide UintAt;
  }

  /** The handles with the given numbers. */
  function Picked(handles: seq<nat>, taken: seq<nat>): seq<nat> {
    if taken == [] then []
    else
      var i := taken[|taken| - 1];
      Picked(handles, taken[..|taken| - 1]) + (if i < |handles| then [handles[i]] else [])
  }

  lemma PickedOne(handles: seq<nat>, taken: seq<nat>, i: nat)
    requires i < |handles|
    ensures Picked(handles, taken + [i]) == Picked(handles, taken) + [handles[i]]
  {
    assert (taken + [i])[..|taken|] == taken;
  }

  // ---------------------------------------------------------------- soundness

  /** The decoder's result `d` after validation took `v` to `r`. */
  predicate Sound(handles: seq<nat>, v: Val, r: Val, hs: seq<nat>) {
    Picked(handles, r.taken) == Picked(handles, v.taken) + hs
  }

  /** Reading succeeds or, unless `strict`, trips over null; it never leaves the buffer. */
  predicate Readable<T>(d: Result<T>, strict: bool) {
    d.Ok? || (!strict && d.error == TypeError)
  }

  lemma SoundHandle(m: Input, v: Val, handles: seq<nat>, at: nat, nullable: bool)
    requires Tracked(m, v) && |handles| == m.handleCount <= INVALID_HANDLE && at + 4 <= |m.buf|
    requires ValidateHandle(m, v, at, nullable).Ok?
    ensures var i := UintAt(m.buf, at, 4);
      var value := VHandle(if i < |handles| then Some(handles[i]) else None);
      && Sound(handles, v, ValidateHandle(m, v, at, nullable).value, HandlesOf(value))
      && Conforms(map[], THandle(nullable), value)
  {
    hide UintAt;
    var i := UintAt(m.buf, at, 4);
    if i != INVALID_HANDLE {
      PickedOne(handles, v.taken, i);
    }
  }

  lemma SoundNumber(m: Input, at: nat, w: nat)
    requires w == 1 || w == 2 || w == 4 || w == 8
    requires at + w <= |m.buf|
    ensures (if w == 8 then Get64(m.buf, at) else Get(m.buf, at, w)) == Ok(UintAt(m.buf, at, w))
    ensures UintAt(m.buf, at, w) < Pow256(w)
  {
    hide UintAt, Get64;
    JsReading.Get64Reads(m.buf, at);
    NumberBound(m.buf, at, w);
  }

  lemma NumberBound(buf: seq<Byte>, at: nat, w: nat)
    requires at + w <= |buf|
    ensures UintAt(buf, at, w) < Pow256(w)
  {
    LEBound(buf[at..at + w]);
  }

  lemma {:induction false} SlotSound(env: Env, m: Input, v: Val, handles: seq<nat>, at: nat, bit: nat, t: Type,
                                     dims: seq<nat>, cur: nat, strict: bool)
    requires WfEnv(env) && CoveredEnv(env, strict) && WfType(env, t) && Covered(t, strict)
    requires Tracked(m, v) && |handles| == m.handleCount <= INVALID_HANDLE && at + SlotBytes(t) <= |m.buf|
    requires ValidateSlot(env, m, v, at, t, dims, cur).Ok?
    ensures var r, d := ValidateSlot(env, m, v, at, t, dims, cur).value, JsDecSlot(env, m.buf, handles, at, bit, t);
      && Tracked(m, r)
      && Readable(d, strict)
      && (d.Ok? ==> Sound(handles, v, r, HandlesOf(d.value)))
      && (strict ==> Shaped(env, t, d.value, dims, cur))
      && (d.Ok? && t.TPtr? && !t.nullable ==> d.value.VBlock?)
      && (d.Ok? && t.TPtr? && t.target.BArray? && d.value.VBlock? ==> ArrayLength(m, at) == Ok(|d.value.items|))
    decreases |m.buf| - v.offset, 1, 0
  {
    hide UintAt, WfEnv, CoveredEnv, CoveredBlock, Tracked, ValidateBlock, JsDecBlock, ConformsBlock, ShapedBlock,
      Picked, HandlesAll, ValidateHandle, Get64;
    match t
    case TBool =>
    case TUint(w) => SoundNumber(m, at, w);
    case THandle(nullable) =>
      SoundHandle(m, v, handles, at, nullable);
      HandleTracked(m, v, at, nullable);
    case TInterface(nullable) =>
      SoundHandle(m, v, handles, at, nullable);
      HandleTracked(m, v, at, nullable);
    case TPtr(_, b) =>
      PointerReads(m, at);
      var offset := UintAt(m.buf, at, 8);
      if offset != 0 {
        TrackedOffset(m, v);
        BlockSound(env, m, v, handles, at + offset, b, dims, cur, strict);
      }
  }

  lemma TrackedOffset(m: Input, v: Val)
    requires Tracked(m, v)
    ensures v.offset <= |m.buf|
  {
  }

  lemma PointerReads(m: Input, at: nat)
    requires at + 8 <= |m.buf|
    ensures Get64(m.buf, at) == Ok(UintAt(m.buf, at, 8))
  {
    hide UintAt, Get64;
    JsReading.Get64Reads(m.buf, at);
  }

  lemma {:induction false} SlotsSound(env: Env, m: Input, v: Val, handles: seq<nat>, base: nat, fs: seq<Field>,
                                      size: nat, inner: Option<(seq<nat>, nat)>, strict: bool)
    requires WfEnv(env) && CoveredEnv(env, strict) && FieldsOk(env, fs, size) && CoveredFields(fs, strict)
    requires Tracked(m, v) && |handles| == m.handleCount <= INVALID_HANDLE && base + size <= |m.buf|
    requires v.offset <= |m.buf| && ValidateSlots(env, m, v, base, fs, inner).Ok?
    ensures var r, d := ValidateSlots(env, m, v, base, fs, inner).value, JsDecSlots(env, m.buf, handles, base, fs);
      && Tracked(m, r)
      && Readable(d, strict)
      && (d.Ok? ==> |d.value| == |fs| && Sound(handles, v, r, HandlesAll(d.value)))
      && (strict ==> ShapedAll(env, fs, d.value, inner))
    decreases |m.buf| - v.offset, 2, |fs|
  {
    hide WfEnv, CoveredEnv, Covered, Tracked, ValidateSlot, JsDecSlot, Shaped, Picked, HandlesOf, ArrayLength,
      Dimensions, WfType;
    if fs != [] {
      var f := fs[0];
      var (dims, cur) := Expected(f.kind, inner);
      assert FieldOk(env, f, size);
      SlotSound(env, m, v, handles, base + f.offset, f.bit, f.kind, dims, cur, strict);
      var v1 := ValidateSlot(env, m, v, base + f.offset, f.kind, dims, cur).value;
      SlotsSound(env, m, v1, handles, base, fs[1..], size, inner, strict);
      var d := JsDecSlots(env, m.buf, handles, base, fs);
      if d.Ok? {
        assert d.value[1..] == JsDecSlots(env, m.buf, handles, base, fs[1..]).value;
      }
    }
  }

  lemma {:induction false} BlockSound(env: Env, m: Input, v: Val, handles: seq<nat>, at: nat, b: Block, dims: seq<nat>,
                                      cur: nat, strict: bool)
    requires WfEnv(env) && CoveredEnv(env, strict) && WfBlock(env, b) && CoveredBlock(b, strict)
    requires Tracked(m, v) && |handles| == m.handleCount <= INVALID_HANDLE
    requires v.offset <= |m.buf| && ValidateBlock(env, m, v, at, b, dims, cur).Ok?
    ensures var r, d := ValidateBlock(env, m, v, at, b, dims, cur).value, JsDecBlock(env, m.buf, handles, at, b);
      && Tracked(m, r)
      && Readable(d, strict)
      && (d.Ok? ==> Sound(handles, v, r, HandlesAll(d.value)))
      && (strict ==> ShapedBlock(env, b, d.value, dims, cur))
      && at + HEADER_SIZE <= |m.buf|
      && (d.Ok? && b.BArray? ==> |d.value| == UintAt(m.buf, at + 4, 4))
    decreases |m.buf| - v.offset, 0, 1
  {
    hide *;
    match b
    case BStruct(id) => StructSound(env, m, v, handles, at, id, dims, cur, strict);
    case BArray(elem, fixed) => ArraySound(env, m, v, handles, at, elem, fixed, dims, cur, strict);
    case BMap(key, value) => MapSound(env, m, v, handles, at, key, value, dims, cur, strict);
  }

  lemma {:induction false} StructSound(env: Env, m: Input, v: Val, handles: seq<nat>, at: nat, id: nat, dims: seq<nat>,
                                       cur: nat, strict: bool)
    requires WfEnv(env) && CoveredEnv(env, strict) && WfBlock(env, BStruct(id))
    requires Tracked(m, v) && |handles| == m.handleCount <= INVALID_HANDLE
    requires v.offset <= |m.buf| && ValidateBlock(env, m, v, at, BStruct(id), dims, cur).Ok?
    ensures var b := BStruct(id);
      var r, d := ValidateBlock(env, m, v, at, b, dims, cur).value, JsDecBlock(env, m.buf, handles, at, b);
      && Tracked(m, r)
      && Readable(d, strict)
      && (d.Ok? ==> Sound(handles, v, r, HandlesAll(d.value)))
      && (strict ==> ShapedBlock(env, b, d.value, dims, cur))
      && at + HEADER_SIZE <= |m.buf|
    decreases |m.buf| - v.offset, 0, 0
  {
    hide UintAt, Tracked, ValidateSlots, JsDecSlots, ShapedAll, Picked, HandlesAll, FieldsOk, CoveredFields;
    var def := env[id];
    assert WfDef(env, def) && CoveredFields(def.fields, strict);
    var v1 := ValidateStructHeader(m, v, at, HEADER_SIZE + def.size, def.version).value;
    ClaimTracked(m, v, at, UintAt(m.buf, at, 4));
    SlotsSound(env, m, v1, handles, at + HEADER_SIZE, def.fields, def.size, None, strict);
  }

  lemma ArrayBytes(env: Env, elem: Type, n: nat)
    ensures PayloadSize(env, BArray(elem, 0), n) == if elem.TBool? then (n + 7) / 8 else SlotBytes(elem) * n
  {
    if !elem.TBool? {
      assert n * (8 * SlotBytes(elem)) == 8 * (SlotBytes(elem) * n);
    }
  }

  lemma {:induction false} ArraySound(env: Env, m: Input, v: Val, handles: seq<nat>, at: nat, elem: Type, fixed: nat,
                                      dims: seq<nat>, cur: nat, strict: bool)
    requires WfEnv(env) && CoveredEnv(env, strict) && WfBlock(env, BArray(elem, fixed))
    requires CoveredBlock(BArray(elem, fixed), strict)
    requires Tracked(m, v) && |handles| == m.handleCount <= INVALID_HANDLE
    requires v.offset <= |m.buf| && ValidateBlock(env, m, v, at, BArray(elem, fixed), dims, cur).Ok?
    ensures var b := BArray(elem, fixed);
      var r, d := ValidateBlock(env, m, v, at, b, dims, cur).value, JsDecBlock(env, m.buf, handles, at, b);
      && Tracked(m, r)
      && Readable(d, strict)
      && (d.Ok? ==> Sound(handles, v, r, HandlesAll(d.value)))
      && (strict ==> ShapedBlock(env, b, d.value, dims, cur))
      && at + HEADER_SIZE <= |m.buf|
      && (d.Ok? ==> |d.value| == UintAt(m.buf, at + 4, 4))
    decreases |m.buf| - v.offset, 0, 0
  {
    hide UintAt, WfEnv, CoveredEnv, WfType, Covered, Tracked, ValidateSlots, JsDecSlots, ShapedAll, Picked, HandlesAll,
      FieldsOk, CoveredFields, ElemFields, ElemBits, SlotBytes, BytesForBits;
    var b, numBytes, n := BArray(elem, fixed), UintAt(m.buf, at, 4), UintAt(m.buf, at + 4, 4);
    var v1 := ValidateArrayHeader(m, v, at, elem, dims, cur).value.0;
    ArrayHeader(env, m, v, at, elem, fixed, dims, cur);
    ElemsCovered(env, elem, fixed, n, strict);
    SlotsSound(env, m, v1, handles, at + HEADER_SIZE, ElemFields(elem, 0, n), PayloadSize(env, b, n),
      Inner(b, dims, cur), strict);
  }

  lemma ArrayHeader(env: Env, m: Input, v: Val, at: nat, elem: Type, fixed: nat, dims: seq<nat>, cur: nat)
    requires Tracked(m, v) && ValidateArrayHeader(m, v, at, elem, dims, cur).Ok?
    ensures at + HEADER_SIZE <= |m.buf|
    ensures var numBytes, n := UintAt(m.buf, at, 4), UintAt(m.buf, at + 4, 4);
      && ValidateArrayHeader(m, v, at, elem, dims, cur).value.1 == n < TWO_32
      && HEADER_SIZE + PayloadSize(env, BArray(elem, fixed), n) <= numBytes < TWO_32
      && at + numBytes <= |m.buf|
    ensures Tracked(m, ValidateArrayHeader(m, v, at, elem, dims, cur).value.0)
  {
    hide UintAt, Tracked;
    var numBytes, n := UintAt(m.buf, at, 4), UintAt(m.buf, at + 4, 4);
    ArrayBytes(env, elem, n);
    ClaimTracked(m, v, at, numBytes);
    JsReading.WordBound(m.buf, at);
    JsReading.WordBound(m.buf, at + 4);
  }

  lemma ElemsCovered(env: Env, elem: Type, fixed: nat, n: nat, strict: bool)
    requires WfEnv(env) && WfType(env, elem) && Covered(elem, strict)
    ensures FieldsOk(env, ElemFields(elem, 0, n), PayloadSize(env, BArray(elem, fixed), n))
    ensures CoveredFields(ElemFields(elem, 0, n), strict) && |ElemFields(elem, 0, n)| == n
  {
    BlockFieldsOk(env, BArray(elem, fixed), n);
  }

  lemma {:induction false} MapSound(env: Env, m: Input, v: Val, handles: seq<nat>, at: nat, key: Type, value: Type,
                                    dims: seq<nat>, cur: nat, strict: bool)
    requires WfEnv(env) && CoveredEnv(env, strict) && WfBlock(env, BMap(key, value))
    requires CoveredBlock(BMap(key, value), strict)
    requires Tracked(m, v) && |handles| == m.handleCount <= INVALID_HANDLE
    requires v.offset <= |m.buf| && ValidateBlock(env, m, v, at, BMap(key, value), dims, cur).Ok?
    ensures var b := BMap(key, value);
      var r, d := ValidateBlock(env, m, v, at, b, dims, cur).value, JsDecBlock(env, m.buf, handles, at, b);
      && Tracked(m, r)
      && Readable(d, strict)
      && (d.Ok? ==> Sound(handles, v, r, HandlesAll(d.value)))
      && (strict ==> ShapedBlock(env, b, d.value, dims, cur))
      && at + HEADER_SIZE <= |m.buf|
    decreases |m.buf| - v.offset, 0, 0
  {
    hide UintAt, WfEnv, CoveredEnv, WfType, Covered, Tracked, ValidateSlot, JsDecSlots, Shaped, Picked, HandlesAll,
      HandlesOf, ArrayLength, CodecDimensions, JsDecSlot, IsNullable;
    var keys, values := ArrayPointer(key), TPtr(IsNullable(value), BArray(value, 0));
    var base, dims2 := at + HEADER_SIZE, [0] + CodecDimensions(value);
    var v1 := ValidateStructHeader(m, v, at, HEADER_SIZE + 16, 0).value;
    ClaimTracked(m, v, at, UintAt(m.buf, at, 4));
    MapParts(env, key, value, strict);
    SlotSound(env, m, v1, handles, base, 0, keys, [0], 0, strict);
    var v2 := ValidateSlot(env, m, v1, base, keys, [0], 0).value;
    SlotSound(env, m, v2, handles, base + 8, 0, values, dims2, 0, strict);
    NullableIgnored(env, m.buf, handles, base + 8, BArray(value, 0), IsNullable(value));
    TwoSlots(env, m.buf, handles, base, keys, ArrayPointer(value));
  }

  lemma NullableIgnored(env: Env, buf: seq<Byte>, handles: seq<nat>, at: nat, b: Block, nullable: bool)
    ensures JsDecSlot(env, buf, handles, at, 0, TPtr(nullable, b)) ==
      JsDecSlot(env, buf, handles, at, 0, TPtr(false, b))
  {
    hide JsDecBlock, Get64;
  }

  lemma MapParts(env: Env, key: Type, value: Type, strict: bool)
    requires WfBlock(env, BMap(key, value)) && CoveredBlock(BMap(key, value), strict)
    ensures var keys, values := TPtr(false, BArray(key, 0)), TPtr(IsNullable(value), BArray(value, 0));
      && WfType(env, keys) && WfType(env, values) && Covered(keys, strict) && Covered(values, strict)
  {
    hide *;
    MapPieces(env, key, value, strict);
    ArrayOf(env, key, false, strict);
    ArrayOf(env, value, IsNullable(value), strict);
  }

  lemma MapPieces(env: Env, key: Type, value: Type, strict: bool)
    requires WfBlock(env, BMap(key, value)) && CoveredBlock(BMap(key, value), strict)
    ensures WfType(env, key) && Covered(key, strict) && !IsMap(key)
    ensures WfType(env, value) && Covered(value, strict) && !IsMap(value)
  {
    hide WfType, Covered, IsMap;
  }

  lemma ArrayOf(env: Env, elem: Type, nullable: bool, strict: bool)
    requires WfType(env, elem) && Covered(elem, strict) && !IsMap(elem)
    ensures WfType(env, TPtr(nullable, BArray(elem, 0))) && Covered(TPtr(nullable, BArray(elem, 0)), strict)
  {
    hide WfType, CoveredBlock;
    WfArrayOf(env, elem, nullable);
    CoveredArrayOf(elem, strict);
  }

  lemma WfArrayOf(env: Env, elem: Type, nullable: bool)
    requires WfType(env, elem)
    ensures WfType(env, TPtr(nullable, BArray(elem, 0)))
  {
    assert WfBlock(env, BArray(elem, 0));
  }

  lemma CoveredArrayOf(elem: Type, strict: bool)
    requires Covered(elem, strict) && !IsMap(elem)
    ensures CoveredBlock(BArray(elem, 0), strict)
  {
  }

  /** Reading the two pointers of a map. */
  lemma TwoSlots(env: Env, buf: seq<Byte>, handles: seq<nat>, base: nat, keys: Type, values: Type)
    ensures var ks := JsDecSlot(env, buf, handles, base, 0, keys);
      var vs := JsDecSlot(env, buf, handles, base + 8, 0, values);
      JsDecSlots(env, buf, handles, base, [Field(0, 0, keys), Field(8, 0, values)]) ==
        if ks.Err? then Err(ks.error) else if vs.Err? then Err(vs.error) else Ok([ks.value, vs.value])
    ensures forall k, v :: HandlesAll([k, v]) == HandlesOf(k) + HandlesOf(v)
  {
    hide JsDecSlot, HandlesOf;
    var fs, rest := [Field(0, 0, keys), Field(8, 0, values)], [Field(8, 0, values)];
    assert fs[1..] == rest && rest[1..] == [];
    assert JsDecSlots(env, buf, handles, base, []) == Ok([]);
    var ks, vs := JsDecSlot(env, buf, handles, base, 0, keys), JsDecSlot(env, buf, handles, base + 8, 0, values);
    if vs.Ok? {
      assert [vs.value] + [] == [vs.value];
      assert JsDecSlots(env, buf, handles, base, rest) == Ok([vs.value]);
    }
    if ks.Ok? && vs.Ok? {
      assert [ks.value] + [vs.value] == [ks.value, vs.value];
    }
    forall k, v ensures HandlesAll([k, v]) == HandlesOf(k) + HandlesOf(v) {
      assert [k, v][1..] == [v] && [v][1..] == [];
      assert HandlesAll([v]) == HandlesOf(v);
    }
  }
}
