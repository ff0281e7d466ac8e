/**
What the JavaScript validator checks of a value.  The validator takes the expected lengths of arrays from a list that
it is handed, not from the type: a value is `Shaped` if it conforms to its type with the lengths from that list.
*/
module JsShapes {
  import opened Collections
  import opened Wire
  import opened JsCodec

  // ---------------------------------------------------------------- shaped values

  predicate Shaped(env: Env, t: Type, v: Value, dims: seq<nat>, cur: nat)
    decreases v, 0
  {
    match t
    case TPtr(nullable, b) => (v.VNull? && nullable) || (v.VBlock? && ShapedBlock(env, b, v.items, dims, cur))
    case _ => Conforms(env, t, v)
  }

  /** Map values come with the lengths that the codec's array classes know, map keys with none. */
  predicate ShapedBlock(env: Env, b: Block, items: seq<Value>, dims: seq<nat>, cur: nat)
    decreases items, 1
  {
    && WfBlock(env, b)
    && SizeOk(env, b, items, dims, cur)
    && (if b.BMap? then
          && Shaped(env, ArrayPointer(b.key), items[0], [0], 0)
          && Shaped(env, ArrayPointer(b.value), items[1], [0] + CodecDimensions(b.value), 0)
        else ShapedAll(env, Fields(env, b, |items|), items, Inner(b, dims, cur)))
  }

  predicate ShapedAll(env: Env, fs: seq<Field>, vs: seq<Value>, inner: Option<(seq<nat>, nat)>)
    decreases vs, 0
  {
    && |fs| == |vs|
    && (vs != [] ==>
      && Shaped(env, fs[0].kind, vs[0], Expected(fs[0].kind, inner).0, Expected(fs[0].kind, inner).1)
      && ShapedAll(env, fs[1..], vs[1..], inner))
  }

  predicate SizeOk(env: Env, b: Block, items: seq<Value>, dims: seq<nat>, cur: nat) {
    match b
    case BStruct(id) => id in env
    case BArray(elem, _) =>
      && |items| < TWO_32
      && HEADER_SIZE + PayloadSize(env, b, |items|) < TWO_32
      && cur < |dims| && (dims[cur] != 0 ==> |items| == dims[cur])
    case BMap(_, _) =>
      && |items| == 2
      && items[0].VBlock? && items[1].VBlock?
      && |items[0].items| == |items[1].items|
  }

  /** The pointer to the keys or the values of a map. */
  function ArrayPointer(elem: Type): Type {
    TPtr(false, BArray(elem, 0))
  }

  /** The lengths that a block hands to its slots; without them each slot brings its own. */
  function Inner(b: Block, dims: seq<nat>, cur: nat): Option<(seq<nat>, nat)> {
    if b.BArray? && IsArray(b.elem) then Some((dims, cur + 1)) else None
  }

  function Expected(t: Type, inner: Option<(seq<nat>, nat)>): (seq<nat>, nat) {
    if inner.Some? then inner.value else (Dimensions(t), 0)
  }

  // ---------------------------------------------------------------- lists of lengths

  /** A class of arrays remembers its length unless it is nullable. */
  predicate KeepsLengths(t: Type) {
    IsArray(t) ==> (t.nullable ==> t.target.fixed == 0) && KeepsLengths(t.target.elem)
  }

  /** The expected lengths are those of the schema, or unless `exact` forgotten. */
  predicate Measures(dims: seq<nat>, cur: nat, b: Block, exact: bool)
    decreases b
  {
    b.BArray? ==>
      && cur < |dims|
      && (dims[cur] == b.fixed || (dims[cur] == 0 && !exact))
      && (IsArray(b.elem) ==> Measures(dims, cur + 1, b.elem.target, exact))
  }

  /** Every slot comes with the lengths of its own type. */
  predicate SlotsMeasured(fs: seq<Field>, inner: Option<(seq<nat>, nat)>, exact: bool) {
    forall i | 0 <= i < |fs| && fs[i].kind.TPtr? ::
      if inner.Some? then Measures(inner.value.0, inner.value.1, fs[i].kind.target, exact)
      else Measures(Dimensions(fs[i].kind), 0, fs[i].kind.target, exact)
  }

  lemma {:induction false} DimensionsMeasure(t: Type, exact: bool)
    requires t.TPtr?
    ensures Measures(Dimensions(t), 0, t.target, exact)
  {
    if IsArray(t) && IsArray(t.target.elem) {
      DimensionsMeasure(t.target.elem, exact);
      MeasuresShifts(t.target.fixed, Dimensions(t.target.elem), 0, t.target.elem.target, exact);
    }
  }

  lemma {:induction false} CodecDimensionsMeasure(t: Type, exact: bool)
    requires IsArray(t) && (exact ==> KeepsLengths(t))
    ensures Measures(CodecDimensions(t), 0, t.target, exact)
  {
    if IsArray(t.target.elem) {
      CodecDimensionsMeasure(t.target.elem, exact);
      MeasuresShifts(CodecDimensions(t)[0], CodecDimensions(t.target.elem), 0, t.target.elem.target, exact);
    }
  }

  /** A map value is checked against its declared lengths if and only if no nullable array in it has a fixed length. */
  lemma {:induction false} CodecDimensionsExact(t: Type)
    requires IsArray(t)
    ensures CodecDimensions(t) == Dimensions(t) <==> KeepsLengths(t)
  {
    var elem := t.target.elem;
    if IsArray(elem) {
      CodecDimensionsExact(elem);
      assert CodecDimensions(t)[1..] == CodecDimensions(elem) && Dimensions(t)[1..] == Dimensions(elem);
    }
    assert CodecDimensions(t)[0] == Dimensions(t)[0] <==> (t.nullable ==> t.target.fixed == 0);
  }

  lemma {:induction false} MeasuresShifts(head: nat, dims: seq<nat>, cur: nat, b: Block, exact: bool)
    requires Measures(dims, cur, b, exact)
    ensures Measures([head] + dims, 1 + cur, b, exact)
    decreases b
  {
    if b.BArray? && IsArray(b.elem) {
      MeasuresShifts(head, dims, cur + 1, b.elem.target, exact);
    }
  }

  lemma FieldsMeasured(fs: seq<Field>, exact: bool)
    ensures SlotsMeasured(fs, None, exact)
  {
    forall i | 0 <= i < |fs| && fs[i].kind.TPtr?
      ensures Measures(Dimensions(fs[i].kind), 0, fs[i].kind.target, exact)
    {
      DimensionsMeasure(fs[i].kind, exact);
    }
  }

  lemma ElemsMeasured(elem: Type, n: nat, dims: seq<nat>, cur: nat, exact: bool)
    requires IsArray(elem) ==> Measures(dims, cur + 1, elem.target, exact)
    ensures SlotsMeasured(ElemFields(elem, 0, n), if IsArray(elem) then Some((dims, cur + 1)) else None, exact)
  {
    if elem.TPtr? {
      DimensionsMeasure(elem, exact);
    }
  }

  lemma ValuesMeasured(value: Type, exact: bool)
    requires exact ==> KeepsLengths(value)
    ensures Measures([0] + CodecDimensions(value), 0, BArray(value, 0), exact)
  {
    if IsArray(value) {
      CodecDimensionsMeasure(value, exact);
      MeasuresShifts(0, CodecDimensions(value), 0, value.target, exact);
    }
  }

  // ---------------------------------------------------------------- schemas

  /** Map keys are not arrays: `validateMapPointer` gives them no second expected length. */
  predicate PlainKeys(t: Type)
    decreases t, 0
  {
    t.TPtr? ==> PlainKeysBlock(t.target)
  }

  predicate PlainKeysBlock(b: Block)
    decreases b, 1
  {
    match b
    case BStruct(_) => true
    case BArray(elem, _) => PlainKeys(elem)
    case BMap(key, value) => !IsArray(key) && PlainKeys(key) && PlainKeys(value)
  }

  predicate PlainKeysFields(fs: seq<Field>) {
    forall i | 0 <= i < |fs| :: PlainKeys(fs[i].kind)
  }

  predicate PlainKeysEnv(env: Env) {
    forall id | id in env :: PlainKeysFields(env[id].fields)
  }

  /** Map values with nothing to forget, and no arrays as map keys. */
  predicate Exact(t: Type)
    decreases t, 0
  {
    t.TPtr? ==> ExactBlock(t.target)
  }

  predicate ExactBlock(b: Block)
    decreases b, 1
  {
    match b
    case BStruct(_) => true
    case BArray(elem, _) => Exact(elem)
    case BMap(key, value) => !IsArray(key) && KeepsLengths(value) && Exact(key) && Exact(value)
  }

  predicate ExactFields(fs: seq<Field>) {
    forall i | 0 <= i < |fs| :: Exact(fs[i].kind)
  }

  predicate ExactEnv(env: Env) {
    forall id | id in env :: ExactFields(env[id].fields)
  }

  // ---------------------------------------------------------------- conforming values are shaped

  lemma {:induction false} ConformsShaped(env: Env, t: Type, v: Value, dims: seq<nat>, cur: nat)
    requires PlainKeysEnv(env) && PlainKeys(t) && Conforms(env, t, v)
    requires t.TPtr? ==> Measures(dims, cur, t.target, false)
    ensures Shaped(env, t, v, dims, cur)
    decreases v, 1
  {
    hide PlainKeysEnv, PlainKeysBlock, ConformsBlock, ShapedBlock, Measures;
    if v.VBlock? { ConformsShapedBlock(env, t.target, v.items, dims, cur); }
  }

  lemma {:induction false} ConformsShapedAll(env: Env, fs: seq<Field>, vs: seq<Value>, inner: Option<(seq<nat>, nat)>)
    requires PlainKeysEnv(env) && PlainKeysFields(fs) && ConformsAll(env, fs, vs) && SlotsMeasured(fs, inner, false)
    ensures ShapedAll(env, fs, vs, inner)
    decreases vs, 2
  {
    hide PlainKeysEnv, PlainKeys, Conforms, Shaped, Measures, Dimensions;
    if vs != [] {
      var (dims, cur) := Expected(fs[0].kind, inner);
      ConformsShaped(env, fs[0].kind, vs[0], dims, cur);
      ConformsShapedAll(env, fs[1..], vs[1..], inner);
    }
  }

  /** Unless map keys are arrays, every conforming value is shaped. */
  lemma {:induction false} ConformsShapedBlock(env: Env, b: Block, items: seq<Value>, dims: seq<nat>, cur: nat)
    requires PlainKeysEnv(env) && PlainKeysBlock(b) && ConformsBlock(env, b, items) && Measures(dims, cur, b, false)
    ensures ShapedBlock(env, b, items, dims, cur)
    decreases items, 3
  {
    hide PlainKeys, PlainKeysFields, ConformsAll, Conforms, Shaped, ShapedAll, SlotsMeasured, CodecDimensions,
      ElemFields, WfType;
    var fs := Fields(env, b, |items|);
    match b
    case BStruct(id) =>
      FieldsMeasured(fs, false);
      ConformsShapedAll(env, fs, items, None);
    case BArray(elem, _) =>
      ElemsMeasured(elem, |items|, dims, cur, false);
      ElemsPlain(elem, |items|);
      ConformsShapedAll(env, fs, items, Inner(b, dims, cur));
    case BMap(key, value) =>
      TwoConform(env, key, value, items);
      PlainArrays(key, value);
      ValuesMeasured(value, false);
      ConformsShaped(env, ArrayPointer(key), items[0], [0], 0);
      ConformsShaped(env, ArrayPointer(value), items[1], [0] + CodecDimensions(value), 0);
  }

  lemma ElemsPlain(elem: Type, n: nat)
    requires PlainKeys(elem)
    ensures PlainKeysFields(ElemFields(elem, 0, n))
  {
    hide PlainKeys;
    var fs := ElemFields(elem, 0, n);
    forall i | 0 <= i < |fs| ensures PlainKeys(fs[i].kind) {
      assert fs[i].kind == elem;
    }
  }

  lemma PlainArrays(key: Type, value: Type)
    requires PlainKeys(key) && PlainKeys(value)
    ensures PlainKeys(ArrayPointer(key)) && PlainKeys(ArrayPointer(value))
  {
    assert PlainKeysBlock(BArray(key, 0)) && PlainKeysBlock(BArray(value, 0));
  }

  lemma TwoConform(env: Env, key: Type, value: Type, items: seq<Value>)
    requires |items| == 2
    ensures ConformsAll(env, Fields(env, BMap(key, value), 2), items) <==>
      Conforms(env, ArrayPointer(key), items[0]) && Conforms(env, ArrayPointer(value), items[1])
  {
    hide Conforms;
    var fs := Fields(env, BMap(key, value), 2);
    assert fs[1..] == [Field(8, 0, ArrayPointer(value))] && items[1..] == [items[1]];
    assert fs[1..][1..] == [] && items[1..][1..] == [];
    assert ConformsAll(env, [], []);
  }

  // ---------------------------------------------------------------- shaped values conform

  lemma {:induction false} ShapedConforms(env: Env, t: Type, v: Value, dims: seq<nat>, cur: nat)
    requires ExactEnv(env) && Exact(t) && Shaped(env, t, v, dims, cur)
    requires t.TPtr? ==> Measures(dims, cur, t.target, true)
    ensures Conforms(env, t, v)
    decreases v, 1
  {
    hide ExactEnv, ExactBlock, ConformsBlock, ShapedBlock, Measures;
    if v.VBlock? && t.TPtr? { ShapedConformsBlock(env, t.target, v.items, dims, cur); }
  }

  lemma {:induction false} ShapedConformsAll(env: Env, fs: seq<Field>, vs: seq<Value>, inner: Option<(seq<nat>, nat)>)
    requires ExactEnv(env) && ExactFields(fs) && ShapedAll(env, fs, vs, inner) && SlotsMeasured(fs, inner, true)
    ensures ConformsAll(env, fs, vs)
    decreases vs, 2
  {
    hide ExactEnv, Exact, Conforms, Shaped, Measures, Dimensions;
    if vs != [] {
      var (dims, cur) := Expected(fs[0].kind, inner);
      ShapedConforms(env, fs[0].kind, vs[0], dims, cur);
      ShapedConformsAll(env, fs[1..], vs[1..], inner);
    }
  }

  /** If no length is forgotten, every shaped value conforms. */
  lemma {:induction false} ShapedConformsBlock(env: Env, b: Block, items: seq<Value>, dims: seq<nat>, cur: nat)
    requires ExactEnv(env) && ExactBlock(b) && ShapedBlock(env, b, items, dims, cur) && Measures(dims, cur, b, true)
    ensures ConformsBlock(env, b, items)
    decreases items, 3
  {
    hide Exact, ExactFields, ConformsAll, Conforms, Shaped, ShapedAll, SlotsMeasured, CodecDimensions, ElemFields,
      WfType, KeepsLengths;
    var fs := Fields(env, b, |items|);
    match b
    case BStruct(id) =>
      FieldsMeasured(fs, true);
      ShapedConformsAll(env, fs, items, None);
    case BArray(elem, _) =>
      ElemsMeasured(elem, |items|, dims, cur, true);
      ElemsExact(elem, |items|);
      ShapedConformsAll(env, fs, items, Inner(b, dims, cur));
    case BMap(key, value) =>
      ExactArrays(key, value);
      ValuesMeasured(value, true);
      ShapedConforms(env, ArrayPointer(key), items[0], [0], 0);
      ShapedConforms(env, ArrayPointer(value), items[1], [0] + CodecDimensions(value), 0);
      TwoConform(env, key, value, items);
  }

  lemma ElemsExact(elem: Type, n: nat)
    requires Exact(elem)
    ensures ExactFields(ElemFields(elem, 0, n))
  {
    hide Exact;
    var fs := ElemFields(elem, 0, n);
    forall i | 0 <= i < |fs| ensures Exact(fs[i].kind) {
      assert fs[i].kind == elem;
    }
  }

  lemma ExactArrays(key: Type, value: Type)
    requires Exact(key) && Exact(value)
    ensures Exact(ArrayPointer(key)) && Exact(ArrayPointer(value))
  {
    assert ExactBlock(BArray(key, 0)) && ExactBlock(BArray(value, 0));
  }
}
