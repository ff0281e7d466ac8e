/**
The archive format itself: schemas, values, the layout of a block, and the relation that says when a
byte buffer represents a value.  No encoder or decoder is mentioned here; the codecs of the other
modules are proved against `RepBlock`.
*/
module Wire {
  import opened Bytes
  import opened Collections


  // ---------------------------------------------------------------- schemas and values

  /** The kind of one slot of a block.  An enum is `TUint(4)`; a string is a pointer to an array of `TUint(1)`. */
  datatype Type =
    | TBool
    | TUint(width: nat)
    | THandle(nullable: bool)
    | TInterface(nullable: bool)
    | TPtr(nullable: bool, target: Block)

  /** What a pointer leads to.  `fixed` is 0 for arrays of any length.  Structs are named, so they may be recursive. */
  datatype Block =
    | BStruct(id: nat)
    | BArray(elem: Type, fixed: nat)
    | BMap(key: Type, value: Type)

  /** A slot and its place in the payload of a block, as the packer computes it. */
  datatype Field = Field(offset: nat, bit: nat, kind: Type)

  /** Payload size in bytes (without the header), version, and the fields in packed order. */
  datatype StructDef = StructDef(size: nat, version: nat, fields: seq<Field>)

  type Env = map<nat, StructDef>

  /** A map value is a block of two blocks, the keys and the values. */
  datatype Value =
    | VBool(b: bool)
    | VUint(n: nat)
    | VHandle(handle: Option<nat>)
    | VNull
    | VBlock(items: seq<Value>)

  const HEADER_SIZE := 8
  const INVALID_HANDLE := 0xFFFF_FFFF
  const TWO_32 := 0x1_0000_0000
  const TWO_64 := 0x1_0000_0000_0000_0000

  // ---------------------------------------------------------------- layout

  function Align(t: Type): nat {
    match t
    case TBool => 1
    case TUint(w) => w
    case THandle(_) => 4
    case TInterface(_) => 4
    case TPtr(_, _) => 8
  }

  function SlotBytes(t: Type): nat {
    match t
    case TBool => 1
    case TUint(w) => w
    case THandle(_) => 4
    case TInterface(_) => 8
    case TPtr(_, _) => 8
  }

  function BytesForBits(bits: nat): nat {
    (bits + 7) / 8
  }

  function ElemBits(t: Type): nat {
    if t.TBool? then 1 else 8 * SlotBytes(t)
  }

  /** Element `i` of an array: bools are packed bit by bit, everything else lies side by side. */
  function ElemField(elem: Type, i: nat): Field {
    if elem.TBool? then Field(i / 8, i % 8, elem) else Field(i * SlotBytes(elem), 0, elem)
  }

  /** Elements `from` to `to` of an array. */
  function ElemFields(elem: Type, from: nat, to: nat): seq<Field>
    requires from <= to
  {
    seq(to - from, i requires 0 <= i < to - from => ElemField(elem, from + i))
  }

  /** The slots of a block with `n` items. */
  function Fields(env: Env, b: Block, n: nat): seq<Field> {
    match b
    case BStruct(id) => if id in env then env[id].fields else []
    case BArray(elem, _) => ElemFields(elem, 0, n)
    case BMap(key, value) => [Field(0, 0, TPtr(false, BArray(key, 0))), Field(8, 0, TPtr(false, BArray(value, 0)))]
  }

  /** The bytes between a block's header and its end, before the block is padded to a multiple of 8. */
  function PayloadSize(env: Env, b: Block, n: nat): nat {
    match b
    case BStruct(id) => if id in env then env[id].size else 0
    case BArray(elem, _) => BytesForBits(n * ElemBits(elem))
    case BMap(_, _) => 16
  }

  /** The second header word: the version of a struct, the length of an array. */
  function SecondWord(env: Env, b: Block, n: nat): nat {
    match b
    case BStruct(id) => if id in env then env[id].version else 0
    case BArray(_, _) => n
    case BMap(_, _) => 0
  }

  /** The size of a block by itself in 8-byte words; blocks start and end at word boundaries. */
  function BlockWords(env: Env, b: Block, n: nat): nat {
    (HEADER_SIZE + PayloadSize(env, b, n) + 7) / 8
  }

  // ---------------------------------------------------------------- well-formed schemas, conforming values

  predicate WfType(env: Env, t: Type) {
    match t
    case TUint(w) => w == 1 || w == 2 || w == 4 || w == 8
    case TPtr(_, b) => WfBlock(env, b)
    case _ => true
  }

  predicate WfBlock(env: Env, b: Block) {
    match b
    case BStruct(id) => id in env
    case BArray(elem, _) => WfType(env, elem)
    case BMap(key, value) => WfType(env, key) && WfType(env, value)
  }

  predicate FieldOk(env: Env, f: Field, size: nat) {
    && WfType(env, f.kind)
    && f.offset + SlotBytes(f.kind) <= size
    && f.bit < 8
    && (f.kind.TBool? || f.bit == 0)
  }

  predicate FieldsOk(env: Env, fs: seq<Field>, size: nat) {
    forall i | 0 <= i < |fs| :: FieldOk(env, fs[i], size)
  }

  /** Struct sizes are multiples of 8 and the fields lie inside. */
  predicate WfDef(env: Env, def: StructDef) {
    && def.size % 8 == 0
    && HEADER_SIZE + def.size < TWO_32
    && def.version < TWO_32
    && FieldsOk(env, def.fields, def.size)
  }

  predicate WfEnv(env: Env) {
    forall id | id in env :: WfDef(env, env[id])
  }

  /** The parts of conformance that concern the block as a whole. */
  predicate ShapeOk(env: Env, b: Block, items: seq<Value>) {
    match b
    case BStruct(id) => id in env
    case BArray(elem, fixed) =>
      && |items| < TWO_32
      && HEADER_SIZE + PayloadSize(env, b, |items|) < TWO_32
      && (fixed != 0 ==> |items| == fixed)
    case BMap(_, _) =>
      && |items| == 2
      && items[0].VBlock? && items[1].VBlock?
      && |items[0].items| == |items[1].items|
  }

  predicate Conforms(env: Env, t: Type, v: Value)
    decreases v, 0
  {
    match t
    case TBool => v.VBool?
    case TUint(w) => v.VUint? && v.n < Pow256(w)
    case THandle(nullable) => v.VHandle? && (nullable || v.handle.Some?)
    case TInterface(nullable) => v.VHandle? && (nullable || v.handle.Some?)
    case TPtr(nullable, b) => (v.VNull? && nullable) || (v.VBlock? && ConformsBlock(env, b, v.items))
  }

  predicate ConformsBlock(env: Env, b: Block, items: seq<Value>)
    decreases items, 1
  {
    WfBlock(env, b) && ShapeOk(env, b, items) && ConformsAll(env, Fields(env, b, |items|), items)
  }

  predicate ConformsAll(env: Env, fs: seq<Field>, vs: seq<Value>)
    decreases vs, 0
  {
    && |fs| == |vs|
    && (vs != [] ==> Conforms(env, fs[0].kind, vs[0]) && ConformsAll(env, fs[1..], vs[1..]))
  }

  // ---------------------------------------------------------------- sizes and handles of a value

  /** The words of a block and of everything it points to. */
  function TotalWords(env: Env, b: Block, items: seq<Value>): nat
    decreases items, 1
  {
    BlockWords(env, b, |items|) + ChildrenWords(env, Fields(env, b, |items|), items)
  }

  function ChildWords(env: Env, t: Type, v: Value): nat
    decreases v, 0
  {
    if t.TPtr? && v.VBlock? then TotalWords(env, t.target, v.items) else 0
  }

  function ChildrenWords(env: Env, fs: seq<Field>, vs: seq<Value>): nat
    decreases vs, 0
  {
    if fs == [] || vs == [] then 0
    else ChildWords(env, fs[0].kind, vs[0]) + ChildrenWords(env, fs[1..], vs[1..])
  }

  /** The handles of a value in the order in which a depth-first walk meets them. */
  function HandlesOf(v: Value): seq<nat>
    decreases v, 0
  {
    match v
    case VHandle(Some(h)) => [h]
    case VBlock(items) => HandlesAll(items)
    case _ => []
  }

  function HandlesAll(vs: seq<Value>): seq<nat>
    decreases vs, 0
  {
    if vs == [] then [] else HandlesOf(vs[0]) + HandlesAll(vs[1..])
  }

  // ---------------------------------------------------------------- representation

  predicate Holds(buf: seq<Byte>, at: nat, width: nat, n: nat) {
    at + width <= |buf| && UintAt(buf, at, width) == n
  }

  /**
  The number in a non-bool slot at byte `at`.  Handles are numbered from `h`; a pointer leads to word `e` and is
  relative to its own slot.  An interface slot is a handle word followed by a version word, which is always 0.
  */
  function SlotNumber(v: Value, at: nat, e: nat, h: nat): nat {
    match v
    case VUint(n) => n
    case VHandle(Some(_)) => h
    case VHandle(None) => INVALID_HANDLE
    case VBlock(_) => if at < 8 * e then 8 * e - at else 0
    case _ => 0
  }

  /** Field `f` of the block at word `at` holds `v`; the block it points to, if any, is at word `e`. */
  predicate RepSlot(env: Env, buf: seq<Byte>, at: nat, e: nat, h: nat, f: Field, v: Value)
    decreases v, 2
  {
    var pos := 8 * at + HEADER_SIZE + f.offset;
    if f.kind.TBool? then
      v.VBool? && pos < |buf| && Bit(buf[pos], f.bit) == v.b
    else
      && Holds(buf, pos, SlotBytes(f.kind), SlotNumber(v, pos, e, h))
      && (v.VBlock? ==> f.kind.TPtr? && pos < 8 * e && RepBlock(env, buf, e, h, f.kind.target, v.items))
  }

  predicate RepSlots(env: Env, buf: seq<Byte>, at: nat, e: nat, h: nat, fs: seq<Field>, vs: seq<Value>)
    decreases vs, 2
  {
    && |fs| == |vs|
    && (vs != [] ==>
      && RepSlot(env, buf, at, e, h, fs[0], vs[0])
      && RepSlots(env, buf, at, e + ChildWords(env, fs[0].kind, vs[0]), h + |HandlesOf(vs[0])|, fs[1..], vs[1..]))
  }

  /** `buf` represents a block at word `at`: header, slots, and then the blocks they point to, in order. */
  predicate RepBlock(env: Env, buf: seq<Byte>, at: nat, h: nat, b: Block, items: seq<Value>)
    decreases items, 3
  {
    && 8 * at + 8 * TotalWords(env, b, items) <= |buf|
    && Holds(buf, 8 * at, 4, HEADER_SIZE + PayloadSize(env, b, |items|))
    && Holds(buf, 8 * at + 4, 4, SecondWord(env, b, |items|))
    && RepSlots(env, buf, at, at + BlockWords(env, b, |items|), h, Fields(env, b, |items|), items)
  }

  /** From handle `h` on, the handles that came with the bytes are `hs`. */
  predicate NextHandles(handles: seq<nat>, h: nat, hs: seq<nat>) {
    |handles| <= INVALID_HANDLE && h + |hs| <= |handles| && handles[h..h + |hs|] == hs
  }

  // ---------------------------------------------------------------- facts about the layout

  lemma HeaderFits(env: Env, b: Block, items: seq<Value>)
    requires WfEnv(env) && ConformsBlock(env, b, items)
    ensures WfBlock(env, b) && ConformsAll(env, Fields(env, b, |items|), items)
    ensures HEADER_SIZE + PayloadSize(env, b, |items|) < TWO_32 && SecondWord(env, b, |items|) < TWO_32
    ensures b.BArray? ==> SecondWord(env, b, |items|) == |items|
  {
    hide ConformsAll, FieldsOk;
    if b.BStruct? {
      assert WfDef(env, env[b.id]);
    }
  }

  /** The elements of an array lie inside it. */
  lemma ElemFieldOk(env: Env, elem: Type, i: nat, n: nat)
    requires WfType(env, elem) && i < n
    ensures FieldOk(env, ElemField(elem, i), BytesForBits(n * ElemBits(elem)))
  {
    if !elem.TBool? {
      var w := SlotBytes(elem);
      assert n * (8 * w) == 8 * (n * w);
      assert (i + 1) * w <= n * w;
      assert (i + 1) * w == i * w + w;
    }
  }

  /** The slots of every block lie inside its payload. */
  lemma BlockFieldsOk(env: Env, b: Block, n: nat)
    requires WfEnv(env) && WfBlock(env, b)
    ensures FieldsOk(env, Fields(env, b, n), PayloadSize(env, b, n))
  {
    match b
    case BStruct(id) => assert WfDef(env, env[id]);
    case BArray(elem, _) =>
      forall i | 0 <= i < n
        ensures FieldOk(env, Fields(env, b, n)[i], PayloadSize(env, b, n))
      {
        ElemFieldOk(env, elem, i, n);
      }
    case BMap(key, value) =>
      MapFieldOk(env, 0, key);
      MapFieldOk(env, 8, value);
  }

  lemma MapFieldOk(env: Env, offset: nat, elem: Type)
    requires WfType(env, elem) && offset <= 8
    ensures FieldOk(env, Field(offset, 0, TPtr(false, BArray(elem, 0))), 16)
  {
    assert WfBlock(env, BArray(elem, 0));
  }

  // ---------------------------------------------------------------- moving a representation to another buffer

  /** `moved` holds, `words` words further down (or up, if negative), what `buf` holds in `[lo, hi)`. */
  predicate Agree(buf: seq<Byte>, moved: seq<Byte>, lo: nat, hi: nat, words: int) {
    && 8 * words <= lo
    && hi <= |buf|
    && hi - 8 * words <= |moved|
    && forall i | lo <= i < hi :: buf[i] == moved[i - 8 * words]
  }

  lemma HoldsMoves(buf: seq<Byte>, moved: seq<Byte>, lo: nat, hi: nat, words: int, at: nat, width: nat, n: nat)
    requires Agree(buf, moved, lo, hi, words) && lo <= at && at + width <= hi
    requires Holds(buf, at, width, n)
    ensures Holds(moved, at - 8 * words, width, n)
  {
    assert moved[at - 8 * words..at - 8 * words + width] == buf[at..at + width];
  }

  /** A representation only depends on the block's own bytes and on relative positions. */
  lemma {:induction false} RepBlockMoves(env: Env, buf: seq<Byte>, moved: seq<Byte>, words: int, at: nat, h: nat,
                                         b: Block, items: seq<Value>)
    requires WfEnv(env) && ConformsBlock(env, b, items) && words <= at
    requires Agree(buf, moved, 8 * at, 8 * at + 8 * TotalWords(env, b, items), words)
    requires RepBlock(env, buf, at, h, b, items)
    ensures RepBlock(env, moved, at - words, h, b, items)
    decreases items, 1
  {
    hide UintAt, RepSlots, ConformsAll, ChildrenWords, FieldsOk;
    var n, fs := |items|, Fields(env, b, |items|);
    var lo, hi := 8 * at, 8 * at + 8 * TotalWords(env, b, items);
    HoldsMoves(buf, moved, lo, hi, words, lo, 4, HEADER_SIZE + PayloadSize(env, b, n));
    HoldsMoves(buf, moved, lo, hi, words, lo + 4, 4, SecondWord(env, b, n));
    BlockFieldsOk(env, b, n);
    RepSlotsMove(env, buf, moved, words, hi, at, at + BlockWords(env, b, n), h, fs, items, PayloadSize(env, b, n));
  }

  lemma {:induction false} RepSlotsMove(env: Env, buf: seq<Byte>, moved: seq<Byte>, words: int, hi: nat, at: nat,
                                        e: nat, h: nat, fs: seq<Field>, vs: seq<Value>, size: nat)
    requires WfEnv(env) && FieldsOk(env, fs, size) && ConformsAll(env, fs, vs) && words <= at <= e
    requires Agree(buf, moved, 8 * at, hi, words)
    requires 8 * at + HEADER_SIZE + size <= hi && 8 * e + 8 * ChildrenWords(env, fs, vs) <= hi
    requires RepSlots(env, buf, at, e, h, fs, vs)
    ensures RepSlots(env, moved, at - words, e - words, h, fs, vs)
    decreases vs, 0
  {
    hide RepSlot, Conforms, ChildWords, HandlesOf, Agree, WfEnv, FieldOk;
    if vs != [] {
      RepSlotMoves(env, buf, moved, words, hi, at, e, h, fs[0], vs[0], size);
      RepSlotsMove(env, buf, moved, words, hi, at, e + ChildWords(env, fs[0].kind, vs[0]), h + |HandlesOf(vs[0])|,
                   fs[1..], vs[1..], size);
    }
  }

  lemma {:induction false} RepSlotMoves(env: Env, buf: seq<Byte>, moved: seq<Byte>, words: int, hi: nat, at: nat,
                                        e: nat, h: nat, f: Field, v: Value, size: nat)
    requires WfEnv(env) && FieldOk(env, f, size) && Conforms(env, f.kind, v) && words <= at <= e
    requires Agree(buf, moved, 8 * at, hi, words)
    requires 8 * at + HEADER_SIZE + size <= hi && 8 * e + 8 * ChildWords(env, f.kind, v) <= hi
    requires RepSlot(env, buf, at, e, h, f, v)
    ensures RepSlot(env, moved, at - words, e - words, h, f, v)
    decreases v, 0
  {
    hide UintAt, RepBlock, ConformsBlock, TotalWords, WfEnv, WfBlock, HandlesAll;
    if !f.kind.TBool? {
      var pos := 8 * at + HEADER_SIZE + f.offset;
      HoldsMoves(buf, moved, 8 * at, hi, words, pos, SlotBytes(f.kind), SlotNumber(v, pos, e, h));
      if v.VBlock? {
        RepBlockMoves(env, buf, moved, words, e, h, f.kind.target, v.items);
      }
    }
  }
}
