/**
The Python deserializer on representations: it returns what the bytes represent, claiming memory in increasing order.
The reader's classes may be later or earlier versions of the writer's; an earlier version sees the fields that it has.
*/
module PythonReading {
  import opened Bytes
  import opened Wire
  import opened PythonLayout
  import opened PythonCodec
  import opened Versions
  import GoLayout
  import JsReading

  // ---------------------------------------------------------------- readers and writers

  /** The struct definitions that Python computes are well-formed and packed first fit. */
  lemma ClassesPacked(py: Classes)
    requires WfClasses(py)
    ensures GoLayout.PackedEnv(EnvOf(py))
  {
    var env := EnvOf(py);
    forall id | id in env ensures WfDef(env, env[id]) && GoLayout.Packed(0, 0, env[id].fields) {
      ClassPacked(py, id);
    }
  }

  lemma ClassPacked(py: Classes, id: nat)
    requires WfClasses(py) && id in py
    ensures WfDef(EnvOf(py), EnvOf(py)[id]) && GoLayout.Packed(0, 0, EnvOf(py)[id].fields)
  {
    hide WfGroup, GoLayout.Packed, FieldsOk, Layout;
    var env, groups := EnvOf(py), py[id];
    SizeIsAligned(env, groups, 0);
    PaddingIs(End(groups, 0), 8);
    LayoutInside(env, groups, 0, PayloadBytes(groups));
    LayoutPacked(env, groups, 0, 0, 0);
  }

  /** The fields that the classes have for the versions of the writer's structs. */
  function PicksOf(py: Classes, env: Env): Picks {
    map id | id in py && id in env :: Layout(GroupsFor(py[id], env[id].version), 0)
  }

  function SharedBy(py: Classes, env: Env): Env {
    Shared(PicksOf(py, env), env)
  }

  /** The reader's groups for the writer's version are fields of the writer's struct, in their places. */
  predicate ReadsStruct(py: Classes, env: Env, groups: seq<Group>, def: StructDef) {
    && (forall i | 0 <= i < |groups| :: WfGroup(SharedBy(py, env), groups[i]))
    && Sub(Layout(groups, 0), def.fields)
    && PayloadBytes(groups) <= def.size
  }

  /** Structs of a version that the reader knows have the size that it expects. */
  predicate Reads(py: Classes, env: Env) {
    forall id | id in py && id in env ::
      && ReadsStruct(py, env, GroupsFor(py[id], env[id].version), env[id])
      && (env[id].version <= Version(py[id]) ==> PayloadBytes(GroupsFor(py[id], env[id].version)) == env[id].size)
  }

  /** The reader knows every field of every struct. */
  predicate ReadsAll(py: Classes, env: Env) {
    Reads(py, env) && PicksAll(PicksOf(py, env), env)
  }

  /** `newer` are later versions of the classes `older`. */
  predicate Evolves(older: Classes, newer: Classes) {
    forall id | id in older ::
      && id in newer
      && Version(older[id]) <= Version(newer[id])
      && Filter(newer[id], Version(older[id])) == older[id]
  }

  lemma EvolvesSelf(py: Classes)
    requires WfClasses(py)
    ensures Evolves(py, py)
  {
    hide WfGroup, Filter, Version, PayloadBytes;
    forall id | id in py ensures Filter(py[id], Version(py[id])) == py[id] {
      assert WfGroups(EnvOf(py), py[id]);
      FilterOwn(EnvOf(py), py[id], Version(py[id]));
    }
  }

  lemma ReadsOlder(older: Classes, newer: Classes)
    requires WfClasses(older) && Evolves(older, newer)
    ensures ReadsAll(newer, EnvOf(older))
  {
    hide Layout, PayloadBytes, Filter, Version, WfGroup, Sub;
    var env := EnvOf(older);
    assert SharedBy(newer, env) == env;
    forall id | id in env ensures ReadsStruct(newer, env, GroupsFor(newer[id], env[id].version), env[id]) {
      assert WfGroups(env, older[id]);
      SubSelf(Layout(older[id], 0));
    }
  }

  /** `newer` adds fields to the classes `older` without moving the fields that were there. */
  predicate Extends(older: Classes, newer: Classes) {
    forall id | id in older && id in newer ::
      && ReadsStruct(older, EnvOf(newer), older[id], EnvOf(newer)[id])
      && Version(older[id]) <= Version(newer[id])
      && (Version(older[id]) == Version(newer[id]) ==> PayloadBytes(older[id]) == PayloadBytes(newer[id]))
  }

  lemma ReadsNewer(older: Classes, newer: Classes)
    requires Extends(older, newer)
    ensures Reads(older, EnvOf(newer))
  {
    hide Layout, PayloadBytes, Filter, Version, WfGroup, Sub;
    var env := EnvOf(newer);
    forall id | id in older && id in env ensures GroupsFor(older[id], env[id].version) == older[id] {
      assert ReadsStruct(older, env, older[id], env[id]);
      FilterOwn(SharedBy(older, env), older[id], Version(older[id]));
    }
  }

  // ---------------------------------------------------------------- fields that are appended

  lemma {:induction false} LayoutAppends(groups: seq<Group>, more: seq<Group>, index: nat)
    ensures Layout(groups + more, index) == Layout(groups, index) + Layout(more, End(groups, index))
    ensures End(groups + more, index) == End(more, End(groups, index))
    decreases |groups|
  {
    hide Aligned, GroupSize, GroupFields;
    if groups == [] {
      assert groups + more == more;
    } else {
      assert (groups + more)[1..] == groups[1..] + more;
      LayoutAppends(groups[1..], more, Aligned(index, groups[0]) + GroupSize(groups[0]));
    }
  }

  /** Groups appended to a struct move nothing and make it no smaller. */
  lemma AppendedReads(older: Classes, newer: Classes, id: nat, more: seq<Group>)
    requires id in older && id in newer && newer[id] == older[id] + more && WfClasses(newer)
    requires forall i | 0 <= i < |older[id]| :: WfGroup(SharedBy(older, EnvOf(newer)), older[id][i])
    ensures ReadsStruct(older, EnvOf(newer), older[id], EnvOf(newer)[id])
  {
    hide Layout, WfGroup, Sub, FieldsOk, Codes, CodesSize, End, Padding, SharedBy, Version;
    var env, groups := EnvOf(newer), older[id];
    LayoutAppends(groups, more, 0);
    SubPrefix(Layout(groups, 0), Layout(more, End(groups, 0)));
    assert WfGroups(env, newer[id]);
    forall i | 0 <= i < |more| ensures WfGroup(env, more[i]) { assert more[i] == newer[id][|groups| + i]; }
    LayoutInside(env, more, End(groups, 0), End(newer[id], 0));
    SizeIsAligned(SharedBy(older, env), groups, 0);
    SizeIsAligned(env, newer[id], 0);
    PaddedGrows(End(groups, 0), End(newer[id], 0));
  }

  lemma PaddedGrows(x: nat, y: nat)
    requires x <= y
    ensures x + Padding(x, 8) <= y + Padding(y, 8)
  {
  }

  // ---------------------------------------------------------------- claims

  /** Nothing from word `at` or handle `h` on is claimed, and what is claimed is in order. */
  predicate Before(c: Context, at: nat, h: nat) {
    c.memory <= 8 * at && c.handle <= h && InOrder(c.claims, c.memory)
  }

  lemma ClaimBefore(c: Context, at: nat, h: nat, size: nat, words: nat)
    requires Before(c, at, h) && 0 < size <= 8 * words
    ensures ClaimMemory(c, 8 * at, size).Ok? && Before(ClaimMemory(c, 8 * at, size).value, at + words, h)
  {
  }

  predicate SignedHandles(handles: seq<nat>, h: nat, hs: seq<nat>) {
    |handles| <= MAX_HANDLE && NextHandles(handles, h, hs)
  }

  // ---------------------------------------------------------------- the deserializer

  lemma HandleRead(c: Context, handles: seq<nat>, h: nat, v: Value, nullable: bool)
    requires v.VHandle? && (nullable || v.handle.Some?) && c.handle <= h && SignedHandles(handles, h, HandlesOf(v))
    ensures var r := DeserializeHandle(c, handles, SlotNumber(v, 0, 0, h), nullable);
      r == Ok((c.(handle := r.value.0.handle), v)) && r.value.0.handle <= h + |HandlesOf(v)|
  {
    JsReading.HandleAt(handles, h, v);
    if v.handle.Some? { assert HandlesOf(v) == [v.handle.value]; }
  }

  lemma {:induction false} SlotRead(py: Classes, env: Env, buf: seq<Byte>, handles: seq<nat>, c: Context, at: nat,
                                    e: nat, h: nat, f: Field, v: Value, generic: bool)
    requires Reads(py, env) && GoLayout.PackedEnv(env) && WfType(SharedBy(py, env), f.kind) && Conforms(env, f.kind, v)
    requires SignedHandles(handles, h, HandlesOf(v)) && Before(c, e, h) && c.memory <= |buf|
    requires RepSlot(env, buf, at, e, h, f, v) && f.offset % PointerAlign(f) == 0
    ensures var pos := 8 * at + HEADER_SIZE + f.offset;
      var r := DeserializeSlot(py, buf, handles, c, pos, f.bit, pos, f.kind, generic);
      && r.Ok? && r.value.1 == Seen(PicksOf(py, env), env, f.kind, v)
      && Before(r.value.0, e + ChildWords(env, f.kind, v), h + |HandlesOf(v)|)
    decreases v, 1
  {
    hide UintAt, Reads, GoLayout.PackedEnv, WfBlock, ConformsBlock, RepBlock, HandlesAll, DeserializeBlock, TotalWords,
      Layout, SeenBlock, Shared;
    var pos := 8 * at + HEADER_SIZE + f.offset;
    match f.kind
    case TBool => JsReading.ByteAt(buf, pos);
    case TUint(w) =>
    case THandle(nullable) => HandleRead(c, handles, h, v, nullable);
    case TInterface(nullable) =>
      HandleRead(c, handles, h, v, nullable);
      JsReading.HandleAt(handles, h, v);
      JsReading.InterfaceWords(buf, pos, SlotNumber(v, pos, e, h));
    case TPtr(_, b) => PointerRead(py, env, buf, handles, c, at, e, h, f, v, generic);
  }

  lemma {:induction false} PointerRead(py: Classes, env: Env, buf: seq<Byte>, handles: seq<nat>, c: Context, at: nat,
                                       e: nat, h: nat, f: Field, v: Value, generic: bool)
    requires Reads(py, env) && GoLayout.PackedEnv(env) && WfType(SharedBy(py, env), f.kind) && Conforms(env, f.kind, v)
    requires SignedHandles(handles, h, HandlesOf(v)) && Before(c, e, h) && c.memory <= |buf|
    requires RepSlot(env, buf, at, e, h, f, v) && f.offset % PointerAlign(f) == 0 && f.kind.TPtr?
    ensures var pos := 8 * at + HEADER_SIZE + f.offset;
      var r := DeserializeSlot(py, buf, handles, c, pos, f.bit, pos, f.kind, generic);
      && r.Ok? && r.value.1 == Seen(PicksOf(py, env), env, f.kind, v)
      && Before(r.value.0, e + ChildWords(env, f.kind, v), h + |HandlesOf(v)|)
    decreases v, 0
  {
    hide UintAt, Reads, GoLayout.PackedEnv, WfBlock, ConformsBlock, RepBlock, HandlesAll, DeserializeBlock, TotalWords,
      SeenBlock, SharedBy, PicksOf, PayloadSize, InOrder, ClaimMemory;
    var pos := 8 * at + HEADER_SIZE + f.offset;
    match f.kind
    case TPtr(_, b) =>
      if v.VBlock? {
        BlockHeader(env, buf, e, h, b, v.items);
        var size := HEADER_SIZE + PayloadSize(env, b, |v.items|);
        DistanceAligned(at, e, f.offset);
        ClaimBefore(c, e, h, size, BlockWords(env, b, |v.items|));
        BlockRead(py, env, buf, handles, ClaimMemory(c, 8 * e, size).value, e, h, b, v.items, generic);
      }
  }

  lemma DistanceAligned(at: nat, e: nat, offset: nat)
    requires offset % 8 == 0
    ensures (8 * e - (8 * at + HEADER_SIZE + offset)) % 8 == 0
  {
  }

  /** Pointers are aligned; nothing else needs to be. */
  function PointerAlign(f: Field): nat {
    if f.kind.TPtr? then 8 else 1
  }

  predicate PointersAligned(fs: seq<Field>) {
    forall i | 0 <= i < |fs| :: fs[i].offset % PointerAlign(fs[i]) == 0
  }

  lemma {:induction false} PackedAligns(offset: nat, bit: nat, fs: seq<Field>)
    requires GoLayout.Packed(offset, bit, fs)
    ensures PointersAligned(fs)
    decreases |fs|
  {
    if fs != [] {
      PackedAligns(GoLayout.NextOffset(fs[0]), GoLayout.NextBit(fs[0]), fs[1..]);
      forall i | 0 <= i < |fs| ensures fs[i].offset % PointerAlign(fs[i]) == 0 {
        if i > 0 { assert fs[i] == fs[1..][i - 1]; }
      }
    }
  }

  lemma BlockHeader(env: Env, buf: seq<Byte>, at: nat, h: nat, b: Block, items: seq<Value>)
    requires RepBlock(env, buf, at, h, b, items)
    ensures Holds(buf, 8 * at, 4, HEADER_SIZE + PayloadSize(env, b, |items|))
    ensures HEADER_SIZE + PayloadSize(env, b, |items|) <= 8 * BlockWords(env, b, |items|)
    ensures 8 * at + 8 * BlockWords(env, b, |items|) <= |buf|
  {
    hide UintAt, RepSlots, ChildrenWords, PayloadSize;
  }

  lemma BeforeWidens(c: Context, at: nat, h: nat, at': nat, h': nat)
    requires Before(c, at, h) && at <= at' && h <= h'
    ensures Before(c, at', h')
  {
  }

  /** The slots `fs` are there; `sub` are the ones that are read. */
  lemma {:induction false} SlotsRead(py: Classes, env: Env, buf: seq<Byte>, handles: seq<nat>, c: Context, at: nat,
                                     e: nat, h: nat, sub: seq<Field>, fs: seq<Field>, vs: seq<Value>, generic: bool)
    requires Reads(py, env) && GoLayout.PackedEnv(env) && Sub(sub, fs) && Known(SharedBy(py, env), sub) &&
      PointersAligned(fs)
    requires ConformsAll(env, fs, vs) && SignedHandles(handles, h, HandlesAll(vs)) && Before(c, e, h) &&
      c.memory <= |buf|
    requires RepSlots(env, buf, at, e, h, fs, vs)
    ensures var r := DeserializeSlots(py, buf, handles, c, 8 * at + HEADER_SIZE, sub, sub, generic);
      && r.Ok? && r.value.1 == SeenAll(PicksOf(py, env), env, sub, fs, vs)
      && Before(r.value.0, e + ChildrenWords(env, fs, vs), h + |HandlesAll(vs)|)
    decreases vs, 2
  {
    hide Reads, GoLayout.PackedEnv, WfType, Conforms, HandlesOf, RepSlot, ChildWords, NextHandles, DeserializeSlot,
      Before, PointerAlign, Seen, Shared;
    if sub == [] {
      BeforeWidens(c, e, h, e + ChildrenWords(env, fs, vs), h + |HandlesAll(vs)|);
    } else if sub[0] == fs[0] {
      var f, pos := fs[0], 8 * at + HEADER_SIZE + fs[0].offset;
      JsReading.SplitHandles(handles, h, vs);
      SlotRead(py, env, buf, handles, c, at, e, h, f, vs[0], generic);
      var c1 := DeserializeSlot(py, buf, handles, c, pos, f.bit, pos, f.kind, generic).value.0;
      var e1, h1 := e + ChildWords(env, f.kind, vs[0]), h + |HandlesOf(vs[0])|;
      SlotsRead(py, env, buf, handles, c1, at, e1, h1, sub[1..], fs[1..], vs[1..], generic);
    } else {
      JsReading.SplitHandles(handles, h, vs);
      var e1, h1 := e + ChildWords(env, fs[0].kind, vs[0]), h + |HandlesOf(vs[0])|;
      BeforeWidens(c, e, h, e1, h1);
      SlotsRead(py, env, buf, handles, c, at, e1, h1, sub, fs[1..], vs[1..], generic);
    }
  }

  /** A claimed block is read as far as the reader knows its type. */
  lemma {:induction false} BlockRead(py: Classes, env: Env, buf: seq<Byte>, handles: seq<nat>, c: Context, at: nat,
                                     h: nat, b: Block, items: seq<Value>, generic: bool)
    requires Reads(py, env) && GoLayout.PackedEnv(env) && WfBlock(SharedBy(py, env), b)
    requires ConformsBlock(env, b, items)
    requires SignedHandles(handles, h, HandlesAll(items))
    requires Before(c, at + BlockWords(env, b, |items|), h) && c.memory <= |buf|
    requires RepBlock(env, buf, at, h, b, items)
    ensures 8 * at + HEADER_SIZE <= |buf|
    ensures var r := DeserializeBlock(py, buf, handles, c, 8 * at, b, generic);
      && r.Ok? && r.value.1 == SeenBlock(PicksOf(py, env), env, b, items)
      && Before(r.value.0, at + TotalWords(env, b, items), h + |HandlesAll(items)|)
    decreases items, 3
  {
    hide UintAt, Reads, GoLayout.PackedEnv, ConformsAll, HandlesAll, RepSlots, ChildrenWords, NextHandles,
      DeserializeSlots, InOrder, ElemFields, PointersAligned, Layout, Version, PayloadBytes, BytesForBits, Formatted,
      Walked, SeenAll, Known, Sub, Shared, WfType, GroupsFor;
    var n := |items|;
    BlockAligned(env, b, n);
    ReadsPicks(py, env);
    BlockKnown(PicksOf(py, env), env, b, n);
    var sub, fs, e := Picked(PicksOf(py, env), env, b, n), Fields(env, b, n), at + BlockWords(env, b, n);
    SlotsRead(py, env, buf, handles, c, at, e, h, sub, fs, items, b.BMap?);
    match b
    case BStruct(id) => StructGroups(py, env, id);
    case BArray(elem, _) => if elem.TUint? { Counts(SharedBy(py, env), elem, n); }
    case BMap(_, _) => MapSeen(PicksOf(py, env), env, b, items);
  }

  lemma ReadsPicks(py: Classes, env: Env)
    requires Reads(py, env)
    ensures PicksFrom(PicksOf(py, env), env)
  {
    hide Layout, PayloadBytes, Sub, GroupsFor, Version, WfGroup, FieldsOk;
    var picks := PicksOf(py, env);
    forall id | id in picks && id in env ensures Known(Shared(picks, env), picks[id]) {
      var groups := GroupsFor(py[id], env[id].version);
      assert ReadsStruct(py, env, groups, env[id]);
      LayoutInside(Shared(picks, env), groups, 0, End(groups, 0));
      FieldsKnown(Shared(picks, env), Layout(groups, 0), End(groups, 0));
    }
  }

  lemma StructGroups(py: Classes, env: Env, id: nat)
    requires Reads(py, env) && id in env && id in py
    ensures var groups := GroupsFor(py[id], env[id].version);
      && Formatted(groups) == Walked(groups) == Layout(groups, 0)
      && PayloadBytes(groups) <= env[id].size
      && (env[id].version <= Version(py[id]) ==> PayloadBytes(groups) == env[id].size)
  {
    hide Layout, GroupsFor, Version, PayloadBytes, Formatted, Walked, WfGroup, Sub;
    var groups := GroupsFor(py[id], env[id].version);
    assert ReadsStruct(py, env, groups, env[id]);
    OneLayout(SharedBy(py, env), groups);
  }

  /** The bytes of an array of numbers count its elements. */
  lemma Counts(env: Env, elem: Type, n: nat)
    requires WfType(env, elem) && elem.TUint?
    ensures var size := BytesForBits(n * ElemBits(elem)); size % elem.width == 0 && size / elem.width == n
  {
    hide BytesForBits;
    var w := elem.width;
    assert n * ElemBits(elem) == 8 * (n * w);
    WholeBytes(n * w);
    Multiple(n, w);
  }

  lemma WholeBytes(n: nat)
    ensures BytesForBits(8 * n) == n
  {
  }

  lemma Multiple(n: nat, w: nat)
    requires w == 1 || w == 2 || w == 4 || w == 8
    ensures (n * w) % w == 0 && (n * w) / w == n
  {
    match w
    case 1 =>
    case 2 => assert n * 2 == 2 * n;
    case 4 => assert n * 4 == 4 * n;
    case 8 => assert n * 8 == 8 * n;
  }

  lemma BlockAligned(env: Env, b: Block, n: nat)
    requires GoLayout.PackedEnv(env) && WfBlock(env, b)
    ensures PointersAligned(Fields(env, b, n)) && WfEnv(env)
  {
    hide GoLayout.Packed;
    match b
    case BStruct(id) => PackedAligns(0, 0, env[id].fields);
    case BArray(elem, _) =>
      forall i | 0 <= i < n ensures ElemField(elem, i).offset % PointerAlign(ElemField(elem, i)) == 0 {
        if elem.TPtr? { assert (i * 8) % 8 == 0; }
      }
    case BMap(_, _) =>
  }

  /** In a root context: the reader's part of the items comes back, with memory claimed in increasing order. */
  lemma Deserializes(py: Classes, env: Env, buf: seq<Byte>, handles: seq<nat>, id: nat, items: seq<Value>)
    requires Reads(py, env) && GoLayout.PackedEnv(env) && id in py && ConformsBlock(env, BStruct(id), items)
    requires handles == HandlesAll(items) && |handles| <= MAX_HANDLE
    requires RepBlock(env, buf, 0, 0, BStruct(id), items)
    ensures var r := Deserialize(py, buf, handles, id);
      r.Ok? && r.value.1 == SeenBlock(PicksOf(py, env), env, BStruct(id), items) && InOrder(r.value.0.claims, |buf|)
  {
    hide UintAt, Reads, GoLayout.PackedEnv, ConformsAll, RepBlock, HandlesAll, DeserializeBlock, TotalWords,
      PayloadSize, InOrder, SeenBlock, PicksOf, SharedBy;
    RootKnown(py, env, id);
    BlockHeader(env, buf, 0, 0, BStruct(id), items);
    var size := HEADER_SIZE + PayloadSize(env, BStruct(id), |items|);
    FreshBefore();
    ClaimBefore(Fresh, 0, 0, size, BlockWords(env, BStruct(id), |items|));
    assert handles[0..0 + |handles|] == handles;
    BlockRead(py, env, buf, handles, ClaimMemory(Fresh, 0, size).value, 0, 0, BStruct(id), items, false);
    var c := Deserialize(py, buf, handles, id).value.0;
    OrderWidens(c.claims, c.memory, |buf|);
  }

  lemma RootKnown(py: Classes, env: Env, id: nat)
    requires id in py && id in env
    ensures WfBlock(SharedBy(py, env), BStruct(id))
  {
    hide Layout, GroupsFor;
  }

  lemma FreshBefore()
    ensures Before(Fresh, 0, 0)
  {
  }

  lemma OrderWidens(claims: seq<(nat, nat)>, limit: nat, limit': nat)
    requires InOrder(claims, limit) && limit <= limit'
    ensures InOrder(claims, limit')
  {
  }
}
