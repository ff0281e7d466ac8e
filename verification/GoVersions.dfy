/**
Generated Go decoders with their version tables.  A reader looks the version of a struct up in its table, checks the
size that the table says, and reads the fields that the version has; of a version behind its table it reads all that it
has.
*/
module GoVersions {
  import opened Bytes
  import opened Wire
  import opened GoArchive
  import opened GoLayout
  import opened GoDecoding
  import opened Versions
  import GoMessage

  /** A field and the version that introduced it. */
  datatype Member = Member(field: Field, since: nat)

  /** A generated struct: its table of sizes and versions, and its fields in packed order. */
  datatype Reader = Reader(versions: seq<Header>, members: seq<Member>)

  type Readers = map<nat, Reader>

  // ---------------------------------------------------------------- version tables

  /** `sort.Search`: the first entry with at least the given version, or the length. */
  function Search(table: seq<Header>, version: nat): (i: nat)
    ensures i <= |table| && (forall k | 0 <= k < i :: table[k].second < version)
    ensures i < |table| ==> table[i].second >= version
  {
    if table == [] || table[0].second >= version then 0 else 1 + Search(table[1..], version)
  }

  /** The header check of `Decode`. */
  function CheckHeader(table: seq<Header>, header: Header): Result<()> {
    var index := Search(table, header.second);
    if index == |table| then Ok(())
    else
      var at: int := if table[index].second > header.second then index - 1 else index;
      if at < 0 then Err(OutOfRange)
      else if table[at].size != header.size then Err(UnexpectedStructHeader)
      else Ok(())
  }

  /** What the generator emits: versions increase, from 0. */
  predicate WfTable(table: seq<Header>) {
    && table != [] && table[0].second == 0
    && forall i, k | 0 <= i < k < |table| :: table[i].second < table[k].second
  }

  /** Entry `i` is the one for the version. */
  predicate InForce(table: seq<Header>, version: nat, i: nat) {
    i < |table| && table[i].second <= version && (i + 1 < |table| ==> version < table[i + 1].second)
  }

  /** A header is accepted exactly if its version is behind the table, or its size is that of the last version in the
      table that is not later. */
  lemma CheckExactly(table: seq<Header>, header: Header)
    requires WfTable(table)
    ensures CheckHeader(table, header).Ok? <==>
      || header.second > table[|table| - 1].second
      || exists i: nat :: InForce(table, header.second, i) && table[i].size == header.size
  {
    var index := Search(table, header.second);
    if index < |table| {
      assert header.second <= table[index].second <= table[|table| - 1].second;
      var at: int := if table[index].second > header.second then index - 1 else index;
      assert at >= 0 && InForce(table, header.second, at);
      forall i: nat | InForce(table, header.second, i) ensures i == at {
        OneInForce(table, header.second, i, at);
      }
    }
  }

  lemma OneInForce(table: seq<Header>, version: nat, i: nat, k: nat)
    requires WfTable(table) && InForce(table, version, i) && InForce(table, version, k)
    ensures i == k
  {
  }

  /** The fields that a struct of the given version has. */
  function KnownTo(members: seq<Member>, version: nat): seq<Field>
    decreases |members|
  {
    if members == [] then []
    else (if members[0].since <= version then [members[0].field] else []) + KnownTo(members[1..], version)
  }

  // ---------------------------------------------------------------- the decoders

  /** Opens a block: the slots that are to be read. */
  function Open(rd: Readers, inp: Input, d: Dec, b: Block): (r: Result<(Dec, seq<Field>)>)
    ensures r.Ok? ==> d.end + HEADER_SIZE <= r.value.0.end <= |inp.buf|
  {
    match b
    case BStruct(id) =>
      var (d1, header) :- DecStartStruct(inp, d);
      if id !in rd then Err(UnexpectedStructHeader)
      else
        var _ :- CheckHeader(rd[id].versions, header);
        Ok((d1, KnownTo(rd[id].members, header.second)))
    case _ =>
      var (d1, n) :- DecOpen(map[], inp, d, b);
      Ok((d1, Fields(map[], b, n)))
  }

  function ReadSlot(rd: Readers, inp: Input, d: Dec, t: Type): (r: Result<(Dec, Value)>)
    requires d.end <= |inp.buf|
    ensures r.Ok? ==> d.end <= r.value.0.end <= |inp.buf|
    decreases |inp.buf| - d.end, 1, 0
  {
    match t
    case TPtr(nullable, b) =>
      var (d1, pointer) :- ReadPointer(inp, d);
      if pointer == 0 then (if nullable then Ok((d1, VNull)) else Err(UnexpectedNullPointer))
      else
        var (d2, items) :- ReadBlock(rd, inp, d1, b);
        Ok((d2, VBlock(items)))
    case _ => DecSlot(map[], inp, d, t)
  }

  function ReadSlots(rd: Readers, inp: Input, d: Dec, fs: seq<Field>): (r: Result<(Dec, seq<Value>)>)
    requires d.end <= |inp.buf|
    ensures r.Ok? ==> d.end <= r.value.0.end <= |inp.buf| && |r.value.1| == |fs|
    decreases |inp.buf| - d.end, 2, |fs|
  {
    if fs == [] then Ok((d, []))
    else
      var (d1, v) :- ReadSlot(rd, inp, d, fs[0].kind);
      var (d2, vs) :- ReadSlots(rd, inp, d1, fs[1..]);
      Ok((d2, [v] + vs))
  }

  function ReadBlock(rd: Readers, inp: Input, d: Dec, b: Block): (r: Result<(Dec, seq<Value>)>)
    requires d.end <= |inp.buf|
    ensures r.Ok? ==> d.end <= r.value.0.end <= |inp.buf|
    decreases |inp.buf| - d.end, 0, 0
  {
    var (d1, fs) :- Open(rd, inp, d, b);
    var (d2, items) :- ReadSlots(rd, inp, d1, fs);
    if b.BMap? && |items| == 2 && items[0].VBlock? && items[1].VBlock? && |items[0].items| != |items[1].items| then
      Err(DifferentSizedArraysInMap)
    else
      var d3 :- DecFinish(d2);
      Ok((d3, items))
  }

  // ---------------------------------------------------------------- readers and writers

  /** The fields that the reader has for the versions of the writer's structs. */
  function PicksOf(rd: Readers, env: Env): Picks {
    map id | id in rd && id in env :: KnownTo(rd[id].members, env[id].version)
  }

  /** The reader's fields are the writer's, in their places, and packed first fit among themselves. */
  predicate ReadsFrom(rd: Readers, env: Env) {
    && PicksFrom(PicksOf(rd, env), env)
    && forall id | id in rd && id in env :: Packed(0, 0, KnownTo(rd[id].members, env[id].version))
  }

  predicate Accepted(rd: Readers, env: Env, id: nat) {
    id in rd && id in env && CheckHeader(rd[id].versions, Header(HEADER_SIZE + env[id].size, env[id].version)).Ok?
  }

  /** The tables accept the block at word `at` and everything that is read below it, and the guard lets it through. */
  predicate ClearFor(rd: Readers, env: Env, at: nat, b: Block, items: seq<Value>)
    decreases items, 1
  {
    var n, fs := |items|, Fields(env, b, |items|);
    var sub, e := Picked(PicksOf(rd, env), env, b, n), at + BlockWords(env, b, n);
    && (b.BStruct? ==> Accepted(rd, env, b.id))
    && !(e % 2 == 1 && Tight(0, sub, PayloadSize(env, b, n), true))
    && ClearAllFor(rd, env, e, sub, fs, items)
  }

  predicate ClearSlotFor(rd: Readers, env: Env, e: nat, t: Type, v: Value)
    decreases v, 0
  {
    t.TPtr? && v.VBlock? ==> ClearFor(rd, env, e, t.target, v.items)
  }

  predicate ClearAllFor(rd: Readers, env: Env, e: nat, sub: seq<Field>, fs: seq<Field>, vs: seq<Value>)
    decreases vs, 0
  {
    sub == [] || fs == [] || vs == [] ||
    var e1 := e + ChildWords(env, fs[0].kind, vs[0]);
    if sub[0] == fs[0] then
      ClearSlotFor(rd, env, e, fs[0].kind, vs[0]) && ClearAllFor(rd, env, e1, sub[1..], fs[1..], vs[1..])
    else ClearAllFor(rd, env, e1, sub, fs[1..], vs[1..])
  }

  // ---------------------------------------------------------------- one slot

  /** Nothing from word `at` or handle `h` on is claimed. */
  predicate Before(d: Dec, at: nat, h: nat) {
    d.end <= 8 * at && d.nextHandle <= h
  }

  /** The next slot was read, as far as the reader knows its type. */
  predicate SlotSeen(rd: Readers, env: Env, d: Dec, at: nat, e: nat, h: nat, fld: Field, v: Value, r: (Dec, Value)) {
    && r.1 == Seen(PicksOf(rd, env), env, fld.kind, v)
    && Moved(d, at, fld, r.0)
    && Before(r.0, e + ChildWords(env, fld.kind, v), h + |HandlesOf(v)|)
  }

  lemma FlatSlot(rd: Readers, env: Env, inp: Input, d: Dec, t: Type)
    requires d.end <= |inp.buf| && !t.TPtr?
    ensures ReadSlot(rd, inp, d, t) == DecSlot(env, inp, d, t)
  {
    hide ReadUint, ReadBool, ReadHandle, ReadInterface;
  }

  lemma {:induction false} SlotFor(rd: Readers, env: Env, inp: Input, d: Dec, at: nat, e: nat, h: nat, fs: seq<Field>,
                                   size: nat, v: Value)
    requires ReadsFrom(rd, env) && PackedEnv(env) && AtSlots(env, inp, d, at, fs, size) && fs != []
    requires Conforms(env, fs[0].kind, v) && WfType(Shared(PicksOf(rd, env), env), fs[0].kind)
    requires Before(d, e, h) && NextHandles(inp.handles, h, HandlesOf(v)) && RepSlot(env, inp.buf, at, e, h, fs[0], v)
    ensures var r := ReadSlot(rd, inp, d, fs[0].kind);
      && (r.Ok? <==> !Stuck(Top(d.stack), fs[0], size, true) && ClearSlotFor(rd, env, e, fs[0].kind, v))
      && (r.Ok? ==> SlotSeen(rd, env, d, at, e, h, fs[0], v, r.value))
    decreases v, 1
  {
    hide DecSlot, ReadSlot, ClearFor, InFront, PackedEnv, ReadsFrom, NextHandles, RepSlot, ConformsBlock, WfBlock,
      PicksOf, Shared;
    if !fs[0].kind.TPtr? { FlatSlot(rd, env, inp, d, fs[0].kind); }
    match v
    case VBool(_) => BoolRead(env, inp, d, at, fs, size, e, h, v);
    case VUint(_) => UintSlotRead(env, inp, d, at, fs, size, e, h, v);
    case VHandle(_) =>
      NotWide(Top(d.stack), fs[0], size);
      if fs[0].kind.THandle? {
        HandleSlotRead(env, inp, d, at, fs, size, e, h, v);
      } else {
        InterfaceSlotRead(env, inp, d, at, fs, size, e, h, v);
      }
    case VNull => NullFor(rd, env, inp, d, at, e, h, fs, size, v);
    case VBlock(_) => PointerFor(rd, env, inp, d, at, e, h, fs, size, v);
  }

  lemma NullFor(rd: Readers, env: Env, inp: Input, d: Dec, at: nat, e: nat, h: nat, fs: seq<Field>, size: nat, v: Value)
    requires AtSlots(env, inp, d, at, fs, size) && fs != [] && fs[0].kind.TPtr? && v.VNull?
    requires RepSlot(env, inp.buf, at, e, h, fs[0], v) && Conforms(env, fs[0].kind, v)
    ensures var r := ReadSlot(rd, inp, d, fs[0].kind);
      && (r.Ok? <==> !Stuck(Top(d.stack), fs[0], size, true))
      && (r.Ok? ==> r.value.1 == v && Moved(d, at, fs[0], r.value.0) && r.value.0 == d.(stack := r.value.0.stack))
  {
    hide InFront, Stuck, Holds, ReadUint, ReadBlock;
    NumberRead(env, inp, d, at, fs, size, 0);
  }

  lemma {:induction false} PointerFor(rd: Readers, env: Env, inp: Input, d: Dec, at: nat, e: nat, h: nat,
                                      fs: seq<Field>, size: nat, v: Value)
    requires ReadsFrom(rd, env) && PackedEnv(env) && AtSlots(env, inp, d, at, fs, size) && fs != [] && v.VBlock?
    requires Conforms(env, fs[0].kind, v) && WfType(Shared(PicksOf(rd, env), env), fs[0].kind)
    requires Before(d, e, h) && NextHandles(inp.handles, h, HandlesOf(v)) && RepSlot(env, inp.buf, at, e, h, fs[0], v)
    ensures var r := ReadSlot(rd, inp, d, fs[0].kind);
      && (r.Ok? <==> !Stuck(Top(d.stack), fs[0], size, true) && ClearSlotFor(rd, env, e, fs[0].kind, v))
      && (r.Ok? ==> SlotSeen(rd, env, d, at, e, h, fs[0], v, r.value))
    decreases v, 0
  {
    hide ReadPointer, ReadBlock, ClearFor, InFront, PackedEnv, ReadsFrom, RepBlock, ConformsBlock, WfBlock, Holds,
      Stuck, TotalWords, HandlesAll, NextHandles, SeenBlock, PicksOf, Shared;
    var b, items := fs[0].kind.target, v.items;
    RepHasHeader(env, inp.buf, e, h, b, items);
    PointerRead(env, inp, d, at, fs, size, e);
    if ReadPointer(inp, d).Ok? {
      BlockFor(rd, env, inp, ReadPointer(inp, d).value.0, e, h, b, items);
    }
  }

  // ---------------------------------------------------------------- slots and blocks

  /** The slots `sub` were read. */
  predicate SlotsSeen(rd: Readers, env: Env, d: Dec, e: nat, h: nat, sub: seq<Field>, fs: seq<Field>, vs: seq<Value>,
                      r: (Dec, seq<Value>)) {
    && r.1 == SeenAll(PicksOf(rd, env), env, sub, fs, vs)
    && d.stack != [] && |r.0.stack| == |d.stack| && r.0.stack[..|d.stack| - 1] == d.stack[..|d.stack| - 1]
    && Top(r.0.stack).check == Top(d.stack).check && Top(r.0.stack).elements == Top(d.stack).elements
    && Top(r.0.stack).processed == Top(d.stack).processed + |sub|
    && Before(r.0, e + ChildrenWords(env, fs, vs), h + |HandlesAll(vs)|)
  }

  lemma BeforeWidens(d: Dec, at: nat, h: nat, at': nat, h': nat)
    requires Before(d, at, h) && at <= at' && h <= h'
    ensures Before(d, at', h')
  {
  }

  lemma SplitNext(handles: seq<nat>, h: nat, vs: seq<Value>)
    requires vs != [] && NextHandles(handles, h, HandlesAll(vs))
    ensures NextHandles(handles, h, HandlesOf(vs[0]))
    ensures NextHandles(handles, h + |HandlesOf(vs[0])|, HandlesAll(vs[1..]))
    ensures |HandlesAll(vs)| == |HandlesOf(vs[0])| + |HandlesAll(vs[1..])|
  {
    hide HandlesOf, HandlesAll;
    HandlesSplit(vs);
    SliceSplits(handles, h, HandlesOf(vs[0]), HandlesAll(vs[1..]));
  }

  /** The slots `fs` are there; `sub` are the ones that are to be read. */
  predicate Facing(rd: Readers, env: Env, inp: Input, d: Dec, at: nat, e: nat, h: nat, sub: seq<Field>, fs: seq<Field>,
                   size: nat, vs: seq<Value>) {
    && ReadsFrom(rd, env) && PackedEnv(env) && Sub(sub, fs) && Known(Shared(PicksOf(rd, env), env), sub)
    && AtSlots(env, inp, d, at, sub, size) && ConformsAll(env, fs, vs)
    && Before(d, e, h) && NextHandles(inp.handles, h, HandlesAll(vs)) && RepSlots(env, inp.buf, at, e, h, fs, vs)
  }

  lemma {:induction false} SlotsFor(rd: Readers, env: Env, inp: Input, d: Dec, at: nat, e: nat, h: nat,
                                    sub: seq<Field>, fs: seq<Field>, size: nat, vs: seq<Value>)
    requires Facing(rd, env, inp, d, at, e, h, sub, fs, size, vs)
    ensures d.stack != [] && d.end <= |inp.buf|
    ensures var r := ReadSlots(rd, inp, d, sub);
      && (r.Ok? <==>
        !(Top(d.stack).limit % 16 == 8 && Tight(Top(d.stack).bitOffset, sub, size, true)) &&
        ClearAllFor(rd, env, e, sub, fs, vs))
      && (r.Ok? ==> SlotsSeen(rd, env, d, e, h, sub, fs, vs, r.value))
    decreases vs, 3
  {
    hide *;
    if sub == [] {
      NoneFor(rd, env, inp, d, at, e, h, sub, fs, size, vs);
    } else {
      SomeThere(rd, env, inp, d, at, e, h, sub, fs, size, vs);
      if sub[0] == fs[0] {
        ReadFirst(rd, env, inp, d, at, e, h, sub, fs, size, vs);
      } else {
        SkipFirst(rd, env, inp, d, at, e, h, sub, fs, size, vs);
      }
    }
  }

  lemma SomeThere(rd: Readers, env: Env, inp: Input, d: Dec, at: nat, e: nat, h: nat, sub: seq<Field>, fs: seq<Field>,
                  size: nat, vs: seq<Value>)
    requires Facing(rd, env, inp, d, at, e, h, sub, fs, size, vs) && sub != []
    ensures fs != [] && vs != []
  {
    hide ReadsFrom, PackedEnv, Known, AtSlots, Before, NextHandles, RepSlots, Conforms;
  }

  lemma NoneFor(rd: Readers, env: Env, inp: Input, d: Dec, at: nat, e: nat, h: nat, sub: seq<Field>, fs: seq<Field>,
                size: nat, vs: seq<Value>)
    requires Facing(rd, env, inp, d, at, e, h, sub, fs, size, vs) && sub == []
    ensures d.stack != [] && d.end <= |inp.buf|
    ensures ReadSlots(rd, inp, d, sub) == Ok((d, [])) && SlotsSeen(rd, env, d, e, h, sub, fs, vs, (d, []))
    ensures !Tight(Top(d.stack).bitOffset, sub, size, true) && ClearAllFor(rd, env, e, sub, fs, vs)
  {
    hide ReadsFrom, PackedEnv, Known, InFront, Before, NextHandles, RepSlots, Conforms;
    BeforeWidens(d, e, h, e + ChildrenWords(env, fs, vs), h + |HandlesAll(vs)|);
  }

  lemma {:induction false} ReadFirst(rd: Readers, env: Env, inp: Input, d: Dec, at: nat, e: nat, h: nat,
                                     sub: seq<Field>, fs: seq<Field>, size: nat, vs: seq<Value>)
    requires Facing(rd, env, inp, d, at, e, h, sub, fs, size, vs) && sub != [] && fs != [] && sub[0] == fs[0]
    ensures d.stack != [] && d.end <= |inp.buf|
    ensures var r := ReadSlots(rd, inp, d, sub);
      && (r.Ok? <==>
        !(Top(d.stack).limit % 16 == 8 && Tight(Top(d.stack).bitOffset, sub, size, true)) &&
        ClearAllFor(rd, env, e, sub, fs, vs))
      && (r.Ok? ==> SlotsSeen(rd, env, d, e, h, sub, fs, vs, r.value))
    decreases vs, 2
  {
    hide ReadSlot, AtSlots, PackedEnv, ReadsFrom, RepSlot, ClearSlotFor, Conforms, WfType, HandlesOf, HandlesAll,
      ChildWords, NextHandles, Stuck, Seen, PicksOf, Shared, Before, SlotSeen;
    StackThere(env, inp, d, at, sub, size);
    SplitNext(inp.handles, h, vs);
    SlotFor(rd, env, inp, d, at, e, h, sub, size, vs[0]);
    StuckMeans(Top(d.stack), sub[0], size);
    var r := ReadSlot(rd, inp, d, sub[0].kind);
    if r.Ok? {
      NextFor(rd, env, inp, d, at, e, h, sub, size, vs[0], r.value);
      var e1, h1 := e + ChildWords(env, fs[0].kind, vs[0]), h + |HandlesOf(vs[0])|;
      SlotsFor(rd, env, inp, r.value.0, at, e1, h1, sub[1..], fs[1..], size, vs[1..]);
    }
  }

  lemma {:induction false} SkipFirst(rd: Readers, env: Env, inp: Input, d: Dec, at: nat, e: nat, h: nat,
                                     sub: seq<Field>, fs: seq<Field>, size: nat, vs: seq<Value>)
    requires Facing(rd, env, inp, d, at, e, h, sub, fs, size, vs) && sub != [] && fs != [] && sub[0] != fs[0]
    ensures d.stack != [] && d.end <= |inp.buf|
    ensures var r := ReadSlots(rd, inp, d, sub);
      && (r.Ok? <==>
        !(Top(d.stack).limit % 16 == 8 && Tight(Top(d.stack).bitOffset, sub, size, true)) &&
        ClearAllFor(rd, env, e, sub, fs, vs))
      && (r.Ok? ==> SlotsSeen(rd, env, d, e, h, sub, fs, vs, r.value))
    decreases vs, 2
  {
    hide ReadSlots, AtSlots, PackedEnv, ReadsFrom, RepSlot, Tight, Conforms, Known, HandlesOf, HandlesAll, ChildWords,
      NextHandles, Seen, PicksOf, Before;
    var e1, h1 := e + ChildWords(env, fs[0].kind, vs[0]), h + |HandlesOf(vs[0])|;
    SplitNext(inp.handles, h, vs);
    BeforeWidens(d, e, h, e1, h1);
    SlotsFor(rd, env, inp, d, at, e1, h1, sub, fs[1..], size, vs[1..]);
  }

  lemma StackThere(env: Env, inp: Input, d: Dec, at: nat, fs: seq<Field>, size: nat)
    requires AtSlots(env, inp, d, at, fs, size)
    ensures d.stack != [] && d.end <= |inp.buf|
  {
  }

  /** Behind a slot that was read, the decoder is in front of the rest. */
  lemma NextFor(rd: Readers, env: Env, inp: Input, d: Dec, at: nat, e: nat, h: nat, fs: seq<Field>, size: nat, v: Value,
                r: (Dec, Value))
    requires AtSlots(env, inp, d, at, fs, size) && fs != [] && r.0.end <= |inp.buf|
    requires SlotSeen(rd, env, d, at, e, h, fs[0], v, r)
    ensures AtSlots(env, inp, r.0, at, fs[1..], size)
    ensures r.0.stack == SetTop(d.stack, Passed(Top(d.stack), at, fs[0]))
    ensures r.1 == Seen(PicksOf(rd, env), env, fs[0].kind, v)
    ensures Before(r.0, e + ChildWords(env, fs[0].kind, v), h + |HandlesOf(v)|)
  {
    hide InFront, Seen, PicksOf, Before;
    InFrontOfRest(env, Top(d.stack), at, fs, size);
  }

  lemma OpenFor(rd: Readers, env: Env, inp: Input, d: Dec, at: nat, h: nat, b: Block, items: seq<Value>)
    requires PackedEnv(env) && ConformsBlock(env, b, items) && d.end == 8 * at && (b.BStruct? ==> b.id in rd)
    requires RepBlock(env, inp.buf, at, h, b, items)
    ensures var r := Open(rd, inp, d, b);
      && (r.Ok? <==> b.BStruct? ==> Accepted(rd, env, b.id))
      && (r.Ok? ==> Opened(env, inp, d, at, b, |items|, r.value.0) &&
                    r.value.1 == Picked(PicksOf(rd, env), env, b, |items|))
  {
    hide RepSlots, ConformsAll, WfEnv, ElemFields, UintAt, CheckHeader, KnownTo;
    RepHasRoom(env, inp.buf, at, h, b, items);
    OpenBlock(env, inp, d, at, h, b, items);
  }

  lemma {:induction false} PickedOk(env: Env, sub: seq<Field>, fs: seq<Field>, size: nat)
    requires Sub(sub, fs) && FieldsOk(env, fs, size)
    ensures FieldsOk(env, sub, size)
  {
    forall i | 0 <= i < |sub| ensures FieldOk(env, sub[i], size) {
      SubMembers(sub, fs, i);
    }
  }

  /** The frame that was just pushed for a block is in front of the slots that are read. */
  lemma InFrontOfPicked(rd: Readers, env: Env, b: Block, items: seq<Value>, at: nat)
    requires ReadsFrom(rd, env) && PackedEnv(env) && ConformsBlock(env, b, items)
    requires WfBlock(Shared(PicksOf(rd, env), env), b)
    ensures var n := |items|;
      var sub, size := Picked(PicksOf(rd, env), env, b, n), PayloadSize(env, b, n);
      InFront(env, Frame(8 * at + HEADER_SIZE, 0, 8 * at + HEADER_SIZE + size,
                         if b.BArray? then SecondWord(env, b, n) else 0, 0, b.BArray?), at, sub, size)
  {
    hide WfType, FieldsOk, Packed, ShapeOk, Sub, KnownTo, ConformsAll;
    var n := |items|;
    InFrontOfBlock(env, b, items, at, 8 * at + HEADER_SIZE + PayloadSize(env, b, n), b.BArray?);
    if b.BStruct? {
      BlockFieldsOk(env, b, n);
      PickedOk(env, PicksOf(rd, env)[b.id], env[b.id].fields, env[b.id].size);
      assert WfDef(env, env[b.id]);
    }
  }

  /** For the limits of the decoder, which exclude padding. */
  lemma OddLimitFor(rd: Readers, env: Env, b: Block, n: nat, at: nat)
    requires PackedEnv(env) && WfBlock(env, b)
    ensures var size, be := PayloadSize(env, b, n), at + BlockWords(env, b, n);
      var tight := Tight(0, Picked(PicksOf(rd, env), env, b, n), size, true);
      ((8 * at + HEADER_SIZE + size) % 16 == 8 && tight) <==> (be % 2 == 1 && tight)
  {
    hide Tight, Fields, PicksOf, PackedEnv, WfBlock;
    PackedIsWf(env);
    if b.BArray? {
      OddLimit(env, b, n, at);
    } else {
      var size, be := PayloadSize(env, b, n), at + BlockWords(env, b, n);
      WholeWords(env, b, n);
      assert 8 * at + HEADER_SIZE + size == 8 * be;
      OddWord(be);
    }
  }

  /** The main result: on bytes that represent a value, a reader of any version succeeds exactly if its tables accept
      the headers and the guard lets it through, and then it returns the part of the value that it has fields for. */
  lemma {:induction false} BlockFor(rd: Readers, env: Env, inp: Input, d: Dec, at: nat, h: nat, b: Block,
                                    items: seq<Value>)
    requires ReadsFrom(rd, env) && PackedEnv(env) && ConformsBlock(env, b, items)
    requires WfBlock(Shared(PicksOf(rd, env), env), b)
    requires d.end == 8 * at <= |inp.buf| && d.nextHandle <= h && NextHandles(inp.handles, h, HandlesAll(items))
    requires RepBlock(env, inp.buf, at, h, b, items)
    ensures var r := ReadBlock(rd, inp, d, b);
      && (r.Ok? <==> ClearFor(rd, env, at, b, items))
      && (r.Ok? ==>
        && r.value.1 == SeenBlock(PicksOf(rd, env), env, b, items)
        && r.value.0.stack == d.stack
        && Before(r.value.0, at + TotalWords(env, b, items), h + |HandlesAll(items)|))
    decreases items, 4
  {
    hide Open, ReadSlots, DecFinish, Opened, AtSlots, PackedEnv, ReadsFrom, RepSlots, ClearAllFor, ConformsAll,
      HandlesAll, ChildrenWords, Tight, Holds, Fields, PayloadSize, SecondWord, WfBlock, NextHandles, SeenAll, PicksOf,
      Shared, Picked, Sub, Known;
    var n, fs, size := |items|, Fields(env, b, |items|), PayloadSize(env, b, |items|);
    var sub, be := Picked(PicksOf(rd, env), env, b, n), at + BlockWords(env, b, n);
    PicksKnown(rd, env, b, n);
    OpenFor(rd, env, inp, d, at, h, b, items);
    OddLimitFor(rd, env, b, n, at);
    PartsOfBlock(env, b, items);
    var o := Open(rd, inp, d, b);
    if o.Ok? {
      StartFor(rd, env, inp, d, at, h, b, items, o.value.0);
      SlotsFor(rd, env, inp, o.value.0, at, be, h, sub, fs, size, items);
      var r := ReadSlots(rd, inp, o.value.0, sub);
      if r.Ok? { FinishFor(rd, env, inp, d, at, h, b, items, o.value.0, r.value); }
    }
  }

  /** A block that was just opened is in front of the slots that are read. */
  lemma StartFor(rd: Readers, env: Env, inp: Input, d: Dec, at: nat, h: nat, b: Block, items: seq<Value>, d1: Dec)
    requires ReadsFrom(rd, env) && PackedEnv(env) && ConformsBlock(env, b, items)
    requires WfBlock(Shared(PicksOf(rd, env), env), b) && d.nextHandle <= h
    requires Opened(env, inp, d, at, b, |items|, d1)
    ensures AtSlots(env, inp, d1, at, Picked(PicksOf(rd, env), env, b, |items|), PayloadSize(env, b, |items|))
    ensures Before(d1, at + BlockWords(env, b, |items|), h)
    ensures Top(d1.stack).bitOffset == 0
    ensures Top(d1.stack).limit == 8 * at + HEADER_SIZE + PayloadSize(env, b, |items|)
  {
    hide ReadsFrom, PackedEnv, ConformsBlock, WfBlock, InFront, Picked, PicksOf, PayloadSize, SecondWord;
    InFrontOfPicked(rd, env, b, items, at);
  }

  /** The checks behind the slots of a block succeed. */
  lemma FinishFor(rd: Readers, env: Env, inp: Input, d: Dec, at: nat, h: nat, b: Block, items: seq<Value>, d1: Dec,
                  r: (Dec, seq<Value>))
    requires ConformsBlock(env, b, items) && Opened(env, inp, d, at, b, |items|, d1)
    requires var fs, sub := Fields(env, b, |items|), Picked(PicksOf(rd, env), env, b, |items|);
      SlotsSeen(rd, env, d1, at + BlockWords(env, b, |items|), h, sub, fs, items, r)
    ensures b.BMap? ==> |r.1| == 2 && r.1[0].VBlock? && r.1[1].VBlock? && |r.1[0].items| == |r.1[1].items|
    ensures DecFinish(r.0) == Ok(r.0.(stack := d.stack))
  {
    hide ConformsAll, HandlesAll, ChildrenWords, Fields, PayloadSize, SeenAll, PicksOf, Picked, WfBlock;
    assert r.0.stack[..|d.stack|] == d.stack;
    if b.BMap? { MapSeen(PicksOf(rd, env), env, b, items); }
    if b.BArray? {
      AllElements(rd, env, b, items);
      PartsOfBlock(env, b, items);
    }
  }

  lemma PicksKnown(rd: Readers, env: Env, b: Block, n: nat)
    requires ReadsFrom(rd, env) && WfBlock(Shared(PicksOf(rd, env), env), b)
    ensures var sub := Picked(PicksOf(rd, env), env, b, n);
      Sub(sub, Fields(env, b, n)) && Known(Shared(PicksOf(rd, env), env), sub)
    ensures b.BStruct? ==> b.id in rd
  {
    hide Sub, Known, KnownTo, Fields, Packed;
    BlockKnown(PicksOf(rd, env), env, b, n);
  }

  lemma AllElements(rd: Readers, env: Env, b: Block, items: seq<Value>)
    requires b.BArray?
    ensures |Picked(PicksOf(rd, env), env, b, |items|)| == |items|
  {
  }

  // ---------------------------------------------------------------- readers that have every field

  predicate AcceptsAll(rd: Readers, env: Env) {
    forall id | id in env :: Accepted(rd, env, id)
  }

  lemma {:induction false} ClearSame(rd: Readers, env: Env, e: nat, fs: seq<Field>, vs: seq<Value>)
    requires PicksAll(PicksOf(rd, env), env) && AcceptsAll(rd, env) && ConformsAll(env, fs, vs)
    ensures ClearAllFor(rd, env, e, fs, fs, vs) <==> ClearSlots(env, e, fs, vs, true)
    decreases vs, 2
  {
    hide PicksAll, PicksOf, AcceptsAll, ClearFor, ClearBlock, ChildWords;
    if vs != [] {
      if vs[0].VBlock? && fs[0].kind.TPtr? {
        ClearsOwn(rd, env, e, fs[0].kind.target, vs[0].items);
      }
      ClearSame(rd, env, e + ChildWords(env, fs[0].kind, vs[0]), fs[1..], vs[1..]);
    }
  }

  /** A reader that has every field and accepts every header meets the condition of a reader of the same version. */
  lemma {:induction false} ClearsOwn(rd: Readers, env: Env, at: nat, b: Block, items: seq<Value>)
    requires PicksAll(PicksOf(rd, env), env) && AcceptsAll(rd, env) && ConformsBlock(env, b, items)
    ensures ClearFor(rd, env, at, b, items) <==> ClearBlock(env, at, b, items, true)
    decreases items, 3
  {
    hide PicksOf, Accepted, ClearAllFor, ClearSlots, ConformsAll, Tight;
    ClearSame(rd, env, at + BlockWords(env, b, |items|), Fields(env, b, |items|), items);
  }

  // ---------------------------------------------------------------- earlier and later versions

  function FieldsOf(members: seq<Member>): seq<Field>
    decreases |members|
  {
    if members == [] then [] else [members[0].field] + FieldsOf(members[1..])
  }

  lemma {:induction false} KnowsAll(members: seq<Member>, version: nat)
    requires forall i | 0 <= i < |members| :: members[i].since <= version
    ensures KnownTo(members, version) == FieldsOf(members)
    decreases |members|
  {
    if members != [] { KnowsAll(members[1..], version); }
  }

  /** The writer's struct is of a later version than any that the reader knows, with the reader's fields in place. */
  predicate Outgrown(picks: Picks, env: Env, r: Reader, def: StructDef) {
    && WfTable(r.versions)
    && (forall i | 0 <= i < |r.members| :: r.members[i].since <= r.versions[|r.versions| - 1].second)
    && r.versions[|r.versions| - 1].second < def.version
    && Sub(FieldsOf(r.members), def.fields) && Packed(0, 0, FieldsOf(r.members))
    && Known(Shared(picks, env), FieldsOf(r.members))
  }

  /** An earlier reader accepts what a later writer wrote, whatever its size, and has all its fields for it. */
  lemma EarlierReads(rd: Readers, env: Env)
    requires forall id | id in rd && id in env :: Outgrown(PicksOf(rd, env), env, rd[id], env[id])
    ensures ReadsFrom(rd, env)
    ensures forall id | id in rd && id in env ::
      Accepted(rd, env, id) && PicksOf(rd, env)[id] == FieldsOf(rd[id].members)
  {
    hide Sub, Packed, Known, Shared;
    forall id | id in rd && id in env
      ensures Accepted(rd, env, id) && KnownTo(rd[id].members, env[id].version) == FieldsOf(rd[id].members)
    {
      var r, header := rd[id], Header(HEADER_SIZE + env[id].size, env[id].version);
      assert Outgrown(PicksOf(rd, env), env, r, env[id]);
      KnowsAll(r.members, env[id].version);
      CheckExactly(r.versions, header);
    }
  }

  /** The writer's version is in the reader's table, and its fields are the reader's of that version. */
  predicate Covers(r: Reader, def: StructDef) {
    && WfTable(r.versions) && Header(HEADER_SIZE + def.size, def.version) in r.versions
    && KnownTo(r.members, def.version) == def.fields
  }

  /** A later reader accepts what an earlier writer wrote, and has every field of it. */
  lemma LaterReads(rd: Readers, env: Env)
    requires PackedEnv(env) && forall id | id in env :: id in rd && Covers(rd[id], env[id])
    ensures ReadsFrom(rd, env) && AcceptsAll(rd, env) && PicksAll(PicksOf(rd, env), env)
  {
    hide Packed, KnownTo, FieldsOk, Sub, CheckHeader;
    var picks := PicksOf(rd, env);
    assert Shared(picks, env) == env;
    forall id | id in env
      ensures Accepted(rd, env, id) && Sub(env[id].fields, env[id].fields) && Known(env, env[id].fields)
    {
      var r, header := rd[id], Header(HEADER_SIZE + env[id].size, env[id].version);
      var i :| 0 <= i < |r.versions| && r.versions[i] == header;
      assert InForce(r.versions, header.second, i);
      CheckExactly(r.versions, header);
      SubSelf(env[id].fields);
      assert WfDef(env, env[id]);
      FieldsKnown(env, env[id].fields, env[id].size);
    }
  }

  // ---------------------------------------------------------------- messages

  /** `Message.DecodePayload` by a reader of any version. */
  function DecodePayload(rd: Readers, m: GoMessage.Message, id: nat): Result<seq<Value>> {
    var (_, items) :- ReadBlock(rd, Input(m.payload, m.handles), NewDec, BStruct(id));
    Ok(items)
  }

  /** Whoever wrote the message, in whatever version. */
  lemma PayloadFor(rd: Readers, env: Env, m: GoMessage.Message, id: nat, items: seq<Value>)
    requires ReadsFrom(rd, env) && id in rd && PackedEnv(env) && ConformsBlock(env, BStruct(id), items)
    requires GoMessage.RepMessage(env, m, id, items) && |m.handles| <= INVALID_HANDLE
    ensures var r := DecodePayload(rd, m, id);
      && (r.Ok? <==> ClearFor(rd, env, 0, BStruct(id), items))
      && (r.Ok? ==> r.value == SeenBlock(PicksOf(rd, env), env, BStruct(id), items))
  {
    hide ReadBlock, ReadsFrom, PackedEnv, ConformsAll, ClearFor, RepBlock, TotalWords, HandlesAll, SeenBlock;
    var words := GoMessage.HeaderWords(m.header);
    PackedIsWf(env);
    RepBlockMoves(env, m.bytes, m.payload, words, words, 0, BStruct(id), items);
    assert m.handles[0..0 + |m.handles|] == m.handles;
    BlockFor(rd, env, Input(m.payload, m.handles), NewDec, 0, 0, BStruct(id), items);
  }

  /** A later reader decodes what an earlier writer wrote, exactly where a reader of the same version does. */
  lemma LaterDecodes(rd: Readers, env: Env, m: GoMessage.Message, id: nat, items: seq<Value>)
    requires PackedEnv(env) && (forall i | i in env :: i in rd && Covers(rd[i], env[i]))
    requires ConformsBlock(env, BStruct(id), items) && GoMessage.RepMessage(env, m, id, items)
    requires |m.handles| <= INVALID_HANDLE
    ensures var r := DecodePayload(rd, m, id);
      && (r.Ok? <==> ClearBlock(env, 0, BStruct(id), items, true))
      && (r.Ok? ==> r.value == items)
  {
    hide PackedEnv, Covers, DecodePayload, ReadsFrom, AcceptsAll, PicksAll, ConformsAll, ClearFor, ClearBlock,
      SeenBlock, GoMessage.RepMessage;
    LaterReads(rd, env);
    PayloadFor(rd, env, m, id, items);
    ClearsOwn(rd, env, 0, BStruct(id), items);
    SeesBlock(PicksOf(rd, env), env, BStruct(id), items);
  }

  /** Go to Go, across versions: what is encoded and parsed is decoded exactly if it is clear for the reader. */
  lemma AcrossVersions(rd: Readers, env: Env, h: GoMessage.MessageHeader, id: nat, items: seq<Value>)
    requires GoMessage.Sendable(env, h, id, items) && GoMessage.ParsableFlags(h.flags) && ReadsFrom(rd, env) && id in rd
    ensures var r := GoMessage.EncodeMessage(env, h, id, items);
      && (r.Ok? <==> ClearBlock(env, GoMessage.HeaderWords(h), BStruct(id), items, false))
      && (r.Ok? ==>
        var p := GoMessage.ParseMessage(r.value.bytes, r.value.handles);
        && p.Ok? && p.value.header == GoMessage.ParsedHeader(h)
        && var d := DecodePayload(rd, p.value, id);
        && (d.Ok? <==> ClearFor(rd, env, 0, BStruct(id), items))
        && (d.Ok? ==> d.value == SeenBlock(PicksOf(rd, env), env, BStruct(id), items)))
  {
    hide GoMessage.EncodeMessage, GoMessage.ParseMessage, DecodePayload, ReadsFrom, PackedEnv, ConformsBlock,
      ClearBlock, ClearFor, RepBlock, TotalWords, HandlesAll, GoMessage.ParsableFlags, SeenBlock;
    GoMessage.EncodesMessage(env, h, id, items);
    var r := GoMessage.EncodeMessage(env, h, id, items);
    if r.Ok? {
      GoMessage.ParsesMessage(env, r.value, id, items);
      var p := GoMessage.ParseMessage(r.value.bytes, r.value.handles).value;
      GoMessage.ParsedRep(env, r.value, p, id, items);
      PayloadFor(rd, env, p, id, items);
    }
  }

  // ---------------------------------------------------------------- an earlier reader that is refused

  const Flag := Field(0, 0, TBool)
  const Level := Field(1, 0, TUint(1))
  const Name := Field(8, 0, TPtr(true, BArray(TUint(1), 0)))

  /** Version 1 of `{bool flag; string? name;}` adds a number in the padding. */
  const Later: Env := map[0 := StructDef(16, 1, [Flag, Level, Name])]
  const Earlier: Readers := map[0 := Reader([Header(24, 0)], [Member(Flag, 0), Member(Name, 0)])]

  /** The later reader reads this struct, and the earlier one meets the guard's wrong refusal. */
  lemma EarlierIsRefused()
    ensures Outgrown(PicksOf(Earlier, Later), Later, Earlier[0], Later[0])
    ensures var items := [VBool(true), VUint(7), VNull];
      ClearBlock(Later, 0, BStruct(0), items, true) && !ClearFor(Earlier, Later, 0, BStruct(0), items)
  {
    EarlierFields();
    EarlierTight();
    LaterClear();
    assert WfBlock(Shared(PicksOf(Earlier, Later), Later), BArray(TUint(1), 0));
  }

  lemma EarlierFields()
    ensures FieldsOf(Earlier[0].members) == KnownTo(Earlier[0].members, 1) == [Flag, Name]
    ensures Sub([Flag, Name], Later[0].fields) && Packed(0, 0, [Flag, Name])
  {
    var members := Earlier[0].members;
    assert members[1..] == [Member(Name, 0)] && members[1..][1..] == [];
    assert FieldsOf([Member(Name, 0)]) == KnownTo([Member(Name, 0)], 1) == [Name];
    var fs, sub := Later[0].fields, [Flag, Name];
    assert fs[1..] == [Level, Name] && fs[1..][1..] == [Name] && sub[1..] == [Name] && [Name][1..] == [];
    assert Sub([Name], [Name]) && Sub([Name], [Level, Name]);
    assert Packed(16, 0, []) && Packed(0, 1, [Name]);
  }

  lemma EarlierTight()
    ensures Tight(0, [Flag, Name], 16, true)
  {
    assert [Flag, Name][1..] == [Name];
    assert Tight(1, [Name], 16, true);
  }

  lemma LaterClear()
    ensures ClearBlock(Later, 0, BStruct(0), [VBool(true), VUint(7), VNull], true)
  {
    var fs, vs := Later[0].fields, [VBool(true), VUint(7), VNull];
    assert fs[1..] == [Level, Name] && fs[1..][1..] == [Name] && [Name][1..] == [];
    assert vs[1..] == [VUint(7), VNull] && vs[1..][1..] == [VNull] && [VNull][1..] == [];
    assert !Tight(0, [], 16, true) && !Tight(0, [Name], 16, true) && !Tight(1, [Level, Name], 16, true);
    assert ClearSlots(Later, 3, [], [], true) && ClearSlots(Later, 3, [Name], [VNull], true);
    assert ClearSlots(Later, 3, [Level, Name], [VUint(7), VNull], true);
  }
}
