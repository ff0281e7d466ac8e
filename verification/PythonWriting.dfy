/** The Python serializer writes representations. */
module PythonWriting {
  import opened Bytes
  import opened Wire
  import opened PythonLayout
  import opened PythonCodec
  import GoLayout
  import JsCodec
  import JsReading
  import JsWriting

  // ---------------------------------------------------------------- what is to be packed

  /** The number to pack for a value in the slot at byte `pos`. */
  function Number(v: Value, pos: nat, e: nat, h: nat): nat {
    if v.VBool? then (if v.b then 1 else 0) else SlotNumber(v, pos, e, h)
  }

  predicate Entries(env: Env, at: nat, e: nat, h: nat, fs: seq<Field>, vs: seq<Value>, entries: seq<nat>)
    decreases |vs|
  {
    && |fs| == |vs| == |entries|
    && (vs != [] ==>
      && entries[0] == Number(vs[0], 8 * at + HEADER_SIZE + fs[0].offset, e, h)
      && Entries(env, at, e + ChildWords(env, fs[0].kind, vs[0]), h + |HandlesOf(vs[0])|, fs[1..], vs[1..],
        entries[1..]))
  }

  /** The blocks that the slots point to are in place from word `e` on. */
  predicate Kids(env: Env, buf: seq<Byte>, e: nat, h: nat, fs: seq<Field>, vs: seq<Value>)
    decreases |vs|
  {
    && |fs| == |vs|
    && (vs != [] ==>
      && Kid(env, buf, e, h, fs[0].kind, vs[0])
      && Kids(env, buf, e + ChildWords(env, fs[0].kind, vs[0]), h + |HandlesOf(vs[0])|, fs[1..], vs[1..]))
  }

  predicate Kid(env: Env, buf: seq<Byte>, e: nat, h: nat, t: Type, v: Value) {
    v.VBlock? ==> t.TPtr? && RepBlock(env, buf, e, h, t.target, v.items)
  }

  lemma KidMoves(env: Env, buf: seq<Byte>, buf': seq<Byte>, e: nat, h: nat, t: Type, v: Value, end: nat)
    requires WfEnv(env) && Conforms(env, t, v) && Kid(env, buf, e, h, t, v)
    requires Agree(buf, buf', 8 * e, end, 0) && 8 * (e + ChildWords(env, t, v)) <= end
    ensures Kid(env, buf', e, h, t, v)
  {
    hide RepBlock, ConformsBlock, TotalWords;
    if v.VBlock? {
      RepBlockMoves(env, buf, buf', 0, e, h, t.target, v.items);
    }
  }

  lemma {:induction false} KidsMove(env: Env, buf: seq<Byte>, buf': seq<Byte>, e: nat, h: nat, fs: seq<Field>,
                                    vs: seq<Value>, end: nat)
    requires WfEnv(env) && ConformsAll(env, fs, vs) && Kids(env, buf, e, h, fs, vs)
    requires Agree(buf, buf', 8 * e, end, 0) && 8 * (e + ChildrenWords(env, fs, vs)) <= end
    ensures Kids(env, buf', e, h, fs, vs)
    decreases |vs|
  {
    hide Conforms, ChildWords, HandlesOf, Kid;
    if vs != [] {
      KidMoves(env, buf, buf', e, h, fs[0].kind, vs[0], end);
      KidsMove(env, buf, buf', e + ChildWords(env, fs[0].kind, vs[0]), h + |HandlesOf(vs[0])|, fs[1..], vs[1..], end);
    }
  }

  // ---------------------------------------------------------------- appending

  /** The schema that the classes stand for. */
  ghost predicate Schema(py: Classes, env: Env) {
    WfClasses(py) && env == EnvOf(py) && GoLayout.PackedEnv(env)
  }

  /** Enough room in 64-bit pointers and 31-bit handle numbers. */
  predicate Room(e: nat, words: nat, handles: nat) {
    8 * (e + words) < TWO_64 && handles <= MAX_HANDLE
  }

  lemma {:induction false} SlotSerialized(py: Classes, env: Env, data: seq<Byte>, at: nat, e: nat, h: nat, f: Field,
                                          v: Value, size: nat)
    requires Schema(py, env) && FieldOk(env, f, size) && Conforms(env, f.kind, v)
    requires |data| == 8 * e && 8 * at + HEADER_SIZE + size <= 8 * e &&
      Room(e, ChildWords(env, f.kind, v), h + |HandlesOf(v)|)
    ensures var pos := 8 * at + HEADER_SIZE + f.offset;
      var r := SerializeSlot(py, data, f.kind, v, 8 * e - pos, h);
      && r.Ok? && r.value.0 == Number(v, pos, e, h)
      && data <= r.value.1.data && |r.value.1.data| == 8 * (e + ChildWords(env, f.kind, v))
      && r.value.1.handles == HandlesOf(v)
      && Kid(env, r.value.1.data, e, h, f.kind, v)
    decreases v, 1
  {
    hide Schema, WfBlock, RepBlock, ConformsBlock, HandlesAll, SerializeInto, TotalWords, Pow256;
    match v
    case VBlock(items) => BlockSerialized(py, env, data, e, h, f.kind, items);
    case _ =>
  }

  lemma {:induction false} BlockSerialized(py: Classes, env: Env, data: seq<Byte>, e: nat, h: nat, t: Type,
                                           items: seq<Value>)
    requires Schema(py, env) && t.TPtr? && Conforms(env, t, VBlock(items))
    requires |data| == 8 * e && Room(e, TotalWords(env, t.target, items), h + |HandlesAll(items)|)
    ensures t.target.BArray? ==> t.target.fixed == 0 || t.target.fixed == |items|
    ensures var r := SerializeInto(py, if t.target.BArray? then data else [], t.target, items, h);
      && r.Ok?
      && var all := if t.target.BArray? then r.value.data else data + r.value.data;
      && data <= all && |all| == 8 * (e + TotalWords(env, t.target, items))
      && r.value.handles == HandlesAll(items)
      && RepBlock(env, all, e, h, t.target, items)
    decreases items, 4
  {
    hide WfClasses, EnvOf, GoLayout.PackedEnv, RepBlock, ConformsAll, HandlesAll, SerializeInto, TotalWords, WfBlock;
    var b := t.target;
    if b.BArray? {
      IntoSerialized(py, env, data, e, b, items, h);
    } else {
      IntoSerialized(py, env, [], 0, b, items, h);
      var fresh' := SerializeInto(py, [], b, items, h).value.data;
      GoLayout.PackedIsWf(env);
      var down: int := 0 - e;
      RepBlockMoves(env, fresh', data + fresh', down, 0, h, b, items);
    }
  }

  lemma {:induction false} SlotsSerialized(py: Classes, env: Env, data: seq<Byte>, at: nat, e: nat, h: nat,
                                           fs: seq<Field>, vs: seq<Value>, size: nat)
    requires Schema(py, env) && FieldsOk(env, fs, size) && ConformsAll(env, fs, vs)
    requires |data| == 8 * e && 8 * at + HEADER_SIZE + size <= 8 * e &&
      Room(e, ChildrenWords(env, fs, vs), h + |HandlesAll(vs)|)
    ensures var r := SerializeSlots(py, data, 8 * at + HEADER_SIZE, fs, vs, h);
      && r.Ok? && Entries(env, at, e, h, fs, vs, r.value.0)
      && data <= r.value.1.data && |r.value.1.data| == 8 * (e + ChildrenWords(env, fs, vs))
      && r.value.1.handles == HandlesAll(vs)
      && Kids(env, r.value.1.data, e, h, fs, vs)
    decreases vs, 2
  {
    hide WfClasses, EnvOf, GoLayout.PackedEnv, FieldsOk, FieldOk, Conforms, ConformsAll, HandlesOf, HandlesAll,
      ChildWords, ChildrenWords, Kid, Kids, Entries, SerializeSlot, Number;
    JsWriting.ConformsLengths(env, fs, vs);
    if vs == [] {
      NoneSerialized(env, data, at, e, h, fs, vs);
    } else {
      var f, v := fs[0], vs[0];
      var pos, e1 := 8 * at + HEADER_SIZE + f.offset, e + ChildWords(env, f.kind, v);
      FirstAndRest(env, fs, vs, size);
      SlotSerialized(py, env, data, at, e, h, f, v, size);
      var (entry, out) := SerializeSlot(py, data, f.kind, v, 8 * e - pos, h).value;
      SlotsSerialized(py, env, out.data, at, e1, h + |HandlesOf(v)|, fs[1..], vs[1..], size);
      var (entries, rest) := SerializeSlots(py, out.data, 8 * at + HEADER_SIZE, fs[1..], vs[1..],
        h + |out.handles|).value;
      OneMore(env, data, out.data, rest.data, at, e, h, fs, vs, entry, entries);
    }
  }

  lemma NoneSerialized(env: Env, data: seq<Byte>, at: nat, e: nat, h: nat, fs: seq<Field>, vs: seq<Value>)
    requires vs == [] && fs == []
    ensures Entries(env, at, e, h, fs, vs, []) && Kids(env, data, e, h, fs, vs)
    ensures ChildrenWords(env, fs, vs) == 0 && HandlesAll(vs) == []
  {
  }

  lemma FirstAndRest(env: Env, fs: seq<Field>, vs: seq<Value>, size: nat)
    requires FieldsOk(env, fs, size) && ConformsAll(env, fs, vs) && vs != [] && fs != []
    ensures FieldOk(env, fs[0], size) && FieldsOk(env, fs[1..], size) && fs[0].offset <= size
    ensures Conforms(env, fs[0].kind, vs[0]) && ConformsAll(env, fs[1..], vs[1..])
    ensures ChildrenWords(env, fs, vs) == ChildWords(env, fs[0].kind, vs[0]) + ChildrenWords(env, fs[1..], vs[1..])
    ensures HandlesAll(vs) == HandlesOf(vs[0]) + HandlesAll(vs[1..])
  {
    hide WfType, Conforms, ChildWords, HandlesOf, SlotBytes;
    assert FieldOk(env, fs[0], size);
  }

  lemma OneMore(env: Env, data: seq<Byte>, mid: seq<Byte>, all: seq<Byte>, at: nat, e: nat, h: nat, fs: seq<Field>,
                vs: seq<Value>, entry: nat, entries: seq<nat>)
    requires GoLayout.PackedEnv(env) && |fs| == |vs| && vs != [] && Conforms(env, fs[0].kind, vs[0])
    requires data <= mid <= all
    requires var e1, h1 := e + ChildWords(env, fs[0].kind, vs[0]), h + |HandlesOf(vs[0])|;
      && |mid| == 8 * e1 && Kid(env, mid, e, h, fs[0].kind, vs[0])
      && Entries(env, at, e1, h1, fs[1..], vs[1..], entries) && Kids(env, all, e1, h1, fs[1..], vs[1..])
    requires entry == Number(vs[0], 8 * at + HEADER_SIZE + fs[0].offset, e, h)
    ensures Entries(env, at, e, h, fs, vs, [entry] + entries) && Kids(env, all, e, h, fs, vs) && data <= all
  {
    hide GoLayout.PackedEnv, Conforms, HandlesOf, ChildWords, Kid, Number;
    GoLayout.PackedIsWf(env);
    assert Agree(mid, all, 8 * e, |mid|, 0);
    KidMoves(env, mid, all, e, h, fs[0].kind, vs[0], |mid|);
    assert ([entry] + entries)[1..] == entries;
  }

  // ---------------------------------------------------------------- packing

  lemma PutHolds(data: seq<Byte>, at: nat, width: nat, n: nat)
    requires at + width <= |data| && n < Pow256(width)
    ensures Holds(Put(data, at, width, n), at, width, n)
    ensures JsWriting.Kept(data, Put(data, at, width, n), |data|, at, at + width)
  {
    hide UintAt, Pow256;
    PutThenGet(data, at, width, n);
  }

  /** Bools of one byte have consecutive bits, and what follows is packed behind them. */
  lemma {:induction false} RunBits(offset: nat, bit: nat, fs: seq<Field>, k: nat)
    requires GoLayout.Packed(offset, bit, fs) && fs != [] && fs[0].kind.TBool? && k == JsCodec.BoolRun(fs)
    requires forall i | 0 <= i < |fs| :: fs[i].bit < 8
    ensures forall i | 0 <= i < k :: fs[i].bit == bit + i
    ensures exists o, b :: GoLayout.Packed(o, b, fs[k..]) && (b == 0 || k == |fs| || !fs[k].kind.TBool?)
    decreases |fs|
  {
    assert fs[0].bit == bit && fs[0].offset == offset;
    if k > 1 {
      var rest := fs[1..];
      assert rest[0] == fs[1];
      assert bit != 7;
      assert GoLayout.Packed(offset, bit + 1, rest);
      RunBits(offset, bit + 1, rest, k - 1);
      forall i | 0 <= i < k ensures fs[i].bit == bit + i {
        if i > 0 { assert fs[i] == rest[i - 1]; }
      }
      assert rest[k - 1..] == fs[k..];
      assert k < |fs| ==> rest[k - 1] == fs[k];
    } else {
      assert GoLayout.Packed(GoLayout.NextOffset(fs[0]), GoLayout.NextBit(fs[0]), fs[1..]);
      assert fs[1..] == fs[k..];
      assert |fs| > 1 ==> fs[1..][0] == fs[1];
      assert GoLayout.NextBit(fs[0]) == 0 || |fs| == 1 || !fs[1].kind.TBool?;
    }
  }

  /** The byte of a run of bools. */
  lemma {:induction false} RunEntries(env: Env, at: nat, e: nat, h: nat, fs: seq<Field>, vs: seq<Value>,
                                      entries: seq<nat>, k: nat)
    requires Entries(env, at, e, h, fs, vs, entries) && k <= |fs|
    requires forall i | 0 <= i < k :: fs[i].kind.TBool? && vs[i].VBool?
    ensures Truths(entries[..k]) == seq(k, i requires 0 <= i < k => vs[i].b)
    ensures Entries(env, at, e, h, fs[k..], vs[k..], entries[k..])
    decreases k
  {
    if k == 0 {
      assert fs[0..] == fs && vs[0..] == vs && entries[0..] == entries;
    } else {
      RunEntries(env, at, e, h, fs[1..], vs[1..], entries[1..], k - 1);
      assert fs[1..][k - 1..] == fs[k..] && vs[1..][k - 1..] == vs[k..] && entries[1..][k - 1..] == entries[k..];
      forall i | 0 <= i < k ensures Truths(entries[..k])[i] == vs[i].b {
        if i > 0 {
          assert Truths(entries[1..][..k - 1])[i - 1] == vs[1..][i - 1].b;
          assert entries[1..][..k - 1][i - 1] == entries[i];
        }
      }
    }
  }

  lemma {:induction false} RunKids(env: Env, buf: seq<Byte>, e: nat, h: nat, fs: seq<Field>, vs: seq<Value>, k: nat)
    requires Kids(env, buf, e, h, fs, vs) && k <= |fs|
    requires forall i | 0 <= i < k :: fs[i].kind.TBool? && vs[i].VBool?
    ensures Kids(env, buf, e, h, fs[k..], vs[k..])
    decreases k
  {
    hide Kid;
    if k == 0 {
      assert fs[0..] == fs && vs[0..] == vs;
    } else {
      RunKids(env, buf, e, h, fs[1..], vs[1..], k - 1);
      assert fs[1..][k - 1..] == fs[k..] && vs[1..][k - 1..] == vs[k..];
    }
  }

  lemma NumberFits(env: Env, f: Field, v: Value, pos: nat, e: nat, h: nat)
    requires !f.kind.TBool? && WfType(env, f.kind) && Conforms(env, f.kind, v) && 8 * e < TWO_64 && h <= MAX_HANDLE
    ensures SlotNumber(v, pos, e, h) < Pow256(SlotBytes(f.kind))
  {
    hide ConformsBlock, WfBlock, Pow256;
    Pow256Values();
  }

  /** Before packing: the rest of the slots is packed first fit from byte `lo` on, and everything below is in place. */
  ghost predicate ToPack(env: Env, buf: seq<Byte>, at: nat, e: nat, h: nat, fs: seq<Field>, vs: seq<Value>,
                         entries: seq<nat>, lo: nat, size: nat) {
    && GoLayout.PackedEnv(env) && FieldsOk(env, fs, size) && ConformsAll(env, fs, vs)
    && Entries(env, at, e, h, fs, vs, entries) && Kids(env, buf, e, h, fs, vs)
    && JsWriting.Laid(lo, 0, fs)
    && (exists o, b :: GoLayout.Packed(o, b, fs) && (b == 0 || fs == [] || !fs[0].kind.TBool?))
    && 8 * at + HEADER_SIZE + size <= 8 * e && 8 * (e + ChildrenWords(env, fs, vs)) <= |buf|
    && Room(e, ChildrenWords(env, fs, vs), h + |HandlesAll(vs)|)
  }

  predicate Packs(env: Env, buf: seq<Byte>, buf': seq<Byte>, at: nat, e: nat, h: nat, fs: seq<Field>, vs: seq<Value>,
                  lo: nat, size: nat) {
    && RepSlots(env, buf', at, e, h, fs, vs)
    && JsWriting.Kept(buf, buf', |buf|, 8 * at + HEADER_SIZE + lo, 8 * at + HEADER_SIZE + size)
  }

  lemma {:induction false} PackRep(env: Env, buf: seq<Byte>, at: nat, e: nat, h: nat, fs: seq<Field>, vs: seq<Value>,
                                   entries: seq<nat>, lo: nat, size: nat)
    requires ToPack(env, buf, at, e, h, fs, vs, entries, lo, size)
    ensures Packs(env, buf, Pack(buf, 8 * at + HEADER_SIZE, fs, entries), at, e, h, fs, vs, lo, size)
    decreases |vs|, 1
  {
    hide *;
    SameLengths(env, buf, at, e, h, fs, vs, entries, lo, size);
    if vs == [] {
      PackNothing(env, buf, at, e, h, fs, vs, entries, lo, size);
    } else if fs[0].kind.TBool? {
      PackBoolsThen(env, buf, at, e, h, fs, vs, entries, lo, size);
    } else {
      PackSlotThen(env, buf, at, e, h, fs, vs, entries, lo, size);
    }
  }

  lemma SameLengths(env: Env, buf: seq<Byte>, at: nat, e: nat, h: nat, fs: seq<Field>, vs: seq<Value>,
                    entries: seq<nat>, lo: nat, size: nat)
    requires ToPack(env, buf, at, e, h, fs, vs, entries, lo, size)
    ensures |fs| == |vs| == |entries|
  {
  }

  lemma PackNothing(env: Env, buf: seq<Byte>, at: nat, e: nat, h: nat, fs: seq<Field>, vs: seq<Value>,
                    entries: seq<nat>, lo: nat, size: nat)
    requires ToPack(env, buf, at, e, h, fs, vs, entries, lo, size) && vs == []
    ensures Packs(env, buf, Pack(buf, 8 * at + HEADER_SIZE, fs, entries), at, e, h, fs, vs, lo, size)
  {
  }

  lemma {:induction false} PackSlotThen(env: Env, buf: seq<Byte>, at: nat, e: nat, h: nat, fs: seq<Field>,
                                        vs: seq<Value>, entries: seq<nat>, lo: nat, size: nat)
    requires ToPack(env, buf, at, e, h, fs, vs, entries, lo, size) && vs != [] && fs != [] && !fs[0].kind.TBool?
    ensures Packs(env, buf, Pack(buf, 8 * at + HEADER_SIZE, fs, entries), at, e, h, fs, vs, lo, size)
    decreases |vs|, 0
  {
    hide UintAt, GoLayout.PackedEnv, WfType, Conforms, HandlesOf, ChildWords, SlotBytes, Put, RepSlot, RepBlock, Pow256,
      GoLayout.IsNext, SlotNumber;
    var f, v, base := fs[0], vs[0], 8 * at + HEADER_SIZE;
    var pos, e1, h1, lo1 := base + f.offset, e + ChildWords(env, f.kind, v), h + |HandlesOf(v)|,
      f.offset + SlotBytes(f.kind);
    assert FieldOk(env, f, size);
    NotBool(env, f.kind, v);
    NumberFits(env, f, v, pos, e, h);
    PutHolds(buf, pos, SlotBytes(f.kind), entries[0]);
    var buf1 := Put(buf, pos, SlotBytes(f.kind), entries[0]);
    var end := 8 * (e + ChildrenWords(env, fs, vs));
    GoLayout.PackedIsWf(env);
    assert Agree(buf, buf1, 8 * e, end, 0);
    KidMoves(env, buf, buf1, e, h, f.kind, v, end);
    KidsMove(env, buf, buf1, e1, h1, fs[1..], vs[1..], end);
    assert GoLayout.Packed(GoLayout.NextOffset(f), GoLayout.NextBit(f), fs[1..]);
    PackRep(env, buf1, at, e1, h1, fs[1..], vs[1..], entries[1..], lo1, size);
    var buf2 := Pack(buf1, base, fs[1..], entries[1..]);
    SlotPacked(env, buf1, buf2, at, e, h, f, v, lo1, size);
  }

  lemma NotBool(env: Env, t: Type, v: Value)
    requires Conforms(env, t, v) && !t.TBool?
    ensures !v.VBool?
  {
  }

  lemma SlotPacked(env: Env, buf: seq<Byte>, buf': seq<Byte>, at: nat, e: nat, h: nat, f: Field, v: Value, lo: nat,
                   size: nat)
    requires GoLayout.PackedEnv(env) && FieldOk(env, f, size) && !f.kind.TBool? && Conforms(env, f.kind, v)
    requires Kid(env, buf, e, h, f.kind, v)
    requires var pos := 8 * at + HEADER_SIZE + f.offset; Holds(buf, pos, SlotBytes(f.kind), SlotNumber(v, pos, e, h))
    requires f.offset + SlotBytes(f.kind) <= lo && 8 * at + HEADER_SIZE + size <= 8 * e
    requires 8 * (e + ChildWords(env, f.kind, v)) <= |buf|
    requires JsWriting.Kept(buf, buf', |buf|, 8 * at + HEADER_SIZE + lo, 8 * at + HEADER_SIZE + size)
    ensures RepSlot(env, buf', at, e, h, f, v)
  {
    hide UintAt, WfBlock, RepBlock, ConformsBlock, TotalWords;
    var pos, end := 8 * at + HEADER_SIZE + f.offset, 8 * (e + ChildWords(env, f.kind, v));
    JsWriting.HoldsKept(buf, buf', |buf|, 8 * at + HEADER_SIZE + lo, 8 * at + HEADER_SIZE + size, pos,
      SlotBytes(f.kind), SlotNumber(v, pos, e, h));
    assert Agree(buf, buf', 8 * e, end, 0);
    KidMoves(env, buf, buf', e, h, f.kind, v, end);
  }

  lemma {:induction false} PackBoolsThen(env: Env, buf: seq<Byte>, at: nat, e: nat, h: nat, fs: seq<Field>,
                                         vs: seq<Value>, entries: seq<nat>, lo: nat, size: nat)
    requires ToPack(env, buf, at, e, h, fs, vs, entries, lo, size) && vs != [] && fs != [] && fs[0].kind.TBool?
    ensures Packs(env, buf, Pack(buf, 8 * at + HEADER_SIZE, fs, entries), at, e, h, fs, vs, lo, size)
    decreases |vs|, 0
  {
    hide UintAt, GoLayout.PackedEnv, GoLayout.Packed, WfType, Conforms, ConformsAll, HandlesAll, ChildrenWords, Put,
      RepSlots, ToByte, Truths, JsWriting.Laid, Kids, Entries, Bit, FieldOk;
    var base, o, k := 8 * at + HEADER_SIZE, fs[0].offset, JsCodec.BoolRun(fs);
    SameLengths(env, buf, at, e, h, fs, vs, entries, lo, size);
    var packed := ToByte(Truths(entries[..k]));
    RunByte(env, buf, at, e, h, fs, vs, entries, lo, size);
    PutByte(buf, base + o, packed);
    var buf1 := Put(buf, base + o, 1, packed);
    RunDone(env, buf, buf1, at, e, h, fs, vs, entries, lo, size);
    PackRep(env, buf1, at, e, h, fs[k..], vs[k..], entries[k..], o + 1, size);
    var buf2 := Pack(buf1, base, fs[k..], entries[k..]);
    forall i | 0 <= i < k ensures RepSlot(env, buf2, at, e, h, fs[i], vs[i]) {
      assert fs[i].offset == o && buf2[base + o] == packed;
    }
    JsWriting.BoolsFirst(env, buf2, at, e, h, fs, vs, k);
    JsWriting.LaidStart(lo, fs);
  }

  /** The byte that is packed for a run of bools holds each of them at its bit. */
  lemma RunByte(env: Env, buf: seq<Byte>, at: nat, e: nat, h: nat, fs: seq<Field>, vs: seq<Value>, entries: seq<nat>,
                lo: nat, size: nat)
    requires ToPack(env, buf, at, e, h, fs, vs, entries, lo, size) && vs != [] && fs != [] && fs[0].kind.TBool?
    ensures |fs| == |vs| == |entries|
    ensures var k := JsCodec.BoolRun(fs);
      var packed := ToByte(Truths(entries[..k]));
      && packed < 256
      && fs[0].offset < size
      && (forall i | 0 <= i < k :: fs[i].kind.TBool? && fs[i].offset == fs[0].offset)
      && (forall i | 0 <= i < k :: vs[i].VBool? && Bit(packed, fs[i].bit) == vs[i].b)
      && (exists o, b :: GoLayout.Packed(o, b, fs[k..]) && (b == 0 || k == |fs| || !fs[k].kind.TBool?))
  {
    hide GoLayout.PackedEnv, GoLayout.Packed, WfType, Conforms, ConformsAll, HandlesAll, ChildrenWords, ToByte, Truths,
      JsWriting.Laid, Kids, Entries, Bit;
    var k := JsCodec.BoolRun(fs);
    SameLengths(env, buf, at, e, h, fs, vs, entries, lo, size);
    assert FieldOk(env, fs[0], size);
    JsWriting.RunIsBool(env, fs, vs, k, size);
    RunEntries(env, at, e, h, fs, vs, entries, k);
    var bs := Truths(entries[..k]);
    BitsBelow8(env, fs, size);
    var o0, b0 :| GoLayout.Packed(o0, b0, fs) && (b0 == 0 || fs == [] || !fs[0].kind.TBool?);
    RunBits(o0, 0, fs, k);
    ByteFits(bs, fs, k);
    forall i | 0 <= i < k ensures Bit(ToByte(bs), fs[i].bit) == vs[i].b {
      ToByteBits(bs, i);
    }
  }

  /** After the byte is packed, the rest is still to pack. */
  lemma RunDone(env: Env, buf: seq<Byte>, buf1: seq<Byte>, at: nat, e: nat, h: nat, fs: seq<Field>, vs: seq<Value>,
                entries: seq<nat>, lo: nat, size: nat)
    requires ToPack(env, buf, at, e, h, fs, vs, entries, lo, size) && vs != [] && fs != [] && fs[0].kind.TBool? &&
      |fs| == |vs| == |entries|
    requires var k := JsCodec.BoolRun(fs);
      && (forall i | 0 <= i < k :: fs[i].kind.TBool? && vs[i].VBool?)
      && (exists o, b :: GoLayout.Packed(o, b, fs[k..]) && (b == 0 || k == |fs| || !fs[k].kind.TBool?))
    requires var pos := 8 * at + HEADER_SIZE + fs[0].offset;
      fs[0].offset < size && JsWriting.Kept(buf, buf1, |buf|, pos, pos + 1)
    ensures var k := JsCodec.BoolRun(fs);
      ToPack(env, buf1, at, e, h, fs[k..], vs[k..], entries[k..], fs[0].offset + 1, size)
  {
    hide GoLayout.PackedEnv, GoLayout.Packed, WfType, Conforms, ConformsAll, HandlesAll, ChildrenWords, JsWriting.Laid,
      Kids, Entries, FieldOk;
    var k, end := JsCodec.BoolRun(fs), 8 * (e + ChildrenWords(env, fs, vs));
    RunEntries(env, at, e, h, fs, vs, entries, k);
    RunKids(env, buf, e, h, fs, vs, k);
    JsWriting.RunIsFlat(env, fs, vs, k);
    JsWriting.ConformsSplit(env, fs, vs, k);
    GoLayout.PackedIsWf(env);
    assert Agree(buf, buf1, 8 * e, end, 0);
    KidsMove(env, buf, buf1, e, h, fs[k..], vs[k..], end);
    JsWriting.LaidBehindRun(lo, 0, fs, k);
    assert k < |fs| ==> fs[k..][0] == fs[k];
  }

  lemma BitsBelow8(env: Env, fs: seq<Field>, size: nat)
    requires FieldsOk(env, fs, size)
    ensures forall i | 0 <= i < |fs| :: fs[i].bit < 8
  {
    hide WfType;
    forall i | 0 <= i < |fs| ensures fs[i].bit < 8 { assert FieldOk(env, fs[i], size); }
  }

  lemma ByteFits(bs: seq<bool>, fs: seq<Field>, k: nat)
    requires |bs| == k <= |fs| && k >= 1
    requires (forall i | 0 <= i < |fs| :: fs[i].bit < 8) && forall i | 0 <= i < k :: fs[i].bit == i
    ensures ToByte(bs) < 256
  {
    hide ToByte;
    assert fs[k - 1].bit < 8;
    ToByteBits(bs, 0);
    PowerBelow(k);
  }

  lemma {:induction false} PowerBelow(k: nat)
    requires k <= 8
    ensures Pow2(k) <= 256
  {
    assert Pow2(8) == 256 by { assert Pow2(4) == 16; }
    PowerGrows(k, 8);
  }

  lemma {:induction false} PowerGrows(k: nat, n: nat)
    requires k <= n
    ensures Pow2(k) <= Pow2(n)
    decreases n
  {
    if k < n { PowerGrows(k, n - 1); }
  }

  lemma PutByte(data: seq<Byte>, at: nat, n: nat)
    requires at < |data| && n < 256
    ensures var r := Put(data, at, 1, n); r[at] == n && JsWriting.Kept(data, r, |data|, at, at + 1)
  {
    hide UintAt, Put;
    Pow256Values();
    PutHolds(data, at, 1, n);
    JsReading.ByteAt(Put(data, at, 1, n), at);
  }

  // ---------------------------------------------------------------- blocks

  /** A block behind `data` represents its items, and the data before it stays as it is. */
  lemma {:induction false} IntoSerialized(py: Classes, env: Env, data: seq<Byte>, at: nat, b: Block, items: seq<Value>,
                                          h: nat)
    requires Schema(py, env) && ConformsBlock(env, b, items)
    requires |data| == 8 * at && Room(at, TotalWords(env, b, items), h + |HandlesAll(items)|)
    ensures var r := SerializeInto(py, data, b, items, h);
      && r.Ok? && data <= r.value.data && |r.value.data| == 8 * (at + TotalWords(env, b, items))
      && r.value.handles == HandlesAll(items)
      && RepBlock(env, r.value.data, at, h, b, items)
    decreases items, 3
  {
    hide UintAt, WfClasses, EnvOf, GoLayout.PackedEnv, GoLayout.Packed, WfBlock, ConformsAll, HandlesAll, ChildrenWords,
      RepSlots, SerializeSlots, Pack, Put, Fields, WalkFields, PackFields, FieldsOk, PayloadSize, SecondWord, Kids,
      Entries, JsWriting.Laid;
    var n, e, fs, size := |items|, at + BlockWords(env, b, |items|), Fields(env, b, |items|),
      PayloadSize(env, b, |items|);
    var d0 := data + Zeros(8 * BlockWords(env, b, n));
    BlockFacts(env, b, items);
    SameFields(py, b, n);
    SlotsSerialized(py, env, d0, at, e, h, fs, items, size);
    var (entries, out) := SerializeSlots(py, d0, 8 * at + HEADER_SIZE, fs, items, h).value;
    HeaderPut(out.data, 8 * at, HEADER_SIZE + size, SecondWord(env, b, n));
    var headed := Put(Put(out.data, 8 * at, 4, HEADER_SIZE + size), 8 * at + 4, 4, SecondWord(env, b, n));
    var end := 8 * (e + ChildrenWords(env, fs, items));
    GoLayout.PackedIsWf(env);
    assert Agree(out.data, headed, 8 * e, end, 0);
    KidsMove(env, out.data, headed, e, h, fs, items, end);
    PackRep(env, headed, at, e, h, fs, items, entries, 0, size);
    var packed := Pack(headed, 8 * at + HEADER_SIZE, fs, entries);
    JsWriting.HoldsKept(headed, packed, |headed|, 8 * at + HEADER_SIZE, 8 * at + HEADER_SIZE + size, 8 * at, 4,
      HEADER_SIZE + size);
    JsWriting.HoldsKept(headed, packed, |headed|, 8 * at + HEADER_SIZE, 8 * at + HEADER_SIZE + size, 8 * at + 4, 4,
      SecondWord(env, b, n));
    assert data <= packed;
  }

  lemma BlockFacts(env: Env, b: Block, items: seq<Value>)
    requires GoLayout.PackedEnv(env) && ConformsBlock(env, b, items)
    ensures ConformsAll(env, Fields(env, b, |items|), items)
    ensures FieldsOk(env, Fields(env, b, |items|), PayloadSize(env, b, |items|))
    ensures GoLayout.Packed(0, 0, Fields(env, b, |items|)) && JsWriting.Laid(0, 0, Fields(env, b, |items|))
    ensures HEADER_SIZE + PayloadSize(env, b, |items|) < TWO_32 && SecondWord(env, b, |items|) < TWO_32
    ensures HEADER_SIZE + PayloadSize(env, b, |items|) <= 8 * BlockWords(env, b, |items|)
  {
    hide ConformsAll, GoLayout.Packed, JsWriting.Laid, FieldsOk, BytesForBits, ElemFields;
    BlockFieldsOk(env, b, |items|);
    GoLayout.BlockPacked(env, b, |items|);
    BitsBelow8(env, Fields(env, b, |items|), PayloadSize(env, b, |items|));
    JsWriting.PackedIsLaid(0, 0, Fields(env, b, |items|));
    if b.BStruct? { assert WfDef(env, env[b.id]); }
  }

  lemma HeaderPut(data: seq<Byte>, at: nat, first: nat, second: nat)
    requires at + 8 <= |data| && first < TWO_32 && second < TWO_32
    ensures var d := Put(Put(data, at, 4, first), at + 4, 4, second);
      && Holds(d, at, 4, first) && Holds(d, at + 4, 4, second)
      && JsWriting.Kept(data, d, |data|, at, at + 8)
  {
    hide UintAt, Put;
    Pow256Values();
    var d1 := Put(data, at, 4, first);
    PutHolds(data, at, 4, first);
    PutHolds(d1, at + 4, 4, second);
    JsWriting.HoldsKept(d1, Put(d1, at + 4, 4, second), |d1|, at + 4, at + 8, at, 4, first);
  }
}
