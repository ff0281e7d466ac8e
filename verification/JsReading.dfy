/** Reading in JavaScript: the unchecked decoder returns what the bytes represent. */
module JsReading {
  import opened Bytes
  import opened Collections
  import opened Wire
  import opened JsCodec

  // ---------------------------------------------------------------- 64-bit numbers in two words

  lemma TwoWords(buf: seq<Byte>, at: nat)
    requires at + 8 <= |buf|
    ensures UintAt(buf, at, 8) == UintAt(buf, at, 4) + UintAt(buf, at + 4, 4) * TWO_32
  {
    var lo, hi := buf[at..at + 4], buf[at + 4..at + 8];
    LEJoin(lo, hi);
    Pow256Values();
    assert buf[at..at + 8] == lo + hi;
  }

  lemma Get64Reads(buf: seq<Byte>, at: nat)
    ensures Get64(buf, at) == if at + 8 <= |buf| then Ok(UintAt(buf, at, 8)) else Err(RangeError)
  {
    hide UintAt;
    if at + 8 <= |buf| {
      TwoWords(buf, at);
    }
  }

  // ---------------------------------------------------------------- the decoder on representations

  lemma SplitHandles(handles: seq<nat>, h: nat, vs: seq<Value>)
    requires vs != [] && NextHandles(handles, h, HandlesAll(vs))
    ensures NextHandles(handles, h, HandlesOf(vs[0])) &&
      NextHandles(handles, h + |HandlesOf(vs[0])|, HandlesAll(vs[1..]))
  {
    hide HandlesOf;
    var hs, hs1 := HandlesAll(vs), HandlesOf(vs[0]);
    assert handles[h..h + |hs1|] == handles[h..h + |hs|][..|hs1|];
    assert handles[h + |hs1|..h + |hs|] == handles[h..h + |hs|][|hs1|..];
  }

  lemma {:induction false} JsDecSlotRep(env: Env, buf: seq<Byte>, handles: seq<nat>, at: nat, e: nat, h: nat, f: Field,
                                        v: Value)
    requires WfEnv(env) && WfType(env, f.kind) && Conforms(env, f.kind, v) && NextHandles(handles, h, HandlesOf(v))
    requires RepSlot(env, buf, at, e, h, f, v)
    ensures JsDecSlot(env, buf, handles, 8 * at + HEADER_SIZE + f.offset, f.bit, f.kind) == Ok(v)
    decreases v, 1
  {
    hide UintAt, ConformsBlock, RepBlock, WfEnv, HandlesAll, JsDecBlock, Get64;
    var pos := 8 * at + HEADER_SIZE + f.offset;
    match f.kind
    case TBool => ByteAt(buf, pos);
    case TUint(w) => Get64Reads(buf, pos);
    case THandle(_) => HandleAt(handles, h, v);
    case TInterface(_) =>
      HandleAt(handles, h, v);
      InterfaceWords(buf, pos, SlotNumber(v, pos, e, h));
    case TPtr(_, b) =>
      Get64Reads(buf, pos);
      if v.VBlock? {
        JsDecBlockRep(env, buf, handles, e, h, b, v.items);
      }
  }

  lemma ByteAt(buf: seq<Byte>, at: nat)
    requires at < |buf|
    ensures UintAt(buf, at, 1) == buf[at]
  {
    assert buf[at..at + 1] == [buf[at]];
    assert LE([buf[at]]) == buf[at] + 256 * LE([]);
  }

  lemma HandleAt(handles: seq<nat>, h: nat, v: Value)
    requires v.VHandle? && NextHandles(handles, h, HandlesOf(v))
    ensures SlotNumber(v, 0, 0, h) < TWO_32
    ensures v.handle == var i := SlotNumber(v, 0, 0, h); if i < |handles| then Some(handles[i]) else None
  {
    if v.handle.Some? {
      assert HandlesOf(v) == [v.handle.value];
      assert handles[h..h + 1] == [handles[h]];
    }
  }

  lemma InterfaceWords(buf: seq<Byte>, at: nat, n: nat)
    requires Holds(buf, at, 8, n) && n < TWO_32
    ensures Holds(buf, at, 4, n) && Holds(buf, at + 4, 4, 0)
  {
    hide UintAt;
    TwoWords(buf, at);
    WordBound(buf, at);
  }

  lemma WordBound(buf: seq<Byte>, at: nat)
    requires at + 4 <= |buf|
    ensures UintAt(buf, at, 4) < TWO_32
  {
    LEBound(buf[at..at + 4]);
    Pow256Values();
  }

  lemma {:induction false} JsDecSlotsRep(env: Env, buf: seq<Byte>, handles: seq<nat>, at: nat, e: nat, h: nat,
                                         fs: seq<Field>, vs: seq<Value>, size: nat)
    requires WfEnv(env) && FieldsOk(env, fs, size) && ConformsAll(env, fs, vs) &&
      NextHandles(handles, h, HandlesAll(vs))
    requires RepSlots(env, buf, at, e, h, fs, vs)
    ensures JsDecSlots(env, buf, handles, 8 * at + HEADER_SIZE, fs) == Ok(vs)
    decreases vs, 2
  {
    hide JsDecSlot, Conforms, WfEnv, HandlesOf, RepSlot, ChildWords, NextHandles;
    if vs != [] {
      assert FieldOk(env, fs[0], size);
      SplitHandles(handles, h, vs);
      JsDecSlotRep(env, buf, handles, at, e, h, fs[0], vs[0]);
      JsDecSlotsRep(env, buf, handles, at, e + ChildWords(env, fs[0].kind, vs[0]), h + |HandlesOf(vs[0])|, fs[1..],
        vs[1..], size);
      assert [vs[0]] + vs[1..] == vs;
    }
  }

  /** The decoder returns what a block represents. */
  lemma {:induction false} JsDecBlockRep(env: Env, buf: seq<Byte>, handles: seq<nat>, at: nat, h: nat, b: Block,
                                         items: seq<Value>)
    requires WfEnv(env) && ConformsBlock(env, b, items) && NextHandles(handles, h, HandlesAll(items))
    requires RepBlock(env, buf, at, h, b, items)
    ensures JsDecBlock(env, buf, handles, 8 * at, b) == Ok(items)
    decreases items, 3
  {
    hide JsDecSlots, ConformsAll, WfEnv, HandlesAll, RepSlots, ChildrenWords, NextHandles, UintAt, ElemFields, FieldsOk;
    BlockFieldsOk(env, b, |items|);
    JsDecSlotsRep(env, buf, handles, at, at + BlockWords(env, b, |items|), h, Fields(env, b, |items|), items,
      PayloadSize(env, b, |items|));
  }
}
