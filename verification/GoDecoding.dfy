/**
The generated Go decoders read representations back: on a buffer that represents a value, `DecBlock` returns that
value, except on the blocks that the capacity guard turns away.
*/
module GoDecoding {
  import opened Bytes
  import opened Wire
  import opened GoArchive
  import opened GoLayout

  /** Everything up to word `end` is claimed, except for the padding of the last array. */
  predicate ClaimedTo(d: Dec, end: nat) {
    d.end <= 8 * end < d.end + 8
  }

  /** The handles of `vs` come next. */
  predicate HandlesAhead(inp: Input, d: Dec, hs: seq<nat>) {
    NextHandles(inp.handles, d.nextHandle, hs)
  }

  // ---------------------------------------------------------------- one slot

  /** The decoder is in front of slots `fs` of the block at word `at`. */
  predicate AtSlots(env: Env, inp: Input, d: Dec, at: nat, fs: seq<Field>, size: nat) {
    && d.end <= |inp.buf|
    && d.stack != []
    && Top(d.stack).limit <= |inp.buf|
    && InFront(env, Top(d.stack), at, fs, size)
  }

  /** `d'` is `d` behind its next slot. */
  predicate Moved(d: Dec, at: nat, fld: Field, d': Dec) {
    d.stack != [] && d'.stack == SetTop(d.stack, Passed(Top(d.stack), at, fld))
  }

  lemma BoolRead(env: Env, inp: Input, d: Dec, at: nat, fs: seq<Field>, size: nat, e: nat, h: nat, v: Value)
    requires AtSlots(env, inp, d, at, fs, size) && fs != [] && fs[0].kind.TBool?
    requires RepSlot(env, inp.buf, at, e, h, fs[0], v)
    ensures var r := DecSlot(env, inp, d, fs[0].kind);
      r.Ok? && r.value.1 == v && Moved(d, at, fs[0], r.value.0) && r.value.0 == d.(stack := r.value.0.stack)
  {
    hide InFront, Frame.Fits, Frame.SkipBits, Frame.Full;
    var f := Top(d.stack);
    InFrontNotFull(env, f, at, fs, size);
    InFrontOfRest(env, f, at, fs, size);
    BitInByte(env, f, at, fs, size);
    GuardBool(f);
  }

  lemma BitInByte(env: Env, f: Frame, at: nat, fs: seq<Field>, size: nat)
    requires InFront(env, f, at, fs, size)
    ensures f.bitOffset < 8
  {
  }

  /** The first word of a non-bool slot. */
  lemma NumberRead(env: Env, inp: Input, d: Dec, at: nat, fs: seq<Field>, size: nat, n: nat)
    requires AtSlots(env, inp, d, at, fs, size) && fs != [] && !fs[0].kind.TBool?
    requires Holds(inp.buf, 8 * at + HEADER_SIZE + fs[0].offset, Align(fs[0].kind), n)
    requires Align(fs[0].kind) >= 1
    ensures var f, r := Top(d.stack), ReadUint(inp, d, Align(fs[0].kind));
      && (r.Ok? <==> !Stuck(f, fs[0], size, true))
      && (r.Ok? ==> r.value == (d.(stack := SetTop(d.stack,
           f.(offset := 8 * at + HEADER_SIZE + fs[0].offset + Align(fs[0].kind), bitOffset := 0,
             processed := f.processed + 1))), n))
  {
    hide InFront, Frame.Fits, Frame.SlotStart, Frame.Full, Stuck;
    InFrontNotFull(env, Top(d.stack), at, fs, size);
    SlotFits(env, Top(d.stack), at, fs, size);
  }

  lemma NotWide(f: Frame, fld: Field, size: nat)
    requires fld.kind.THandle? || fld.kind.TInterface?
    ensures !Stuck(f, fld, size, true)
  {
  }

  /** The next handle after reading a handle slot whose handles are numbered from `h`. */
  function AfterHandle(d: Dec, h: nat, v: Value): nat {
    if HandlesOf(v) == [] then d.nextHandle else h + 1
  }

  lemma HandleRead(env: Env, inp: Input, d: Dec, at: nat, fs: seq<Field>, size: nat, h: nat, v: Value)
    requires AtSlots(env, inp, d, at, fs, size) && fs != [] && (fs[0].kind.THandle? || fs[0].kind.TInterface?)
    requires Conforms(env, fs[0].kind, v) && d.nextHandle <= h && NextHandles(inp.handles, h, HandlesOf(v))
    requires Holds(inp.buf, 8 * at + HEADER_SIZE + fs[0].offset, 4, SlotNumber(v, 0, 0, h))
    ensures var f, r := Top(d.stack), ReadHandle(inp, d);
      && r.Ok? && r.value.1 == v.handle
      && r.value.0 == d.(nextHandle := AfterHandle(d, h, v), stack := SetTop(d.stack,
           f.(offset := 8 * at + HEADER_SIZE + fs[0].offset + 4, bitOffset := 0, processed := f.processed + 1)))
  {
    hide InFront, ReadUint, Holds;
    NotWide(Top(d.stack), fs[0], size);
    NumberRead(env, inp, d, at, fs, size, SlotNumber(v, 0, 0, h));
    if v.handle.Some? {
      assert HandlesOf(v) == [v.handle.value];
      assert inp.handles[h..h + 1] == [inp.handles[h]];
    }
  }

  lemma HandleSlotRead(env: Env, inp: Input, d: Dec, at: nat, fs: seq<Field>, size: nat, e: nat, h: nat, v: Value)
    requires AtSlots(env, inp, d, at, fs, size) && fs != [] && fs[0].kind.THandle?
    requires Conforms(env, fs[0].kind, v) && d.nextHandle <= h && NextHandles(inp.handles, h, HandlesOf(v))
    requires RepSlot(env, inp.buf, at, e, h, fs[0], v)
    ensures var r := DecSlot(env, inp, d, fs[0].kind);
      && r.Ok? && r.value.1 == v && Moved(d, at, fs[0], r.value.0)
      && r.value.0 == d.(stack := r.value.0.stack, nextHandle := AfterHandle(d, h, v))
  {
    hide InFront, ReadHandle, Holds;
    HandleRead(env, inp, d, at, fs, size, h, v);
  }

  lemma SplitWords(buf: seq<Byte>, at: nat, n: nat)
    requires Holds(buf, at, 8, n) && n < TWO_32
    ensures Holds(buf, at, 4, n) && Holds(buf, at + 4, 4, 0)
  {
    var lo, hi := buf[at..at + 4], buf[at + 4..at + 8];
    LEJoin(lo, hi);
    LEBound(lo);
    Pow256Values();
    assert buf[at..at + 8] == lo + hi;
  }

  lemma InterfaceSlotRead(env: Env, inp: Input, d: Dec, at: nat, fs: seq<Field>, size: nat, e: nat, h: nat, v: Value)
    requires AtSlots(env, inp, d, at, fs, size) && fs != [] && fs[0].kind.TInterface?
    requires Conforms(env, fs[0].kind, v) && d.nextHandle <= h && NextHandles(inp.handles, h, HandlesOf(v))
    requires RepSlot(env, inp.buf, at, e, h, fs[0], v)
    ensures var r := DecSlot(env, inp, d, fs[0].kind);
      && r.Ok? && r.value.1 == v && Moved(d, at, fs[0], r.value.0)
      && r.value.0 == d.(stack := r.value.0.stack, nextHandle := AfterHandle(d, h, v))
  {
    hide InFront, ReadHandle, ReadUint, Holds, UintAt, HandlesOf, NextHandles, AfterHandle;
    var f, pos := Top(d.stack), 8 * at + HEADER_SIZE + fs[0].offset;
    HandleNumberFits(inp, h, v);
    SplitWords(inp.buf, pos, SlotNumber(v, 0, 0, h));
    HandleRead(env, inp, d, at, fs, size, h, v);
    InterfaceAligned(env, f, at, fs, size);
    InFrontNotFull(env, f, at, fs, size);
    VersionRead(inp, DecUnprocess(ReadHandle(inp, d).value.0), f.(offset := pos + 4, bitOffset := 0), pos);
  }

  /** The version word of an interface. */
  lemma VersionRead(inp: Input, d: Dec, f: Frame, pos: nat)
    requires d.stack != [] && Top(d.stack) == f && f.offset == pos + 4 && f.bitOffset == 0 && !f.Full()
    requires pos % 4 == 0 && pos + 8 <= f.limit <= |inp.buf|
    ensures var f' := f.(offset := pos + 8, processed := f.processed + 1);
      ReadUint(inp, d, 4) == Ok((d.(stack := SetTop(d.stack, f')), UintAt(inp.buf, pos + 4, 4)))
  {
    hide Frame.Fits, Frame.SlotStart, Frame.Full, UintAt;
    SecondWordFits(f, pos);
  }

  lemma HandleNumberFits(inp: Input, h: nat, v: Value)
    requires v.VHandle? && NextHandles(inp.handles, h, HandlesOf(v))
    ensures SlotNumber(v, 0, 0, h) < TWO_32
  {
  }

  // ---------------------------------------------------------------- pointers

  lemma UintSlotRead(env: Env, inp: Input, d: Dec, at: nat, fs: seq<Field>, size: nat, e: nat, h: nat, v: Value)
    requires AtSlots(env, inp, d, at, fs, size) && fs != [] && fs[0].kind.TUint? && v.VUint?
    requires RepSlot(env, inp.buf, at, e, h, fs[0], v)
    ensures var r := DecSlot(env, inp, d, fs[0].kind);
      && (r.Ok? <==> !Stuck(Top(d.stack), fs[0], size, true))
      && (r.Ok? ==> r.value.1 == v && Moved(d, at, fs[0], r.value.0) && r.value.0 == d.(stack := r.value.0.stack))
  {
    hide InFront, Stuck, Holds, ReadUint;
    SlotFits(env, Top(d.stack), at, fs, size);
    NumberRead(env, inp, d, at, fs, size, v.n);
  }

  lemma NullSlotRead(env: Env, inp: Input, d: Dec, at: nat, fs: seq<Field>, size: nat, e: nat, h: nat, v: Value)
    requires AtSlots(env, inp, d, at, fs, size) && fs != [] && fs[0].kind.TPtr? && v.VNull?
    requires RepSlot(env, inp.buf, at, e, h, fs[0], v) && Conforms(env, fs[0].kind, v)
    ensures var r := DecSlot(env, inp, d, fs[0].kind);
      && (r.Ok? <==> !Stuck(Top(d.stack), fs[0], size, true))
      && (r.Ok? ==> r.value.1 == v && Moved(d, at, fs[0], r.value.0) && r.value.0 == d.(stack := r.value.0.stack))
  {
    hide InFront, Stuck, Holds, ReadUint;
    NumberRead(env, inp, d, at, fs, size, 0);
  }

  /** A pointer to a represented block leads to an unclaimed word. */
  lemma PointerRead(env: Env, inp: Input, d: Dec, at: nat, fs: seq<Field>, size: nat, e: nat)
    requires AtSlots(env, inp, d, at, fs, size) && fs != [] && fs[0].kind.TPtr?
    requires 8 * at + HEADER_SIZE + fs[0].offset < 8 * e < |inp.buf| && d.end <= 8 * e
    requires Holds(inp.buf, 8 * at + HEADER_SIZE + fs[0].offset, 8, 8 * e - (8 * at + HEADER_SIZE + fs[0].offset))
    ensures var r := ReadPointer(inp, d);
      && (r.Ok? <==> !Stuck(Top(d.stack), fs[0], size, true))
      && (r.Ok? ==> r.value.1 != 0 && Moved(d, at, fs[0], r.value.0)
                    && r.value.0 == d.(stack := r.value.0.stack, end := 8 * e))
  {
    hide InFront, Stuck, Holds, ReadUint;
    NumberRead(env, inp, d, at, fs, size, 8 * e - (8 * at + HEADER_SIZE + fs[0].offset));
  }

  // ---------------------------------------------------------------- opening a block

  /** `d'` has pushed the frame of the block at word `at`. */
  predicate Opened(env: Env, inp: Input, d: Dec, at: nat, b: Block, n: nat, d': Dec) {
    var limit := 8 * at + HEADER_SIZE + PayloadSize(env, b, n);
    && d'.nextHandle == d.nextHandle
    && d'.end == limit <= |inp.buf|
    && d'.stack == d.stack +
      [Frame(8 * at + HEADER_SIZE, 0, limit, if b.BArray? then SecondWord(env, b, n) else 0, 0, b.BArray?)]
  }

  lemma OpenBlock(env: Env, inp: Input, d: Dec, at: nat, h: nat, b: Block, items: seq<Value>)
    requires PackedEnv(env) && ConformsBlock(env, b, items) && d.end == 8 * at
    requires RepBlock(env, inp.buf, at, h, b, items)
    ensures var r := DecOpen(env, inp, d, b);
      r.Ok? && Opened(env, inp, d, at, b, |items|, r.value.0) && Fields(env, b, r.value.1) == Fields(env, b, |items|)
  {
    hide RepSlots, ConformsAll, WfEnv, ElemFields, UintAt;
    RepHasRoom(env, inp.buf, at, h, b, items);
  }

  lemma RepHasRoom(env: Env, buf: seq<Byte>, at: nat, h: nat, b: Block, items: seq<Value>)
    requires RepBlock(env, buf, at, h, b, items)
    ensures 8 * at + HEADER_SIZE + PayloadSize(env, b, |items|) <= |buf|
    ensures 8 * at + 8 * BlockWords(env, b, |items|) <= |buf|
  {
    hide RepSlots, Holds, PayloadSize;
  }

  // ---------------------------------------------------------------- whole values

  lemma SplitHandles(inp: Input, d: Dec, vs: seq<Value>)
    requires vs != [] && HandlesAhead(inp, d, HandlesAll(vs))
    ensures HandlesAhead(inp, d, HandlesOf(vs[0]))
    ensures forall d': Dec | d'.nextHandle == d.nextHandle + |HandlesOf(vs[0])| ::
      HandlesAhead(inp, d', HandlesAll(vs[1..]))
  {
    hide HandlesOf, HandlesAll;
    HandlesSplit(vs);
    SliceSplits(inp.handles, d.nextHandle, HandlesOf(vs[0]), HandlesAll(vs[1..]));
  }

  lemma HandlesSplit(vs: seq<Value>)
    requires vs != []
    ensures HandlesAll(vs) == HandlesOf(vs[0]) + HandlesAll(vs[1..])
  {
    hide HandlesOf;
  }

  lemma SliceSplits(s: seq<nat>, i: nat, a: seq<nat>, b: seq<nat>)
    requires i + |a + b| <= |s| && s[i..i + |a + b|] == a + b
    ensures s[i..i + |a|] == a && s[i + |a|..i + |a| + |b|] == b
  {
    assert s[i..i + |a|] == s[i..i + |a + b|][..|a|];
    assert s[i + |a|..i + |a| + |b|] == s[i..i + |a + b|][|a|..];
  }

  /** The value of the next slot was read; blocks below it are claimed. */
  predicate SlotRead(env: Env, d: Dec, at: nat, e: nat, fld: Field, v: Value, r: (Dec, Value)) {
    && r.1 == v
    && Moved(d, at, fld, r.0)
    && r.0.nextHandle == d.nextHandle + |HandlesOf(v)|
    && ClaimedTo(r.0, e + ChildWords(env, fld.kind, v))
  }

  lemma {:induction false} DecSlotRep(env: Env, inp: Input, d: Dec, at: nat, e: nat, fs: seq<Field>, size: nat,
                                      v: Value)
    requires PackedEnv(env) && AtSlots(env, inp, d, at, fs, size) && fs != [] && Conforms(env, fs[0].kind, v)
    requires ClaimedTo(d, e) && HandlesAhead(inp, d, HandlesOf(v))
    requires RepSlot(env, inp.buf, at, e, d.nextHandle, fs[0], v)
    ensures var r := DecSlot(env, inp, d, fs[0].kind);
      && (r.Ok? <==> !Stuck(Top(d.stack), fs[0], size, true) && ClearSlot(env, e, fs[0].kind, v, true))
      && (r.Ok? ==> SlotRead(env, d, at, e, fs[0], v, r.value))
    decreases v, 1
  {
    hide DecSlot, ClearBlock, InFront, PackedEnv, NextHandles, RepSlot, ConformsBlock;
    match v
    case VBool(_) => BoolRead(env, inp, d, at, fs, size, e, d.nextHandle, v);
    case VUint(_) => UintSlotRead(env, inp, d, at, fs, size, e, d.nextHandle, v);
    case VHandle(_) =>
      NotWide(Top(d.stack), fs[0], size);
      if fs[0].kind.THandle? {
        HandleSlotRead(env, inp, d, at, fs, size, e, d.nextHandle, v);
      } else {
        InterfaceSlotRead(env, inp, d, at, fs, size, e, d.nextHandle, v);
      }
    case VNull => NullSlotRead(env, inp, d, at, fs, size, e, d.nextHandle, v);
    case VBlock(_) => BlockSlotRead(env, inp, d, at, e, fs, size, v);
  }

  lemma {:induction false} BlockSlotRead(env: Env, inp: Input, d: Dec, at: nat, e: nat, fs: seq<Field>, size: nat,
                                         v: Value)
    requires PackedEnv(env) && AtSlots(env, inp, d, at, fs, size) && fs != [] && Conforms(env, fs[0].kind, v) &&
      v.VBlock?
    requires ClaimedTo(d, e) && HandlesAhead(inp, d, HandlesOf(v))
    requires RepSlot(env, inp.buf, at, e, d.nextHandle, fs[0], v)
    ensures var r := DecSlot(env, inp, d, fs[0].kind);
      && (r.Ok? <==> !Stuck(Top(d.stack), fs[0], size, true) && ClearSlot(env, e, fs[0].kind, v, true))
      && (r.Ok? ==> SlotRead(env, d, at, e, fs[0], v, r.value))
    decreases v, 0
  {
    hide ReadPointer, DecBlock, ClearBlock, InFront, PackedEnv, RepBlock, ConformsBlock, Holds, Stuck, TotalWords,
      HandlesAll;
    var b, items := fs[0].kind.target, v.items;
    RepHasHeader(env, inp.buf, e, d.nextHandle, b, items);
    PointerRead(env, inp, d, at, fs, size, e);
    if ReadPointer(inp, d).Ok? {
      var d1 := ReadPointer(inp, d).value.0;
      DecBlockRep(env, inp, d1, e, b, items);
    }
  }

  lemma RepHasHeader(env: Env, buf: seq<Byte>, at: nat, h: nat, b: Block, items: seq<Value>)
    requires RepBlock(env, buf, at, h, b, items)
    ensures 8 * at < |buf|
  {
    hide RepSlots, Holds, PayloadSize;
  }

  /** The slots `fs` were read. */
  predicate SlotsRead(env: Env, d: Dec, e: nat, fs: seq<Field>, vs: seq<Value>, r: (Dec, seq<Value>)) {
    && r.1 == vs
    && d.stack != [] && |r.0.stack| == |d.stack| && r.0.stack[..|d.stack| - 1] == d.stack[..|d.stack| - 1]
    && Top(r.0.stack).check == Top(d.stack).check && Top(r.0.stack).elements == Top(d.stack).elements
    && Top(r.0.stack).processed == Top(d.stack).processed + |fs|
    && r.0.nextHandle == d.nextHandle + |HandlesAll(vs)|
    && ClaimedTo(r.0, e + ChildrenWords(env, fs, vs))
  }

  lemma {:induction false} DecSlotsRep(env: Env, inp: Input, d: Dec, at: nat, e: nat, fs: seq<Field>, size: nat,
                                       vs: seq<Value>)
    requires PackedEnv(env) && AtSlots(env, inp, d, at, fs, size) && ConformsAll(env, fs, vs)
    requires ClaimedTo(d, e) && HandlesAhead(inp, d, HandlesAll(vs))
    requires RepSlots(env, inp.buf, at, e, d.nextHandle, fs, vs)
    ensures var r := DecSlots(env, inp, d, fs);
      && (r.Ok? <==>
        !(Top(d.stack).limit % 16 == 8 && Tight(Top(d.stack).bitOffset, fs, size, true)) &&
        ClearSlots(env, e, fs, vs, true))
      && (r.Ok? ==> SlotsRead(env, d, e, fs, vs, r.value))
    decreases vs, 2
  {
    hide DecSlot, InFront, PackedEnv, RepSlot, ClearSlot, Conforms, HandlesOf, ChildWords, HandlesAhead, Stuck;
    if vs != [] {
      var t, v := fs[0].kind, vs[0];
      SplitHandles(inp, d, vs);
      DecSlotRep(env, inp, d, at, e, fs, size, v);
      StuckMeans(Top(d.stack), fs[0], size);
      var r := DecSlot(env, inp, d, t);
      if r.Ok? {
        var d1 := r.value.0;
        InFrontOfRest(env, Top(d.stack), at, fs, size);
        DecSlotsRep(env, inp, d1, at, e + ChildWords(env, t, v), fs[1..], size, vs[1..]);
      }
    }
  }

  lemma StuckMeans(f: Frame, fld: Field, size: nat)
    ensures Stuck(f, fld, size, true) <==> (f.limit % 16 == 8 && f.bitOffset > 0 && Wide(fld.kind, true) &&
      fld.offset + 8 == size)
  {
  }

  lemma {:induction false} UniformNotTight(bit: nat, fs: seq<Field>, size: nat)
    requires Uniform(fs, bit)
    ensures !Tight(bit, fs, size, true)
    decreases |fs|
  {
    if fs != [] {
      UniformNotTight(NextBit(fs[0]), fs[1..], size);
    }
  }

  /** The main result about the decoder: it succeeds exactly on clear blocks, and then it returns the value. */
  lemma {:induction false} DecBlockRep(env: Env, inp: Input, d: Dec, at: nat, b: Block, items: seq<Value>)
    requires PackedEnv(env) && ConformsBlock(env, b, items) && d.end == 8 * at <= |inp.buf|
    requires HandlesAhead(inp, d, HandlesAll(items))
    requires RepBlock(env, inp.buf, at, d.nextHandle, b, items)
    ensures var r := DecBlock(env, inp, d, b);
      && (r.Ok? <==> ClearBlock(env, at, b, items, true))
      && (r.Ok? ==>
        && r.value.1 == items
        && r.value.0.stack == d.stack
        && r.value.0.nextHandle == d.nextHandle + |HandlesAll(items)|
        && ClaimedTo(r.value.0, at + TotalWords(env, b, items)))
    decreases items, 3
  {
    hide DecOpen, DecSlots, InFront, PackedEnv, RepSlots, ClearSlots, ConformsAll, HandlesAll, ChildrenWords, Tight,
      Holds, Fields, PayloadSize, SecondWord, WfBlock, HandlesAhead;
    var n, fs := |items|, Fields(env, b, |items|);
    var size := PayloadSize(env, b, n);
    OpenBlock(env, inp, d, at, d.nextHandle, b, items);
    var d1 := DecOpen(env, inp, d, b).value.0;
    var be := at + BlockWords(env, b, n);
    InFrontOfBlock(env, b, items, at, 8 * at + HEADER_SIZE + size, b.BArray?);
    SameNextHandles(inp, d, d1, HandlesAll(items));
    PartsOfBlock(env, b, items);
    DecSlotsRep(env, inp, d1, at, be, fs, size, items);
    OddLimit(env, b, n, at);
    var r := DecSlots(env, inp, d1, fs);
    if r.Ok? {
      assert r.value.0.stack[..|d.stack|] == d.stack;
    }
  }

  lemma SameNextHandles(inp: Input, d: Dec, d': Dec, hs: seq<nat>)
    requires HandlesAhead(inp, d, hs) && d'.nextHandle == d.nextHandle
    ensures HandlesAhead(inp, d', hs)
  {
  }

  lemma PartsOfBlock(env: Env, b: Block, items: seq<Value>)
    requires ConformsBlock(env, b, items)
    ensures ConformsAll(env, Fields(env, b, |items|), items) && ShapeOk(env, b, items)
    ensures b.BArray? ==> SecondWord(env, b, |items|) == |items|
  {
    hide ConformsAll;
  }

  /** For the limits of the decoder, which exclude padding. */
  lemma OddLimit(env: Env, b: Block, n: nat, at: nat)
    requires PackedEnv(env) && WfBlock(env, b)
    ensures var size, be := PayloadSize(env, b, n), at + BlockWords(env, b, n);
      var tight := Tight(0, Fields(env, b, n), size, true);
      ((8 * at + HEADER_SIZE + size) % 16 == 8 && tight) <==> (be % 2 == 1 && tight)
  {
    hide Tight, Fields;
    var size, be := PayloadSize(env, b, n), at + BlockWords(env, b, n);
    if b.BArray? {
      BlockRegular(env, b, n);
      UniformNotTight(0, Fields(env, b, n), size);
    } else {
      WholeWords(env, b, n);
      assert 8 * at + HEADER_SIZE + size == 8 * be;
      OddWord(be);
    }
  }

  lemma WholeWords(env: Env, b: Block, n: nat)
    requires WfEnv(env) && WfBlock(env, b) && !b.BArray?
    ensures HEADER_SIZE + PayloadSize(env, b, n) == 8 * BlockWords(env, b, n)
  {
    if b.BStruct? {
      assert WfDef(env, env[b.id]);
    }
  }
}
