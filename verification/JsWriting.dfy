/** The JavaScript encoder writes representations, however often its buffer grows on the way. */
module JsWriting {
  import opened Bytes
  import opened Wire
  import opened JsCodec
  import JsReading
  import GoLayout

  // ---------------------------------------------------------------- values and schemas

  /** There is no null handle: the encoder would push it like any other. */
  predicate Encodable(v: Value) {
    match v
    case VHandle(handle) => handle.Some?
    case VBlock(items) => forall i | 0 <= i < |items| :: Encodable(items[i])
    case _ => true
  }

  predicate EncodableAll(vs: seq<Value>) {
    forall i | 0 <= i < |vs| :: Encodable(vs[i])
  }

  /** Fields do not overlap: each one is behind the last, and the bools of a byte stand together in bit order. */
  predicate Laid(lo: nat, bit: nat, fs: seq<Field>)
    decreases |fs|
  {
    fs == [] ||
    var f := fs[0];
    && (f.offset > lo || (f.offset == lo && (bit == 0 || (f.kind.TBool? && bit <= f.bit))))
    && (if f.kind.TBool? then Laid(f.offset, f.bit + 1, fs[1..]) else Laid(f.offset + SlotBytes(f.kind), 0, fs[1..]))
  }

  predicate LaidEnv(env: Env) {
    WfEnv(env) && forall id | id in env :: Laid(0, 0, env[id].fields)
  }

  lemma LaidIsWf(env: Env)
    requires LaidEnv(env)
    ensures WfEnv(env)
  {
  }

  lemma {:induction false} ArrayLaid(elem: Type, k: nat, n: nat)
    requires k <= n
    ensures Laid(ElemField(elem, k).offset, ElemField(elem, k).bit, ElemFields(elem, k, n))
    decreases n - k
  {
    hide ElemFields, ElemField, SlotBytes;
    if k == n {
      NoElements(elem, n);
    } else {
      var f, next, fs := ElemField(elem, k), ElemField(elem, k + 1), ElemFields(elem, k, n);
      FirstElement(elem, k, n);
      ArrayLaid(elem, k + 1, n);
      NextElement(elem, k);
      if elem.TBool? {
        LaidFrom(f.offset, f.bit + 1, next.offset, next.bit, fs[1..]);
      }
    }
  }

  lemma NoElements(elem: Type, n: nat)
    ensures ElemFields(elem, n, n) == []
  {
  }

  lemma FirstElement(elem: Type, k: nat, n: nat)
    requires k < n
    ensures var fs := ElemFields(elem, k, n);
      fs != [] && fs[0] == ElemField(elem, k) && fs[1..] == ElemFields(elem, k + 1, n)
  {
  }

  /** The place of the next element of an array. */
  lemma NextElement(elem: Type, k: nat)
    ensures var f, next := ElemField(elem, k), ElemField(elem, k + 1);
      && f.kind == elem
      && (if elem.TBool? then next.offset > f.offset || (next.offset == f.offset && next.bit == f.bit + 1)
          else f.bit == 0 && next.bit == 0 && next.offset == f.offset + SlotBytes(elem))
  {
    if !elem.TBool? {
      assert (k + 1) * SlotBytes(elem) == k * SlotBytes(elem) + SlotBytes(elem);
    }
  }

  /** Starting earlier is harmless; bit 8 of a byte is bit 0 of the next. */
  lemma LaidFrom(lo: nat, bit: nat, lo': nat, bit': nat, fs: seq<Field>)
    requires Laid(lo', bit', fs)
    requires lo < lo' || (lo == lo' && (bit <= bit' || bit == 0))
    ensures Laid(lo, bit, fs)
  {
  }

  /** First fit leaves no overlap. */
  lemma {:induction false} PackedIsLaid(offset: nat, bit: nat, fs: seq<Field>)
    requires GoLayout.Packed(offset, bit, fs) && forall i | 0 <= i < |fs| :: fs[i].bit < 8
    ensures Laid(offset, bit, fs)
    decreases |fs|
  {
    if fs != [] {
      var f := fs[0];
      PackedIsLaid(GoLayout.NextOffset(f), GoLayout.NextBit(f), fs[1..]);
      if f.kind.TBool? {
        LaidFrom(f.offset, f.bit + 1, GoLayout.NextOffset(f), GoLayout.NextBit(f), fs[1..]);
      }
    }
  }

  lemma BlockLaid(env: Env, b: Block, n: nat)
    requires LaidEnv(env) && WfBlock(env, b)
    ensures Laid(0, 0, Fields(env, b, n))
  {
    match b
    case BStruct(id) =>
    case BArray(elem, _) => ArrayLaid(elem, 0, n);
    case BMap(key, value) =>
      var fs := Fields(env, b, n);
      assert Laid(16, 0, fs[1..][1..]);
      assert Laid(8, 0, fs[1..]);
  }

  // ---------------------------------------------------------------- what a write keeps

  /** From `buf` to `buf'`, the bytes before `end` changed only in `[lo, hi)`. */
  predicate Kept(buf: seq<Byte>, buf': seq<Byte>, end: nat, lo: nat, hi: nat) {
    && end <= |buf| <= |buf'|
    && forall i | 0 <= i < end && !(lo <= i < hi) :: buf'[i] == buf[i]
  }

  /** The allocated bytes and everything that is still to come fit: `grow` computes with 32-bit integers. */
  predicate Room(j: Js, e: nat, words: nat, handles: nat) {
    && j.next == 8 * e <= |j.buf|
    && 24 * (e + words) < 0x8000_0000
    && |j.handles| + handles <= INVALID_HANDLE
  }

  lemma Grows(j: Js, e: nat, words: nat, more: nat)
    requires Room(j, e, words + more, 0)
    ensures var r := Alloc(j, 8 * words);
      && r.Ok?
      && r.value == Js(r.value.buf, 8 * (e + words), j.handles)
      && 8 * (e + words) <= |r.value.buf|
      && Kept(j.buf, r.value.buf, |j.buf|, 0, 0)
  {
    hide ToInt32;
    if 8 * (e + words) > |j.buf| {
      GrowthFits(|j.buf|, 8 * e, 8 * words);
    }
  }

  /** The larger size is a positive 32-bit integer and large enough. */
  lemma GrowthFits(len: nat, next: nat, size: nat)
    requires next <= len < next + size && 3 * (next + size) < 0x8000_0000
    ensures var newSize := 3 * (len + size) / 2; ToInt32(newSize) == newSize && next + size <= newSize && len <= newSize
  {
  }

  lemma AlignWords(size: nat)
    ensures Align8(size) == 8 * ((size + 7) / 8)
  {
  }

  lemma SetHolds(j: Js, at: nat, width: nat, n: nat)
    requires at + width <= |j.buf| && n < Pow256(width)
    ensures var r := Set(j, at, width, n);
      && r.Ok? && r.value == j.(buf := r.value.buf)
      && Holds(r.value.buf, at, width, n)
      && |r.value.buf| == |j.buf| && Kept(j.buf, r.value.buf, |j.buf|, at, at + width)
  {
    hide UintAt, Pow256;
    PutThenGet(j.buf, at, width, n);
  }

  lemma HoldsKept(buf: seq<Byte>, buf': seq<Byte>, end: nat, lo: nat, hi: nat, at: nat, width: nat, n: nat)
    requires Holds(buf, at, width, n) && Kept(buf, buf', end, lo, hi) && at + width <= end &&
      (at + width <= lo || hi <= at)
    ensures Holds(buf', at, width, n)
  {
    assert buf'[at..at + width] == buf[at..at + width];
  }

  lemma WordsHold(buf: seq<Byte>, at: nat, lo: nat, hi: nat)
    requires Holds(buf, at, 4, lo) && Holds(buf, at + 4, 4, hi)
    ensures Holds(buf, at, 8, lo + hi * TWO_32)
  {
    hide UintAt;
    JsReading.TwoWords(buf, at);
  }

  lemma TwoSets(j: Js, at: nat, first: nat, second: nat)
    requires at + 8 <= |j.buf| && first < TWO_32 && second < TWO_32
    ensures var r := Set(j, at, 4, first);
      && r.Ok?
      && var r2 := Set(r.value, at + 4, 4, second);
      && r2.Ok? && r2.value == j.(buf := r2.value.buf)
      && Holds(r2.value.buf, at, 4, first) && Holds(r2.value.buf, at + 4, 4, second)
      && |r2.value.buf| == |j.buf| && Kept(j.buf, r2.value.buf, |j.buf|, at, at + 8)
  {
    hide UintAt, Set;
    Pow256Values();
    SetHolds(j, at, 4, first);
    var j1 := Set(j, at, 4, first).value;
    SetHolds(j1, at + 4, 4, second);
    var j2 := Set(j1, at + 4, 4, second).value;
    HoldsKept(j1.buf, j2.buf, |j1.buf|, at + 4, at + 8, at, 4, first);
  }

  lemma Set64Holds(j: Js, at: nat, n: nat)
    requires at + 8 <= |j.buf| && n < TWO_64
    ensures var r := Set64(j, at, n);
      && r.Ok? && r.value == j.(buf := r.value.buf)
      && Holds(r.value.buf, at, 8, n)
      && |r.value.buf| == |j.buf| && Kept(j.buf, r.value.buf, |j.buf|, at, at + 8)
  {
    hide UintAt, Set;
    var lo, hi := n % TWO_32, n / TWO_32;
    assert hi % TWO_32 == hi;
    TwoSets(j, at, lo, hi);
    WordsHold(Set64(j, at, n).value.buf, at, lo, hi);
  }

  // ---------------------------------------------------------------- one slot

  predicate SlotDone(env: Env, j: Js, j': Js, at: nat, e: nat, f: Field, v: Value) {
    var pos := 8 * at + HEADER_SIZE + f.offset;
    && j'.next == 8 * (e + ChildWords(env, f.kind, v)) <= |j'.buf|
    && j'.handles == j.handles + HandlesOf(v)
    && Kept(j.buf, j'.buf, 8 * e, pos, pos + SlotBytes(f.kind))
    && RepSlot(env, j'.buf, at, e, |j.handles|, f, v)
  }

  lemma {:induction false} JsEncSlotRep(env: Env, j: Js, at: nat, e: nat, f: Field, v: Value, size: nat)
    requires LaidEnv(env) && FieldOk(env, f, size) && !f.kind.TBool? && Conforms(env, f.kind, v) && Encodable(v)
    requires Room(j, e, ChildWords(env, f.kind, v), |HandlesOf(v)|) && 8 * at + HEADER_SIZE + size <= 8 * e
    ensures var r := JsEncSlot(env, j, 8 * at + HEADER_SIZE + f.offset, f.kind, v);
      r.Ok? && SlotDone(env, j, r.value, at, e, f, v)
    decreases v, 1
  {
    hide UintAt, LaidEnv, ConformsBlock, WfBlock, HandlesAll, TotalWords, RepBlock, JsEncBlock, Set, Set64, Alloc,
      Pow256;
    var pos := 8 * at + HEADER_SIZE + f.offset;
    Pow256Values();
    match v
    case VUint(n) =>
      if f.kind == TUint(8) { Set64Holds(j, pos, n); } else { SetHolds(j, pos, SlotBytes(f.kind), n); }
    case VHandle(Some(h)) => HandleSlot(env, j, at, e, f, v);
    case VNull => Set64Holds(j, pos, 0);
    case VBlock(items) => BlockSlot(env, j, at, e, f, v, size);
  }

  lemma HandleSlot(env: Env, j: Js, at: nat, e: nat, f: Field, v: Value)
    requires (f.kind.THandle? || f.kind.TInterface?) && v.VHandle? && v.handle.Some?
    requires Room(j, e, 0, 1) && 8 * at + HEADER_SIZE + f.offset + SlotBytes(f.kind) <= 8 * e
    ensures var r := JsEncSlot(env, j, 8 * at + HEADER_SIZE + f.offset, f.kind, v);
      r.Ok? && SlotDone(env, j, r.value, at, e, f, v)
  {
    hide UintAt, Set, Pow256;
    var pos, h := 8 * at + HEADER_SIZE + f.offset, |j.handles|;
    var j0 := j.(handles := j.handles + [v.handle.value]);
    if f.kind.THandle? {
      Pow256Values();
      SetHolds(j0, pos, 4, h);
    } else {
      TwoSets(j0, pos, h, 0);
      WordsHold(JsEncSlot(env, j, pos, f.kind, v).value.buf, pos, h, 0);
    }
  }

  lemma {:induction false} BlockSlot(env: Env, j: Js, at: nat, e: nat, f: Field, v: Value, size: nat)
    requires LaidEnv(env) && FieldOk(env, f, size) && v.VBlock? && Conforms(env, f.kind, v) && Encodable(v)
    requires Room(j, e, ChildWords(env, f.kind, v), |HandlesOf(v)|) && 8 * at + HEADER_SIZE + size <= 8 * e
    ensures var r := JsEncSlot(env, j, 8 * at + HEADER_SIZE + f.offset, f.kind, v);
      r.Ok? && SlotDone(env, j, r.value, at, e, f, v)
    decreases v, 0
  {
    hide UintAt, LaidEnv, ConformsBlock, WfBlock, HandlesAll, ChildrenWords, RepBlock, JsEncBlock, Set64, Alloc,
      PayloadSize, Align8;
    var pos, b, items := 8 * at + HEADER_SIZE + f.offset, f.kind.target, v.items;
    var words := BlockWords(env, b, |items|);
    AlignWords(HEADER_SIZE + PayloadSize(env, b, |items|));
    Grows(j, e, words, ChildrenWords(env, Fields(env, b, |items|), items));
    var j1 := Alloc(j, 8 * words).value;
    Set64Holds(j1, pos, 8 * e - pos);
    var j2 := Set64(j1, pos, 8 * e - pos).value;
    JsEncBlockRep(env, j2, e, b, items);
    var j3 := JsEncBlock(env, j2, 8 * e, b, items).value;
    HoldsKept(j2.buf, j3.buf, 8 * e, 8 * e, 8 * e, pos, 8, 8 * e - pos);
  }

  // ---------------------------------------------------------------- the bools of one byte

  lemma {:induction false} PackedBits(lo: nat, bit: nat, fs: seq<Field>, vs: seq<Value>, o: nat)
    requires Laid(lo, bit, fs) && |fs| == |vs|
    requires forall i | 0 <= i < |fs| :: fs[i].kind.TBool? && fs[i].offset == o && fs[i].bit < 8 && vs[i].VBool?
    requires lo == o
    ensures PackBools(fs, vs) < 256
    ensures forall i | 0 <= i < |fs| :: bit <= fs[i].bit && Bit(PackBools(fs, vs), fs[i].bit) == vs[i].b
    ensures forall k | 0 <= k < bit :: !Bit(PackBools(fs, vs), k)
    decreases |fs|
  {
    if fs == [] {
      forall k: nat ensures !Bit(0, k) { ZeroHasNoBits(k); }
    } else {
      var rest := PackBools(fs[1..], vs[1..]);
      PackedBits(lo, fs[0].bit + 1, fs[1..], vs[1..], o);
      if vs[0].b {
        OrBitBound(rest, fs[0].bit, 8);
        assert Pow2(8) == 256 by { assert Pow2(4) == 16; }
        forall k: nat ensures Bit(OrBit(rest, fs[0].bit), k) == (k == fs[0].bit || Bit(rest, k)) {
          OrBitBits(rest, fs[0].bit, k);
        }
      }
      forall i | 0 <= i < |fs|
        ensures bit <= fs[i].bit && Bit(PackBools(fs, vs), fs[i].bit) == vs[i].b
      {
        if i > 0 {
          assert fs[i] == fs[1..][i - 1] && vs[i] == vs[1..][i - 1];
        }
      }
    }
  }

  lemma {:induction false} LaidPrefix(lo: nat, bit: nat, fs: seq<Field>, k: nat)
    requires Laid(lo, bit, fs) && k <= |fs|
    ensures Laid(lo, bit, fs[..k])
    decreases |fs|
  {
    if k > 0 {
      assert fs[..k][1..] == fs[1..][..k - 1];
      if fs[0].kind.TBool? { LaidPrefix(fs[0].offset, fs[0].bit + 1, fs[1..], k - 1); }
      else { LaidPrefix(fs[0].offset + SlotBytes(fs[0].kind), 0, fs[1..], k - 1); }
    }
  }

  /** Behind the bools of a byte comes the next byte. */
  lemma {:induction false} LaidBehindRun(lo: nat, bit: nat, fs: seq<Field>, k: nat)
    requires Laid(lo, bit, fs) && fs != [] && 1 <= k == BoolRun(fs) && fs[0].kind.TBool?
    ensures Laid(fs[0].offset + 1, 0, fs[k..])
    decreases |fs|
  {
    if k > 1 {
      assert fs[1..][k - 1..] == fs[k..];
      LaidBehindRun(fs[0].offset, fs[0].bit + 1, fs[1..], k - 1);
    }
  }

  /** Bools point nowhere and hold no handles. */
  lemma {:induction false} BoolsFirst(env: Env, buf: seq<Byte>, at: nat, e: nat, h: nat, fs: seq<Field>, vs: seq<Value>,
                                      k: nat)
    requires k <= |fs| == |vs|
    requires forall i | 0 <= i < k :: fs[i].kind.TBool? && vs[i].VBool? && RepSlot(env, buf, at, e, h, fs[i], vs[i])
    ensures RepSlots(env, buf, at, e, h, fs, vs) == RepSlots(env, buf, at, e, h, fs[k..], vs[k..])
    ensures ChildrenWords(env, fs, vs) == ChildrenWords(env, fs[k..], vs[k..])
    ensures HandlesAll(vs) == HandlesAll(vs[k..])
    decreases k
  {
    hide RepSlot;
    if k == 0 {
      assert fs[0..] == fs && vs[0..] == vs;
    } else {
      assert fs[1..][k - 1..] == fs[k..] && vs[1..][k - 1..] == vs[k..];
      BoolsFirst(env, buf, at, e, h, fs[1..], vs[1..], k - 1);
      assert HandlesAll(vs) == [] + HandlesAll(vs[1..]);
    }
  }

  lemma {:induction false} ConformsSplit(env: Env, fs: seq<Field>, vs: seq<Value>, k: nat)
    requires ConformsAll(env, fs, vs) && k <= |fs|
    ensures ConformsAll(env, fs[k..], vs[k..])
    ensures forall i | 0 <= i < k :: Conforms(env, fs[i].kind, vs[i])
    decreases k
  {
    hide Conforms;
    if k == 0 {
      assert fs[0..] == fs && vs[0..] == vs;
    } else {
      assert fs[1..][k - 1..] == fs[k..] && vs[1..][k - 1..] == vs[k..];
      ConformsSplit(env, fs[1..], vs[1..], k - 1);
      forall i | 0 <= i < k ensures Conforms(env, fs[i].kind, vs[i]) {
        if i > 0 { assert fs[i] == fs[1..][i - 1] && vs[i] == vs[1..][i - 1]; }
      }
    }
  }

  // ---------------------------------------------------------------- all slots

  /** The slots are written behind byte `lo` of the block's payload and before `hi`. */
  predicate SlotsDone(env: Env, j: Js, j': Js, at: nat, e: nat, fs: seq<Field>, vs: seq<Value>, lo: nat, hi: nat) {
    && j'.next == 8 * (e + ChildrenWords(env, fs, vs)) <= |j'.buf|
    && j'.handles == j.handles + HandlesAll(vs)
    && Kept(j.buf, j'.buf, 8 * e, 8 * at + HEADER_SIZE + lo, 8 * at + HEADER_SIZE + hi)
    && RepSlots(env, j'.buf, at, e, |j.handles|, fs, vs)
  }

  lemma {:induction false} JsEncSlotsRep(env: Env, j: Js, at: nat, e: nat, fs: seq<Field>, vs: seq<Value>, lo: nat,
                                         size: nat)
    requires LaidEnv(env) && FieldsOk(env, fs, size) && Laid(lo, 0, fs) && ConformsAll(env, fs, vs) && EncodableAll(vs)
    requires Room(j, e, ChildrenWords(env, fs, vs), |HandlesAll(vs)|) && 8 * at + HEADER_SIZE + size <= 8 * e
    ensures var r := JsEncSlots(env, j, 8 * at + HEADER_SIZE, fs, vs);
      r.Ok? && SlotsDone(env, j, r.value, at, e, fs, vs, lo, size)
    decreases vs, 2, |vs|
  {
    hide *;
    ConformsLengths(env, fs, vs);
    if vs == [] {
      NoSlots(env, j, at, e, fs, vs, lo, size);
    } else if fs[0].kind.TBool? {
      BoolsThenSlots(env, j, at, e, fs, vs, lo, size);
    } else {
      SlotThenSlots(env, j, at, e, fs, vs, lo, size);
    }
  }

  lemma NoSlots(env: Env, j: Js, at: nat, e: nat, fs: seq<Field>, vs: seq<Value>, lo: nat, size: nat)
    requires vs == [] && ConformsAll(env, fs, vs) && Room(j, e, ChildrenWords(env, fs, vs), |HandlesAll(vs)|)
    ensures JsEncSlots(env, j, 8 * at + HEADER_SIZE, fs, vs) == Ok(j)
    ensures SlotsDone(env, j, j, at, e, fs, vs, lo, size)
  {
  }

  lemma {:induction false} BoolsThenSlots(env: Env, j: Js, at: nat, e: nat, fs: seq<Field>, vs: seq<Value>, lo: nat,
                                          size: nat)
    requires LaidEnv(env) && FieldsOk(env, fs, size) && Laid(lo, 0, fs) && ConformsAll(env, fs, vs) && EncodableAll(vs)
    requires Room(j, e, ChildrenWords(env, fs, vs), |HandlesAll(vs)|) && 8 * at + HEADER_SIZE + size <= 8 * e
    requires vs != [] && fs != [] && fs[0].kind.TBool?
    ensures var r := JsEncSlots(env, j, 8 * at + HEADER_SIZE, fs, vs);
      r.Ok? && SlotsDone(env, j, r.value, at, e, fs, vs, lo, size)
    decreases vs, 1, |vs|
  {
    hide UintAt, LaidEnv, WfType, RepSlots, HandlesAll, ChildrenWords, Conforms, ConformsAll, Laid, Set, PackBools,
      Encodable;
    ConformsLengths(env, fs, vs);
    var k, pos, o := BoolRun(fs), 8 * at + HEADER_SIZE + fs[0].offset, fs[0].offset;
    RunIsBool(env, fs, vs, k, size);
    RunBits(env, fs, vs, lo, k);
    var packed := PackBools(fs[..k], vs[..k]);
    assert FieldOk(env, fs[0], size);
    SetByte(j, pos, packed);
    var j1 := Set(j, pos, 1, packed).value;
    LaidBehindRun(lo, 0, fs, k);
    RunIsFlat(env, fs, vs, k);
    ConformsSplit(env, fs, vs, k);
    JsEncSlotsRep(env, j1, at, e, fs[k..], vs[k..], o + 1, size);
    var j2 := JsEncSlots(env, j1, 8 * at + HEADER_SIZE, fs[k..], vs[k..]).value;
    forall i | 0 <= i < k
      ensures RepSlot(env, j2.buf, at, e, |j.handles|, fs[i], vs[i])
    {
      assert fs[i].offset == o && Bit(packed, fs[i].bit) == vs[i].b && j2.buf[pos] == packed;
    }
    BoolsFirst(env, j2.buf, at, e, |j.handles|, fs, vs, k);
    LaidStart(lo, fs);
  }

  lemma ConformsLengths(env: Env, fs: seq<Field>, vs: seq<Value>)
    requires ConformsAll(env, fs, vs)
    ensures |fs| == |vs|
  {
  }

  lemma LaidStart(lo: nat, fs: seq<Field>)
    requires Laid(lo, 0, fs) && fs != []
    ensures lo <= fs[0].offset
  {
  }

  lemma SetByte(j: Js, at: nat, n: nat)
    requires at < |j.buf| && n < 256
    ensures var r := Set(j, at, 1, n);
      && r.Ok? && r.value == j.(buf := r.value.buf)
      && |r.value.buf| == |j.buf| && r.value.buf[at] == n
      && Kept(j.buf, r.value.buf, |j.buf|, at, at + 1)
  {
    hide UintAt, Set;
    Pow256Values();
    SetHolds(j, at, 1, n);
    JsReading.ByteAt(Set(j, at, 1, n).value.buf, at);
  }

  lemma RunIsBool(env: Env, fs: seq<Field>, vs: seq<Value>, k: nat, size: nat)
    requires ConformsAll(env, fs, vs) && FieldsOk(env, fs, size) && fs != [] && fs[0].kind.TBool? && k == BoolRun(fs)
    ensures forall i | 0 <= i < k :: fs[i].kind.TBool? && fs[i].offset == fs[0].offset && fs[i].bit < 8 && vs[i].VBool?
  {
    hide Conforms, WfType, BoolRun;
    ConformsSplit(env, fs, vs, k);
    forall i | 0 <= i < k
      ensures fs[i].kind.TBool? && fs[i].offset == fs[0].offset && fs[i].bit < 8 && vs[i].VBool?
    {
      assert FieldOk(env, fs[i], size);
      BoolValue(env, fs[i].kind, vs[i]);
    }
  }

  lemma BoolValue(env: Env, t: Type, v: Value)
    requires Conforms(env, t, v) && t.TBool?
    ensures v.VBool?
  {
  }

  lemma RunBits(env: Env, fs: seq<Field>, vs: seq<Value>, lo: nat, k: nat)
    requires Laid(lo, 0, fs) && |fs| == |vs| && k <= |fs| && fs != []
    requires forall i | 0 <= i < k :: fs[i].kind.TBool? && fs[i].offset == fs[0].offset && fs[i].bit < 8 && vs[i].VBool?
    ensures PackBools(fs[..k], vs[..k]) < 256
    ensures forall i | 0 <= i < k :: Bit(PackBools(fs[..k], vs[..k]), fs[i].bit) == vs[i].b
  {
    hide PackBools;
    var fs', vs' := fs[..k], vs[..k];
    LaidFrom(fs[0].offset, 0, fs[0].offset, 0, fs);
    LaidPrefix(fs[0].offset, 0, fs, k);
    PackedBits(fs[0].offset, 0, fs', vs', fs[0].offset);
    forall i | 0 <= i < k ensures Bit(PackBools(fs', vs'), fs[i].bit) == vs[i].b {
      assert fs[i] == fs'[i] && vs[i] == vs'[i];
    }
  }

  lemma {:induction false} RunIsFlat(env: Env, fs: seq<Field>, vs: seq<Value>, k: nat)
    requires |fs| == |vs| && k <= |fs| && forall i | 0 <= i < k :: fs[i].kind.TBool? && vs[i].VBool?
    ensures ChildrenWords(env, fs, vs) == ChildrenWords(env, fs[k..], vs[k..])
    ensures HandlesAll(vs) == HandlesAll(vs[k..])
    decreases k
  {
    if k == 0 {
      assert fs[0..] == fs && vs[0..] == vs;
    } else {
      assert fs[1..][k - 1..] == fs[k..] && vs[1..][k - 1..] == vs[k..];
      RunIsFlat(env, fs[1..], vs[1..], k - 1);
      assert HandlesAll(vs) == [] + HandlesAll(vs[1..]);
    }
  }

  lemma {:induction false} SlotThenSlots(env: Env, j: Js, at: nat, e: nat, fs: seq<Field>, vs: seq<Value>, lo: nat,
                                         size: nat)
    requires LaidEnv(env) && FieldsOk(env, fs, size) && Laid(lo, 0, fs) && ConformsAll(env, fs, vs) && EncodableAll(vs)
    requires Room(j, e, ChildrenWords(env, fs, vs), |HandlesAll(vs)|) && 8 * at + HEADER_SIZE + size <= 8 * e
    requires vs != [] && fs != [] && !fs[0].kind.TBool?
    ensures var r := JsEncSlots(env, j, 8 * at + HEADER_SIZE, fs, vs);
      r.Ok? && SlotsDone(env, j, r.value, at, e, fs, vs, lo, size)
    decreases vs, 1, |vs|
  {
    hide UintAt, LaidEnv, WfType, RepSlots, RepSlot, HandlesOf, ChildWords, Conforms, Encodable, JsEncSlot, SlotBytes,
      Kept, SlotsDone;
    var f, v, base := fs[0], vs[0], 8 * at + HEADER_SIZE;
    assert FieldOk(env, f, size);
    JsEncSlotRep(env, j, at, e, f, v, size);
    var j1 := JsEncSlot(env, j, base + f.offset, f.kind, v).value;
    var e1, lo1 := e + ChildWords(env, f.kind, v), f.offset + SlotBytes(f.kind);
    JsEncSlotsRep(env, j1, at, e1, fs[1..], vs[1..], lo1, size);
    var j2 := JsEncSlots(env, j1, base, fs[1..], vs[1..]).value;
    DoneCons(env, j, j1, j2, at, e, fs, vs, lo, size);
  }

  /** A slot, then the slots behind it. */
  lemma DoneCons(env: Env, j: Js, j1: Js, j2: Js, at: nat, e: nat, fs: seq<Field>, vs: seq<Value>, lo: nat, size: nat)
    requires LaidEnv(env) && FieldsOk(env, fs, size) && Laid(lo, 0, fs) && vs != [] && |fs| == |vs|
    requires !fs[0].kind.TBool? && Conforms(env, fs[0].kind, vs[0]) && 8 * at + HEADER_SIZE + size <= 8 * e
    requires SlotDone(env, j, j1, at, e, fs[0], vs[0])
    requires var e1, lo1 := e + ChildWords(env, fs[0].kind, vs[0]), fs[0].offset + SlotBytes(fs[0].kind);
      SlotsDone(env, j1, j2, at, e1, fs[1..], vs[1..], lo1, size)
    ensures SlotsDone(env, j, j2, at, e, fs, vs, lo, size)
  {
    hide UintAt, LaidEnv, WfType, RepSlot, HandlesOf, ChildWords, Conforms, SlotBytes;
    var f, v := fs[0], vs[0];
    assert FieldOk(env, f, size);
    RepSlotKept(env, j1.buf, j2.buf, at, e, |j.handles|, f, v, size, f.offset + SlotBytes(f.kind));
    assert j2.handles == j.handles + (HandlesOf(v) + HandlesAll(vs[1..]));
  }

  /** Writing the slots behind it does not disturb a slot and its block. */
  lemma RepSlotKept(env: Env, buf: seq<Byte>, buf': seq<Byte>, at: nat, e: nat, h: nat, f: Field, v: Value, size: nat,
                    lo: nat)
    requires LaidEnv(env) && FieldOk(env, f, size) && Conforms(env, f.kind, v) && RepSlot(env, buf, at, e, h, f, v)
    requires f.offset + SlotBytes(f.kind) <= lo && 8 * at + HEADER_SIZE + size <= 8 * e
    requires Kept(buf, buf', 8 * (e + ChildWords(env, f.kind, v)), 8 * at + HEADER_SIZE + lo,
      8 * at + HEADER_SIZE + size)
    ensures RepSlot(env, buf', at, e, h, f, v)
  {
    hide UintAt, WfEnv, WfBlock, RepBlock, ConformsBlock, TotalWords, Laid;
    var pos, end := 8 * at + HEADER_SIZE + f.offset, 8 * (e + ChildWords(env, f.kind, v));
    if !f.kind.TBool? {
      HoldsKept(buf, buf', end, 8 * at + HEADER_SIZE + lo, 8 * at + HEADER_SIZE + size, pos, SlotBytes(f.kind),
        SlotNumber(v, pos, e, h));
      if v.VBlock? {
        assert Agree(buf, buf', 8 * e, end, 0);
        RepBlockMoves(env, buf, buf', 0, e, h, f.kind.target, v.items);
      }
    }
  }

  // ---------------------------------------------------------------- a block

  /** A block allocated at word `at` is filled, and its children are put behind it. */
  lemma {:induction false} JsEncBlockRep(env: Env, j: Js, at: nat, b: Block, items: seq<Value>)
    requires LaidEnv(env) && ConformsBlock(env, b, items) && EncodableAll(items)
    requires var e := at + BlockWords(env, b, |items|);
      Room(j, e, ChildrenWords(env, Fields(env, b, |items|), items), |HandlesAll(items)|)
    ensures var r := JsEncBlock(env, j, 8 * at, b, items);
      && r.Ok?
      && r.value.next == 8 * (at + TotalWords(env, b, items)) <= |r.value.buf|
      && r.value.handles == j.handles + HandlesAll(items)
      && Kept(j.buf, r.value.buf, 8 * at, 8 * at, 8 * at)
      && RepBlock(env, r.value.buf, at, |j.handles|, b, items)
    decreases items, 3, 0
  {
    hide UintAt, LaidEnv, RepSlots, HandlesAll, ChildrenWords, ConformsAll, Set, JsEncSlots, WfBlock, PayloadSize,
      SecondWord, Fields, FieldsOk, Encodable, Laid;
    var n, size, fs := |items|, PayloadSize(env, b, |items|), Fields(env, b, |items|);
    var e := at + BlockWords(env, b, n);
    LaidIsWf(env);
    HeaderFits(env, b, items);
    TwoSets(j, 8 * at, HEADER_SIZE + size, SecondWord(env, b, n));
    var j2 := Set(Set(j, 8 * at, 4, HEADER_SIZE + size).value, 8 * at + 4, 4, SecondWord(env, b, n)).value;
    BlockFieldsOk(env, b, n);
    BlockLaid(env, b, n);
    JsEncSlotsRep(env, j2, at, e, fs, items, 0, size);
    var j3 := JsEncSlots(env, j2, 8 * at + HEADER_SIZE, fs, items).value;
    HoldsKept(j2.buf, j3.buf, 8 * e, 8 * at + HEADER_SIZE, 8 * at + HEADER_SIZE + size, 8 * at, 4, HEADER_SIZE + size);
    HoldsKept(j2.buf, j3.buf, 8 * e, 8 * at + HEADER_SIZE, 8 * at + HEADER_SIZE + size, 8 * at + 4, 4,
      SecondWord(env, b, n));
  }
}
