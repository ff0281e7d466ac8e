/**
The generated Go encoders write representations: `EncBlock` succeeds exactly on the blocks that the capacity guard
lets through, and then the claimed bytes represent the value.
*/
module GoEncoding {
  import opened Bytes
  import opened Wire
  import opened GoArchive
  import opened GoLayout

  // ---------------------------------------------------------------- what a write keeps

  ghost predicate ZeroFrom(buf: seq<Byte>, lo: nat) {
    forall i | lo <= i < |buf| :: buf[i] == 0
  }

  /** The bits of a frame's block that are still ahead of its cursor are zero. */
  ghost predicate OpenZero(buf: seq<Byte>, f: Frame) {
    && f.bitOffset < 8
    && f.AlignToBytes().offset <= f.limit <= |buf|
    && (forall i | f.AlignToBytes().offset <= i < f.limit :: buf[i] == 0)
    && (f.bitOffset > 0 ==> forall j | f.bitOffset <= j < 8 :: !Bit(buf[f.offset], j))
  }

  /** The encoder may write through its top frame: unclaimed bytes and unwritten bits are zero. */
  ghost predicate Ready(e: Enc, end: nat) {
    && e.end == 8 * end <= |e.buf|
    && ZeroFrom(e.buf, e.end)
    && e.stack != []
    && Top(e.stack).limit <= e.end
    && OpenZero(e.buf, Top(e.stack))
  }

  /** Going from `buf` to `buf'` changed nothing behind the cursor `f` and nothing between its block and `end`. */
  ghost predicate Kept(buf: seq<Byte>, end: nat, buf': seq<Byte>, f: Frame) {
    && |buf| <= |buf'|
    && end <= |buf|
    && f.offset <= |buf|
    && (forall i | 0 <= i < f.offset :: buf'[i] == buf[i])
    && (f.bitOffset > 0 ==> f.offset < |buf| && forall j | 0 <= j < f.bitOffset ::
      Bit(buf'[f.offset], j) == Bit(buf[f.offset], j))
    && (forall i | f.limit <= i < end :: buf'[i] == buf[i])
  }

  ghost predicate Behind(f: Frame, f': Frame) {
    f.limit == f'.limit && (f.offset < f'.offset || (f.offset == f'.offset && f.bitOffset <= f'.bitOffset))
  }

  lemma KeptTrans(buf: seq<Byte>, end: nat, buf1: seq<Byte>, end1: nat, buf2: seq<Byte>, f: Frame, f1: Frame)
    requires Kept(buf, end, buf1, f) && Kept(buf1, end1, buf2, f1) && Behind(f, f1) && end <= end1
    ensures Kept(buf, end, buf2, f)
  {
  }

  // ---------------------------------------------------------------- single writes

  lemma StepBool(e: Enc, end: nat, b: bool)
    requires Ready(e, end) && !Top(e.stack).Full() && Top(e.stack).offset < Top(e.stack).limit
    ensures var f, r := Top(e.stack), WriteBool(e, b);
      && r.Ok?
      && r.value == e.(buf := r.value.buf, stack := SetTop(e.stack, f.SkipBits(1).(processed := f.processed + 1)))
      && Ready(r.value, end) && Kept(e.buf, e.end, r.value.buf, f)
      && Bit(r.value.buf[f.offset], f.bitOffset) == b
  {
    var f := Top(e.stack);
    GuardBool(f);
    hide Frame.Fits;
    if f.bitOffset == 0 {
      forall j | 0 <= j < 8 ensures !Bit(e.buf[f.offset], j) { ZeroHasNoBits(j); }
    }
  }

  lemma StepUint(e: Enc, end: nat, width: nat, n: nat, at: nat)
    requires width >= 1 && n < Pow256(width)
    requires Ready(e, end) && !Top(e.stack).Full() && Top(e.stack).Fits(8 * width)
    requires Top(e.stack).SlotStart(width) == at
    requires Top(e.stack).AlignToBytes().offset <= at && at + width <= Top(e.stack).limit
    ensures var f, r := Top(e.stack), WriteUint(e, width, n);
      && r.Ok?
      && r.value == e.(buf := PutUint(e.buf, at, width, n),
                       stack := SetTop(e.stack, f.(offset := at + width, bitOffset := 0, processed := f.processed + 1)))
      && Ready(r.value, end) && Kept(e.buf, e.end, r.value.buf, f)
      && Holds(r.value.buf, at, width, n)
  {
    hide Frame.Fits, Frame.SlotStart, PutUint, ZeroFrom, OpenZero, Kept;
    PutThenGet(e.buf, at, width, n);
    PutKeeps(e, at, width, n);
  }

  lemma PutKeeps(e: Enc, at: nat, width: nat, n: nat)
    requires e.stack != [] && Top(e.stack).AlignToBytes().offset <= at
    requires at + width <= Top(e.stack).limit <= e.end <= |e.buf|
    requires ZeroFrom(e.buf, e.end) && OpenZero(e.buf, Top(e.stack))
    ensures var f, buf := Top(e.stack), PutUint(e.buf, at, width, n);
      && ZeroFrom(buf, e.end)
      && OpenZero(buf, f.(offset := at + width, bitOffset := 0, processed := f.processed + 1))
      && Kept(e.buf, e.end, buf, f)
  {
    hide PutUint;
  }

  // ---------------------------------------------------------------- opening a block

  lemma HeaderHolds(buf: seq<Byte>, at: nat, first: nat, second: nat)
    requires at + 8 <= |buf| && first < TWO_32 && second < TWO_32
    ensures var buf' := PutUint(PutUint(buf, at, 4, first), at + 4, 4, second);
      Holds(buf', at, 4, first) && Holds(buf', at + 4, 4, second)
  {
    hide PutUint;
    Pow256Values();
    var buf1 := PutUint(buf, at, 4, first);
    var buf2 := PutUint(buf1, at + 4, 4, second);
    PutThenGet(buf, at, 4, first);
    PutThenGet(buf1, at + 4, 4, second);
    assert Agree(buf1, buf2, at, at + 4, 0);
    HoldsMoves(buf1, buf2, at, at + 4, 0, at, 4, first);
  }

  lemma AlignToWords(size: nat)
    ensures GoAlign(size, 8) == 8 * ((size + 7) / 8)
  {
    hide GoAlign;
    AlignIsNext(size, 8);
    NextIsUnique(size, GoAlign(size, 8), 8 * ((size + 7) / 8), 8);
  }

  lemma StartIs(e: Enc, end: nat, size: nat, second: nat, check: bool, words: nat)
    requires e.end == 8 * end && HEADER_SIZE + size < TWO_32 && words == (HEADER_SIZE + size + 7) / 8
    ensures var c := Claim(e, 8 * words);
      && e.end + 8 <= |c.buf|
      && Start(e, size, second, check) ==
         Ok(Enc(PutUint(PutUint(c.buf, e.end, 4, HEADER_SIZE + size), e.end + 4, 4, second), 8 * (end + words),
           e.handles,
            e.stack + [Frame(e.end + HEADER_SIZE, 0, 8 * (end + words), if check then second else 0, 0, check)]))
  {
    hide GoAlign, PutUint;
    AlignToWords(HEADER_SIZE + size);
  }

  lemma StepStart(e: Enc, end: nat, size: nat, second: nat, check: bool)
    requires e.end == 8 * end <= |e.buf| && ZeroFrom(e.buf, e.end)
    requires HEADER_SIZE + size < TWO_32 && second < TWO_32
    ensures var r, words := Start(e, size, second, check), (HEADER_SIZE + size + 7) / 8;
      && r.Ok?
      && r.value == Enc(r.value.buf, 8 * (end + words), e.handles,
                        e.stack +
                          [Frame(e.end + HEADER_SIZE, 0, 8 * (end + words), if check then second else 0, 0, check)])
      && Ready(r.value, end + words)
      && |e.buf| <= |r.value.buf| && (forall i | 0 <= i < e.end :: r.value.buf[i] == e.buf[i])
      && Holds(r.value.buf, e.end, 4, HEADER_SIZE + size) && Holds(r.value.buf, e.end + 4, 4, second)
  {
    hide Start, PutUint, Holds, ZeroFrom, OpenZero, Claim;
    var words := (HEADER_SIZE + size + 7) / 8;
    StartIs(e, end, size, second, check, words);
    HeaderHolds(Claim(e, 8 * words).buf, e.end, HEADER_SIZE + size, second);
    StartKeeps(e, end, words, HEADER_SIZE + size, second, Top(Start(e, size, second, check).value.stack));
  }

  lemma StartKeeps(e: Enc, end: nat, words: nat, first: nat, second: nat, f: Frame)
    requires e.end == 8 * end <= |e.buf| && ZeroFrom(e.buf, e.end) && words >= 1
    requires f.offset == e.end + HEADER_SIZE && f.bitOffset == 0 && f.limit == 8 * (end + words)
    ensures var c := Claim(e, 8 * words);
      c.end <= |c.buf| && c.end == 8 * (end + words) &&
      var buf := PutUint(PutUint(c.buf, e.end, 4, first), e.end + 4, 4, second);
      && ZeroFrom(buf, c.end) && OpenZero(buf, f)
      && |e.buf| <= |buf| && (forall i | 0 <= i < e.end :: buf[i] == e.buf[i])
  {
    hide PutUint;
  }

  // ---------------------------------------------------------------- one slot

  /** The encoder is in front of slots `fs` of the block at word `at`. */
  ghost predicate AtSlots(env: Env, e: Enc, end: nat, at: nat, fs: seq<Field>, size: nat) {
    && Ready(e, end)
    && at < end
    && InFront(env, Top(e.stack), at, fs, size)
  }

  /** `e'` is `e` with `v` written into its next slot `fld` and all blocks below `v` claimed. */
  ghost predicate SlotDone(env: Env, e: Enc, end: nat, at: nat, fld: Field, v: Value, e': Enc) {
    && e.stack != []
    && e'.stack == SetTop(e.stack, Passed(Top(e.stack), at, fld))
    && e'.handles == e.handles + HandlesOf(v)
    && Ready(e', end + ChildWords(env, fld.kind, v))
    && Kept(e.buf, e.end, e'.buf, Top(e.stack))
    && RepSlot(env, e'.buf, at, end, |e.handles|, fld, v)
  }

  lemma BoolSlot(env: Env, e: Enc, end: nat, at: nat, fs: seq<Field>, size: nat, v: Value)
    requires AtSlots(env, e, end, at, fs, size) && fs != [] && fs[0].kind.TBool? && v.VBool?
    ensures var r := EncSlot(env, e, fs[0].kind, v);
      r.Ok? && SlotDone(env, e, end, at, fs[0], v, r.value)
  {
    hide WriteBool, Ready, Kept, InFront;
    ReadyInBuf(e, end);
    InFrontNotFull(env, Top(e.stack), at, fs, size);
    InFrontOfRest(env, Top(e.stack), at, fs, size);
    StepBool(e, end, v.b);
    ReadyInBuf(WriteBool(e, v.b).value, end);
  }

  lemma ReadyInBuf(e: Enc, end: nat)
    requires Ready(e, end)
    ensures e.stack != [] && e.end == 8 * end <= |e.buf| && Top(e.stack).limit <= |e.buf|
  {
  }

  /** A slot that is written as one number: an integer, a handle, a null pointer. */
  lemma NumberWrite(env: Env, e: Enc, end: nat, at: nat, fs: seq<Field>, size: nat, n: nat)
    requires AtSlots(env, e, end, at, fs, size) && fs != [] && !fs[0].kind.TBool?
    requires n < Pow256(Align(fs[0].kind)) && !Stuck(Top(e.stack), fs[0], size, true)
    ensures var f, pos, r := Top(e.stack), 8 * at + HEADER_SIZE + fs[0].offset, WriteUint(e, Align(fs[0].kind), n);
      && r.Ok?
      && r.value == e.(buf := r.value.buf, stack := SetTop(e.stack,
           f.(offset := pos + Align(fs[0].kind), bitOffset := 0, processed := f.processed + 1)))
      && Ready(r.value, end) && Kept(e.buf, e.end, r.value.buf, f)
      && Holds(r.value.buf, pos, Align(fs[0].kind), n)
  {
    hide WriteUint, Ready, Kept, InFront, PutUint, Frame.Fits, Frame.SlotStart, Holds, Stuck, WfEnv;
    ReadyInBuf(e, end);
    InFrontNotFull(env, Top(e.stack), at, fs, size);
    SlotFits(env, Top(e.stack), at, fs, size);
    StepUint(e, end, Align(fs[0].kind), n, 8 * at + HEADER_SIZE + fs[0].offset);
  }

  lemma UintSlot(env: Env, e: Enc, end: nat, at: nat, fs: seq<Field>, size: nat, v: Value)
    requires AtSlots(env, e, end, at, fs, size) && fs != [] && Conforms(env, fs[0].kind, v)
    requires v.VUint? && !Stuck(Top(e.stack), fs[0], size, true)
    ensures var r := EncSlot(env, e, fs[0].kind, v);
      r.Ok? && SlotDone(env, e, end, at, fs[0], v, r.value)
  {
    hide WriteUint, Ready, Kept, InFront, Holds, Stuck, WfEnv, RepBlock, ConformsBlock, TotalWords, Pow256, EncBlock,
      WriteBool, WriteHandle, WriteInterface, WriteInvalidInterface, WritePointer, HandlesAll;
    ReadyInBuf(e, end);
    SlotFits(env, Top(e.stack), at, fs, size);
    NumberWrite(env, e, end, at, fs, size, v.n);
  }

  lemma NullSlot(env: Env, e: Enc, end: nat, at: nat, fs: seq<Field>, size: nat, v: Value)
    requires AtSlots(env, e, end, at, fs, size) && fs != [] && fs[0].kind.TPtr?
    requires v.VNull? && !Stuck(Top(e.stack), fs[0], size, true)
    ensures var r := EncSlot(env, e, fs[0].kind, v);
      r.Ok? && SlotDone(env, e, end, at, fs[0], v, r.value)
  {
    hide WriteUint, Ready, Kept, InFront, Holds, Stuck;
    ReadyInBuf(e, end);
    Pow256Values();
    NumberWrite(env, e, end, at, fs, size, 0);
  }

  lemma HandleSlot(env: Env, e: Enc, end: nat, at: nat, fs: seq<Field>, size: nat, v: Value)
    requires AtSlots(env, e, end, at, fs, size) && fs != [] && fs[0].kind.THandle?
    requires v.VHandle? && |e.handles| + |HandlesOf(v)| <= INVALID_HANDLE
    ensures var r := EncSlot(env, e, fs[0].kind, v);
      r.Ok? && SlotDone(env, e, end, at, fs[0], v, r.value)
  {
    hide WriteUint, Ready, Kept, InFront, Holds;
    ReadyInBuf(e, end);
    Pow256Values();
    match v.handle
    case Some(h) =>
      var e' := e.(handles := e.handles + [h]);
      SameReady(e, e', end);
      NumberWrite(env, e', end, at, fs, size, |e.handles|);
    case None =>
      NumberWrite(env, e, end, at, fs, size, INVALID_HANDLE);
  }

  lemma SameReady(e: Enc, e': Enc, end: nat)
    requires Ready(e, end) && e'.buf == e.buf && e'.end == e.end && e'.stack != []
    requires Top(e'.stack) == Top(e.stack).(processed := Top(e'.stack).processed)
    ensures Ready(e', end)
  {
  }

  // ---------------------------------------------------------------- interfaces: two words

  lemma WordsJoin(buf: seq<Byte>, at: nat, n: nat)
    requires Holds(buf, at, 4, n) && Holds(buf, at + 4, 4, 0)
    ensures Holds(buf, at, 8, n)
  {
    var lo, hi := buf[at..at + 4], buf[at + 4..at + 8];
    LEJoin(lo, hi);
    assert buf[at..at + 8] == lo + hi;
  }

  /** The handle word and the version word. */
  lemma InterfaceWrite(env: Env, e: Enc, end: nat, at: nat, fs: seq<Field>, size: nat, n: nat)
    requires AtSlots(env, e, end, at, fs, size) && fs != [] && fs[0].kind.TInterface? && n < TWO_32
    ensures var f, pos, r1 := Top(e.stack), 8 * at + HEADER_SIZE + fs[0].offset, WriteUint(e, 4, n);
      && r1.Ok? && r1.value.stack != [] && r1.value.handles == e.handles &&
      var r2 := WriteUint(Unprocess(r1.value), 4, 0);
      && r2.Ok?
      && r2.value == e.(buf := r2.value.buf, stack := SetTop(e.stack, Passed(f, at, fs[0])))
      && Ready(r2.value, end) && Kept(e.buf, e.end, r2.value.buf, f)
      && Holds(r2.value.buf, pos, 8, n)
  {
    hide WriteUint, Ready, Kept, InFront, PutUint, Frame.Fits, Frame.SlotStart, Holds;
    ReadyInBuf(e, end);
    Pow256Values();
    var f, pos := Top(e.stack), 8 * at + HEADER_SIZE + fs[0].offset;
    NumberWrite(env, e, end, at, fs, size, n);
    InterfaceAligned(env, f, at, fs, size);
    InFrontNotFull(env, f, at, fs, size);
    var e1 := WriteUint(e, 4, n).value;
    var e2 := Unprocess(e1);
    var f2 := f.(offset := pos + 4, bitOffset := 0);
    assert Top(e2.stack) == f2;
    SameReady(e1, e2, end);
    SecondWordFits(f2, pos);
    StepUint(e2, end, 4, 0, pos + 4);
    var e3 := WriteUint(e2, 4, 0).value;
    SlotFits(env, f, at, fs, size);
    InterfaceKept(e, e1, e3, f, f2, pos, n);
  }

  lemma InterfaceKept(e: Enc, e1: Enc, e3: Enc, f: Frame, f2: Frame, pos: nat, n: nat)
    requires Kept(e.buf, e.end, e1.buf, f) && Kept(e1.buf, e.end, e3.buf, f2)
    requires f2 == f.(offset := pos + 4, bitOffset := 0) && f.offset <= pos
    requires Holds(e1.buf, pos, 4, n) && Holds(e3.buf, pos + 4, 4, 0)
    ensures Kept(e.buf, e.end, e3.buf, f) && Holds(e3.buf, pos, 8, n)
  {
    KeptTrans(e.buf, e.end, e1.buf, e.end, e3.buf, f, f2);
    HoldsMoves(e1.buf, e3.buf, pos, pos + 4, 0, pos, 4, n);
    WordsJoin(e3.buf, pos, n);
  }

  lemma InterfaceSlot(env: Env, e: Enc, end: nat, at: nat, fs: seq<Field>, size: nat, v: Value)
    requires AtSlots(env, e, end, at, fs, size) && fs != [] && fs[0].kind.TInterface?
    requires v.VHandle? && |e.handles| + |HandlesOf(v)| <= INVALID_HANDLE
    ensures var r := EncSlot(env, e, fs[0].kind, v);
      r.Ok? && SlotDone(env, e, end, at, fs[0], v, r.value)
  {
    hide WriteUint, Ready, Kept, InFront, Holds;
    ReadyInBuf(e, end);
    match v.handle
    case Some(h) =>
      var e' := e.(handles := e.handles + [h]);
      SameReady(e, e', end);
      InterfaceWrite(env, e', end, at, fs, size, |e.handles|);
    case None =>
      InterfaceWrite(env, e, end, at, fs, size, INVALID_HANDLE);
  }

  // ---------------------------------------------------------------- pointers and blocks

  /** A slot whose write was dropped still holds 0. */
  lemma DroppedSlot(env: Env, e: Enc, end: nat, at: nat, fs: seq<Field>, size: nat, v: Value)
    requires AtSlots(env, e, end, at, fs, size) && fs != [] && fs[0].kind.TPtr?
    requires v.VNull? && Stuck(Top(e.stack), fs[0], size, true)
    ensures EncSlot(env, e, fs[0].kind, v) == Ok(e)
    ensures RepSlot(env, e.buf, at, end, |e.handles|, fs[0], v)
  {
    hide InFront, Frame.Fits, Frame.SlotStart, Packed;
    var f, pos := Top(e.stack), 8 * at + HEADER_SIZE + fs[0].offset;
    SlotFits(env, f, at, fs, size);
    StuckIsLast(env, f, at, fs, size);
    assert forall i | pos <= i < pos + 8 :: e.buf[i] == 0;
    LEOfZeros(e.buf[pos..pos + 8]);
  }

  /** `WritePointer` aligns first, so its write is never turned away. */
  lemma PointerWrite(env: Env, e: Enc, end: nat, at: nat, fs: seq<Field>, size: nat)
    requires AtSlots(env, e, end, at, fs, size) && fs != [] && fs[0].kind.TPtr? && 8 * end < TWO_64
    ensures var f, pos, r := Top(e.stack), 8 * at + HEADER_SIZE + fs[0].offset, WritePointer(e);
      && pos < 8 * end
      && r.Ok?
      && r.value == e.(buf := r.value.buf, stack := SetTop(e.stack, Passed(f, at, fs[0])))
      && Ready(r.value, end) && Kept(e.buf, e.end, r.value.buf, f)
      && Holds(r.value.buf, pos, 8, 8 * end - pos)
  {
    hide WriteUint, Kept, InFront, PutUint, Frame.Fits, Frame.SlotStart, Holds, GoAlign, Pow256, ZeroFrom;
    ReadyInBuf(e, end);
    Pow256Values();
    var f, pos := Top(e.stack), 8 * at + HEADER_SIZE + fs[0].offset;
    SlotFits(env, f, at, fs, size);
    InFrontNotFull(env, f, at, fs, size);
    var a := AlignTop(e);
    var fa := f.(offset := pos, bitOffset := 0);
    AlignedSlot(f, pos);
    assert Top(a.stack) == fa && WritePointer(e) == WriteUint(a, 8, 8 * end - pos);
    StepUint(a, end, 8, 8 * end - pos, pos);
    PointerKept(e.buf, e.end, WritePointer(e).value.buf, f, pos);
  }

  lemma AlignedSlot(f: Frame, pos: nat)
    requires f.SlotStart(8) == pos && pos + 8 <= f.limit
    ensures GoAlign(f.AlignToBytes().offset, 8) == pos
    ensures var fa := f.(offset := pos, bitOffset := 0); fa.SlotStart(8) == pos && fa.Fits(64)
  {
    hide GoAlign;
    AlignIsNext(f.AlignToBytes().offset, 8);
    AlignIsNext(pos, 8);
    NextIsUnique(pos, pos, GoAlign(pos, 8), 8);
    GuardExactAtByte(f.(offset := pos, bitOffset := 0), 8);
  }

  lemma PointerKept(buf: seq<Byte>, end: nat, buf': seq<Byte>, f: Frame, pos: nat)
    requires Kept(buf, end, buf', f.(offset := pos, bitOffset := 0)) && f.AlignToBytes().offset <= pos
    ensures Kept(buf, end, buf', f)
  {
  }

  ghost predicate BlockDone(env: Env, e: Enc, end: nat, b: Block, items: seq<Value>, e': Enc) {
    && e'.end == 8 * (end + TotalWords(env, b, items)) <= |e'.buf|
    && ZeroFrom(e'.buf, e'.end)
    && e'.stack == e.stack
    && e'.handles == e.handles + HandlesAll(items)
    && |e.buf| <= |e'.buf| && (forall i | 0 <= i < e.end <= |e.buf| :: e'.buf[i] == e.buf[i])
    && RepBlock(env, e'.buf, end, |e.handles|, b, items)
  }

  /** The slots `fs` are written; the cursor may rest in front of a dropped null pointer. */
  ghost predicate SlotsDone(env: Env, e: Enc, end: nat, at: nat, fs: seq<Field>, vs: seq<Value>, e': Enc) {
    && e.stack != [] && |e'.stack| == |e.stack| && e'.stack[..|e.stack| - 1] == e.stack[..|e.stack| - 1]
    && Top(e'.stack).check == Top(e.stack).check && Top(e'.stack).elements == Top(e.stack).elements
    && (Top(e.stack).check ==> Top(e'.stack).processed == Top(e.stack).processed + |fs|)
    && e'.end == 8 * (end + ChildrenWords(env, fs, vs)) <= |e'.buf|
    && ZeroFrom(e'.buf, e'.end)
    && e'.handles == e.handles + HandlesAll(vs)
    && Kept(e.buf, e.end, e'.buf, Top(e.stack))
    && RepSlots(env, e'.buf, at, end, |e.handles|, fs, vs)
  }

  /** A written slot stays written while the encoder goes on behind it. */
  lemma RepSlotKept(env: Env, buf1: seq<Byte>, end1: nat, buf: seq<Byte>, f: Frame, end: nat, at: nat, h: nat,
                    fld: Field, v: Value, size: nat)
    requires WfEnv(env) && FieldOk(env, fld, size) && Conforms(env, fld.kind, v)
    requires RepSlot(env, buf1, at, end, h, fld, v) && f.limit <= 8 * end
    requires end1 == 8 * (end + ChildWords(env, fld.kind, v))
    requires 8 * at + HEADER_SIZE + fld.offset + SlotBytes(fld.kind) <= f.limit
    requires Kept(buf1, end1, buf, Passed(f, at, fld))
    ensures RepSlot(env, buf, at, end, h, fld, v)
  {
    hide Conforms, HandlesOf, TotalWords, ConformsBlock, RepBlock, UintAt;
    var pos := 8 * at + HEADER_SIZE + fld.offset;
    if fld.kind.TBool? {
      BoolKept(buf1, end1, buf, f, at, fld);
    } else {
      NumberKept(buf1, end1, buf, f, at, fld, SlotNumber(v, pos, end, h));
      if v.VBlock? {
        ConformsPtr(env, fld.kind, v);
        BlockKept(buf1, end1, buf, Passed(f, at, fld), 8 * end);
        RepBlockMoves(env, buf1, buf, 0, end, h, fld.kind.target, v.items);
      }
    }
  }

  lemma BoolKept(buf1: seq<Byte>, end1: nat, buf: seq<Byte>, f: Frame, at: nat, fld: Field)
    requires Kept(buf1, end1, buf, Passed(f, at, fld)) && fld.kind.TBool? && fld.bit < 8
    ensures var pos := 8 * at + HEADER_SIZE + fld.offset;
      pos < |buf1| && pos < |buf| && Bit(buf[pos], fld.bit) == Bit(buf1[pos], fld.bit)
  {
  }

  lemma NumberKept(buf1: seq<Byte>, end1: nat, buf: seq<Byte>, f: Frame, at: nat, fld: Field, n: nat)
    requires Kept(buf1, end1, buf, Passed(f, at, fld)) && !fld.kind.TBool?
    requires Holds(buf1, 8 * at + HEADER_SIZE + fld.offset, SlotBytes(fld.kind), n)
    ensures Holds(buf, 8 * at + HEADER_SIZE + fld.offset, SlotBytes(fld.kind), n)
  {
    hide Holds;
    var pos := 8 * at + HEADER_SIZE + fld.offset;
    HoldsMoves(buf1, buf, pos, pos + SlotBytes(fld.kind), 0, pos, SlotBytes(fld.kind), n);
  }

  lemma BlockKept(buf1: seq<Byte>, end1: nat, buf: seq<Byte>, f: Frame, lo: nat)
    requires Kept(buf1, end1, buf, f) && f.limit <= lo <= end1
    ensures Agree(buf1, buf, lo, end1, 0)
  {
  }

  lemma ConformsPtr(env: Env, t: Type, v: Value)
    requires Conforms(env, t, v) && v.VBlock?
    ensures t.TPtr? && ConformsBlock(env, t.target, v.items)
  {
  }

  // ---------------------------------------------------------------- whole values

  /** What the value still has to fit into: 64-bit offsets and 32-bit handle numbers. */
  predicate Room(end: nat, words: nat, handles: nat, more: nat) {
    8 * (end + words) < TWO_64 && handles + more <= INVALID_HANDLE
  }

  /** The outcome of one slot: written, refused, or (for a null pointer whose error is dropped) left zero. */
  ghost predicate SlotOutcome(env: Env, e: Enc, end: nat, at: nat, fld: Field, size: nat, v: Value, r: Result<Enc>) {
    && e.stack != []
    && (r.Ok? <==> !Stuck(Top(e.stack), fld, size, false) && ClearSlot(env, end, fld.kind, v, false))
    && (r.Ok? ==>
      || SlotDone(env, e, end, at, fld, v, r.value)
      || (&& v.VNull? && Stuck(Top(e.stack), fld, size, true) && r.value == e
          && RepSlot(env, e.buf, at, end, |e.handles|, fld, v)))
  }

  lemma {:induction false} EncSlotRep(env: Env, e: Enc, end: nat, at: nat, fs: seq<Field>, size: nat, v: Value)
    requires PackedEnv(env) && AtSlots(env, e, end, at, fs, size) && fs != [] && Conforms(env, fs[0].kind, v)
    requires Room(end, ChildWords(env, fs[0].kind, v), |e.handles|, |HandlesOf(v)|)
    ensures SlotOutcome(env, e, end, at, fs[0], size, v, EncSlot(env, e, fs[0].kind, v))
    decreases v, 1
  {
    hide EncSlot, SlotDone, ClearBlock, RepSlot, ConformsBlock, InFront, Ready, PackedEnv;
    ReadyInBuf(e, end);
    match v
    case VBool(_) => BoolSlot(env, e, end, at, fs, size, v);
    case VUint(_) =>
      if Stuck(Top(e.stack), fs[0], size, true) {
        RefusedSlot(env, e, end, at, fs, size, v);
      } else {
        UintSlot(env, e, end, at, fs, size, v);
      }
    case VHandle(_) =>
      if fs[0].kind.THandle? {
        HandleSlot(env, e, end, at, fs, size, v);
      } else {
        InterfaceSlot(env, e, end, at, fs, size, v);
      }
    case VNull =>
      if Stuck(Top(e.stack), fs[0], size, true) {
        DroppedSlot(env, e, end, at, fs, size, v);
      } else {
        NullSlot(env, e, end, at, fs, size, v);
      }
    case VBlock(_) => BlockSlot(env, e, end, at, fs, size, v);
  }

  lemma RefusedSlot(env: Env, e: Enc, end: nat, at: nat, fs: seq<Field>, size: nat, v: Value)
    requires AtSlots(env, e, end, at, fs, size) && fs != [] && fs[0].kind.TUint? && v.VUint?
    requires Stuck(Top(e.stack), fs[0], size, true)
    ensures EncSlot(env, e, fs[0].kind, v).Err?
  {
    hide Ready, InFront, Frame.Fits, Frame.SlotStart;
    ReadyInBuf(e, end);
    SlotFits(env, Top(e.stack), at, fs, size);
  }

  lemma {:induction false} BlockSlot(env: Env, e: Enc, end: nat, at: nat, fs: seq<Field>, size: nat, v: Value)
    requires PackedEnv(env) && AtSlots(env, e, end, at, fs, size) && fs != [] && Conforms(env, fs[0].kind, v) &&
      v.VBlock?
    requires Room(end, ChildWords(env, fs[0].kind, v), |e.handles|, |HandlesOf(v)|)
    ensures var r := EncSlot(env, e, fs[0].kind, v);
      && (r.Ok? <==> ClearSlot(env, end, fs[0].kind, v, false))
      && (r.Ok? ==> SlotDone(env, e, end, at, fs[0], v, r.value))
    decreases v, 0
  {
    hide WritePointer, EncBlock, ClearBlock, Ready, Kept, InFront, Holds, PackedEnv, RepBlock, ConformsBlock, BlockDone,
      TotalWords, HandlesAll;
    ReadyInBuf(e, end);
    ConformsPtr(env, fs[0].kind, v);
    var b, items := fs[0].kind.target, v.items;
    PointerWrite(env, e, end, at, fs, size);
    var e1 := WritePointer(e).value;
    ReadyZero(e1, end);
    EncBlockRep(env, e1, end, b, items);
    if EncBlock(env, e1, b, items).Ok? {
      BlockSlotDone(env, e, e1, EncBlock(env, e1, b, items).value, end, at, fs, size, v);
    }
  }

  lemma ReadyZero(e: Enc, end: nat)
    requires Ready(e, end)
    ensures e.end == 8 * end <= |e.buf| && ZeroFrom(e.buf, e.end)
  {
  }

  lemma BlockSlotDone(env: Env, e: Enc, e1: Enc, e2: Enc, end: nat, at: nat, fs: seq<Field>, size: nat, v: Value)
    requires AtSlots(env, e, end, at, fs, size) && fs != [] && v.VBlock? && fs[0].kind.TPtr?
    requires 8 * at + HEADER_SIZE + fs[0].offset < 8 * end
    requires e1 == e.(buf := e1.buf, stack := SetTop(e.stack, Passed(Top(e.stack), at, fs[0])))
    requires Ready(e1, end) && Kept(e.buf, e.end, e1.buf, Top(e.stack))
    requires Holds(e1.buf, 8 * at + HEADER_SIZE + fs[0].offset, 8, 8 * end - (8 * at + HEADER_SIZE + fs[0].offset))
    requires BlockDone(env, e1, end, fs[0].kind.target, v.items, e2)
    ensures SlotDone(env, e, end, at, fs[0], v, e2)
  {
    hide RepBlock, TotalWords, HandlesAll, InFront, Holds, UintAt;
    var pos, f := 8 * at + HEADER_SIZE + fs[0].offset, Passed(Top(e.stack), at, fs[0]);
    HoldsMoves(e1.buf, e2.buf, 0, 8 * end, 0, pos, 8, 8 * end - pos);
    assert Ready(e2, end + ChildWords(env, fs[0].kind, v));
  }

  /** The slots of a block: written unless a tight slot at an odd block end, or a block below, is refused. */
  lemma {:induction false} EncSlotsRep(env: Env, e: Enc, end: nat, at: nat, be: nat, fs: seq<Field>, size: nat,
                                       vs: seq<Value>)
    requires PackedEnv(env) && AtSlots(env, e, end, at, fs, size) && ConformsAll(env, fs, vs)
    requires Top(e.stack).limit == 8 * be && be <= end
    requires Room(end, ChildrenWords(env, fs, vs), |e.handles|, |HandlesAll(vs)|)
    ensures var r := EncSlots(env, e, fs, vs);
      && (r.Ok? <==>
        !(be % 2 == 1 && Tight(Top(e.stack).bitOffset, fs, size, false)) && ClearSlots(env, end, fs, vs, false))
      && (r.Ok? ==> SlotsDone(env, e, end, at, fs, vs, r.value))
    decreases vs, 2
  {
    hide EncSlot, Ready, InFront, PackedEnv, RepSlot, ClearSlot, Conforms, HandlesOf, ChildWords, SlotDone, Kept, Tight,
      ZeroFrom;
    if vs == [] {
      EmptySlots(env, e, end, at, fs, size, vs);
    } else {
      var t, v := fs[0].kind, vs[0];
      EncSlotRep(env, e, end, at, fs, size, v);
      var r := EncSlot(env, e, t, v);
      TightStep(Top(e.stack), be, fs, size);
      if r.Ok? {
        if SlotDone(env, e, end, at, fs[0], v, r.value) {
          NextSlots(env, e, end, at, fs, size, v, r.value);
          EncSlotsRep(env, r.value, end + ChildWords(env, t, v), at, be, fs[1..], size, vs[1..]);
          if EncSlots(env, r.value, fs[1..], vs[1..]).Ok? {
            SlotsDoneCons(env, e, end, at, fs, size, vs, r.value, EncSlots(env, r.value, fs[1..], vs[1..]).value);
          }
        } else {
          ReadyInBuf(e, end);
          StuckIsLast(env, Top(e.stack), at, fs, size);
          LastDropped(env, e, end, at, fs, size, vs);
        }
      }
    }
  }

  lemma EmptySlots(env: Env, e: Enc, end: nat, at: nat, fs: seq<Field>, size: nat, vs: seq<Value>)
    requires AtSlots(env, e, end, at, fs, size) && ConformsAll(env, fs, vs) && vs == []
    ensures SlotsDone(env, e, end, at, fs, vs, e) && !Tight(Top(e.stack).bitOffset, fs, size, false)
  {
    hide InFront;
  }

  lemma TightStep(f: Frame, be: nat, fs: seq<Field>, size: nat)
    requires fs != [] && f.limit == 8 * be
    ensures (be % 2 == 1 && Tight(f.bitOffset, fs, size, false)) <==>
      (Stuck(f, fs[0], size, false) || (be % 2 == 1 && Tight(NextBit(fs[0]), fs[1..], size, false)))
  {
    OddWord(be);
  }

  lemma NextSlots(env: Env, e: Enc, end: nat, at: nat, fs: seq<Field>, size: nat, v: Value, e1: Enc)
    requires AtSlots(env, e, end, at, fs, size) && fs != [] && SlotDone(env, e, end, at, fs[0], v, e1)
    ensures AtSlots(env, e1, end + ChildWords(env, fs[0].kind, v), at, fs[1..], size)
    ensures Top(e1.stack) == Passed(Top(e.stack), at, fs[0])
    ensures |e1.handles| == |e.handles| + |HandlesOf(v)|
  {
    hide InFront, Ready, RepSlot, Kept, ChildWords, HandlesOf, Passed;
    ReadyInBuf(e, end);
    InFrontOfRest(env, Top(e.stack), at, fs, size);
  }

  lemma SlotsDoneCons(env: Env, e: Enc, end: nat, at: nat, fs: seq<Field>, size: nat, vs: seq<Value>, e1: Enc, e2: Enc)
    requires PackedEnv(env) && AtSlots(env, e, end, at, fs, size) && ConformsAll(env, fs, vs) && fs != []
    requires SlotDone(env, e, end, at, fs[0], vs[0], e1)
    requires SlotsDone(env, e1, end + ChildWords(env, fs[0].kind, vs[0]), at, fs[1..], vs[1..], e2)
    ensures SlotsDone(env, e, end, at, fs, vs, e2)
  {
    hide Ready, InFront, RepSlot, Conforms, HandlesOf, ChildWords, ZeroFrom, Kept, Packed;
    var f, f1 := Top(e.stack), Passed(Top(e.stack), at, fs[0]);
    ReadyInBuf(e, end);
    ReadyInBuf(e1, end + ChildWords(env, fs[0].kind, vs[0]));
    InFrontOfRest(env, f, at, fs, size);
    PassedIsBehind(env, f, at, fs, size);
    KeptTrans(e.buf, e.end, e1.buf, e1.end, e2.buf, f, f1);
    ReadyLimit(e, end);
    RepSlotKept(env, e1.buf, e1.end, e2.buf, f, end, at, |e.handles|, fs[0], vs[0], size);
  }

  lemma ReadyLimit(e: Enc, end: nat)
    requires Ready(e, end)
    ensures Top(e.stack).limit <= 8 * end
  {
  }

  lemma PassedIsBehind(env: Env, f: Frame, at: nat, fs: seq<Field>, size: nat)
    requires InFront(env, f, at, fs, size) && fs != []
    ensures Behind(f, Passed(f, at, fs[0])) && FieldOk(env, fs[0], size)
    ensures 8 * at + HEADER_SIZE + fs[0].offset + SlotBytes(fs[0].kind) <= f.limit
  {
    if !fs[0].kind.TBool? {
      SlotFits(env, f, at, fs, size);
    }
  }

  lemma LastDropped(env: Env, e: Enc, end: nat, at: nat, fs: seq<Field>, size: nat, vs: seq<Value>)
    requires AtSlots(env, e, end, at, fs, size) && ConformsAll(env, fs, vs) && fs != [] && fs[1..] == []
    requires vs[0].VNull? && Stuck(Top(e.stack), fs[0], size, true)
    requires RepSlot(env, e.buf, at, end, |e.handles|, fs[0], vs[0])
    ensures SlotsDone(env, e, end, at, fs, vs, e)
    ensures ClearSlot(env, end, fs[0].kind, vs[0], false) && ClearSlots(env, end, fs, vs, false)
    ensures EncSlots(env, e, fs[1..], vs[1..]) == Ok(e) && !Tight(NextBit(fs[0]), fs[1..], size, false)
  {
    hide Packed, FieldsOk, ZeroFrom, OpenZero, RepSlot;
    ReadyInBuf(e, end);
    NotChecked(env, Top(e.stack), at, fs, size);
    assert |vs| == 1 && vs[1..] == [];
    assert Kept(e.buf, e.end, e.buf, Top(e.stack)) by { KeptSelf(e, end); }
    assert HandlesAll(vs) == [];
    assert ChildWords(env, fs[0].kind, vs[0]) == 0 && ChildrenWords(env, fs[1..], vs[1..]) == 0;
    assert ChildrenWords(env, fs, vs) == 0;
    assert e.handles + HandlesAll(vs) == e.handles;
    assert RepSlots(env, e.buf, at, end, |e.handles|, fs, vs);
  }

  lemma KeptSelf(e: Enc, end: nat)
    requires Ready(e, end)
    ensures Kept(e.buf, e.end, e.buf, Top(e.stack))
  {
  }

  lemma NotChecked(env: Env, f: Frame, at: nat, fs: seq<Field>, size: nat)
    requires InFront(env, f, at, fs, size) && fs != [] && Stuck(f, fs[0], size, true)
    ensures !f.check
  {
  }

  /** The main result about the encoder: it succeeds exactly on clear blocks, and then it has written the value. */
  lemma {:induction false} EncBlockRep(env: Env, e: Enc, end: nat, b: Block, items: seq<Value>)
    requires PackedEnv(env) && ConformsBlock(env, b, items)
    requires e.end == 8 * end <= |e.buf| && ZeroFrom(e.buf, e.end)
    requires Room(end, TotalWords(env, b, items), |e.handles|, |HandlesAll(items)|)
    ensures var r := EncBlock(env, e, b, items);
      && (r.Ok? <==> ClearBlock(env, end, b, items, false))
      && (r.Ok? ==> BlockDone(env, e, end, b, items, r.value))
    decreases items, 3
  {
    hide Start, EncSlots, Ready, InFront, PackedEnv, RepSlots, ClearSlots, ConformsAll, HandlesAll, ChildrenWords, Kept,
      Tight, ZeroFrom, Holds, ShapeOk, Fields, PayloadSize, SecondWord, WfBlock;
    var n, fs := |items|, Fields(env, b, |items|);
    var size, second := PayloadSize(env, b, n), SecondWord(env, b, n);
    PackedIsWf(env);
    HeaderFits(env, b, items);
    StepStart(e, end, size, second, b.BArray?);
    var e1 := Start(e, size, second, b.BArray?).value;
    var be := end + BlockWords(env, b, n);
    InFrontOfBlock(env, b, items, end, 8 * be, b.BArray?);
    EncSlotsRep(env, e1, be, end, be, fs, size, items);
    var r := EncSlots(env, e1, fs, items);
    if r.Ok? {
      SlotsThenFinish(env, e, end, b, items, e1, r.value);
    }
  }

  lemma SlotsThenFinish(env: Env, e: Enc, end: nat, b: Block, items: seq<Value>, e1: Enc, e2: Enc)
    requires |Fields(env, b, |items|)| == |items| && e.end == 8 * end <= |e.buf|
    requires b.BArray? ==> SecondWord(env, b, |items|) == |items|
    requires var be, size := end + BlockWords(env, b, |items|), PayloadSize(env, b, |items|);
      && e1 == Enc(e1.buf, 8 * be, e.handles,
                   e.stack + [Frame(e.end + HEADER_SIZE, 0, 8 * be,
                                    if b.BArray? then SecondWord(env, b, |items|) else 0, 0, b.BArray?)])
      && |e.buf| <= |e1.buf| && (forall i | 0 <= i < e.end :: e1.buf[i] == e.buf[i])
      && Holds(e1.buf, e.end, 4, HEADER_SIZE + size) && Holds(e1.buf, e.end + 4, 4, SecondWord(env, b, |items|))
      && SlotsDone(env, e1, be, end, Fields(env, b, |items|), items, e2)
    ensures EncFinish(e2).Ok? && BlockDone(env, e, end, b, items, EncFinish(e2).value)
  {
    hide RepSlots, HandlesAll, ChildrenWords, ZeroFrom, UintAt, Fields, PayloadSize, SecondWord;
    var n := |items|;
    assert |e2.stack| == |e1.stack| == |e.stack| + 1;
    assert Agree(e1.buf, e2.buf, e.end, e.end + 8, 0);
    HoldsMoves(e1.buf, e2.buf, e.end, e.end + 8, 0, e.end, 4, HEADER_SIZE + PayloadSize(env, b, n));
    HoldsMoves(e1.buf, e2.buf, e.end, e.end + 8, 0, e.end + 4, 4, SecondWord(env, b, n));
    assert e2.stack[..|e2.stack| - 1] == e.stack;
  }
}
