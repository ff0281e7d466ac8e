/**
The Go codec driven by any sequence of calls, not only by generated code: what every call of the encoder keeps, and
how the decoder behaves on arbitrary bytes.
*/
module GoInvariant {
  import opened Bytes
  import opened Wire
  import opened GoArchive
  import opened GoLayout
  import opened GoEncoding

  // ---------------------------------------------------------------- the encoder

  /** Every frame is in front of zero bits, its block is claimed and consists of whole words. */
  ghost predicate FrameOk(buf: seq<Byte>, end: nat, f: Frame) {
    f.limit % 8 == 0 && f.limit <= end && OpenZero(buf, f)
  }

  /** Claimed blocks of unfinished values are disjoint, inner ones behind outer ones; unwritten bits are zero. */
  ghost predicate EncInv(e: Enc) {
    && e.end % 8 == 0
    && e.end <= |e.buf|
    && ZeroFrom(e.buf, e.end)
    && (forall k | 0 <= k < |e.stack| :: FrameOk(e.buf, e.end, e.stack[k]))
    && (forall j, k | 0 <= j < k < |e.stack| :: e.stack[j].limit <= e.stack[k].offset)
  }

  /** The calls of an encoder that write or move its cursor. */
  datatype EncCall =
    | StartBlock(size: nat, second: nat, check: bool)
    | FinishBlock
    | PutBool(b: bool)
    | PutUintN(width: nat, n: nat)
    | PutPointer
    | PutHandle(h: nat)
    | PutInterface(h: nat)

  function EncStep(e: Enc, c: EncCall): Result<Enc> {
    match c
    case StartBlock(size, second, check) => Start(e, size, second, check)
    case FinishBlock => EncFinish(e)
    case PutBool(b) => WriteBool(e, b)
    case PutUintN(width, n) => if width in {1, 2, 4, 8} then WriteUint(e, width, n) else Err(BadValue)
    case PutPointer => WritePointer(e)
    case PutHandle(h) => WriteHandle(e, h)
    case PutInterface(h) => WriteInterface(e, h)
  }

  /** The 32-bit size word of a header does not wrap around to 0. */
  predicate SizeOk(c: EncCall) {
    c.StartBlock? ==> (HEADER_SIZE + c.size) % TWO_32 > 0
  }

  /** A call leaves alone everything that lies outside its own unwritten bits: below the cursor of the innermost block,
      between that block and the old end, and every outer frame. */
  ghost predicate OutsideKept(e: Enc, e': Enc) {
    && e.end <= e'.end && |e.buf| <= |e'.buf| && e.end <= |e.buf|
    && (if e.stack == [] then forall i | 0 <= i < e.end :: e'.buf[i] == e.buf[i]
      else Kept(e.buf, e.end, e'.buf, Top(e.stack)))
    && (forall k | 0 <= k < |e.stack| - 1 && k < |e'.stack| :: e'.stack[k] == e.stack[k])
  }

  /** Replacing the top frame and writing inside its unwritten bits. */
  lemma TopWrite(e: Enc, e': Enc)
    requires EncInv(e) && e.stack != [] && e'.stack != []
    requires e'.stack == SetTop(e.stack, Top(e'.stack)) && e'.end == e.end
    requires ZeroFrom(e'.buf, e.end) && OpenZero(e'.buf, Top(e'.stack)) && Kept(e.buf, e.end, e'.buf, Top(e.stack))
    requires Top(e'.stack).limit == Top(e.stack).limit && Top(e.stack).offset <= Top(e'.stack).offset
    ensures EncInv(e') && OutsideKept(e, e')
  {
    hide ZeroFrom, OpenZero;
    var n := |e.stack| - 1;
    assert FrameOk(e.buf, e.end, e.stack[n]);
    forall k | 0 <= k < n
      ensures FrameOk(e'.buf, e.end, e.stack[k])
    {
      OuterFrame(e, e', k);
    }
  }

  lemma OuterFrame(e: Enc, e': Enc, k: nat)
    requires EncInv(e) && k < |e.stack| - 1 && Kept(e.buf, e.end, e'.buf, Top(e.stack))
    ensures FrameOk(e'.buf, e.end, e.stack[k])
  {
    var f := e.stack[k];
    assert FrameOk(e.buf, e.end, f) && f.limit <= Top(e.stack).offset;
    hide ZeroFrom;
  }

  lemma BoolCall(e: Enc, b: bool)
    requires EncInv(e) && WriteBool(e, b).Ok?
    ensures EncInv(WriteBool(e, b).value) && OutsideKept(e, WriteBool(e, b).value)
  {
    hide Kept, Frame.Fits, OutsideKept;
    var f := Top(e.stack);
    assert FrameOk(e.buf, e.end, f);
    GuardBool(f);
    StepBool(e, e.end / 8, b);
    TopWrite(e, WriteBool(e, b).value);
  }

  lemma UintCall(e: Enc, width: nat, n: nat)
    requires EncInv(e) && width in {1, 2, 4, 8} && WriteUint(e, width, n).Ok?
    ensures var e' := WriteUint(e, width, n).value;
      EncInv(e') && OutsideKept(e, e') && e'.stack != [] && e'.handles == e.handles
  {
    hide Kept, Frame.Fits, OutsideKept, PutUint, GoAlign, ZeroFrom;
    var f := Top(e.stack);
    assert FrameOk(e.buf, e.end, f);
    GuardExact(f, width);
    AlignIsNext(f.AlignToBytes().offset, width);
    NextGrows(f.AlignToBytes().offset, f.SlotStart(width), width);
    PutKeeps(e, f.SlotStart(width), width, n);
    TopWrite(e, WriteUint(e, width, n).value);
  }

  lemma OutsideTrans(e: Enc, e1: Enc, e2: Enc)
    requires OutsideKept(e, e1) && OutsideKept(e1, e2) && |e.stack| == |e1.stack| == |e2.stack| > 0
    requires Behind(Top(e.stack), Top(e1.stack))
    ensures OutsideKept(e, e2)
  {
    hide Behind, Kept;
    KeptTrans(e.buf, e.end, e1.buf, e1.end, e2.buf, Top(e.stack), Top(e1.stack));
  }

  /** Moving the cursor over zero bits, or changing its element count. */
  lemma MoveTop(e: Enc, f: Frame)
    requires EncInv(e) && e.stack != []
    requires f.limit == Top(e.stack).limit && f.bitOffset == 0 &&
      Top(e.stack).AlignToBytes().offset <= f.offset <= f.limit
    ensures EncInv(e.(stack := SetTop(e.stack, f))) && OutsideKept(e, e.(stack := SetTop(e.stack, f)))
    ensures Behind(Top(e.stack), f)
  {
    hide ZeroFrom, EncInv, OutsideKept;
    TopIsOk(e);
    TopWrite(e, e.(stack := SetTop(e.stack, f)));
  }

  lemma TopIsOk(e: Enc)
    requires EncInv(e) && e.stack != []
    ensures FrameOk(e.buf, e.end, Top(e.stack)) && ZeroFrom(e.buf, e.end) && e.end <= |e.buf|
  {
  }

  lemma AlignCall(e: Enc)
    requires EncInv(e) && e.stack != []
    ensures EncInv(AlignTop(e)) && OutsideKept(e, AlignTop(e)) && Top(AlignTop(e).stack).offset <= e.end
    ensures Behind(Top(e.stack), Top(AlignTop(e).stack))
  {
    hide EncInv, OutsideKept, ZeroFrom, GoAlign;
    TopIsOk(e);
    var f := Top(e.stack).AlignToBytes();
    AlignIsNext(f.offset, 8);
    NextBelow(f.offset, GoAlign(f.offset, 8), Top(e.stack).limit);
    MoveTop(e, f.(offset := GoAlign(f.offset, 8)));
  }

  lemma PointerCall(e: Enc)
    requires EncInv(e)
    ensures WritePointer(e).Ok? ==> EncInv(WritePointer(e).value) && OutsideKept(e, WritePointer(e).value)
  {
    hide WriteUint, EncInv, OutsideKept, ZeroFrom, GoAlign;
    if WritePointer(e).Ok? {
      AlignCall(e);
      var a := AlignTop(e);
      var n := a.end - Top(a.stack).offset;
      UintCall(a, 8, n);
      SameDepth(a, 8, n);
      OutsideTrans(e, a, WriteUint(a, 8, n).value);
    }
  }

  lemma NextBelow(x: nat, y: nat, limit: nat)
    requires IsNext(x, y, 8) && x <= limit && limit % 8 == 0
    ensures y <= limit
  {
  }

  lemma SameDepth(e: Enc, width: nat, n: nat)
    requires width >= 1 && WriteUint(e, width, n).Ok?
    ensures |WriteUint(e, width, n).value.stack| == |e.stack| > 0
  {
    hide Frame.SlotStart, Frame.Fits, PutUint;
  }

  lemma HandleCall(e: Enc, h: nat)
    requires EncInv(e) && WriteHandle(e, h).Ok?
    ensures var e' := WriteHandle(e, h).value;
      EncInv(e') && OutsideKept(e, e') && |e'.stack| == |e.stack| > 0
  {
    hide WriteUint, ZeroFrom, OpenZero, Kept;
    var e1 := e.(handles := e.handles + [h]);
    UintCall(e1, 4, |e.handles| % TWO_32);
    SameDepth(e1, 4, |e.handles| % TWO_32);
  }

  lemma InterfaceCall(e: Enc, h: nat)
    requires EncInv(e) && WriteInterface(e, h).Ok?
    ensures EncInv(WriteInterface(e, h).value) && OutsideKept(e, WriteInterface(e, h).value)
  {
    hide WriteUint, EncInv, OutsideKept, ZeroFrom;
    var e1 := WriteHandle(e, h).value;
    HandleCall(e, h);
    HandleMoves(e, h);
    TopIsOk(e1);
    var f := Top(e1.stack);
    var e2 := Unprocess(e1);
    MoveTop(e1, Top(e2.stack));
    UintCall(e2, 4, 0);
    SameDepth(e2, 4, 0);
    OutsideTrans(e1, e2, WriteUint(e2, 4, 0).value);
    OutsideTrans(e, e1, WriteUint(e2, 4, 0).value);
  }

  lemma HandleMoves(e: Enc, h: nat)
    requires EncInv(e) && WriteHandle(e, h).Ok?
    ensures e.stack != [] && |WriteHandle(e, h).value.stack| == |e.stack|
    ensures Top(WriteHandle(e, h).value.stack).bitOffset == 0
    ensures Behind(Top(e.stack), Top(WriteHandle(e, h).value.stack))
  {
    hide GoAlign, Frame.Fits, PutUint, ZeroFrom, OpenZero, FrameOk;
    var f := Top(e.stack);
    AlignIsNext(f.AlignToBytes().offset, 4);
    NextGrows(f.AlignToBytes().offset, f.SlotStart(4), 4);
  }

  lemma StartCall(e: Enc, size: nat, second: nat, check: bool)
    requires EncInv(e) && (HEADER_SIZE + size) % TWO_32 > 0
    ensures var r := Start(e, size, second, check);
      r.Ok? && EncInv(r.value) && OutsideKept(e, r.value)
      && (forall i | 0 <= i < e.end :: r.value.buf[i] == e.buf[i]) && r.value.stack == e.stack + [Top(r.value.stack)]
      && e.end <= Top(r.value.stack).offset
  {
    hide GoAlign, PutUint, OpenZero, ZeroFrom, Claim, FrameOk, Kept;
    var headerSize := (HEADER_SIZE + size) % TWO_32;
    var words := (headerSize + 7) / 8;
    AlignToWords(headerSize);
    var c := Claim(e, 8 * words);
    var end := e.end / 8;
    var f := Frame(e.end + HEADER_SIZE, 0, 8 * (end + words), if check then second else 0, 0, check);
    StartKeeps(e, end, words, headerSize, second, f);
    var e' := Enc(PutUint(PutUint(c.buf, e.end, 4, headerSize), e.end + 4, 4, second), c.end, c.handles, e.stack + [f]);
    ClaimHandles(e, 8 * words);
    assert Start(e, size, second, check) == Ok(e');
    PushKeeps(e, e', f);
  }

  /** A size word of 0 claims nothing: the header is written behind the claimed bytes, or panics. */
  lemma StartWraps(e: Enc, size: nat, second: nat, check: bool)
    requires (HEADER_SIZE + size) % TWO_32 == 0
    ensures Start(e, size, second, check).Ok? ==> !EncInv(Start(e, size, second, check).value)
  {
    hide PutUint, ZeroFrom, GoAlign;
    AlignToWords(0);
    var r := Start(e, size, second, check);
    if r.Ok? {
      var f := r.value.stack[|e.stack|];
      assert f.offset == e.end + HEADER_SIZE && f.limit == e.end;
      assert !FrameOk(r.value.buf, r.value.end, f);
    }
  }

  lemma ClaimHandles(e: Enc, size: nat)
    ensures Claim(e, size).handles == e.handles && Claim(e, size).stack == e.stack
  {
  }

  lemma PushKeeps(e: Enc, e': Enc, f: Frame)
    requires EncInv(e) && e'.stack == e.stack + [f] && e.end <= e'.end <= |e'.buf| && |e.buf| <= |e'.buf|
    requires e'.end % 8 == 0 && f.limit == e'.end && e.end <= f.offset
    requires ZeroFrom(e'.buf, e'.end) && OpenZero(e'.buf, f) && (forall i | 0 <= i < e.end :: e'.buf[i] == e.buf[i])
    ensures EncInv(e') && OutsideKept(e, e')
  {
    hide ZeroFrom;
    forall k | 0 <= k < |e.stack|
      ensures FrameOk(e'.buf, e'.end, e.stack[k]) && e.stack[k].limit <= f.offset
    {
      assert FrameOk(e.buf, e.end, e.stack[k]);
    }
    if e.stack != [] {
      assert FrameOk(e.buf, e.end, Top(e.stack));
    }
  }

  lemma FinishCall(e: Enc)
    requires EncInv(e) && EncFinish(e).Ok?
    ensures EncInv(EncFinish(e).value) && OutsideKept(e, EncFinish(e).value)
  {
    assert FrameOk(e.buf, e.end, Top(e.stack));
  }

  /** Every successful call keeps the invariant and everything outside its own unwritten bits. */
  lemma CallKeeps(e: Enc, c: EncCall)
    requires EncInv(e) && SizeOk(c) && EncStep(e, c).Ok?
    ensures EncInv(EncStep(e, c).value) && OutsideKept(e, EncStep(e, c).value)
  {
    hide Start, EncFinish, WriteBool, WriteUint, WritePointer, WriteHandle, WriteInterface, EncInv, OutsideKept;
    match c
    case StartBlock(size, second, check) => StartCall(e, size, second, check);
    case FinishBlock => FinishCall(e);
    case PutBool(b) => BoolCall(e, b);
    case PutUintN(width, n) => UintCall(e, width, n);
    case PutPointer => PointerCall(e);
    case PutHandle(h) => HandleCall(e, h);
    case PutInterface(h) => InterfaceCall(e, h);
  }

  /** The encoder after a call that may have returned an error: a refused pointer leaves the cursor aligned, a refused
      handle stays attached, and an interface may have written its handle. */
  function After(e: Enc, c: EncCall): Enc {
    if EncStep(e, c).Ok? then EncStep(e, c).value
    else
      match c
      case PutPointer => if e.stack == [] then e else AlignTop(e)
      case PutHandle(h) => e.(handles := e.handles + [h])
      case PutInterface(h) =>
        var r := WriteHandle(e, h);
        if r.Ok? && r.value.stack != [] then Unprocess(r.value) else e.(handles := e.handles + [h])
      case _ => e
  }

  /** A call panics if and only if it writes a pointer outside of any block. */
  lemma PanicsExactly(e: Enc, c: EncCall)
    requires EncInv(e) && SizeOk(c)
    ensures EncStep(e, c) == Err(OutOfRange) <==> c.PutPointer? && e.stack == []
  {
    hide Start, EncInv, WriteUint, WriteBool, ZeroFrom, GoAlign;
    match c
    case StartBlock(size, second, check) => StartCall(e, size, second, check);
    case FinishBlock =>
    case PutBool(b) => BoolInRange(e, b);
    case PutUintN(width, n) => if width in {1, 2, 4, 8} { UintInRange(e, width, n); }
    case PutPointer =>
      if e.stack != [] {
        AlignCall(e);
        var a := AlignTop(e);
        UintInRange(a, 8, a.end - Top(a.stack).offset);
      }
    case PutHandle(h) => HandleInRange(e, h);
    case PutInterface(h) =>
      HandleInRange(e, h);
      if WriteHandle(e, h).Ok? {
        UnprocessCall(e, h);
        UintInRange(Unprocess(WriteHandle(e, h).value), 4, 0);
      }
  }

  lemma BoolInRange(e: Enc, b: bool)
    requires EncInv(e)
    ensures WriteBool(e, b) != Err(OutOfRange)
  {
    hide Frame.Fits, ZeroFrom;
    if e.stack != [] {
      TopIsOk(e);
      GuardBool(Top(e.stack));
    }
  }

  lemma UintInRange(e: Enc, width: nat, n: nat)
    requires EncInv(e) && width in {1, 2, 4, 8}
    ensures WriteUint(e, width, n) != Err(OutOfRange)
  {
    hide Frame.Fits, Frame.SlotStart, PutUint, ZeroFrom;
    if e.stack != [] {
      TopIsOk(e);
      GuardExact(Top(e.stack), width);
    }
  }

  lemma HandleInRange(e: Enc, h: nat)
    requires EncInv(e)
    ensures WriteHandle(e, h) != Err(OutOfRange)
  {
    hide WriteUint, ZeroFrom, FrameOk;
    UintInRange(e.(handles := e.handles + [h]), 4, |e.handles| % TWO_32);
  }

  lemma UnprocessCall(e: Enc, h: nat)
    requires EncInv(e) && WriteHandle(e, h).Ok?
    ensures var e1 := WriteHandle(e, h).value;
      e1.stack != [] && EncInv(Unprocess(e1)) && OutsideKept(e, Unprocess(e1))
  {
    hide WriteUint, EncInv, OutsideKept, ZeroFrom;
    var e1 := WriteHandle(e, h).value;
    HandleCall(e, h);
    HandleMoves(e, h);
    TopIsOk(e1);
    MoveTop(e1, Top(Unprocess(e1).stack));
    OutsideTrans(e, e1, Unprocess(e1));
  }

  /** Every call keeps the invariant and everything outside its own unwritten bits, whether it succeeds or not. */
  lemma AfterKeeps(e: Enc, c: EncCall)
    requires EncInv(e) && SizeOk(c)
    ensures EncInv(After(e, c)) && OutsideKept(e, After(e, c))
  {
    hide Start, WriteUint, WriteBool, EncInv, OutsideKept, AlignTop;
    if EncStep(e, c).Ok? {
      CallKeeps(e, c);
    } else {
      match c
      case PutPointer => if e.stack != [] { AlignCall(e); } else { NothingKept(e, e.handles); }
      case PutHandle(h) => NothingKept(e, e.handles + [h]);
      case PutInterface(h) =>
        NothingKept(e, e.handles + [h]);
        if WriteHandle(e, h).Ok? { UnprocessCall(e, h); }
      case _ => NothingKept(e, e.handles);
    }
  }

  lemma NothingKept(e: Enc, handles: seq<nat>)
    requires EncInv(e)
    ensures EncInv(e.(handles := handles)) && OutsideKept(e, e.(handles := handles))
  {
    hide ZeroFrom;
    if e.stack != [] {
      assert FrameOk(e.buf, e.end, Top(e.stack));
    }
  }

  /** A run goes on after errors, as generated code does after the errors that it drops; only a panic ends it. */
  function EncRun(e: Enc, calls: seq<EncCall>): Result<Enc>
    decreases |calls|
  {
    if calls == [] then Ok(e)
    else if EncStep(e, calls[0]) == Err(OutOfRange) then Err(OutOfRange)
    else EncRun(After(e, calls[0]), calls[1..])
  }

  /** The frame invariant holds after every run from a new encoder. */
  lemma {:induction false} RunKeepsInv(e: Enc, calls: seq<EncCall>)
    requires EncInv(e) && (forall i | 0 <= i < |calls| :: SizeOk(calls[i])) && EncRun(e, calls).Ok?
    ensures EncInv(EncRun(e, calls).value)
    decreases |calls|
  {
    hide EncInv, EncStep, OutsideKept, SizeOk, After;
    if calls != [] {
      AfterKeeps(e, calls[0]);
      RunKeepsInv(After(e, calls[0]), calls[1..]);
    }
  }

  lemma NewEncoderInv()
    ensures EncInv(NewEnc)
  {
  }

  /** No call of the run touches one of the `depth` outermost frames. */
  ghost predicate Above(e: Enc, calls: seq<EncCall>, depth: nat)
    decreases |calls|
  {
    calls != [] ==> |e.stack| > depth && Above(After(e, calls[0]), calls[1..], depth)
  }

  /** While inner values are written, no call panics, and an unfinished outer value keeps its frame and every byte of
      its block. */
  lemma {:induction false} InnerRunKeepsOuter(e: Enc, calls: seq<EncCall>, depth: nat)
    requires EncInv(e) && (forall i | 0 <= i < |calls| :: SizeOk(calls[i]))
    requires 0 < depth < |e.stack| && Above(e, calls, depth)
    ensures EncRun(e, calls).Ok?
    ensures var e' := EncRun(e, calls).value;
      && |e'.stack| >= depth && e'.stack[..depth] == e.stack[..depth]
      && |e.buf| <= |e'.buf| && e.stack[depth - 1].limit <= |e.buf|
      && forall i | 0 <= i < e.stack[depth - 1].limit :: e'.buf[i] == e.buf[i]
    decreases |calls|
  {
    hide EncStep, SizeOk, After, EncInv;
    OuterBelow(e, depth);
    if calls != [] {
      PanicsExactly(e, calls[0]);
      AfterKeeps(e, calls[0]);
      var e1 := After(e, calls[0]);
      OuterStep(e, calls[0], depth);
      if calls[1..] != [] {
        InnerRunKeepsOuter(e1, calls[1..], depth);
      }
    }
  }

  lemma OuterBelow(e: Enc, depth: nat)
    requires EncInv(e) && 0 < depth < |e.stack|
    ensures e.stack[depth - 1].limit <= Top(e.stack).offset && e.stack[depth - 1].limit <= |e.buf|
  {
    assert FrameOk(e.buf, e.end, e.stack[depth - 1]);
  }

  lemma OuterStep(e: Enc, c: EncCall, depth: nat)
    requires EncInv(e) && OutsideKept(e, After(e, c)) && 0 < depth < |e.stack|
    ensures var e' := After(e, c);
      && |e'.stack| >= depth && e'.stack[..depth] == e.stack[..depth] && |e.buf| <= |e'.buf|
      && e.stack[depth - 1].limit <= |e.buf|
      && (forall i | 0 <= i < e.stack[depth - 1].limit :: e'.buf[i] == e.buf[i])
  {
    hide After, OpenZero, ZeroFrom;
    OuterBelow(e, depth);
    StackDepth(e, c);
  }

  lemma StackDepth(e: Enc, c: EncCall)
    ensures |After(e, c).stack| >= |e.stack| - 1
  {
    hide Frame.Fits, Frame.SlotStart, PutUint, Claim, GoAlign;
  }

  // ---------------------------------------------------------------- the decoder on arbitrary bytes

  datatype DecCall =
    | OpenArray(elementBitSize: nat)
    | OpenMap
    | OpenStruct
    | CloseBlock
    | GetBool
    | GetUint(width: nat)
    | GetPointer
    | GetHandle
    | GetInterface

  /** What a call claims: a block of bytes, header included, or a handle. */
  datatype Claimed = Range(lo: nat, hi: nat) | Handle(index: nat)

  function NewBlock(d: Dec, d': Dec): seq<Claimed> {
    [Range(d.end, d'.end)]
  }

  function NewHandle(d: Dec, d': Dec): seq<Claimed> {
    if d'.nextHandle > d.nextHandle then [Handle(d'.nextHandle - 1)] else []
  }

  function DecStep(inp: Input, d: Dec, c: DecCall): Result<(Dec, seq<Claimed>)> {
    match c
    case OpenArray(bits) => var (d1, _) :- DecStartArray(inp, d, bits); Ok((d1, NewBlock(d, d1)))
    case OpenMap => var d1 :- DecStartMap(inp, d); Ok((d1, NewBlock(d, d1)))
    case OpenStruct => var (d1, _) :- DecStartStruct(inp, d); Ok((d1, NewBlock(d, d1)))
    case CloseBlock => var d1 :- DecFinish(d); Ok((d1, []))
    case GetBool => var (d1, _) :- ReadBool(inp, d); Ok((d1, []))
    case GetUint(width) =>
      if width in {1, 2, 4, 8} then var (d1, _) :- ReadUint(inp, d, width); Ok((d1, [])) else Err(BadValue)
    case GetPointer => var (d1, _) :- ReadPointer(inp, d); Ok((d1, []))
    case GetHandle => var (d1, _) :- ReadHandle(inp, d); Ok((d1, NewHandle(d, d1)))
    case GetInterface => var (d1, _) :- ReadInterface(inp, d); Ok((d1, NewHandle(d, d1)))
  }

  ghost predicate DecInv(inp: Input, d: Dec) {
    && d.end <= |inp.buf|
    && d.nextHandle <= |inp.handles|
    && forall k | 0 <= k < |d.stack| :: d.stack[k].limit <= d.end
  }

  /** The claims of one call lie between the old and the new end of the buffer and of the handles. */
  ghost predicate Advances(inp: Input, d: Dec, d': Dec, cs: seq<Claimed>) {
    && d.end <= d'.end <= |inp.buf|
    && d.nextHandle <= d'.nextHandle <= |inp.handles|
    && |cs| <= 1
    && forall i | 0 <= i < |cs| ::
         match cs[i]
         case Range(lo, hi) => d.end <= lo && lo + HEADER_SIZE <= hi <= d'.end
         case Handle(index) => d.nextHandle <= index < d'.nextHandle
  }

  /** Reading numbers moves a cursor and claims nothing. */
  predicate StaysPut(d: Dec, d': Dec) {
    && d'.end == d.end && d'.nextHandle == d.nextHandle
    && |d'.stack| == |d.stack| && forall k | 0 <= k < |d.stack| :: d'.stack[k].limit == d.stack[k].limit
  }

  lemma UintStays(inp: Input, d: Dec, width: nat)
    requires DecInv(inp, d) && width > 0 && ReadUint(inp, d, width).Ok?
    ensures StaysPut(d, ReadUint(inp, d, width).value.0)
  {
    hide Frame.Fits, Frame.SlotStart, UintAt;
  }

  lemma BoolStays(inp: Input, d: Dec)
    requires DecInv(inp, d) && ReadBool(inp, d).Ok?
    ensures StaysPut(d, ReadBool(inp, d).value.0)
  {
    hide Frame.Fits, Bit;
  }

  lemma StaysInv(inp: Input, d: Dec, d': Dec)
    requires DecInv(inp, d) && StaysPut(d, d')
    ensures DecInv(inp, d') && Advances(inp, d, d', [])
  {
  }

  lemma HandleAdvances(inp: Input, d: Dec)
    requires DecInv(inp, d) && ReadHandle(inp, d).Ok?
    ensures var d' := ReadHandle(inp, d).value.0;
      DecInv(inp, d') && Advances(inp, d, d', NewHandle(d, d')) && d'.end == d.end
  {
    hide ReadUint;
    UintStays(inp, d, 4);
    StaysInv(inp, d, ReadUint(inp, d, 4).value.0);
  }

  lemma InterfaceAdvances(inp: Input, d: Dec)
    requires DecInv(inp, d) && ReadInterface(inp, d).Ok?
    ensures var d' := ReadInterface(inp, d).value.0; DecInv(inp, d') && Advances(inp, d, d', NewHandle(d, d'))
  {
    hide ReadUint, ReadHandle;
    HandleAdvances(inp, d);
    var d1 := ReadHandle(inp, d).value.0;
    UintStays(inp, DecUnprocess(d1), 4);
    StaysInv(inp, DecUnprocess(d1), ReadUint(inp, DecUnprocess(d1), 4).value.0);
  }

  lemma PointerAdvances(inp: Input, d: Dec)
    requires DecInv(inp, d) && ReadPointer(inp, d).Ok?
    ensures var d' := ReadPointer(inp, d).value.0; DecInv(inp, d') && Advances(inp, d, d', [])
  {
    hide ReadUint;
    UintStays(inp, d, 8);
    StaysInv(inp, d, ReadUint(inp, d, 8).value.0);
  }

  lemma OpenAdvances(inp: Input, d: Dec, c: DecCall)
    requires DecInv(inp, d) && DecStep(inp, d, c).Ok? && (c.OpenArray? || c.OpenMap? || c.OpenStruct?)
    ensures var (d', cs) := DecStep(inp, d, c).value; DecInv(inp, d') && Advances(inp, d, d', cs)
  {
    hide Frame.Fits, Frame.SlotStart, UintAt, ReadUint, ReadBool, ReadHandle, ReadInterface, ReadPointer;
  }

  lemma CloseAdvances(inp: Input, d: Dec)
    requires DecInv(inp, d) && DecFinish(d).Ok?
    ensures DecInv(inp, DecFinish(d).value) && Advances(inp, d, DecFinish(d).value, [])
  {
  }

  /** Every call moves forward, and what it claims lies between the old and the new end. */
  lemma DecCallAdvances(inp: Input, d: Dec, c: DecCall)
    requires DecInv(inp, d) && DecStep(inp, d, c).Ok?
    ensures var (d', cs) := DecStep(inp, d, c).value; DecInv(inp, d') && Advances(inp, d, d', cs)
  {
    hide ReadUint, ReadBool, ReadHandle, ReadInterface, ReadPointer, DecFinish, DecStartArray, DecStartMap,
      DecStartStruct, DecInv, Advances, NewHandle, StaysPut;
    match c
    case CloseBlock => CloseAdvances(inp, d);
    case GetBool =>
      BoolStays(inp, d);
      StaysInv(inp, d, ReadBool(inp, d).value.0);
    case GetUint(width) =>
      UintStays(inp, d, width);
      StaysInv(inp, d, ReadUint(inp, d, width).value.0);
    case GetPointer => PointerAdvances(inp, d);
    case GetHandle => HandleAdvances(inp, d);
    case GetInterface => InterfaceAdvances(inp, d);
    case _ => OpenAdvances(inp, d, c);
  }

  function DecRun(inp: Input, d: Dec, calls: seq<DecCall>): Result<(Dec, seq<Claimed>)>
    decreases |calls|
  {
    if calls == [] then Ok((d, []))
    else
      var (d1, cs) :- DecStep(inp, d, calls[0]);
      var (d2, more) :- DecRun(inp, d1, calls[1..]);
      Ok((d2, cs + more))
  }

  /** Of two claims in a run, the earlier one lies entirely before the later one. */
  ghost predicate Ordered(cs: seq<Claimed>) {
    forall i, j | 0 <= i < j < |cs| ::
      && (cs[i].Range? && cs[j].Range? ==> cs[i].hi <= cs[j].lo)
      && (cs[i].Handle? && cs[j].Handle? ==> cs[i].index < cs[j].index)
  }

  ghost predicate Within(cs: seq<Claimed>, lo: nat, hi: nat, h: nat, h': nat) {
    forall i | 0 <= i < |cs| ::
      match cs[i]
      case Range(from, to) => lo <= from && from + HEADER_SIZE <= to <= hi
      case Handle(index) => h <= index < h'
  }

  /** On any bytes, every run claims disjoint blocks in increasing order inside the buffer, and no handle twice. */
  lemma {:induction false} RunClaimsInOrder(inp: Input, d: Dec, calls: seq<DecCall>)
    requires DecInv(inp, d) && DecRun(inp, d, calls).Ok?
    ensures var (d', cs) := DecRun(inp, d, calls).value;
      && DecInv(inp, d') && d.end <= d'.end && d.nextHandle <= d'.nextHandle
      && Ordered(cs) && Within(cs, d.end, d'.end, d.nextHandle, d'.nextHandle)
    decreases |calls|
  {
    hide DecStep, DecInv;
    if calls != [] {
      DecCallAdvances(inp, d, calls[0]);
      var (d1, cs) := DecStep(inp, d, calls[0]).value;
      RunClaimsInOrder(inp, d1, calls[1..]);
    }
  }
}
