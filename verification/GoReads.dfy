/**
Where the Go decoder reads.  The capacity guard keeps reads inside their block, with one exact exception: inside a
partly filled byte of bools, in blocks whose size is not a multiple of 8, it admits slots that cross the end.
*/
module GoReads {
  import opened Bytes
  import opened Wire
  import opened GoArchive
  import opened GoLayout
  import opened GoInvariant

  // ---------------------------------------------------------------- the guard for every limit

  predicate Scalar(width: nat) {
    width == 1 || width == 2 || width == 4 || width == 8
  }

  /** The guard admits the slot although it crosses the limit. */
  predicate Leaves(f: Frame, width: nat)
    requires Scalar(width)
  {
    0 < f.bitOffset && (f.offset / width) % 2 == 0 && f.offset + width < f.limit < (f.offset / width + 2) * width
  }

  lemma DivMod2(k: nat, r: nat)
    requires r < 2
    ensures (2 * k + r) / 2 == k && (2 * k + r) % 2 == r
  {
  }

  lemma DivMod4(k: nat, r: nat)
    requires r < 4
    ensures (4 * k + r) / 4 == k && (4 * k + r) % 4 == r
  {
  }

  lemma DivMod8(k: nat, r: nat)
    requires r < 8
    ensures (8 * k + r) / 8 == k && (8 * k + r) % 8 == r
  {
  }

  lemma DivMod16(k: nat, r: nat)
    requires r < 16
    ensures (16 * k + r) / 16 == k && (16 * k + r) % 16 == r
  {
  }

  /** The offset in units of twice the width. */
  lemma Units(o: nat, width: nat) returns (k: nat, b: nat, r: nat)
    requires Scalar(width)
    ensures b < 2 && r < width && o == 2 * width * k + width * b + r
    ensures o / width == 2 * k + b && (o / width) % 2 == b
  {
    var q := o / width;
    k, b, r := q / 2, q % 2, o % width;
    match width
    case 1 =>
    case 2 =>
    case 4 =>
    case 8 =>
  }

  /** Or-ing in the width rounds an odd quotient up. */
  lemma OrWidth(o: nat, width: nat)
    requires Scalar(width)
    ensures BitOr(o + width, width) == if (o / width) % 2 == 0 then o + width else o + 2 * width
  {
    hide BitOr;
    var k, b, r := Units(o, width);
    var up, left := k + b, if b == 0 then width + r else r;
    assert o + width == 2 * width * up + left;
    match width
    case 1 => OrOne(o + 1, up, left);
    case 2 => OrTwo(o + 2, up, left);
    case 4 => OrFour(o + 4, up, left);
    case 8 => OrEight(o + 8, up, left);
  }

  lemma OrOne(y: nat, k: nat, r: nat)
    requires r < 2 && y == 2 * k + r
    ensures BitOr(y, 1) == 2 * k + 1
  {
    hide BitOr;
    OrMask(y);
    DivMod2(k, r);
  }

  lemma OrTwo(y: nat, k: nat, r: nat)
    requires r < 4 && y == 4 * k + r
    ensures BitOr(y, 2) == 4 * k + 2 + r % 2
  {
    hide BitOr;
    OrBit1(y);
    DivMod4(k, r);
    DivMod2(2 * k + r / 2, r % 2);
  }

  lemma OrFour(y: nat, k: nat, r: nat)
    requires r < 8 && y == 8 * k + r
    ensures BitOr(y, 4) == 8 * k + 4 + r % 4
  {
    hide BitOr;
    OrBit2(y);
    DivMod8(k, r);
    DivMod4(2 * k + r / 4, r % 4);
  }

  lemma OrEight(y: nat, k: nat, r: nat)
    requires r < 16 && y == 16 * k + r
    ensures BitOr(y, 8) == 16 * k + 8 + r % 8
  {
    hide BitOr;
    OrBit3(y);
    DivMod16(k, r);
    DivMod8(2 * k + r / 8, r % 8);
  }

  lemma SlotInByte(f: Frame, width: nat)
    requires Scalar(width) && 0 < f.bitOffset < 8
    ensures f.SlotStart(width) == (f.offset / width + 1) * width
  {
    hide BitOr, IsNext, GoAlign, Frame.SlotStart, Frame.Fits;
    GuardInByte(f, width);
    NextSlot(f.offset, width);
    NextIsUnique(f.offset + 1, f.SlotStart(width), (f.offset / width + 1) * width, width);
  }

  lemma NextSlot(o: nat, width: nat)
    requires Scalar(width)
    ensures IsNext(o + 1, (o / width + 1) * width, width)
  {
    hide IsNext;
    var k, b, r := Units(o, width);
    NextUnit(o, width, 2 * k + b, r);
  }

  lemma NextUnit(o: nat, width: nat, q: nat, r: nat)
    requires Scalar(width) && r < width && o == width * q + r
    ensures IsNext(o + 1, (q + 1) * width, width)
  {
    match width
    case 1 =>
    case 2 => DivMod2(q + 1, 0);
    case 4 => DivMod4(q + 1, 0);
    case 8 => DivMod8(q + 1, 0);
  }

  /** For every limit: an admitted slot crosses it exactly in this case. */
  lemma GuardLeaves(f: Frame, width: nat)
    requires Scalar(width) && f.bitOffset < 8
    ensures f.Fits(8 * width) && f.SlotStart(width) + width > f.limit <==> Leaves(f, width)
  {
    hide BitOr, GoAlign, IsNext, Frame.Fits, Frame.SlotStart;
    if f.bitOffset == 0 {
      GuardExactAtByte(f, width);
    } else {
      GuardInByte(f, width);
      OrWidth(f.offset, width);
      SlotInByte(f, width);
      LeavesArith(f.offset, f.limit, width);
    }
  }

  lemma LeavesArith(o: nat, limit: nat, width: nat)
    requires Scalar(width)
    ensures var guard := if (o / width) % 2 == 0 then o + width else o + 2 * width;
      guard < limit && (o / width + 1) * width + width > limit <==>
      (o / width) % 2 == 0 && o + width < limit < (o / width + 2) * width
  {
    var k, b, r := Units(o, width);
    LeavesLinear(o, limit, width, 2 * k + b, b, r);
  }

  lemma LeavesLinear(o: nat, limit: nat, width: nat, q: nat, b: nat, r: nat)
    requires Scalar(width) && b < 2 && r < width && o == width * q + r
    ensures (if b == 0 then o + width else o + 2 * width) < limit && (q + 1) * width + width > limit <==>
      b == 0 && o + width < limit < (q + 2) * width
  {
    assert (q + 1) * width + width == (q + 2) * width == width * q + 2 * width;
  }

  /** Blocks of whole words are never left. */
  lemma WholeWordsHold(f: Frame, width: nat)
    requires Scalar(width) && f.bitOffset < 8 && f.limit % 8 == 0
    ensures !Leaves(f, width)
  {
    hide BitOr, GoAlign, IsNext, Frame.Fits, Frame.SlotStart;
    GuardLeaves(f, width);
    GuardExact(f, width);
  }

  // ---------------------------------------------------------------- single reads

  /** What holds of every decoder that calls have led to. */
  ghost predicate Reached(inp: Input, d: Dec) {
    DecInv(inp, d) && forall k | 0 <= k < |d.stack| :: d.stack[k].bitOffset < 8 && d.stack[k].offset >= HEADER_SIZE
  }

  /** A number is read outside its block exactly when the guard lets the slot leave; otherwise it is read inside. */
  lemma ReadInside(inp: Input, d: Dec, width: nat)
    requires Scalar(width) && Reached(inp, d) && d.stack != []
    requires ReadUint(inp, d, width).Ok? || ReadUint(inp, d, width) == Err(OutOfRange)
    ensures Top(d.stack).offset <= Top(d.stack).SlotStart(width)
    ensures Top(d.stack).SlotStart(width) + width <= Top(d.stack).limit <==> !Leaves(Top(d.stack), width)
  {
    hide Frame.Fits, GoAlign, UintAt, Leaves;
    var f := Top(d.stack);
    GuardLeaves(f, width);
    AlignIsNext(f.AlignToBytes().offset, width);
    NextGrows(f.AlignToBytes().offset, f.SlotStart(width), width);
  }

  lemma BoolReadInside(inp: Input, d: Dec)
    requires Reached(inp, d) && d.stack != [] && (ReadBool(inp, d).Ok? || ReadBool(inp, d) == Err(OutOfRange))
    ensures Top(d.stack).offset < Top(d.stack).limit && ReadBool(inp, d).Ok?
  {
    hide Frame.Fits;
    GuardBool(Top(d.stack));
    assert d.stack[|d.stack| - 1].limit <= d.end;
  }

  /** A number is read outside the buffer. */
  predicate Overruns(inp: Input, d: Dec, width: nat)
    requires Scalar(width)
  {
    && d.stack != [] && !Top(d.stack).Full()
    && Leaves(Top(d.stack), width)
    && Top(d.stack).SlotStart(width) + width > |inp.buf|
  }

  lemma UintOverruns(inp: Input, d: Dec, width: nat)
    requires Scalar(width) && Reached(inp, d)
    ensures ReadUint(inp, d, width) == Err(OutOfRange) <==> Overruns(inp, d, width)
  {
    hide Frame.Fits, Frame.SlotStart, UintAt, Leaves;
    if d.stack != [] {
      GuardLeaves(Top(d.stack), width);
      assert d.stack[|d.stack| - 1].limit <= d.end;
    }
  }

  // ---------------------------------------------------------------- runs

  lemma UintReached(inp: Input, d: Dec, width: nat)
    requires Scalar(width) && Reached(inp, d) && ReadUint(inp, d, width).Ok?
    ensures var d' := ReadUint(inp, d, width).value.0;
      Reached(inp, d') && d'.stack == SetTop(d.stack, Top(d'.stack)) && Top(d'.stack).bitOffset == 0 &&
      Top(d'.stack).limit == Top(d.stack).limit && Top(d.stack).offset <= Top(d'.stack).offset
  {
    hide Frame.Fits, UintAt, GoAlign;
    var f := Top(d.stack);
    AlignIsNext(f.AlignToBytes().offset, width);
    NextGrows(f.AlignToBytes().offset, f.SlotStart(width), width);
    UintStays(inp, d, width);
    StaysInv(inp, d, ReadUint(inp, d, width).value.0);
  }

  lemma BoolReached(inp: Input, d: Dec)
    requires Reached(inp, d) && ReadBool(inp, d).Ok?
    ensures Reached(inp, ReadBool(inp, d).value.0)
  {
    hide Frame.Fits, Bit;
    BoolStays(inp, d);
    StaysInv(inp, d, ReadBool(inp, d).value.0);
  }

  lemma HandleReached(inp: Input, d: Dec)
    requires Reached(inp, d) && ReadHandle(inp, d).Ok?
    ensures var d' := ReadHandle(inp, d).value.0; Reached(inp, d') && d'.stack == ReadUint(inp, d, 4).value.0.stack
  {
    hide ReadUint, DecInv, Advances;
    UintReached(inp, d, 4);
    HandleAdvances(inp, d);
  }

  lemma UnprocessReached(inp: Input, d: Dec)
    requires Reached(inp, d) && d.stack != []
    ensures Reached(inp, DecUnprocess(d))
  {
  }

  /** The width of the number that a call reads, or 0. */
  function ReadWidth(c: DecCall): (w: nat)
    ensures w == 0 || Scalar(w)
  {
    match c
    case GetUint(width) => if width in {1, 2, 4, 8} then width else 0
    case GetPointer => 8
    case GetHandle => 4
    case GetInterface => 4
    case _ => 0
  }

  /** What a call other than a bool read or a finish does to the top frame. */
  lemma TopAfter(inp: Input, d: Dec, c: DecCall)
    requires Reached(inp, d) && DecStep(inp, d, c).Ok? && ReadWidth(c) > 0
    ensures var d' := DecStep(inp, d, c).value.0;
      Reached(inp, d') && d'.stack == SetTop(d.stack, Top(d'.stack)) && Top(d'.stack).bitOffset == 0 &&
      Top(d'.stack).limit == Top(d.stack).limit && Top(d.stack).offset <= Top(d'.stack).offset
  {
    hide ReadUint, DecInv, Advances;
    DecCallAdvances(inp, d, c);
    UintReached(inp, d, ReadWidth(c));
    if c.GetInterface? {
      var d1 := ReadHandle(inp, d).value.0;
      HandleReached(inp, d);
      UnprocessReached(inp, d1);
      UintReached(inp, DecUnprocess(d1), 4);
    }
  }

  lemma StepReached(inp: Input, d: Dec, c: DecCall)
    requires Reached(inp, d) && DecStep(inp, d, c).Ok?
    ensures Reached(inp, DecStep(inp, d, c).value.0)
  {
    hide ReadUint, ReadBool, ReadHandle, ReadInterface, ReadPointer, UintAt, Advances;
    DecCallAdvances(inp, d, c);
    if ReadWidth(c) > 0 {
      TopAfter(inp, d, c);
    } else if c.GetBool? {
      BoolReached(inp, d);
    }
  }

  lemma InterfaceOverruns(inp: Input, d: Dec)
    requires Reached(inp, d)
    ensures ReadInterface(inp, d) == Err(OutOfRange) <==> Overruns(inp, d, 4)
  {
    hide ReadUint, Leaves, Frame.SlotStart, Reached;
    UintOverruns(inp, d, 4);
    if ReadHandle(inp, d).Ok? {
      var d1 := ReadHandle(inp, d).value.0;
      UintReached(inp, d, 4);
      HandleReached(inp, d);
      UnprocessReached(inp, d1);
      UintOverruns(inp, DecUnprocess(d1), 4);
      AtByteStays(Top(DecUnprocess(d1).stack), 4);
    }
  }

  lemma AtByteStays(f: Frame, width: nat)
    requires Scalar(width) && f.bitOffset == 0
    ensures !Leaves(f, width)
  {
  }

  /** On any bytes, a call reads outside the buffer if and only if it reads a number through a slot that the guard lets
      leave its block, and the block ends too close to the end of the buffer. */
  lemma StepOverruns(inp: Input, d: Dec, c: DecCall)
    requires Reached(inp, d)
    ensures DecStep(inp, d, c) == Err(OutOfRange) <==> ReadWidth(c) > 0 && Overruns(inp, d, ReadWidth(c))
  {
    hide ReadUint, Leaves, Frame.SlotStart, UintAt, Frame.Fits;
    match c
    case GetBool =>
      if d.stack != [] && (ReadBool(inp, d).Ok? || ReadBool(inp, d) == Err(OutOfRange)) { BoolReadInside(inp, d); }
    case GetUint(width) => if ReadWidth(c) > 0 { UintOverruns(inp, d, width); }
    case GetPointer =>
      UintOverruns(inp, d, 8);
      if ReadUint(inp, d, 8).Ok? { UintReached(inp, d, 8); }
    case GetHandle => UintOverruns(inp, d, 4);
    case GetInterface => InterfaceOverruns(inp, d);
    case _ =>
  }

  /** Some call of the run reads outside the buffer. */
  predicate RunOverruns(inp: Input, d: Dec, calls: seq<DecCall>)
    decreases |calls|
  {
    calls != [] &&
    ((ReadWidth(calls[0]) > 0 && Overruns(inp, d, ReadWidth(calls[0]))) ||
     (DecStep(inp, d, calls[0]).Ok? && RunOverruns(inp, DecStep(inp, d, calls[0]).value.0, calls[1..])))
  }

  /** On any bytes, a run panics on a slice bound if and only if it comes to such a slot; nothing else does it. */
  lemma {:induction false} RunPanics(inp: Input, d: Dec, calls: seq<DecCall>)
    requires Reached(inp, d)
    ensures DecRun(inp, d, calls) == Err(OutOfRange) <==> RunOverruns(inp, d, calls)
    decreases |calls|
  {
    hide DecStep, Overruns, Reached;
    if calls != [] {
      StepOverruns(inp, d, calls[0]);
      if DecStep(inp, d, calls[0]).Ok? {
        StepReached(inp, d, calls[0]);
        RunPanics(inp, DecStep(inp, d, calls[0]).value.0, calls[1..]);
      }
    }
  }

  lemma NewDecoderReached(inp: Input)
    ensures Reached(inp, NewDec)
  {
  }

  /** So it is for every decoder, from the start. */
  lemma DecoderPanics(inp: Input, calls: seq<DecCall>)
    ensures DecRun(inp, NewDec, calls) == Err(OutOfRange) <==> RunOverruns(inp, NewDec, calls)
  {
    NewDecoderReached(inp);
    RunPanics(inp, NewDec, calls);
  }

  // ---------------------------------------------------------------- whole words

  predicate WholeFrames(d: Dec) {
    forall k | 0 <= k < |d.stack| :: d.stack[k].limit % 8 == 0
  }

  /** Every block that the run opens ends at a multiple of 8. */
  predicate WholeRun(inp: Input, d: Dec, calls: seq<DecCall>)
    decreases |calls|
  {
    WholeFrames(d) &&
    (calls == [] || (DecStep(inp, d, calls[0]).Ok? ==> WholeRun(inp, DecStep(inp, d, calls[0]).value.0, calls[1..])))
  }

  lemma WholeStep(inp: Input, d: Dec, c: DecCall)
    requires Reached(inp, d) && WholeFrames(d)
    ensures DecStep(inp, d, c) != Err(OutOfRange)
  {
    hide Leaves, Frame.SlotStart, DecStep, DecInv;
    StepOverruns(inp, d, c);
    if ReadWidth(c) > 0 && d.stack != [] {
      WholeWordsHold(Top(d.stack), ReadWidth(c));
    }
  }

  /** On any bytes: if every block ends at a multiple of 8, the decoder never panics. */
  lemma {:induction false} WholeRunsNeverPanic(inp: Input, d: Dec, calls: seq<DecCall>)
    requires Reached(inp, d) && WholeRun(inp, d, calls)
    ensures DecRun(inp, d, calls) != Err(OutOfRange)
    decreases |calls|
  {
    hide DecStep, Reached, WholeFrames;
    if calls != [] {
      WholeStep(inp, d, calls[0]);
      if DecStep(inp, d, calls[0]).Ok? {
        StepReached(inp, d, calls[0]);
        WholeRunsNeverPanic(inp, DecStep(inp, d, calls[0]).value.0, calls[1..]);
      }
    }
  }

  // ---------------------------------------------------------------- arrays

  /** While the array at `depth` is open and on top, no bool is read from it and it is not finished. */
  predicate Elements(inp: Input, d: Dec, depth: nat, calls: seq<DecCall>)
    decreases |calls|
  {
    calls == [] ||
    ((|d.stack| == depth ==> !calls[0].GetBool? && !calls[0].CloseBlock?) &&
     (DecStep(inp, d, calls[0]).Ok? ==> Elements(inp, DecStep(inp, d, calls[0]).value.0, depth, calls[1..])))
  }

  /** The frame of the array only moves forward, from byte boundary to byte boundary. */
  predicate MovesOn(d: Dec, d': Dec, depth: nat) {
    && 1 <= depth <= |d.stack| && depth <= |d'.stack|
    && (d.stack[depth - 1].bitOffset == 0 ==> d'.stack[depth - 1].bitOffset == 0)
    && d'.stack[depth - 1].limit == d.stack[depth - 1].limit
    && d'.stack[depth - 1].offset >= d.stack[depth - 1].offset
  }

  lemma StepMovesOn(inp: Input, d: Dec, c: DecCall, depth: nat)
    requires Reached(inp, d) && DecStep(inp, d, c).Ok? && 1 <= depth <= |d.stack|
    requires |d.stack| == depth ==> !c.GetBool? && !c.CloseBlock?
    ensures MovesOn(d, DecStep(inp, d, c).value.0, depth)
  {
    hide ReadUint, ReadHandle, ReadInterface, ReadPointer, UintAt, Frame.Fits, Bit, DecInv;
    if ReadWidth(c) > 0 {
      TopAfter(inp, d, c);
    }
  }

  lemma {:induction false} ElementsMoveOn(inp: Input, d: Dec, depth: nat, calls: seq<DecCall>)
    requires Reached(inp, d) && 1 <= depth <= |d.stack| && Elements(inp, d, depth, calls) && DecRun(inp, d, calls).Ok?
    ensures var d' := DecRun(inp, d, calls).value.0; Reached(inp, d') && MovesOn(d, d', depth)
    decreases |calls|
  {
    hide DecStep, Reached;
    if calls != [] {
      StepReached(inp, d, calls[0]);
      StepMovesOn(inp, d, calls[0], depth);
      ElementsMoveOn(inp, DecStep(inp, d, calls[0]).value.0, depth, calls[1..]);
    }
  }

  /**
  On any bytes, every number read from an array that holds no bools lies inside the array's block, whatever was read
  from it and from blocks below it before, and whatever the size of the block.
  */
  lemma UniformArrayReads(inp: Input, d: Dec, bits: nat, calls: seq<DecCall>, width: nat)
    requires Scalar(width) && Reached(inp, d) && DecStep(inp, d, OpenArray(bits)).Ok?
    requires var d1 := DecStep(inp, d, OpenArray(bits)).value.0;
      Elements(inp, d1, |d1.stack|, calls) && DecRun(inp, d1, calls).Ok? &&
        |DecRun(inp, d1, calls).value.0.stack| == |d1.stack|
    ensures var d1 := DecStep(inp, d, OpenArray(bits)).value.0;
      var d2, block := DecRun(inp, d1, calls).value.0, Top(d1.stack);
      && ReadUint(inp, d2, width) != Err(OutOfRange)
      && (ReadUint(inp, d2, width).Ok? ==>
        block.offset <= Top(d2.stack).SlotStart(width) && Top(d2.stack).SlotStart(width) + width <= block.limit)
  {
    hide ReadUint, Leaves, Frame.SlotStart, DecRun, Elements, UintAt;
    var d1 := DecStep(inp, d, OpenArray(bits)).value.0;
    StepReached(inp, d, OpenArray(bits));
    ElementsMoveOn(inp, d1, |d1.stack|, calls);
    var d2 := DecRun(inp, d1, calls).value.0;
    UintOverruns(inp, d2, width);
    AtByteStays(Top(d2.stack), width);
    if ReadUint(inp, d2, width).Ok? {
      ReadInside(inp, d2, width);
    }
  }

  // ---------------------------------------------------------------- a message that makes the decoder panic

  /** A struct of 11 bytes and version 9: a bool, then nothing that a reader of an earlier version knows. */
  const OddStruct: seq<Byte> := [11, 0, 0, 0, 9, 0, 0, 0, 1, 0, 0]

  lemma OddHeader()
    ensures UintAt(OddStruct, 0, 4) == 11 && UintAt(OddStruct, 4, 4) == 9
  {
    SmallNumber(OddStruct, 0, 4);
    SmallNumber(OddStruct, 4, 4);
  }

  const OddInput := Input(OddStruct, [])
  const OddOpen := Dec(11, 0, [Frame(8, 0, 11, 0, 0, false)])
  const OddBool := Dec(11, 0, [Frame(8, 1, 11, 0, 1, false)])

  /** After its bool, the guard admits a 16-bit number at bytes 10 and 11 of 11. */
  lemma OddReads()
    ensures DecStartStruct(OddInput, NewDec) == Ok((OddOpen, Header(11, 9)))
    ensures ReadBool(OddInput, OddOpen) == Ok((OddBool, true))
    ensures ReadUint(OddInput, OddBool, 2) == Err(OutOfRange)
  {
    hide UintAt, Frame.SlotStart, Frame.Fits, GoAlign;
    OddHeader();
    assert ReadHeader(OddInput, NewDec) == Ok((Dec(8, 0, []), Header(11, 9)));
    assert [] + OddOpen.stack == OddOpen.stack;
    GuardBool(Top(OddOpen.stack));
    assert SetTop(OddOpen.stack, Top(OddBool.stack)) == OddBool.stack;
    SlotInByte(Top(OddBool.stack), 2);
    UintOverruns(OddInput, OddBool, 2);
  }

  lemma OddStructPanics()
    ensures DecRun(OddInput, NewDec, [OpenStruct, GetBool, GetUint(2)]) == Err(OutOfRange)
  {
    hide DecStartStruct, ReadBool, ReadUint;
    OddReads();
    var calls := [OpenStruct, GetBool, GetUint(2)];
    assert calls[1..] == [GetBool, GetUint(2)] && calls[1..][1..] == [GetUint(2)];
    assert DecRun(OddInput, OddBool, calls[1..][1..]) == Err(OutOfRange);
    assert DecRun(OddInput, OddOpen, calls[1..]) == Err(OutOfRange);
  }

  /** The generated decoder of `{bool; uint16}` accepts the header, because the version is newer than its own. */
  lemma GeneratedDecoderPanics()
    ensures var fields := [Field(0, 0, TBool), Field(2, 0, TUint(2))];
      DecBlock(map[0 := StructDef(8, 0, fields)], OddInput, NewDec, BStruct(0)) == Err(OutOfRange)
  {
    hide DecStartStruct, ReadBool, ReadUint;
    OddReads();
    var fields := [Field(0, 0, TBool), Field(2, 0, TUint(2))];
    var env := map[0 := StructDef(8, 0, fields)];
    assert fields[1..] == [Field(2, 0, TUint(2))];
    assert DecSlot(env, OddInput, OddOpen, TBool) == Ok((OddBool, VBool(true)));
    assert DecSlots(env, OddInput, OddBool, fields[1..]) == Err(OutOfRange);
    assert DecSlots(env, OddInput, OddOpen, fields) == Err(OutOfRange);
    assert DecOpen(env, OddInput, NewDec, BStruct(0)) == Ok((OddOpen, 0));
  }
}
