/**
`Encoder` and `Decoder` as the objects they are: every method is proved against the function of `GoArchive` that the
theorems about whole values are about, and keeps the invariant of `GoInvariant`.
*/
module GoBindings {
  import opened Bytes
  import opened Collections
  import opened Wire
  import opened GoArchive
  import opened GoLayout
  import GoEncoding
  import opened GoInvariant

  /** The error of a step, if any. */
  function Outcome<T>(r: Result<T>): Result<()> {
    if r.Ok? then Ok(()) else Err(r.error)
  }

  class Encoder {
    var buf: seq<Byte>
    var end: nat
    var handles: seq<nat>
    var stateStack: seq<Frame>

    ghost function View(): Enc
      reads this
    {
      Enc(buf, end, handles, stateStack)
    }

    ghost predicate Valid()
      reads this
    {
      EncInv(View())
    }

    constructor ()
      ensures Valid() && View() == NewEnc
    {
      buf, end, handles, stateStack := [], 0, [], [];
    }

    /** Claims `size` bytes, growing the buffer if needed. */
    method ClaimData(size: nat)
      modifies this`buf, this`end
      ensures View() == Claim(old(View()), size)
    {
      end := end + size;
      if end < |buf| { return; }
      var newLen := end;
      var l := 2 * |buf|;
      if newLen < l { newLen := l; }
      var tmp := Zeros(newLen);
      tmp := buf + tmp[|buf|..];
      assert tmp == buf + Zeros(newLen - |buf|);
      buf := tmp;
    }

    /** `pushState` and `writeDataHeader`; the error is a panic, which needs a 32-bit size word that wraps to 0. */
    method StartBlock(size: nat, second: nat, check: bool) returns (r: Result<()>)
      requires Valid()
      modifies this
      ensures r == Outcome(Start(old(View()), size, second, check))
      ensures r.Ok? ==> View() == Start(old(View()), size, second, check).value
      ensures (HEADER_SIZE + size) % TWO_32 > 0 ==> r.Ok? && Valid()
    {
      hide EncInv, PutUint, GoAlign;
      if (HEADER_SIZE + size) % TWO_32 > 0 { StartCall(View(), size, second, check); }
      var headerSize, oldEnd := (HEADER_SIZE + size) % TWO_32, end;
      ClaimData(GoAlign(headerSize, 8));
      stateStack := stateStack + [Frame(oldEnd, 0, end, if check then second else 0, 0, check)];
      if oldEnd + HEADER_SIZE > |buf| { return Err(OutOfRange); }
      buf := PutUint(buf, oldEnd, 4, headerSize);
      buf := PutUint(buf, oldEnd + 4, 4, second);
      var f := Top(stateStack);
      stateStack := SetTop(stateStack, f.(offset := f.offset + HEADER_SIZE));
      assert stateStack == old(stateStack) + [f.(offset := f.offset + HEADER_SIZE)];
      return Ok(());
    }

    method StartArray(length: nat, elementBitSize: nat) returns (r: Result<()>)
      requires Valid()
      modifies this
      ensures r == Outcome(Start(old(View()), BytesForBits(length * elementBitSize), length, true))
      ensures r.Ok? ==> View() == Start(old(View()), BytesForBits(length * elementBitSize), length, true).value
      ensures (HEADER_SIZE + BytesForBits(length * elementBitSize)) % TWO_32 > 0 ==> r.Ok? && Valid()
    {
      r := StartBlock(BytesForBits(length * elementBitSize), length, true);
    }

    method StartMap()
      requires Valid()
      modifies this
      ensures Valid()
      ensures Start(old(View()), 16, 0, false) == Ok(View())
    {
      var _ := StartBlock(16, 0, false);
    }

    method StartStruct(size: nat, version: nat) returns (r: Result<()>)
      requires Valid()
      modifies this
      ensures r == Outcome(Start(old(View()), size, version, false))
      ensures r.Ok? ==> View() == Start(old(View()), size, version, false).value
      ensures (HEADER_SIZE + size) % TWO_32 > 0 ==> r.Ok? && Valid()
    {
      r := StartBlock(size, version, false);
    }

    method Finish() returns (r: Result<()>)
      requires Valid()
      modifies this`stateStack
      ensures Valid()
      ensures r == Outcome(EncFinish(old(View())))
      ensures View() == if r.Ok? then EncFinish(old(View())).value else old(View())
    {
      if stateStack == [] { return Err(EmptyStack); }
      var f := Top(stateStack);
      if f.check && f.processed != f.elements { return Err(ElementCount); }
      FinishCall(View());
      stateStack := stateStack[..|stateStack| - 1];
      return Ok(());
    }

    /** The encoded bytes and handles of a finished value. */
    method Data() returns (r: Result<(seq<Byte>, seq<nat>)>)
      requires Valid()
      ensures r == if stateStack != [] then Err(NonEmptyStack) else Ok((buf[..end], handles))
    {
      if |stateStack| != 0 { return Err(NonEmptyStack); }
      return Ok((buf[..end], handles));
    }

    method WriteBool(value: bool) returns (r: Result<()>)
      requires Valid()
      modifies this`buf, this`stateStack
      ensures Valid()
      ensures r == Outcome(GoArchive.WriteBool(old(View()), value))
      ensures View() == if r.Ok? then GoArchive.WriteBool(old(View()), value).value else old(View())
      ensures r != Err(OutOfRange)
    {
      hide Frame.Fits, EncInv, GoEncoding.ZeroFrom;
      var ensured := Ensure(stateStack, 1);
      if ensured.Err? { return Err(ensured.error); }
      var f := Top(stateStack);
      TopIsOk(View());
      GuardBool(f);
      BoolCall(View(), value);
      if value {
        buf := buf[f.offset := SetBit(buf[f.offset], f.bitOffset)];
      }
      stateStack := SetTop(stateStack, f.SkipBits(1).(processed := f.processed + 1));
      return Ok(());
    }

    /** `WriteUint8` to `WriteUint64`; signed and floating point values are written through their bits. */
    method WriteUint(width: nat, value: nat) returns (r: Result<()>)
      requires width in {1, 2, 4, 8} && (Valid() || Ensure(stateStack, 8 * width).Err?)
      modifies this`buf, this`stateStack
      ensures old(Valid()) ==> Valid()
      ensures r == Outcome(GoArchive.WriteUint(old(View()), width, value))
      ensures View() == if r.Ok? then GoArchive.WriteUint(old(View()), width, value).value else old(View())
      ensures r != Err(OutOfRange)
    {
      hide Frame.Fits, GoAlign, PutUint, EncInv, GoEncoding.ZeroFrom;
      var ensured := Ensure(stateStack, 8 * width);
      if ensured.Err? { return Err(ensured.error); }
      var f := Top(stateStack);
      TopIsOk(View());
      GuardExact(f, width);
      ghost var e := View();
      f := f.AlignToBytes();
      f := f.(offset := GoAlign(f.offset, width));
      buf := PutUint(buf, f.offset, width, value);
      f := f.SkipBytes(width);
      stateStack := SetTop(stateStack, f.(processed := f.processed + 1));
      UintCall(e, width, value);
      return Ok(());
    }

    /** Writes a pointer to the first unclaimed byte; the cursor stays aligned when the write is refused. */
    method WritePointer() returns (r: Result<()>)
      requires Valid() && stateStack != []
      modifies this`buf, this`stateStack
      ensures Valid()
      ensures r == Outcome(GoArchive.WritePointer(old(View())))
      ensures View() == if r.Ok? then GoArchive.WritePointer(old(View())).value else AlignTop(old(View()))
    {
      hide GoArchive.WriteUint, GoAlign, EncInv, GoEncoding.ZeroFrom;
      TopIsOk(View());
      ghost var e := View();
      var f := Top(stateStack).AlignToBytes();
      AlignIsNext(f.offset, 8);
      NextBelow(f.offset, GoAlign(f.offset, 8), f.limit);
      stateStack := SetTop(stateStack, f.(offset := GoAlign(f.offset, 8)));
      MoveTop(e, f.(offset := GoAlign(f.offset, 8)));
      r := WriteUint(8, end - Top(stateStack).offset);
    }

    /** Writes a handle's number; the handle stays attached when the write is refused. */
    method WriteHandle(handle: Option<nat>) returns (r: Result<()>)
      requires Valid()
      modifies this
      ensures Valid()
      ensures handle.None? ==> r == Err(InvalidHandle) && View() == old(View())
      ensures handle.Some? ==>
        && r == Outcome(GoArchive.WriteHandle(old(View()), handle.value))
        && View() == if r.Ok? then GoArchive.WriteHandle(old(View()), handle.value).value
                     else old(View()).(handles := old(handles) + [handle.value])
    {
      hide GoArchive.WriteUint;
      if handle.None? { return Err(InvalidHandle); }
      handles := handles + [handle.value];
      r := WriteUint(4, (|handles| - 1) % TWO_32);
    }

    method WriteInterface(handle: Option<nat>) returns (r: Result<()>)
      requires Valid()
      modifies this
      ensures Valid()
      ensures handle.None? ==> r == Err(InvalidHandle) && View() == old(View())
      ensures handle.Some? ==>
        && r == Outcome(GoArchive.WriteInterface(old(View()), handle.value))
        && (r.Ok? ==> View() == GoArchive.WriteInterface(old(View()), handle.value).value)
    {
      hide GoArchive.WriteUint, EncInv, GoEncoding.OpenZero;
      ghost var e := View();
      r := WriteHandle(handle);
      if r.Err? { return; }
      HandleMoves(e, handle.value);
      HandleCall(e, handle.value);
      ghost var e1 := View();
      var f := Top(stateStack);
      stateStack := SetTop(stateStack, f.(processed := if f.processed > 0 then f.processed - 1 else TWO_32 - 1));
      TopInBlock(e1);
      MoveTop(e1, Top(stateStack));
      r := WriteUint(4, 0);
    }

    /** The bytes of a string, into a frame for `length` elements. */
    method WriteChars(value: seq<Byte>, ghost length: nat) returns (r: Result<()>)
      requires stateStack != [] && Counts(Top(stateStack), length, 0)
      requires Valid() || (value != [] && Ensure(stateStack, 8).Err?)
      modifies this`buf, this`stateStack
      ensures old(Valid()) ==> Valid()
      ensures r == Outcome(EncSlots(map[], old(View()), ElemFields(TUint(1), 0, |value|), Chars(value)))
      ensures r.Ok? ==>
        && old(Valid()) && |value| <= length
        && View() == EncSlots(map[], old(View()), ElemFields(TUint(1), 0, |value|), Chars(value)).value
    {
      hide GoArchive.WriteUint, EncInv, Ensure, Frame.Full;
      ghost var fs, vs, valid := ElemFields(TUint(1), 0, |value|), Chars(value), Valid();
      ghost var all := EncSlots(map[], View(), fs, vs);
      assert fs[0..] == fs && vs[0..] == vs;
      for i := 0 to |value|
        invariant if valid then Valid() else i == 0 && Ensure(stateStack, 8).Err?
        invariant EncSlots(map[], View(), fs[i..], vs[i..]) == all
        invariant stateStack != [] && Counts(Top(stateStack), length, i)
      {
        assert fs[i..][1..] == fs[i + 1..] && vs[i..][1..] == vs[i + 1..] && fs[i..][0].kind == TUint(1);
        OneChar(View(), value[i], length, i);
        r := WriteUint(1, value[i]);
        if r.Err? { return; }
      }
      r := Ok(());
    }

    /** Writes a string's array, byte by byte.  The length is a 32-bit word: a longer string is an error. */
    method WriteString(value: seq<Byte>) returns (r: Result<()>)
      requires Valid()
      modifies this
      ensures (HEADER_SIZE + |value|) % TWO_32 > 0 ==> Valid()
      ensures |value| < TWO_32 ==>
        && r == Outcome(EncBlock(map[], old(View()), StringBlock, Chars(value)))
        && (r.Ok? ==> View() == EncBlock(map[], old(View()), StringBlock, Chars(value)).value)
      ensures |value| >= TWO_32 ==> r.Err?
    {
      hide EncSlots, Start, EncFinish, EncInv, Ensure;
      var length := |value| % TWO_32;
      StringSize(length);
      StringWord(|value|);
      ghost var e := View();
      r := StartArray(length, 8);
      if r.Err? { return; }
      StartedString(e, length);
      r := WriteChars(value, length);
      if r.Err? { return; }
      r := Finish();
    }
  }

  /** `i` of `length` elements have been written. */
  predicate Counts(f: Frame, length: nat, i: nat) {
    f.check && f.elements == length && f.processed == i <= length
  }

  /** A string is an array of bytes. */
  const StringBlock := BArray(TUint(1), 0)

  function Chars(value: seq<Byte>): seq<Value> {
    seq(|value|, i requires 0 <= i < |value| => VUint(value[i]))
  }

  /** A string whose size word wraps around to 0 is not empty. */
  lemma StringWord(n: nat)
    ensures (HEADER_SIZE + n % TWO_32) % TWO_32 == (HEADER_SIZE + n) % TWO_32
    ensures (HEADER_SIZE + n) % TWO_32 == 0 ==> n > 0
  {
  }

  /** The frame of a string; if the size word wraps around to 0, nothing fits. */
  lemma StartedString(e: Enc, length: nat)
    requires Start(e, length, length, true).Ok? && length < TWO_32
    ensures var e' := Start(e, length, length, true).value;
      && e'.stack != [] && Counts(Top(e'.stack), length, 0)
      && ((HEADER_SIZE + length) % TWO_32 == 0 ==> Ensure(e'.stack, 8).Err?)
  {
    hide PutUint, GoAlign, Frame.Fits;
    if (HEADER_SIZE + length) % TWO_32 == 0 {
      GoEncoding.AlignToWords(0);
      AlignIsNext(e.end + HEADER_SIZE, 1);
      var f := Top(Start(e, length, length, true).value.stack);
      assert f.limit == e.end && f.offset == e.end + HEADER_SIZE;
      GuardExactAtByte(f, 1);
    }
  }

  lemma OneChar(e: Enc, n: nat, length: nat, i: nat)
    requires e.stack != [] && Counts(Top(e.stack), length, i)
    ensures var r := GoArchive.WriteUint(e, 1, n);
      && (Ensure(e.stack, 8).Err? ==> r.Err?)
      && (r.Ok? ==> r.value.stack != [] && Counts(Top(r.value.stack), length, i + 1))
  {
    hide PutUint, GoAlign, Frame.Fits;
  }

  lemma StringSize(n: nat)
    ensures BytesForBits(n * 8) == n
  {
  }

  lemma TopInBlock(e: Enc)
    requires EncInv(e) && e.stack != []
    ensures Top(e.stack).AlignToBytes().offset <= Top(e.stack).limit
  {
    TopIsOk(e);
  }

  class Decoder {
    const inp: Input
    var end: nat
    var nextHandle: nat
    var stateStack: seq<Frame>

    ghost function View(): Dec
      reads this
    {
      Dec(end, nextHandle, stateStack)
    }

    ghost predicate Valid()
      reads this
    {
      DecInv(inp, View())
    }

    constructor (bytes: seq<Byte>, handles: seq<nat>)
      ensures Valid() && View() == NewDec && inp == Input(bytes, handles)
    {
      inp := Input(bytes, handles);
      end, nextHandle, stateStack := 0, 0, [];
    }

    method ClaimData(size: nat) returns (r: Result<()>)
      modifies this`end
      ensures r == Outcome(DecClaim(inp, old(View()), size))
      ensures View() == if r.Ok? then DecClaim(inp, old(View()), size).value else old(View())
    {
      if end + size > |inp.buf| { return Err(IllegalMemoryRange); }
      end := end + size;
      return Ok(());
    }

    method ReadDataHeader() returns (r: Result<Header>)
      modifies this`end
      ensures Outcome(r) == Outcome(ReadHeader(inp, old(View())))
      ensures r.Ok? ==> (View(), r.value) == ReadHeader(inp, old(View())).value
    {
      var claimed := ClaimData(HEADER_SIZE);
      if claimed.Err? { return Err(claimed.error); }
      var oldEnd := end - HEADER_SIZE;
      return Ok(Header(UintAt(inp.buf, oldEnd, 4), UintAt(inp.buf, oldEnd + 4, 4)));
    }

    method PushState(header: Header, check: bool) returns (r: Result<()>)
      requires header.size >= HEADER_SIZE
      modifies this`end, this`stateStack
      ensures r == Outcome(DecPush(inp, old(View()), header, check))
      ensures r.Ok? ==> View() == DecPush(inp, old(View()), header, check).value
    {
      var oldEnd := end;
      r := ClaimData(header.size - HEADER_SIZE);
      if r.Err? { return; }
      stateStack := stateStack + [Frame(oldEnd, 0, end, if check then header.second else 0, 0, check)];
    }

    method StartArray(elementBitSize: nat) returns (r: Result<nat>)
      requires Valid()
      modifies this`end, this`stateStack
      ensures Outcome(r) == Outcome(DecStartArray(inp, old(View()), elementBitSize))
      ensures r.Ok? ==> Valid() && (View(), r.value) == DecStartArray(inp, old(View()), elementBitSize).value
    {
      ghost var d := View();
      var header := ReadDataHeader();
      if header.Err? { return Err(header.error); }
      if header.value.size < HEADER_SIZE + BytesForBits(header.value.second * elementBitSize) {
        return Err(UnexpectedArrayHeader);
      }
      var pushed := PushState(header.value, true);
      if pushed.Err? { return Err(pushed.error); }
      DecCallAdvances(inp, d, OpenArray(elementBitSize));
      return Ok(header.value.second);
    }

    method StartMap() returns (r: Result<()>)
      requires Valid()
      modifies this`end, this`stateStack
      ensures r == Outcome(DecStartMap(inp, old(View())))
      ensures r.Ok? ==> Valid() && View() == DecStartMap(inp, old(View())).value
    {
      ghost var d := View();
      var header := ReadDataHeader();
      if header.Err? { return Err(header.error); }
      if header.value != Header(24, 0) { return Err(UnexpectedStructHeader); }
      r := PushState(header.value, false);
      if r.Ok? { DecCallAdvances(inp, d, OpenMap); }
    }

    method StartStruct() returns (r: Result<Header>)
      requires Valid()
      modifies this`end, this`stateStack
      ensures Outcome(r) == Outcome(DecStartStruct(inp, old(View())))
      ensures r.Ok? ==> Valid() && (View(), r.value) == DecStartStruct(inp, old(View())).value
    {
      ghost var d := View();
      var header := ReadDataHeader();
      if header.Err? { return Err(header.error); }
      if header.value.size < HEADER_SIZE { return Err(UnexpectedStructHeader); }
      var pushed := PushState(header.value, false);
      if pushed.Err? { return Err(pushed.error); }
      DecCallAdvances(inp, d, OpenStruct);
      return header;
    }

    method Finish() returns (r: Result<()>)
      requires Valid()
      modifies this`stateStack
      ensures Valid()
      ensures r == Outcome(DecFinish(old(View())))
      ensures View() == if r.Ok? then DecFinish(old(View())).value else old(View())
    {
      if stateStack == [] { return Err(EmptyStack); }
      var f := Top(stateStack);
      if f.check && f.processed != f.elements { return Err(ElementCount); }
      stateStack := stateStack[..|stateStack| - 1];
      return Ok(());
    }

    method ReadBool() returns (r: Result<bool>)
      requires Valid()
      modifies this`stateStack
      ensures Valid()
      ensures Outcome(r) == Outcome(GoArchive.ReadBool(inp, old(View())))
      ensures r.Ok? ==> (View(), r.value) == GoArchive.ReadBool(inp, old(View())).value
      ensures r.Err? ==> View() == old(View())
    {
      hide Frame.Fits;
      ghost var d := View();
      var ensured := Ensure(stateStack, 1);
      if ensured.Err? { return Err(ensured.error); }
      var f := Top(stateStack);
      if f.offset >= |inp.buf| { return Err(OutOfRange); }
      var value := Bit(inp.buf[f.offset], f.bitOffset);
      stateStack := SetTop(stateStack, f.SkipBits(1).(processed := f.processed + 1));
      DecCallAdvances(inp, d, GetBool);
      return Ok(value);
    }

    /** `ReadUint8` to `ReadUint64` */
    method ReadUint(width: nat) returns (r: Result<nat>)
      requires Valid() && width in {1, 2, 4, 8}
      modifies this`stateStack
      ensures Valid()
      ensures Outcome(r) == Outcome(GoArchive.ReadUint(inp, old(View()), width))
      ensures r.Ok? ==> (View(), r.value) == GoArchive.ReadUint(inp, old(View()), width).value
      ensures r.Err? ==> View() == old(View())
    {
      hide Frame.Fits, GoAlign, DecInv;
      ghost var d := View();
      var ensured := Ensure(stateStack, 8 * width);
      if ensured.Err? { return Err(ensured.error); }
      var f := Top(stateStack).AlignToBytes();
      f := f.(offset := GoAlign(f.offset, width));
      if f.offset + width > |inp.buf| { return Err(OutOfRange); }
      var value := UintAt(inp.buf, f.offset, width);
      f := f.SkipBytes(width);
      stateStack := SetTop(stateStack, f.(processed := f.processed + 1));
      DecCallAdvances(inp, d, GetUint(width));
      return Ok(value);
    }

    method ReadPointer() returns (r: Result<nat>)
      requires Valid()
      modifies this`stateStack, this`end
      ensures Valid()
      ensures Outcome(r) == Outcome(GoArchive.ReadPointer(inp, old(View())))
      ensures r.Ok? ==> (View(), r.value) == GoArchive.ReadPointer(inp, old(View())).value
    {
      hide GoArchive.ReadUint, Frame.Fits;
      ghost var d := View();
      var pointer := ReadUint(8);
      if pointer.Err? || pointer.value == 0 { return pointer; }
      if stateStack == [] || Top(stateStack).offset < 8 { return Err(OutOfRange); }
      var newEnd := Top(stateStack).offset - 8 + pointer.value;
      if pointer.value >= |inp.buf| || newEnd >= |inp.buf| { return Err(IllegalPointer); }
      if newEnd < end { return Err(IllegalMemoryRange); }
      if newEnd % 8 != 0 { return Err(MisalignedObject); }
      var _ := ClaimData(newEnd - end);
      DecCallAdvances(inp, d, GetPointer);
      return pointer;
    }

    method ClaimHandle(index: nat) returns (r: Result<nat>)
      requires Valid()
      modifies this`nextHandle
      ensures Valid()
      ensures Outcome(r) == Outcome(GoArchive.ClaimHandle(inp, old(View()), index))
      ensures r.Ok? ==> (View(), r.value) == GoArchive.ClaimHandle(inp, old(View()), index).value
      ensures r.Err? ==> View() == old(View())
    {
      if index >= |inp.handles| { return Err(IllegalHandle); }
      if index < nextHandle { return Err(IllegalHandle); }
      nextHandle := index + 1;
      return Ok(inp.handles[index]);
    }

    method ReadHandle() returns (r: Result<Option<nat>>)
      requires Valid()
      modifies this`stateStack, this`nextHandle
      ensures Valid()
      ensures Outcome(r) == Outcome(GoArchive.ReadHandle(inp, old(View())))
      ensures r.Ok? ==> (View(), r.value) == GoArchive.ReadHandle(inp, old(View())).value
    {
      hide GoArchive.ReadUint;
      var index := ReadUint(4);
      if index.Err? { return Err(index.error); }
      if index.value == INVALID_HANDLE { return Ok(None); }
      var handle := ClaimHandle(index.value);
      if handle.Err? { return Err(handle.error); }
      return Ok(Some(handle.value));
    }

    /** A handle and a version word, which count as one element. */
    method ReadInterface() returns (r: Result<Option<nat>>)
      requires Valid()
      modifies this`stateStack, this`nextHandle
      ensures Outcome(r) == Outcome(GoArchive.ReadInterface(inp, old(View())))
      ensures r.Ok? ==> Valid() && (View(), r.value) == GoArchive.ReadInterface(inp, old(View())).value
    {
      hide GoArchive.ReadUint, GoArchive.ReadHandle;
      r := ReadHandle();
      if r.Err? { return; }
      if stateStack == [] { return Err(EmptyStack); }
      var f := Top(stateStack);
      stateStack := SetTop(stateStack, f.(processed := if f.processed > 0 then f.processed - 1 else TWO_32 - 1));
      var version := ReadUint(4);
      if version.Err? { return Err(version.error); }
    }

    /** Reads a string's array, byte by byte. */
    method ReadString() returns (r: Result<seq<Byte>>)
      requires Valid()
      modifies this
      ensures Outcome(r) == Outcome(DecBlock(map[], inp, old(View()), StringBlock))
      ensures r.Ok? ==> (View(), Chars(r.value)) == DecBlock(map[], inp, old(View()), StringBlock).value
    {
      hide GoArchive.ReadUint, DecStartArray, DecFinish;
      ghost var d := View();
      var length := StartArray(8);
      if length.Err? { return Err(length.error); }
      ghost var fs := ElemFields(TUint(1), 0, length.value);
      ghost var all := DecSlots(map[], inp, View(), fs);
      assert fs[0..] == fs;
      assert DecBlock(map[], inp, d, StringBlock) ==
        (if all.Err? then Err(all.error) else
         var f := DecFinish(all.value.0); if f.Err? then Err(f.error) else Ok((f.value, all.value.1)));
      var bytes: seq<Byte> := [];
      assert Chars(bytes) == [] && (all.Ok? ==> [] + all.value.1 == all.value.1);
      for i := 0 to length.value
        invariant Valid() && |bytes| == i
        invariant all == Prefixed(Chars(bytes), DecSlots(map[], inp, View(), fs[i..]))
      {
        assert fs[i..][1..] == fs[i + 1..] && fs[i..][0].kind == TUint(1);
        ghost var before, chars := View(), Chars(bytes);
        var b := ReadUint(1);
        if b.Err? { return Err(b.error); }
        assert b.value < 256 by { ByteRead(inp, before); }
        bytes := bytes + [b.value];
        assert Chars(bytes) == chars + [VUint(b.value)];
        PrefixStep(chars, VUint(b.value), DecSlots(map[], inp, View(), fs[i + 1..]));
      }
      assert fs[length.value..] == [] && Chars(bytes) + [] == Chars(bytes);
      var finished := Finish();
      if finished.Err? { return Err(finished.error); }
      return Ok(bytes);
    }
  }

  /** The values `vs` followed by those of `r`. */
  function Prefixed(vs: seq<Value>, r: Result<(Dec, seq<Value>)>): Result<(Dec, seq<Value>)> {
    if r.Ok? then Ok((r.value.0, vs + r.value.1)) else r
  }

  lemma PrefixStep(vs: seq<Value>, v: Value, r: Result<(Dec, seq<Value>)>)
    ensures Prefixed(vs, Prefixed([v], r)) == Prefixed(vs + [v], r)
  {
    if r.Ok? {
      assert vs + ([v] + r.value.1) == vs + [v] + r.value.1;
    }
  }

  lemma ByteRead(inp: Input, d: Dec)
    requires GoArchive.ReadUint(inp, d, 1).Ok?
    ensures GoArchive.ReadUint(inp, d, 1).value.1 < 256
  {
    hide Frame.Fits, Frame.SlotStart;
    var at := Top(d.stack).SlotStart(1);
    LEBound(inp.buf[at..at + 1]);
    Pow256Values();
  }
}
