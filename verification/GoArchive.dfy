/**
The Go codec on values: what every call on an `Encoder` or `Decoder` does to its state, and the code that the
bindings generator emits for a schema (struct, array and map bodies), as an interpreter of `Wire` schemas.
*/
module GoArchive {
  import opened Bytes
  import opened Collections
  import opened Wire

  datatype Error =
    | EmptyStack | TooManyElements | LimitExceeded | ElementCount | NonEmptyStack | BadValue
    | InvalidHandle | IllegalHandle | IllegalMemoryRange | IllegalPointer | MisalignedObject
    | UnexpectedArrayHeader | UnexpectedStructHeader | UnexpectedNullPointer | UnexpectedInvalidHandle
    | DifferentSizedArraysInMap | InvalidFlags | MissingRequestId
    | OutOfRange  // a slice index out of range: a run-time panic

  datatype Result<+T> = Ok(value: T) | Err(error: Error) {
    predicate IsFailure() { Err? }

    function PropagateFailure<U>(): Result<U>
      requires Err?
    {
      Err(error)
    }

    function Extract(): T
      requires Ok?
    {
      value
    }
  }

  // ---------------------------------------------------------------- util.go

  /** Bitwise or. */
  function BitOr(a: nat, b: nat): nat
    decreases a + b
  {
    if a == 0 then b
    else 2 * BitOr(a / 2, b / 2) + (if a % 2 == 1 || b % 2 == 1 then 1 else 0)
  }

  /** `align`: ((size - 1) | (alignment - 1)) + 1, where -1 | x is -1. */
  function GoAlign(size: nat, alignment: nat): nat
    requires alignment >= 1
  {
    if size == 0 then 0 else BitOr(size - 1, alignment - 1) + 1
  }

  // ---------------------------------------------------------------- encodingState

  datatype Frame = Frame(offset: nat, bitOffset: nat, limit: nat, elements: nat, processed: nat, check: bool) {
    function AlignToBytes(): Frame {
      if bitOffset > 0 then this.(offset := offset + 1, bitOffset := 0) else this
    }

    function SkipBits(count: nat): Frame {
      this.(offset := offset + (bitOffset + count) / 8, bitOffset := (bitOffset + count) % 8)
    }

    function SkipBytes(count: nat): Frame {
      this.(offset := offset + count, bitOffset := 0)
    }

    /** The capacity test of `ensureElementBitSizeAndCapacity`. */
    predicate Fits(bitSize: nat)
      requires bitSize > 0
    {
      var byteSize := BytesForBits(bitOffset + bitSize);
      GoAlign(offset + byteSize, byteSize) <= limit
    }

    predicate Full() {
      check && processed >= elements
    }

    /** Where the next slot of `width` bytes goes. */
    function SlotStart(width: nat): nat
      requires width >= 1
    {
      GoAlign(AlignToBytes().offset, width)
    }
  }

  function Top(stack: seq<Frame>): Frame
    requires stack != []
  {
    stack[|stack| - 1]
  }

  function SetTop(stack: seq<Frame>, f: Frame): seq<Frame>
    requires stack != []
  {
    stack[..|stack| - 1] + [f]
  }

  /** `ensureElementBitSizeAndCapacity` */
  function Ensure(stack: seq<Frame>, bitSize: nat): Result<Frame>
    requires bitSize > 0
  {
    if stack == [] then Err(EmptyStack)
    else if Top(stack).Full() then Err(TooManyElements)
    else if !Top(stack).Fits(bitSize) then Err(LimitExceeded)
    else Ok(Top(stack))
  }

  /** The check of `Finish`. */
  function Pop(stack: seq<Frame>): Result<seq<Frame>> {
    if stack == [] then Err(EmptyStack)
    else if Top(stack).check && Top(stack).processed != Top(stack).elements then Err(ElementCount)
    else Ok(stack[..|stack| - 1])
  }

  // ---------------------------------------------------------------- Encoder

  datatype Enc = Enc(buf: seq<Byte>, end: nat, handles: seq<nat>, stack: seq<Frame>)

  const NewEnc := Enc([], 0, [], [])

  /** `claimData`: the buffer at least doubles when it has to grow, and new bytes are zero. */
  function Claim(e: Enc, size: nat): Enc {
    var end := e.end + size;
    if end < |e.buf| then e.(end := end)
    else
      var newLen := if end < 2 * |e.buf| then 2 * |e.buf| else end;
      e.(end := end, buf := e.buf + Zeros(newLen - |e.buf|))
  }

  /** `pushState` and `writeDataHeader` for a block with `size` payload bytes; sizes are 32-bit words. */
  function Start(e: Enc, size: nat, second: nat, check: bool): Result<Enc> {
    var headerSize := (HEADER_SIZE + size) % TWO_32;
    var c := Claim(e, GoAlign(headerSize, 8));
    var f := Frame(e.end + HEADER_SIZE, 0, c.end, if check then second else 0, 0, check);
    if e.end + HEADER_SIZE > |c.buf| then Err(OutOfRange)
    else Ok(c.(buf := PutUint(PutUint(c.buf, e.end, 4, headerSize), e.end + 4, 4, second), stack := e.stack + [f]))
  }

  /** `Finish` */
  function EncFinish(e: Enc): Result<Enc> {
    var stack :- Pop(e.stack);
    Ok(e.(stack := stack))
  }

  /** `WriteBool`: a set bit is or-ed into the byte, a clear bit is left alone. */
  function WriteBool(e: Enc, b: bool): Result<Enc> {
    var f :- Ensure(e.stack, 1);
    if f.offset >= |e.buf| || f.bitOffset >= 8 then Err(OutOfRange)
    else
      var next := f.SkipBits(1);
      var buf := if b then e.buf[f.offset := SetBit(e.buf[f.offset], f.bitOffset)] else e.buf;
      Ok(e.(buf := buf, stack := SetTop(e.stack, next.(processed := f.processed + 1))))
  }

  /** `WriteUint8`, `WriteUint16`, `WriteUint32` and `WriteUint64`, for widths 1, 2, 4 and 8. */
  function WriteUint(e: Enc, width: nat, n: nat): Result<Enc>
    requires width >= 1
  {
    var f :- Ensure(e.stack, 8 * width);
    var at := f.SlotStart(width);
    if at + width > |e.buf| then Err(OutOfRange)
    else
      var next := f.(offset := at).SkipBytes(width);
      Ok(e.(buf := PutUint(e.buf, at, width, n), stack := SetTop(e.stack, next.(processed := f.processed + 1))))
  }

  /** The cursor moves of `WritePointer` before it writes. */
  function AlignTop(e: Enc): Enc
    requires e.stack != []
  {
    var f := Top(e.stack).AlignToBytes();
    e.(stack := SetTop(e.stack, f.(offset := GoAlign(f.offset, 8))))
  }

  /** `WritePointer`: the distance from the aligned slot to the first unclaimed byte. */
  function WritePointer(e: Enc): Result<Enc> {
    if e.stack == [] then Err(OutOfRange)
    else
      var a := AlignTop(e);
      var at := Top(a.stack).offset;
      WriteUint(a, 8, if at <= a.end then a.end - at else (TWO_64 + a.end - at) % TWO_64)
  }

  /** `WriteHandle` for a valid handle. */
  function WriteHandle(e: Enc, h: nat): Result<Enc> {
    WriteUint(e.(handles := e.handles + [h]), 4, |e.handles| % TWO_32)
  }

  /** `elementsProcessed--` */
  function Unprocess(e: Enc): Enc
    requires e.stack != []
  {
    var f := Top(e.stack);
    e.(stack := SetTop(e.stack, f.(processed := if f.processed > 0 then f.processed - 1 else TWO_32 - 1)))
  }

  /** `WriteInterface`: a handle and the version word 0, counted as one element. */
  function WriteInterface(e: Enc, h: nat): Result<Enc> {
    var e1 :- WriteHandle(e, h);
    if e1.stack == [] then Err(EmptyStack) else WriteUint(Unprocess(e1), 4, 0)
  }

  /** The generated code drops the error of `WriteNullPointer` and `WriteInvalidHandle`. */
  function Dropped(r: Result<Enc>, e: Enc): Enc {
    if r.Ok? then r.value else e
  }

  /** `WriteInvalidInterface`, with its error dropped. */
  function WriteInvalidInterface(e: Enc): Enc {
    var r := WriteUint(e, 4, INVALID_HANDLE);
    if r.Err? || r.value.stack == [] then e
    else Dropped(WriteUint(Unprocess(r.value), 4, 0), Unprocess(r.value))
  }

  // ---------------------------------------------------------------- generated encoders

  function EncSlot(env: Env, e: Enc, t: Type, v: Value): Result<Enc>
    decreases v, 1
  {
    match v
    case VBool(b) => WriteBool(e, b)
    case VUint(n) => if t.TUint? && t.width >= 1 then WriteUint(e, t.width, n) else Err(BadValue)
    case VHandle(Some(h)) => if t.TInterface? then WriteInterface(e, h) else WriteHandle(e, h)
    case VHandle(None) =>
      Ok(if t.TInterface? then WriteInvalidInterface(e) else Dropped(WriteUint(e, 4, INVALID_HANDLE), e))
    case VNull => Ok(Dropped(WriteUint(e, 8, 0), e))
    case VBlock(items) =>
      var e1 :- WritePointer(e);
      if t.TPtr? then EncBlock(env, e1, t.target, items) else Err(BadValue)
  }

  function EncSlots(env: Env, e: Enc, fs: seq<Field>, vs: seq<Value>): Result<Enc>
    decreases vs, 1
  {
    if fs == [] || vs == [] then Ok(e)
    else
      var e1 :- EncSlot(env, e, fs[0].kind, vs[0]);
      EncSlots(env, e1, fs[1..], vs[1..])
  }

  /** `StartStruct`, `StartArray` or `StartMap`, the slots in packed order, `Finish`. */
  function EncBlock(env: Env, e: Enc, b: Block, items: seq<Value>): Result<Enc>
    decreases items, 2
  {
    var n := |items|;
    var e1 :- Start(e, PayloadSize(env, b, n), SecondWord(env, b, n), b.BArray?);
    var e2 :- EncSlots(env, e1, Fields(env, b, n), items);
    EncFinish(e2)
  }

  // ---------------------------------------------------------------- Decoder

  /** What a decoder reads from. */
  datatype Input = Input(buf: seq<Byte>, handles: seq<nat>)

  datatype Dec = Dec(end: nat, nextHandle: nat, stack: seq<Frame>)

  const NewDec := Dec(0, 0, [])

  /** `claimData` */
  function DecClaim(inp: Input, d: Dec, size: nat): Result<Dec> {
    if d.end + size > |inp.buf| then Err(IllegalMemoryRange) else Ok(d.(end := d.end + size))
  }

  datatype Header = Header(size: nat, second: nat)

  /** `readDataHeader` */
  function ReadHeader(inp: Input, d: Dec): Result<(Dec, Header)> {
    var d1 :- DecClaim(inp, d, HEADER_SIZE);
    Ok((d1, Header(UintAt(inp.buf, d.end, 4), UintAt(inp.buf, d.end + 4, 4))))
  }

  /** `pushState`, behind the header. */
  function DecPush(inp: Input, d: Dec, header: Header, check: bool): Result<Dec>
    requires header.size >= HEADER_SIZE
  {
    var d1 :- DecClaim(inp, d, header.size - HEADER_SIZE);
    Ok(d1.(stack := d.stack + [Frame(d.end, 0, d1.end, if check then header.second else 0, 0, check)]))
  }

  /** `StartArray`: the new state and the number of elements. */
  function DecStartArray(inp: Input, d: Dec, elementBitSize: nat): Result<(Dec, nat)> {
    var (d1, header) :- ReadHeader(inp, d);
    if header.size < HEADER_SIZE + BytesForBits(header.second * elementBitSize) then Err(UnexpectedArrayHeader)
    else
      var d2 :- DecPush(inp, d1, header, true);
      Ok((d2, header.second))
  }

  /** `StartMap` */
  function DecStartMap(inp: Input, d: Dec): Result<Dec> {
    var (d1, header) :- ReadHeader(inp, d);
    if header != Header(24, 0) then Err(UnexpectedStructHeader) else DecPush(inp, d1, header, false)
  }

  /** `StartStruct` */
  function DecStartStruct(inp: Input, d: Dec): Result<(Dec, Header)> {
    var (d1, header) :- ReadHeader(inp, d);
    if header.size < HEADER_SIZE then Err(UnexpectedStructHeader)
    else
      var d2 :- DecPush(inp, d1, header, false);
      Ok((d2, header))
  }

  /** `Finish` */
  function DecFinish(d: Dec): Result<Dec> {
    var stack :- Pop(d.stack);
    Ok(d.(stack := stack))
  }

  /** `ReadBool` */
  function ReadBool(inp: Input, d: Dec): Result<(Dec, bool)> {
    var f :- Ensure(d.stack, 1);
    if f.offset >= |inp.buf| then Err(OutOfRange)
    else Ok((d.(stack := SetTop(d.stack, f.SkipBits(1).(processed := f.processed + 1))),
      Bit(inp.buf[f.offset], f.bitOffset)))
  }

  /** `ReadUint8`, `ReadUint16`, `ReadUint32` and `ReadUint64` */
  function ReadUint(inp: Input, d: Dec, width: nat): Result<(Dec, nat)>
    requires width >= 1
  {
    var f :- Ensure(d.stack, 8 * width);
    var at := f.SlotStart(width);
    if at + width > |inp.buf| then Err(OutOfRange)
    else
      var next := f.(offset := at).SkipBytes(width);
      Ok((d.(stack := SetTop(d.stack, next.(processed := f.processed + 1))), UintAt(inp.buf, at, width)))
  }

  /** `ReadPointer`: a non-null pointer has to lead forwards, behind everything claimed so far. */
  function ReadPointer(inp: Input, d: Dec): Result<(Dec, nat)> {
    var (d1, pointer) :- ReadUint(inp, d, 8);
    if pointer == 0 then Ok((d1, 0))
    else if d1.stack == [] || Top(d1.stack).offset < 8 then Err(OutOfRange)
    else
      var newEnd := Top(d1.stack).offset - 8 + pointer;
      if pointer >= |inp.buf| || newEnd >= |inp.buf| then Err(IllegalPointer)
      else if newEnd < d.end then Err(IllegalMemoryRange)
      else if newEnd % 8 != 0 then Err(MisalignedObject)
      else Ok((d1.(end := newEnd), pointer))
  }

  /** `claimHandle` */
  function ClaimHandle(inp: Input, d: Dec, index: nat): Result<(Dec, nat)> {
    if index >= |inp.handles| || index < d.nextHandle then Err(IllegalHandle)
    else Ok((d.(nextHandle := index + 1), inp.handles[index]))
  }

  /** `ReadUntypedHandle` */
  function ReadHandle(inp: Input, d: Dec): Result<(Dec, Option<nat>)> {
    var (d1, index) :- ReadUint(inp, d, 4);
    if index == INVALID_HANDLE then Ok((d1, None))
    else
      var (d2, h) :- ClaimHandle(inp, d1, index);
      Ok((d2, Some(h)))
  }

  function DecUnprocess(d: Dec): Dec
    requires d.stack != []
  {
    var f := Top(d.stack);
    d.(stack := SetTop(d.stack, f.(processed := if f.processed > 0 then f.processed - 1 else TWO_32 - 1)))
  }

  /** `ReadInterface`: the version word is read and ignored. */
  function ReadInterface(inp: Input, d: Dec): Result<(Dec, Option<nat>)> {
    var (d1, h) :- ReadHandle(inp, d);
    if d1.stack == [] then Err(EmptyStack)
    else
      var (d2, _) :- ReadUint(inp, DecUnprocess(d1), 4);
      Ok((d2, h))
  }

  // ---------------------------------------------------------------- generated decoders

  function HandleValue(nullable: bool, r: Result<(Dec, Option<nat>)>): Result<(Dec, Value)> {
    var (d1, h) :- r;
    if h.None? && !nullable then Err(UnexpectedInvalidHandle) else Ok((d1, VHandle(h)))
  }

  function DecSlot(env: Env, inp: Input, d: Dec, t: Type): (r: Result<(Dec, Value)>)
    requires d.end <= |inp.buf|
    ensures r.Ok? ==> d.end <= r.value.0.end <= |inp.buf|
    decreases |inp.buf| - d.end, 1, 0
  {
    match t
    case TBool =>
      var (d1, b) :- ReadBool(inp, d);
      Ok((d1, VBool(b)))
    case TUint(w) =>
      if w < 1 then Err(BadValue)
      else
        var (d1, n) :- ReadUint(inp, d, w);
        Ok((d1, VUint(n)))
    case THandle(nullable) => HandleValue(nullable, ReadHandle(inp, d))
    case TInterface(nullable) => HandleValue(nullable, ReadInterface(inp, d))
    case TPtr(nullable, b) =>
      var (d1, pointer) :- ReadPointer(inp, d);
      if pointer == 0 then (if nullable then Ok((d1, VNull)) else Err(UnexpectedNullPointer))
      else
        var (d2, items) :- DecBlock(env, inp, d1, b);
        Ok((d2, VBlock(items)))
  }

  function DecSlots(env: Env, inp: Input, d: Dec, fs: seq<Field>): (r: Result<(Dec, seq<Value>)>)
    requires d.end <= |inp.buf|
    ensures r.Ok? ==> d.end <= r.value.0.end <= |inp.buf| && |r.value.1| == |fs|
    decreases |inp.buf| - d.end, 2, |fs|
  {
    if fs == [] then Ok((d, []))
    else
      var (d1, v) :- DecSlot(env, inp, d, fs[0].kind);
      var (d2, vs) :- DecSlots(env, inp, d1, fs[1..]);
      Ok((d2, [v] + vs))
  }

  /** The header checks of a generated struct decoder: the reader's own version has the reader's own size. */
  function DecOpen(env: Env, inp: Input, d: Dec, b: Block): (r: Result<(Dec, nat)>)
    ensures r.Ok? ==> d.end + HEADER_SIZE <= r.value.0.end <= |inp.buf|
  {
    match b
    case BStruct(id) =>
      var (d1, header) :- DecStartStruct(inp, d);
      if id !in env || (header.second <= env[id].version &&
        header != Header(HEADER_SIZE + env[id].size, env[id].version)) then
        Err(UnexpectedStructHeader)
      else Ok((d1, 0))
    case BArray(elem, fixed) =>
      var (d1, n) :- DecStartArray(inp, d, ElemBits(elem));
      if fixed != 0 && n != fixed then Err(UnexpectedArrayHeader) else Ok((d1, n))
    case BMap(_, _) =>
      var d1 :- DecStartMap(inp, d);
      Ok((d1, 2))
  }

  function DecBlock(env: Env, inp: Input, d: Dec, b: Block): (r: Result<(Dec, seq<Value>)>)
    requires d.end <= |inp.buf|
    ensures r.Ok? ==> d.end <= r.value.0.end <= |inp.buf|
    decreases |inp.buf| - d.end, 0, 0
  {
    var (d1, n) :- DecOpen(env, inp, d, b);
    var (d2, items) :- DecSlots(env, inp, d1, Fields(env, b, n));
    if b.BMap? && |items| == 2 && items[0].VBlock? && items[1].VBlock? && |items[0].items| != |items[1].items| then
      Err(DifferentSizedArraysInMap)
    else
      var d3 :- DecFinish(d2);
      Ok((d3, items))
  }
}
