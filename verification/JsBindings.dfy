/** The objects of the JavaScript bindings that are updated in place, proved against `JsCodec`. */
module JsBindings {
  import opened Bytes
  import opened Collections
  import opened Wire
  import JsCodec
  import JsMessage

  type Error = JsCodec.Error

  // ---------------------------------------------------------------- buffer.js

  /** `Buffer` */
  class Buffer {
    var arrayBuffer: array<Byte>
    var next: nat

    /** The buffer as a value, with the handles of whoever writes into it. */
    ghost function View(handles: seq<nat>): JsCodec.Js
      reads this, arrayBuffer
    {
      JsCodec.Js(arrayBuffer[..], next, handles)
    }

    constructor (size: nat)
      ensures View([]) == JsCodec.Js(seq(size, _ => 0), 0, []) && fresh(arrayBuffer)
    {
      arrayBuffer := new Byte[size](_ => 0);
      next := 0;
    }

    /** Allocates `size` bytes; `error` if the larger array cannot be had. */
    method Alloc(size: nat, ghost handles: seq<nat>) returns (pointer: nat, error: bool)
      modifies this
      ensures pointer == old(next)
      ensures var r := JsCodec.Alloc(old(View(handles)), size);
        (error <==> r.Err?) && (!error ==> View(handles) == r.value)
      ensures arrayBuffer == old(arrayBuffer) || fresh(arrayBuffer)
    {
      pointer, error := next, false;
      next := next + size;
      if next > arrayBuffer.Length {
        var newSize := JsCodec.ToInt32(3 * (arrayBuffer.Length + size) / 2);
        if newSize < arrayBuffer.Length {
          error := true;
        } else {
          Grow(newSize);
        }
      }
    }

    /** The old bytes, then zeros. */
    method Grow(size: nat)
      requires arrayBuffer.Length <= size
      modifies this`arrayBuffer
      ensures fresh(arrayBuffer)
      ensures arrayBuffer[..] == old(arrayBuffer[..]) + seq(size - old(arrayBuffer.Length), _ => 0)
    {
      var was := arrayBuffer;
      var larger := new Byte[size](_ => 0);
      for i := 0 to was.Length
        invariant larger[..i] == was[..i]
        invariant forall k | i <= k < size :: larger[k] == 0
      {
        larger[i] := was[i];
      }
      assert larger[..] == was[..] + seq(size - was.Length, _ => 0);
      arrayBuffer := larger;
    }

    /** Cuts off what is not allocated. */
    method Trim()
      requires next <= arrayBuffer.Length
      modifies this`arrayBuffer
      ensures arrayBuffer[..] == old(arrayBuffer[..next]) && fresh(arrayBuffer)
    {
      var was := arrayBuffer;
      var shorter := new Byte[next](_ => 0);
      for i := 0 to next
        invariant shorter[..i] == was[..i]
      {
        shorter[i] := was[i];
      }
      arrayBuffer := shorter;
    }

    /** `getUint8`, `getUint16`, `getUint32` */
    method GetUint(at: nat, width: nat) returns (r: JsCodec.Result<nat>)
      ensures r == JsCodec.Get(arrayBuffer[..], at, width)
    {
      if at + width > arrayBuffer.Length {
        return JsCodec.Err(JsCodec.RangeError);
      }
      var n: nat, i := 0, width;
      while i > 0
        invariant 0 <= i <= width
        invariant n == LE(arrayBuffer[at + i..at + width])
      {
        i := i - 1;
        assert arrayBuffer[at + i..at + width][1..] == arrayBuffer[at + i + 1..at + width];
        n := arrayBuffer[at + i] + 256 * n;
      }
      assert arrayBuffer[..][at..at + width] == arrayBuffer[at..at + width];
      return JsCodec.Ok(n);
    }

    /** `setUint8`, `setUint16`, `setUint32` */
    method SetUint(at: nat, width: nat, value: nat, ghost handles: seq<nat>) returns (error: bool)
      modifies arrayBuffer
      ensures var r := JsCodec.Set(old(View(handles)), at, width, value);
        (error <==> r.Err?) && (!error ==> View(handles) == r.value)
      ensures error ==> arrayBuffer[..] == old(arrayBuffer[..])
    {
      if at + width > arrayBuffer.Length {
        return true;
      }
      var rest, i := value, 0;
      ghost var was := arrayBuffer[..];
      while i < width
        invariant 0 <= i <= width
        invariant ToLE(value, width) == arrayBuffer[at..at + i] + ToLE(rest, width - i)
        invariant arrayBuffer[..at] == was[..at] && arrayBuffer[at + width..] == was[at + width..]
      {
        ghost var done := arrayBuffer[at..at + i];
        arrayBuffer[at + i] := rest % 256;
        assert arrayBuffer[at..at + i + 1] == done + [rest % 256];
        rest, i := rest / 256, i + 1;
      }
      assert arrayBuffer[..] == was[..at] + ToLE(value, width) + was[at + width..];
      return false;
    }

    /** Two words, as the source reads them. */
    method GetUint64(at: nat) returns (r: JsCodec.Result<nat>)
      ensures r == JsCodec.Get64(arrayBuffer[..], at)
    {
      var lo := GetUint(at, 4);
      if lo.Err? { return lo; }
      var hi := GetUint(at + 4, 4);
      if hi.Err? { return hi; }
      return JsCodec.Ok(lo.value + hi.value * TWO_32);
    }

    method SetUint64(at: nat, value: nat, ghost handles: seq<nat>) returns (error: bool)
      modifies arrayBuffer
      ensures var r := JsCodec.Set64(old(View(handles)), at, value);
        (error <==> r.Err?) && (!error ==> View(handles) == r.value)
    {
      error := SetUint(at, 4, value % TWO_32, handles);
      if !error {
        error := SetUint(at + 4, 4, value / TWO_32 % TWO_32, handles);
      }
    }
  }

  // ---------------------------------------------------------------- validator.js

  /** An error, or None for `validationError.NONE`. */
  type Outcome = Option<Error>

  /** `Validator`; the ghost fields record what has been claimed. */
  class Validator {
    const message: JsCodec.Input
    var offset: nat
    var handleIndex: nat
    ghost var claims: seq<(nat, nat)>
    ghost var taken: seq<nat>

    ghost function View(): JsCodec.Val
      reads this
    {
      JsCodec.Val(offset, handleIndex, claims, taken)
    }

    ghost predicate Valid()
      reads this
    {
      offset <= |message.buf|
    }

    /** The method returned `err` where the function says `r`. */
    ghost predicate Returned(err: Outcome, r: JsCodec.Result<JsCodec.Val>)
      reads this
    {
      if r.Ok? then err == None && View() == r.value else err == Some(r.error)
    }

    constructor (message: JsCodec.Input)
      ensures this.message == message && Valid() && View() == JsCodec.NewVal
    {
      this.message := message;
      offset, handleIndex, claims, taken := 0, 0, [], [];
    }

    method ClaimRange(start: nat, numBytes: nat) returns (ok: bool)
      requires Valid()
      modifies this
      ensures Valid()
      ensures var r := JsCodec.ClaimRange(message, old(View()), start, numBytes);
        (ok <==> r.Ok?) && View() == if ok then r.value else old(View())
    {
      ok := JsCodec.IsValidRange(message, JsCodec.Val(offset, 0, [], []), start, numBytes);
      if ok {
        offset := start + numBytes;
        claims := claims + [(start, numBytes)];
      }
    }

    method ValidateHandle(at: nat, nullable: bool) returns (err: Outcome)
      requires Valid()
      modifies this
      ensures Valid() && Returned(err, JsCodec.ValidateHandle(message, old(View()), at, nullable))
      ensures offset == old(offset)
    {
      if at + 4 > |message.buf| { return Some(JsCodec.RangeError); }
      var index := UintAt(message.buf, at, 4);
      if index == INVALID_HANDLE {
        return if nullable then None else Some(JsCodec.UnexpectedInvalidHandle);
      }
      if index < handleIndex || index >= message.handleCount {
        return Some(JsCodec.IllegalHandle);
      }
      handleIndex, taken := index + 1, taken + [index];
      return None;
    }

    method ValidateStructHeader(at: nat, minNumBytes: nat, minVersion: nat) returns (err: Outcome)
      requires Valid()
      modifies this
      ensures Valid() && Returned(err, JsCodec.ValidateStructHeader(message, old(View()), at, minNumBytes, minVersion))
      ensures err == None ==> old(offset) < offset
    {
      hide UintAt;
      if at % 8 != 0 { return Some(JsCodec.MisalignedObject); }
      if !JsCodec.IsValidRange(message, JsCodec.Val(offset, 0, [], []), at, HEADER_SIZE) {
        return Some(JsCodec.IllegalMemoryRange);
      }
      var numBytes, version := UintAt(message.buf, at, 4), UintAt(message.buf, at + 4, 4);
      if numBytes < minNumBytes || version < minVersion { return Some(JsCodec.UnexpectedStructHeader); }
      var ok := ClaimRange(at, numBytes);
      return if ok then None else Some(JsCodec.IllegalMemoryRange);
    }

    method ValidateMessageHeader() returns (err: Outcome)
      requires Valid() && View() == JsCodec.NewVal
      modifies this
      ensures Valid() && Returned(err, JsMessage.ValidateMessageHeader(message))
    {
      hide UintAt, Bit;
      err := ValidateStructHeader(0, 16, 0);
      if err.Some? { return; }
      var numBytes, version, flags := UintAt(message.buf, 0, 4), UintAt(message.buf, 4, 4), UintAt(message.buf, 12, 4);
      var valid := (version == 0 && numBytes == 16) || (version == 1 && numBytes == 24) ||
        (version > 1 && numBytes >= 24);
      if !valid { return Some(JsCodec.UnexpectedStructHeader); }
      var expectsResponse, isResponse := Bit(flags, 0), Bit(flags, 1);
      if version == 0 && (expectsResponse || isResponse) { return Some(JsCodec.MessageHeaderMissingRequestId); }
      if isResponse && expectsResponse { return Some(JsCodec.MessageHeaderInvalidFlags); }
    }

    /** One slot: nothing for numbers, a claim for handles, and the block behind a pointer. */
    method ValidateSlot(env: Env, at: nat, t: Type, dims: seq<nat>, cur: nat) returns (err: Outcome)
      requires Valid()
      modifies this
      ensures Valid() && Returned(err, JsCodec.ValidateSlot(env, message, old(View()), at, t, dims, cur))
      ensures err == None ==> old(offset) <= offset
      decreases |message.buf| - offset, 1, 0
    {
      hide UintAt, JsCodec.ValidateBlock, JsCodec.ValidateHandle;
      match t
      case TBool => return None;
      case TUint(_) => return None;
      case THandle(nullable) => err := ValidateHandle(at, nullable);
      case TInterface(nullable) => err := ValidateHandle(at, nullable);
      case TPtr(nullable, b) =>
        var target := JsCodec.ValidatePointer(message, at);
        if target.Err? { return Some(target.error); }
        if target.value.None? {
          return if nullable then None else Some(JsCodec.UnexpectedNullPointer);
        }
        err := ValidateBlock(env, target.value.value, b, dims, cur);
    }

    /** The fields of a struct, one after the other. */
    method ValidateFields(env: Env, base: nat, fs: seq<Field>) returns (err: Outcome)
      requires Valid()
      modifies this
      ensures Valid() && Returned(err, JsCodec.ValidateSlots(env, message, old(View()), base, fs, None))
      ensures err == None ==> old(offset) <= offset
      decreases |message.buf| - offset, 2, 0
    {
      hide JsCodec.ValidateSlot, JsCodec.Dimensions;
      for i := 0 to |fs|
        invariant Valid() && old(offset) <= offset
        invariant JsCodec.ValidateSlots(env, message, old(View()), base, fs, None) ==
          JsCodec.ValidateSlots(env, message, View(), base, fs[i..], None)
      {
        assert fs[i..][0] == fs[i] && fs[i..][1..] == fs[i + 1..];
        err := ValidateSlot(env, base + fs[i].offset, fs[i].kind, JsCodec.Dimensions(fs[i].kind), 0);
        if err.Some? { return; }
      }
      err := None;
    }

    /** `validateHandleElements`, `validateArrayElements` and the other loops over the elements of an array. */
    method ValidateElements(env: Env, base: nat, elem: Type, n: nat,
                            inner: Option<(seq<nat>, nat)>) returns (err: Outcome)
      requires Valid()
      modifies this
      ensures Valid()
      ensures Returned(err, JsCodec.ValidateSlots(env, message, old(View()), base, ElemFields(elem, 0, n), inner))
      ensures err == None ==> old(offset) <= offset
      decreases |message.buf| - offset, 2, 0
    {
      hide JsCodec.ValidateSlot, JsCodec.Dimensions, SlotBytes;
      var (dims, cur) := if inner.Some? then inner.value else (JsCodec.Dimensions(elem), 0);
      for i := 0 to n
        invariant Valid() && old(offset) <= offset
        invariant JsCodec.ValidateSlots(env, message, old(View()), base, ElemFields(elem, 0, n), inner) ==
          JsCodec.ValidateSlots(env, message, View(), base, ElemFields(elem, i, n), inner)
      {
        assert ElemFields(elem, i, n)[0] == ElemField(elem, i) &&
          ElemFields(elem, i, n)[1..] == ElemFields(elem, i + 1, n);
        var elementOffset := base + (if elem.TBool? then i / 8 else i * SlotBytes(elem));
        err := ValidateSlot(env, elementOffset, elem, dims, cur);
        if err.Some? { return; }
      }
      err := None;
    }

    /** `validateArray` */
    method ValidateArray(env: Env, at: nat, elem: Type, fixed: nat, dims: seq<nat>, cur: nat) returns (err: Outcome)
      requires Valid()
      modifies this
      ensures Valid()
      ensures Returned(err, JsCodec.ValidateBlock(env, message, old(View()), at, BArray(elem, fixed), dims, cur))
      ensures err == None ==> old(offset) <= offset
      decreases |message.buf| - offset, 0, 0
    {
      hide UintAt, JsCodec.ValidateSlots, SlotBytes, JsCodec.IsArray, ElemFields;
      if at % 8 != 0 { return Some(JsCodec.MisalignedObject); }
      if !JsCodec.IsValidRange(message, JsCodec.Val(offset, 0, [], []), at, HEADER_SIZE) {
        return Some(JsCodec.IllegalMemoryRange);
      }
      var numBytes, n := UintAt(message.buf, at, 4), UintAt(message.buf, at + 4, 4);
      var elementsTotalSize := if elem.TBool? then (n + 7) / 8 else SlotBytes(elem) * n;
      if numBytes < HEADER_SIZE + elementsTotalSize { return Some(JsCodec.UnexpectedArrayHeader); }
      if cur >= |dims| || (dims[cur] != 0 && n != dims[cur]) { return Some(JsCodec.UnexpectedArrayHeader); }
      var ok := ClaimRange(at, numBytes);
      if !ok { return Some(JsCodec.IllegalMemoryRange); }
      if elem.TPtr? && elem.target.BMap? { return None; }
      var inner := if JsCodec.IsArray(elem) then Some((dims, cur + 1)) else None;
      err := ValidateElements(env, at + HEADER_SIZE, elem, n, inner);
    }

    /** The part of `validateMapPointer` behind the pointer. */
    method ValidateMap(env: Env, at: nat, key: Type, value: Type) returns (err: Outcome)
      requires Valid()
      modifies this
      ensures Valid()
      ensures forall dims, cur ::
        Returned(err, JsCodec.ValidateBlock(env, message, old(View()), at, BMap(key, value), dims, cur))
      ensures err == None ==> old(offset) <= offset
      decreases |message.buf| - offset, 0, 0
    {
      hide UintAt, JsCodec.ValidateSlot, JsCodec.ArrayLength, JsCodec.ValidateStructHeader, JsCodec.CodecDimensions,
        JsCodec.IsNullable;
      err := ValidateStructHeader(at, HEADER_SIZE + 16, 0);
      if err.Some? { return; }
      err := ValidateSlot(env, at + HEADER_SIZE, TPtr(false, BArray(key, 0)), [0], 0);
      if err.Some? { return; }
      var valueDims := [0] + JsCodec.CodecDimensions(value);
      err := ValidateSlot(env, at + HEADER_SIZE + 8, TPtr(JsCodec.IsNullable(value), BArray(value, 0)), valueDims, 0);
      if err.Some? { return; }
      var keys := JsCodec.ArrayLength(message, at + HEADER_SIZE);
      if keys.Err? { return Some(keys.error); }
      var values := JsCodec.ArrayLength(message, at + HEADER_SIZE + 8);
      if values.Err? { return Some(values.error); }
      if keys.value != values.value { return Some(JsCodec.DifferentSizedArraysInMap); }
    }

    /** `validateArray`, the generated struct validators, and maps. */
    method ValidateBlock(env: Env, at: nat, b: Block, dims: seq<nat>, cur: nat) returns (err: Outcome)
      requires Valid()
      modifies this
      ensures Valid() && Returned(err, JsCodec.ValidateBlock(env, message, old(View()), at, b, dims, cur))
      ensures err == None ==> old(offset) <= offset
      decreases |message.buf| - offset, 0, 1
    {
      hide UintAt, JsCodec.ValidateSlots, JsCodec.ValidateSlot, JsCodec.ValidateStructHeader;
      match b
      case BStruct(id) =>
        if id !in env { return Some(JsCodec.BadValue); }
        err := ValidateStructHeader(at, HEADER_SIZE + env[id].size, env[id].version);
        if err.Some? { return; }
        err := ValidateFields(env, at + HEADER_SIZE, env[id].fields);
      case BArray(elem, fixed) => err := ValidateArray(env, at, elem, fixed, dims, cur);
      case BMap(key, value) => err := ValidateMap(env, at, key, value);
    }
  }

  /** `handleIncomingMessage_` up to the verdict: a fresh validator, the header, then the payload. */
  method ValidateMessage(env: Env, message: JsCodec.Input, id: nat) returns (err: Outcome)
    ensures err.None? <==> JsMessage.ValidateMessage(env, message, id).Ok?
    ensures err.Some? ==> JsMessage.ValidateMessage(env, message, id).error == err.value
  {
    hide UintAt, JsCodec.ValidateBlock, JsMessage.ValidateMessageHeader;
    var validator := new Validator(message);
    err := validator.ValidateMessageHeader();
    if err.Some? { return; }
    err := validator.ValidateBlock(env, UintAt(message.buf, 0, 4), BStruct(id), [], 0);
  }
}
