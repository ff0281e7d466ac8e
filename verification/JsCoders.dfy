/**
`Encoder` and `Decoder` of the JavaScript bindings with their loops: the encoder writes into a shared buffer that may
be replaced while it grows, the decoder moves a cursor.
*/
module JsCoders {
  import opened Bytes
  import opened Collections
  import opened Wire
  import opened JsBindings
  import JsCodec

  // ---------------------------------------------------------------- packing bools

  /** `packed |= bit` for each bool in turn. */
  function OrAll(acc: nat, fs: seq<Field>, vs: seq<Value>): nat
    decreases |fs|
  {
    if fs == [] || vs == [] then acc
    else OrAll(if vs[0] == VBool(true) then OrBit(acc, fs[0].bit) else acc, fs[1..], vs[1..])
  }

  lemma {:induction false} OrBitCommutes(n: nat, a: nat, b: nat)
    ensures OrBit(OrBit(n, a), b) == OrBit(OrBit(n, b), a)
    decreases a + b
  {
    if a > 0 && b > 0 {
      OrBitCommutes(n / 2, a - 1, b - 1);
      Halves(OrBit(n / 2, a - 1), n % 2);
      Halves(OrBit(n / 2, b - 1), n % 2);
    } else if a > 0 {
      Halves(OrBit(n / 2, a - 1), n % 2);
      Halves(n / 2, 1);
    } else if b > 0 {
      Halves(OrBit(n / 2, b - 1), n % 2);
      Halves(n / 2, 1);
    }
  }

  lemma Halves(n: nat, b: nat)
    requires b < 2
    ensures (n * 2 + b) / 2 == n && (n * 2 + b) % 2 == b
  {
  }

  lemma {:induction false} OrLast(acc: nat, bit: nat, fs: seq<Field>, vs: seq<Value>)
    ensures OrAll(OrBit(acc, bit), fs, vs) == OrBit(OrAll(acc, fs, vs), bit)
    decreases |fs|
  {
    if fs != [] && vs != [] {
      if vs[0] == VBool(true) {
        OrBitCommutes(acc, bit, fs[0].bit);
        OrLast(OrBit(acc, fs[0].bit), bit, fs[1..], vs[1..]);
      } else {
        OrLast(acc, bit, fs[1..], vs[1..]);
      }
    }
  }

  /** The order in which the bits are set does not matter. */
  lemma {:induction false} OrAllPacks(fs: seq<Field>, vs: seq<Value>)
    ensures OrAll(0, fs, vs) == JsCodec.PackBools(fs, vs)
    decreases |fs|
  {
    if fs != [] && vs != [] {
      OrAllPacks(fs[1..], vs[1..]);
      if vs[0] == VBool(true) {
        OrLast(0, fs[0].bit, fs[1..], vs[1..]);
      }
    }
  }

  /** The byte for the bools of one offset. */
  method PackBools(fs: seq<Field>, vs: seq<Value>) returns (packed: nat)
    requires |fs| == |vs|
    ensures packed == JsCodec.PackBools(fs, vs)
  {
    hide OrBit;
    packed := 0;
    OrAllPacks(fs, vs);
    for i := 0 to |fs|
      invariant OrAll(packed, fs[i..], vs[i..]) == JsCodec.PackBools(fs, vs)
    {
      assert fs[i..][0] == fs[i] && fs[i..][1..] == fs[i + 1..] && vs[i..][0] == vs[i] && vs[i..][1..] == vs[i + 1..];
      if vs[i] == VBool(true) {
        packed := OrBit(packed, fs[i].bit);
      }
    }
  }

  // ---------------------------------------------------------------- Encoder

  /** How many bools from slot `i` on share its byte. */
  function Run(fs: seq<Field>, vs: seq<Value>, i: nat): (k: nat)
    requires i < |fs| && i < |vs|
    ensures 1 <= k && i + k <= |fs| && i + k <= |vs|
  {
    var k := JsCodec.BoolRun(fs[i..]);
    if k <= |vs| - i then k else |vs| - i
  }

  lemma AllSlots(fs: seq<Field>, vs: seq<Value>)
    ensures fs[0..] == fs && vs[0..] == vs
  {
  }

  /** One round of the loop over slots. */
  lemma SlotsStep(env: Env, j: JsCodec.Js, base: nat, fs: seq<Field>, vs: seq<Value>, i: nat)
    requires i < |fs| && i < |vs|
    ensures JsCodec.JsEncSlots(env, j, base, fs[i..], vs[i..]) ==
      if fs[i].kind.TBool? then
        var k := Run(fs, vs, i);
        var r := JsCodec.Set(j, base + fs[i].offset, 1, JsCodec.PackBools(fs[i..i + k], vs[i..i + k]));
        if r.Err? then r else JsCodec.JsEncSlots(env, r.value, base, fs[i + k..], vs[i + k..])
      else
        var r := JsCodec.JsEncSlot(env, j, base + fs[i].offset, fs[i].kind, vs[i]);
        if r.Err? then r else JsCodec.JsEncSlots(env, r.value, base, fs[i + 1..], vs[i + 1..])
  {
    hide JsCodec.Set, JsCodec.JsEncSlot, JsCodec.PackBools, JsCodec.BoolRun;
    assert fs[i..][0] == fs[i] && vs[i..][0] == vs[i];
    if fs[i].kind.TBool? {
      var k := Run(fs, vs, i);
      assert fs[i..][..k] == fs[i..i + k] && vs[i..][..k] == vs[i..i + k];
      assert fs[i..][k..] == fs[i + k..] && vs[i..][k..] == vs[i + k..];
    } else {
      assert fs[i..][1..] == fs[i + 1..] && vs[i..][1..] == vs[i + 1..];
    }
  }

  lemma NoSlots(env: Env, j: JsCodec.Js, base: nat, fs: seq<Field>, vs: seq<Value>, i: nat)
    requires i <= |fs| && i <= |vs| && (i == |fs| || i == |vs|)
    ensures JsCodec.JsEncSlots(env, j, base, fs[i..], vs[i..]) == JsCodec.Ok(j)
  {
  }

  class Encoder {
    const buffer: Buffer
    var handles: seq<nat>

    ghost function View(): JsCodec.Js
      reads this, buffer, buffer.arrayBuffer
    {
      buffer.View(handles)
    }

    constructor (buffer: Buffer)
      ensures this.buffer == buffer && handles == []
    {
      this.buffer := buffer;
      handles := [];
    }

    /** The method failed exactly where the function does; otherwise the new state is the function's. */
    ghost predicate Wrote(error: bool, r: JsCodec.Result<JsCodec.Js>)
      reads this, buffer, buffer.arrayBuffer
    {
      (error <==> r.Err?) && (!error ==> View() == r.value)
    }

    /** A slot other than a bool. */
    method EncodeSlot(env: Env, at: nat, t: Type, v: Value) returns (error: bool)
      modifies this, buffer, buffer.arrayBuffer
      ensures Wrote(error, JsCodec.JsEncSlot(env, old(View()), at, t, v))
      ensures buffer.arrayBuffer == old(buffer.arrayBuffer) || fresh(buffer.arrayBuffer)
      decreases v, 1
    {
      hide JsCodec.Set, JsCodec.Set64, JsCodec.Alloc, JsCodec.JsEncBlock, JsCodec.Align8, PayloadSize;
      match v
      case VUint(n) =>
        if t == TUint(8) {
          error := buffer.SetUint64(at, n, handles);
        } else {
          error := buffer.SetUint(at, SlotBytes(t), n, handles);
        }
      case VHandle(Some(h)) =>
        handles := handles + [h];
        error := buffer.SetUint(at, 4, |handles| - 1, handles);
        if !error && t.TInterface? {
          error := buffer.SetUint(at + 4, 4, 0, handles);
        }
      case VNull => error := buffer.SetUint64(at, 0, handles);
      case VBlock(items) =>
        if !t.TPtr? { return true; }
        var size := JsCodec.Align8(HEADER_SIZE + PayloadSize(env, t.target, |items|));
        var pointer;
        pointer, error := buffer.Alloc(size, handles);
        if error { return; }
        if pointer < at { return true; }
        error := buffer.SetUint64(at, pointer - at, handles);
        if error { return; }
        error := EncodeBlock(env, pointer, t.target, items);
      case _ => return true;
    }

    /** The fields of a struct or the elements of an array, byte by byte of bools. */
    method EncodeSlots(env: Env, base: nat, fs: seq<Field>, vs: seq<Value>) returns (error: bool)
      modifies this, buffer, buffer.arrayBuffer
      ensures Wrote(error, JsCodec.JsEncSlots(env, old(View()), base, fs, vs))
      ensures buffer.arrayBuffer == old(buffer.arrayBuffer) || fresh(buffer.arrayBuffer)
      decreases vs, 1
    {
      hide JsCodec.Set, JsCodec.JsEncSlot, JsCodec.JsEncSlots, JsCodec.PackBools;
      var i := 0;
      error := false;
      AllSlots(fs, vs);
      while i < |fs| && i < |vs|
        invariant 0 <= i <= |fs| && i <= |vs| && !error
        invariant buffer.arrayBuffer == old(buffer.arrayBuffer) || fresh(buffer.arrayBuffer)
        invariant JsCodec.JsEncSlots(env, old(View()), base, fs, vs) ==
          JsCodec.JsEncSlots(env, View(), base, fs[i..], vs[i..])
        decreases |fs| - i
      {
        SlotsStep(env, View(), base, fs, vs, i);
        if fs[i].kind.TBool? {
          var k := Run(fs, vs, i);
          var packed := PackBools(fs[i..i + k], vs[i..i + k]);
          error := buffer.SetUint(base + fs[i].offset, 1, packed, handles);
          if error { return; }
          i := i + k;
        } else {
          assert vs[i] in vs;
          error := EncodeSlot(env, base + fs[i].offset, fs[i].kind, vs[i]);
          if error { return; }
          i := i + 1;
        }
      }
      NoSlots(env, View(), base, fs, vs, i);
    }

    /** `encodeArray`, `encodeMap`, `encodeString` or a generated struct encoder. */
    method EncodeBlock(env: Env, at: nat, b: Block, items: seq<Value>) returns (error: bool)
      modifies this, buffer, buffer.arrayBuffer
      ensures Wrote(error, JsCodec.JsEncBlock(env, old(View()), at, b, items))
      ensures buffer.arrayBuffer == old(buffer.arrayBuffer) || fresh(buffer.arrayBuffer)
      decreases items, 2
    {
      hide JsCodec.Set, JsCodec.JsEncSlots, Fields, PayloadSize, SecondWord;
      var n := |items|;
      error := buffer.SetUint(at, 4, HEADER_SIZE + PayloadSize(env, b, n), handles);
      if error { return; }
      error := buffer.SetUint(at + 4, 4, SecondWord(env, b, n), handles);
      if error { return; }
      error := EncodeSlots(env, at + HEADER_SIZE, Fields(env, b, n), items);
    }
  }

  // ---------------------------------------------------------------- Decoder

  /** `Decoder`: a cursor over a buffer; nothing is checked.  Every pointer is followed by a decoder of its own. */
  class Decoder {
    const buf: seq<Byte>
    const handles: seq<nat>
    var next: nat

    constructor (buf: seq<Byte>, handles: seq<nat>, base: nat)
      ensures this.buf == buf && this.handles == handles && next == base
    {
      this.buf, this.handles, next := buf, handles, base;
    }

    /** `readUint8`, `readUint16` and `readUint32`, and `readUint64` for a width of 8. */
    method ReadUint(width: nat) returns (r: JsCodec.Result<nat>)
      modifies this`next
      ensures r == if width == 8 then JsCodec.Get64(buf, old(next)) else JsCodec.Get(buf, old(next), width)
      ensures next == if r.Ok? then old(next) + width else old(next)
    {
      hide UintAt;
      r := if width == 8 then JsCodec.Get64(buf, next) else JsCodec.Get(buf, next, width);
      if r.Ok? { next := next + width; }
    }

    /** `decodeHandle`: a number out of range reads as null. */
    method DecodeHandle() returns (r: JsCodec.Result<Value>)
      modifies this`next
      ensures r == JsCodec.JsDecSlot(map[], buf, handles, old(next), 0, THandle(false))
      ensures r.Ok? ==> next == old(next) + 4
    {
      hide UintAt;
      var index := ReadUint(4);
      if index.Err? { return JsCodec.Err(index.error); }
      return JsCodec.Ok(VHandle(if index.value < |handles| then Some(handles[index.value]) else None));
    }

    /** A slot other than a bool, at the cursor. */
    method DecodeSlot(env: Env, t: Type) returns (r: JsCodec.Result<Value>)
      requires !t.TBool?
      modifies this`next
      ensures r == JsCodec.JsDecSlot(env, buf, handles, old(next), 0, t)
      ensures r.Ok? ==> next == old(next) + SlotBytes(t)
      decreases JsCodec.Left(buf, next), 1, 0
    {
      hide JsCodec.JsDecBlock, UintAt, JsCodec.Get64;
      ghost var at := next;
      match t
      case TUint(w) =>
        var n := ReadUint(w);
        return if n.Err? then JsCodec.Err(n.error) else JsCodec.Ok(VUint(n.value));
      case THandle(_) => r := DecodeHandle();
      case TInterface(_) =>
        r := DecodeHandle();
        if r.Err? { return; }
        var version := ReadUint(4);
        if version.Err? { return JsCodec.Err(version.error); }
      case TPtr(_, b) =>
        var position := next;
        var offset := ReadUint(8);
        if offset.Err? { return JsCodec.Err(offset.error); }
        if offset.value == 0 { return JsCodec.Ok(VNull); }
        PointerInside(buf, at);
        var decoder := new Decoder(buf, handles, position + offset.value);
        var items := decoder.DecodeBlock(env, b);
        return if items.Err? then JsCodec.Err(items.error) else JsCodec.Ok(VBlock(items.value));
    }

    /** The loop over fields or elements: the cursor skips padding, and a byte of bools is read once. */
    method DecodeSlots(env: Env, fs: seq<Field>) returns (r: JsCodec.Result<seq<Value>>)
      modifies this`next
      ensures r == JsCodec.JsDecSlots(env, buf, handles, old(next), fs)
      decreases JsCodec.Left(buf, next), 2, |fs|
    {
      hide JsCodec.JsDecSlot, UintAt, Bit;
      var base, packed := next, 0;
      var val: seq<Value> := [];
      PrependNone(JsCodec.JsDecSlots(env, buf, handles, base, fs));
      assert fs[0..] == fs;
      for i := 0 to |fs|
        invariant base == old(next)
        invariant JsCodec.JsDecSlots(env, buf, handles, base, fs) ==
          Prepended(val, JsCodec.JsDecSlots(env, buf, handles, base, fs[i..]))
        invariant i > 0 && fs[i - 1].kind.TBool? ==> JsCodec.Get(buf, base + fs[i - 1].offset, 1) == JsCodec.Ok(packed)
      {
        assert fs[i..][0] == fs[i] && fs[i..][1..] == fs[i + 1..];
        var v: Value;
        if fs[i].kind.TBool? {
          if i == 0 || !fs[i - 1].kind.TBool? || fs[i - 1].offset != fs[i].offset {
            next := base + fs[i].offset;
            var byte := ReadUint(1);
            BoolSlot(env, buf, handles, base + fs[i].offset, fs[i].bit);
            if byte.Err? { return JsCodec.Err(byte.error); }
            packed := byte.value;
          }
          BoolSlot(env, buf, handles, base + fs[i].offset, fs[i].bit);
          v := VBool(Bit(packed, fs[i].bit));
        } else {
          next := base + fs[i].offset;
          var slot := DecodeSlot(env, fs[i].kind);
          BitIgnored(env, buf, handles, base + fs[i].offset, fs[i].bit, fs[i].kind);
          if slot.Err? { return JsCodec.Err(slot.error); }
          v := slot.value;
        }
        PrependOne(val, v, JsCodec.JsDecSlots(env, buf, handles, base, fs[i + 1..]));
        val := val + [v];
      }
      assert fs[|fs|..] == [] && val + [] == val;
      return JsCodec.Ok(val);
    }

    /** `decodeArray`, `decodeMap` or a generated struct decoder. */
    method DecodeBlock(env: Env, b: Block) returns (r: JsCodec.Result<seq<Value>>)
      modifies this`next
      ensures r == JsCodec.JsDecBlock(env, buf, handles, old(next), b)
      decreases JsCodec.Left(buf, next), 0, 0
    {
      hide JsCodec.JsDecSlots, UintAt, Fields;
      var numberOfBytes := ReadUint(4);
      if numberOfBytes.Err? { return JsCodec.Err(numberOfBytes.error); }
      var second := ReadUint(4);
      if second.Err? { return JsCodec.Err(second.error); }
      r := DecodeSlots(env, Fields(env, b, if b.BArray? then second.value else 2));
      if r.Err? { return; }
      if b.BMap? && JsCodec.LengthOfNull(r.value) { return JsCodec.Err(JsCodec.TypeError); }
    }
  }

  lemma BoolSlot(env: Env, buf: seq<Byte>, handles: seq<nat>, at: nat, bit: nat)
    ensures JsCodec.JsDecSlot(env, buf, handles, at, bit, TBool) ==
      var byte := JsCodec.Get(buf, at, 1);
      if byte.Ok? then JsCodec.Ok(VBool(Bit(byte.value, bit))) else JsCodec.Err(byte.error)
  {
  }

  lemma BitIgnored(env: Env, buf: seq<Byte>, handles: seq<nat>, at: nat, bit: nat, t: Type)
    requires !t.TBool?
    ensures JsCodec.JsDecSlot(env, buf, handles, at, bit, t) == JsCodec.JsDecSlot(env, buf, handles, at, 0, t)
  {
  }

  lemma PointerInside(buf: seq<Byte>, at: nat)
    requires JsCodec.Get64(buf, at).Ok?
    ensures at + 8 <= |buf|
  {
    hide UintAt;
  }

  function Prepended(vs: seq<Value>, r: JsCodec.Result<seq<Value>>): JsCodec.Result<seq<Value>> {
    if r.Ok? then JsCodec.Ok(vs + r.value) else r
  }

  lemma PrependNone(r: JsCodec.Result<seq<Value>>)
    ensures Prepended([], r) == r
  {
    if r.Ok? {
      assert [] + r.value == r.value;
    }
  }

  lemma PrependOne(vs: seq<Value>, v: Value, r: JsCodec.Result<seq<Value>>)
    ensures Prepended(vs, if r.Ok? then JsCodec.Ok([v] + r.value) else r) == Prepended(vs + [v], r)
  {
    if r.Ok? {
      assert vs + ([v] + r.value) == vs + [v] + r.value;
    }
  }
}
