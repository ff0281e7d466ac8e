/**
The cursor arithmetic of the Go codec: what `align` and the capacity guard compute, and that the natural walk of
the cursor lands on the packed offsets.
*/
module GoLayout {
  import opened Wire
  import opened GoArchive

  // ---------------------------------------------------------------- align

  /** `y` is the first multiple of `width` (1, 2, 4 or 8) at or after `x`. */
  predicate IsNext(x: nat, y: nat, width: nat) {
    && x <= y < x + width
    && (width == 1 || (width == 2 && y % 2 == 0) || (width == 4 && y % 4 == 0) || (width == 8 && y % 8 == 0))
  }

  lemma OrMask(y: nat)
    ensures BitOr(y, 0) == y
    ensures BitOr(y, 1) == 2 * (y / 2) + 1
  {
    if y > 0 {
      OrMask(y / 2);
    }
  }

  lemma OrMask3(y: nat)
    ensures BitOr(y, 3) == 4 * (y / 4) + 3
  {
    OrMask(y / 2);
    if y > 0 { assert BitOr(y, 3) == 2 * BitOr(y / 2, 1) + 1; }
  }

  lemma OrStep(y: nat, b: nat)
    ensures y == 0 ==> BitOr(y, b) == b
    ensures y > 0 && b % 2 == 1 ==> BitOr(y, b) == 2 * BitOr(y / 2, b / 2) + 1
  {
  }

  lemma OrMask7(y: nat)
    ensures BitOr(y, 7) == 8 * (y / 8) + 7
  {
    hide BitOr;
    OrMask3(y / 2);
    Mod4(y);
    OrStep(y, 7);
  }

  lemma OrBit1(y: nat)
    ensures BitOr(y, 2) == 4 * (y / 4) + 2 + y % 2
  {
    OrMask(y / 2);
    if y > 0 { assert BitOr(y, 2) == 2 * BitOr(y / 2, 1) + y % 2; }
  }

  lemma Mod4(y: nat)
    ensures 2 * (y / 2 % 2) + y % 2 == y % 4 && y / 2 / 4 == y / 8
  {
    var q, r := y / 4, y % 4;
    assert y == 4 * q + r;
    assert y / 2 == 2 * q + if r < 2 then 0 else 1;
    assert y % 2 == if r == 1 || r == 3 then 1 else 0;
  }

  lemma Mod8(y: nat)
    ensures 2 * (y / 2 % 4) + y % 2 == y % 8 && y / 2 / 8 == y / 16
  {
    var q, r := y / 8, y % 8;
    assert y == 8 * q + r;
    assert y / 2 == 4 * q + if r < 2 then 0 else if r < 4 then 1 else if r < 6 then 2 else 3;
    assert y % 2 == if r == 1 || r == 3 || r == 5 || r == 7 then 1 else 0;
  }

  lemma OrBit2(y: nat)
    ensures BitOr(y, 4) == 8 * (y / 8) + 4 + y % 4
  {
    OrBit1(y / 2);
    assert BitOr(y, 4) == if y == 0 then 4 else 2 * BitOr(y / 2, 2) + y % 2;
    hide BitOr;
    Mod4(y);
  }

  lemma OrBit3(y: nat)
    ensures BitOr(y, 8) == 16 * (y / 16) + 8 + y % 8
  {
    OrBit2(y / 2);
    assert BitOr(y, 8) == if y == 0 then 8 else 2 * BitOr(y / 2, 4) + y % 2;
    hide BitOr;
    Mod8(y);
  }

  /** For the slot widths, `align` rounds up. */
  lemma AlignIsNext(x: nat, width: nat)
    requires width == 1 || width == 2 || width == 4 || width == 8
    ensures IsNext(x, GoAlign(x, width), width)
  {
    hide BitOr, IsNext;
    if x == 0 {
      ZeroIsNext(width);
    } else {
      RoundsUp(x, width);
      match width
      case 1 => OrMask(x - 1);
      case 2 => OrMask(x - 1);
      case 4 => OrMask3(x - 1);
      case 8 => OrMask7(x - 1);
    }
  }

  lemma ZeroIsNext(width: nat)
    requires width == 1 || width == 2 || width == 4 || width == 8
    ensures IsNext(0, 0, width)
  {
  }

  lemma RoundsUp(x: nat, width: nat)
    requires x > 0 && (width == 1 || width == 2 || width == 4 || width == 8)
    ensures IsNext(x, width * ((x - 1) / width) + width, width)
  {
    match width
    case 1 =>
    case 2 =>
    case 4 =>
    case 8 =>
  }

  lemma NextIsUnique(x: nat, y: nat, z: nat, width: nat)
    requires IsNext(x, y, width) && IsNext(x, z, width)
    ensures y == z
  {
    hide IsNext;
    var a := Quotient(x, y, width);
    var b := Quotient(x, z, width);
    if width == 2 {
      assert 2 * a < 2 * b + 2 && 2 * b < 2 * a + 2;
    } else if width == 4 {
      assert 4 * a < 4 * b + 4 && 4 * b < 4 * a + 4;
    } else if width == 8 {
      assert 8 * a < 8 * b + 8 && 8 * b < 8 * a + 8;
    }
  }

  lemma Quotient(x: nat, y: nat, width: nat) returns (a: nat)
    requires IsNext(x, y, width)
    ensures x <= y < x + width && (width == 1 || width == 2 || width == 4 || width == 8)
    ensures y == if width == 1 then a else if width == 2 then 2 * a else if width == 4 then 4 * a else 8 * a
  {
    a := if width == 1 then y else if width == 2 then y / 2 else if width == 4 then y / 4 else y / 8;
  }

  lemma Eighth(limit: nat) returns (q: nat)
    requires limit % 8 == 0
    ensures limit == 8 * q
  {
    q := limit / 8;
  }

  // ---------------------------------------------------------------- the capacity guard

  /** The one kind of slot that the guard turns away although it fits: 8 bytes, the last of its block, reached in the
      middle of a byte of bools, in a block that ends at an odd multiple of 8. */
  predicate Rejected(f: Frame, width: nat, at: nat) {
    width == 8 && f.bitOffset > 0 && f.limit % 16 == 8 && at + 8 == f.limit
  }

  lemma NextPlus(x: nat, y: nat, width: nat)
    requires IsNext(x, y, width)
    ensures IsNext(x + width, y + width, width)
  {
  }

  /** At a byte boundary the guard is exact for every limit. */
  lemma GuardExactAtByte(f: Frame, width: nat)
    requires width == 1 || width == 2 || width == 4 || width == 8
    requires f.bitOffset == 0
    ensures f.Fits(8 * width) <==> f.SlotStart(width) + width <= f.limit
  {
    hide GoAlign, IsNext;
    AlignIsNext(f.offset, width);
    AlignIsNext(f.offset + width, width);
    NextPlus(f.offset, f.SlotStart(width), width);
    NextIsUnique(f.offset + width, f.SlotStart(width) + width, GoAlign(f.offset + width, width), width);
  }

  /** What the guard compares inside a byte of bools, as a number. */
  lemma GuardInByte(f: Frame, width: nat)
    requires width == 1 || width == 2 || width == 4 || width == 8
    requires 0 < f.bitOffset < 8
    ensures f.Fits(8 * width) <==> BitOr(f.offset + width, width) < f.limit
    ensures IsNext(f.offset + 1, f.SlotStart(width), width)
  {
    hide BitOr, IsNext;
    FitsInByte(f, width);
    AlignIsNext(f.offset + 1, width);
  }

  lemma FitsInByte(f: Frame, width: nat)
    requires 1 <= width && 0 < f.bitOffset < 8
    ensures f.Fits(8 * width) <==> BitOr(f.offset + width, width) < f.limit
  {
    hide BitOr;
  }

  /** The guard is exact for multiples of 8, except that it rejects `Rejected` slots. */
  lemma GuardExact(f: Frame, width: nat)
    requires width == 1 || width == 2 || width == 4 || width == 8
    requires f.bitOffset < 8 && (f.bitOffset == 0 || f.limit % 8 == 0)
    ensures f.Fits(8 * width) <==>
      f.SlotStart(width) + width <= f.limit && !Rejected(f, width, f.SlotStart(width))
  {
    if f.bitOffset == 0 {
      GuardExactAtByte(f, width);
    } else {
      GuardInByte(f, width);
      var o, at := f.offset, f.SlotStart(width);
      var fits := f.Fits(8 * width);
      hide Frame.Fits, Frame.SlotStart;
      if width == 1 {
        GuardArith1(o, f.limit);
      } else if width == 2 {
        GuardArith2(o, at, f.limit);
      } else if width == 4 {
        GuardArith4(o, at, f.limit);
      } else {
        GuardArith8(o, at, f.limit);
      }
    }
  }

  lemma Split4(y: nat) returns (k: nat, r: nat)
    ensures y == 4 * k + r && r < 4 && y / 4 == k && y % 2 == if r == 1 || r == 3 then 1 else 0
  {
    k, r := y / 4, y % 4;
    ModOfSum(2 * k + (if r < 2 then 0 else 1), if r == 1 || r == 3 then 1 else 0);
  }

  lemma ModOfSum(m: nat, b: nat)
    requires b < 2
    ensures (2 * m + b) % 2 == b
  {
  }

  lemma Split8(y: nat) returns (k: nat, r: nat)
    ensures y == 8 * k + r && r < 8 && y / 8 == k && y % 4 == if r >= 4 then r - 4 else r
  {
    k, r := y / 8, y % 8;
  }

  lemma Split16(y: nat) returns (k: nat, r: nat)
    ensures y == 16 * k + r && r < 16 && y / 16 == k && y % 8 == if r >= 8 then r - 8 else r
  {
    k, r := y / 16, y % 16;
    ModOf8(2 * k + (if r >= 8 then 1 else 0), if r >= 8 then r - 8 else r);
  }

  lemma ModOf8(m: nat, b: nat)
    requires b < 8
    ensures (8 * m + b) % 8 == b
  {
  }

  lemma GuardArith1(o: nat, limit: nat)
    requires limit % 8 == 0
    ensures BitOr(o + 1, 1) < limit <==> o + 2 <= limit
  {
    OrMask(o + 1);
    hide BitOr;
    var q := limit / 8;
    GuardLinear1(o, (o + 1) / 2, q);
  }

  lemma GuardLinear1(o: nat, k: nat, q: nat)
    requires 2 * k <= o + 1 <= 2 * k + 1
    ensures 2 * k + 1 < 8 * q <==> o + 2 <= 8 * q
  {
  }

  lemma GuardArith2(o: nat, at: nat, limit: nat)
    requires limit % 8 == 0 && IsNext(o + 1, at, 2)
    ensures BitOr(o + 2, 2) < limit <==> at + 2 <= limit
  {
    hide BitOr, IsNext;
    OrBit1(o + 2);
    var k, r := Split4(o + 2);
    var q := Eighth(limit);
    var a := Quotient(o + 1, at, 2);
    GuardLinear2(o, k, r, a, q);
  }

  lemma GuardLinear2(o: nat, k: nat, r: nat, a: nat, q: nat)
    requires o + 2 == 4 * k + r && r < 4 && o + 1 <= 2 * a < o + 3
    ensures 4 * k + 2 + (if r == 1 || r == 3 then 1 else 0) < 8 * q <==> 2 * a + 2 <= 8 * q
  {
    assert a == 2 * k + if r < 2 then 0 else 1;
  }

  lemma GuardArith4(o: nat, at: nat, limit: nat)
    requires limit % 8 == 0 && IsNext(o + 1, at, 4)
    ensures BitOr(o + 4, 4) < limit <==> at + 4 <= limit
  {
    hide BitOr, IsNext;
    OrBit2(o + 4);
    var k, r := Split8(o + 4);
    var q := Eighth(limit);
    var a := Quotient(o + 1, at, 4);
    GuardLinear4(o, k, r, a, q);
  }

  lemma GuardLinear4(o: nat, k: nat, r: nat, a: nat, q: nat)
    requires o + 4 == 8 * k + r && r < 8 && o + 1 <= 4 * a < o + 5
    ensures 8 * k + 4 + (if r >= 4 then r - 4 else r) < 8 * q <==> 4 * a + 4 <= 8 * q
  {
    assert a == 2 * k + if r < 4 then 0 else 1;
  }

  lemma GuardArith8(o: nat, at: nat, limit: nat)
    requires limit % 8 == 0 && IsNext(o + 1, at, 8)
    ensures BitOr(o + 8, 8) < limit <==> at + 8 <= limit && !(limit % 16 == 8 && at + 8 == limit)
  {
    OrBit3(o + 8);
    var k, r := Split16(o + 8);
    var q, s := Split16(limit);
    GuardLinear8(o, k, r, at / 8, q, s);
  }

  lemma GuardLinear8(o: nat, k: nat, r: nat, a: nat, q: nat, s: nat)
    requires o + 8 == 16 * k + r && r < 16 && (s == 0 || s == 8) && o + 1 <= 8 * a < o + 9
    ensures 16 * k + 8 + (if r >= 8 then r - 8 else r) < 16 * q + s <==>
      8 * a + 8 <= 16 * q + s && !(s == 8 && 8 * a + 8 == 16 * q + s)
  {
    assert a == 2 * k + if r < 8 then 0 else 1;
  }

  lemma GuardBool(f: Frame)
    requires f.bitOffset < 8
    ensures f.Fits(1) <==> f.offset < f.limit
  {
    hide BitOr;
    OneByte(f.bitOffset);
    OrMask(f.offset);
  }

  lemma OneByte(bit: nat)
    requires bit < 8
    ensures BytesForBits(bit + 1) == 1
  {
  }

  // ---------------------------------------------------------------- the cursor and the packed offsets

  function NextOffset(f: Field): nat {
    if f.kind.TBool? then (if f.bit == 7 then f.offset + 1 else f.offset) else f.offset + SlotBytes(f.kind)
  }

  function NextBit(f: Field): nat {
    if f.kind.TBool? && f.bit < 7 then f.bit + 1 else 0
  }

  /** The packer is first fit: every field is at the first place for its kind behind the field before it. */
  predicate Packed(offset: nat, bit: nat, fs: seq<Field>)
    decreases |fs|
  {
    fs == [] ||
    var f := fs[0];
    && (if f.kind.TBool? then f.offset == offset && f.bit == bit
        else f.bit == 0 && IsNext(offset + (if bit > 0 then 1 else 0), f.offset, Align(f.kind)))
    && Packed(NextOffset(f), NextBit(f), fs[1..])
  }

  predicate PackedEnv(env: Env) {
    WfEnv(env) && forall id | id in env :: Packed(0, 0, env[id].fields)
  }

  lemma PackedIsWf(env: Env)
    requires PackedEnv(env)
    ensures WfEnv(env)
  {
  }

  lemma {:induction false} ArrayPacked(env: Env, elem: Type, k: nat, n: nat)
    requires WfType(env, elem) && k <= n
    ensures Packed(ElemField(elem, k).offset, ElemField(elem, k).bit, ElemFields(elem, k, n))
    decreases n - k
  {
    if k < n {
      assert ElemFields(elem, k, n)[1..] == ElemFields(elem, k + 1, n);
      ArrayPacked(env, elem, k + 1, n);
      NextElem(env, elem, k);
    }
  }

  lemma NextElem(env: Env, elem: Type, k: nat)
    requires WfType(env, elem)
    ensures NextOffset(ElemField(elem, k)) == ElemField(elem, k + 1).offset
    ensures NextBit(ElemField(elem, k)) == ElemField(elem, k + 1).bit
    ensures !elem.TBool? ==> IsNext(k * SlotBytes(elem), k * SlotBytes(elem), Align(elem))
  {
    hide IsNext;
    if elem.TBool? {
      NextBitPlace(k);
    } else {
      assert (k + 1) * SlotBytes(elem) == k * SlotBytes(elem) + SlotBytes(elem);
      Multiple(k, SlotBytes(elem), Align(elem));
    }
  }

  lemma NextBitPlace(k: nat)
    ensures (if k % 8 == 7 then k / 8 + 1 else k / 8) == (k + 1) / 8
    ensures (if k % 8 < 7 then k % 8 + 1 else 0) == (k + 1) % 8
  {
    var q, r := k / 8, k % 8;
    assert k + 1 == if r == 7 then 8 * (q + 1) else 8 * q + (r + 1);
  }

  lemma Multiple(k: nat, bytes: nat, width: nat)
    requires width == 1 || width == 2 || width == 4 || width == 8
    requires bytes == width || (bytes == 8 && width == 4)
    ensures IsNext(k * bytes, k * bytes, width)
  {
    if bytes == 8 {
      TimesMod8(k);
      TimesMod4(2 * k);
      assert k * bytes == 8 * k == 4 * (2 * k);
    } else if bytes == 4 {
      TimesMod4(k);
      assert k * bytes == 4 * k;
    } else if bytes == 2 {
      ModOfSum(k, 0);
      assert k * bytes == 2 * k;
    } else {
      assert k * bytes == k;
    }
  }

  lemma TimesMod8(k: nat)
    ensures 8 * k % 8 == 0
  {
  }

  lemma TimesMod4(k: nat)
    ensures 4 * k % 4 == 0
  {
  }

  lemma BlockPacked(env: Env, b: Block, n: nat)
    requires PackedEnv(env) && WfBlock(env, b)
    ensures Packed(0, 0, Fields(env, b, n))
  {
    match b
    case BStruct(id) =>
    case BArray(elem, _) => ArrayPacked(env, elem, 0, n);
    case BMap(key, value) =>
      var fs := Fields(env, b, n);
      assert Packed(16, 0, fs[1..][1..]);
      assert Packed(8, 0, fs[1..]);
  }

  /** The cursor of a frame whose block starts at word `at` lands on the next packed field. */
  lemma Lands(f: Frame, at: nat, fs: seq<Field>)
    requires fs != [] && !fs[0].kind.TBool?
    requires f.offset >= 8 * at + HEADER_SIZE && Packed(f.offset - 8 * at - HEADER_SIZE, f.bitOffset, fs)
    requires Align(fs[0].kind) in {1, 2, 4, 8}
    ensures f.SlotStart(Align(fs[0].kind)) == 8 * at + HEADER_SIZE + fs[0].offset
    ensures f.AlignToBytes().offset <= 8 * at + HEADER_SIZE + fs[0].offset
  {
    var x, y, w := f.offset - 8 * at - HEADER_SIZE + (if f.bitOffset > 0 then 1 else 0), fs[0].offset,
      Align(fs[0].kind);
    assert IsNext(x, y, w);
    hide Packed, GoAlign;
    NextShift(x, y, at + 1, w);
    AlignIsNext(f.AlignToBytes().offset, w);
    NextIsUnique(x + 8 * (at + 1), y + 8 * (at + 1), f.SlotStart(w), w);
  }

  lemma NextShift(x: nat, y: nat, words: nat, width: nat)
    requires IsNext(x, y, width)
    ensures IsNext(x + 8 * words, y + 8 * words, width)
  {
    match width
    case 1 =>
    case 2 => assert y + 8 * words == y + 2 * (4 * words);
    case 4 => assert y + 8 * words == y + 4 * (2 * words);
    case _ =>
  }

  // ---------------------------------------------------------------- which blocks the guard lets through

  /** Slots that are tested as 8 bytes at the current cursor.  The encoder aligns the cursor before it tests a pointer;
      the decoder does not. */
  predicate Wide(t: Type, decoding: bool) {
    t == TUint(8) || (decoding && t.TPtr?)
  }

  /** A wide slot that ends the payload directly follows a bool that does not fill its byte. */
  predicate Tight(bit: nat, fs: seq<Field>, size: nat, decoding: bool)
    decreases |fs|
  {
    fs != [] &&
    ((bit > 0 && Wide(fs[0].kind, decoding) && fs[0].offset + 8 == size) ||
      Tight(NextBit(fs[0]), fs[1..], size, decoding))
  }

  /** The guard lets the block at word `at` and everything below it through: no tight block ends at an odd word. */
  predicate ClearBlock(env: Env, at: nat, b: Block, items: seq<Value>, decoding: bool)
    decreases items, 1
  {
    var n, fs := |items|, Fields(env, b, |items|);
    var e := at + BlockWords(env, b, n);
    && !(e % 2 == 1 && Tight(0, fs, PayloadSize(env, b, n), decoding))
    && ClearSlots(env, e, fs, items, decoding)
  }

  predicate ClearSlot(env: Env, e: nat, t: Type, v: Value, decoding: bool)
    decreases v, 0
  {
    t.TPtr? && v.VBlock? ==> ClearBlock(env, e, t.target, v.items, decoding)
  }

  predicate ClearSlots(env: Env, e: nat, fs: seq<Field>, vs: seq<Value>, decoding: bool)
    decreases vs, 0
  {
    fs == [] || vs == [] ||
    (&& ClearSlot(env, e, fs[0].kind, vs[0], decoding)
     && ClearSlots(env, e + ChildWords(env, fs[0].kind, vs[0]), fs[1..], vs[1..], decoding))
  }

  // ---------------------------------------------------------------- a cursor in front of its next slots

  /** The slots are all bools, or there are no bools at all. */
  predicate Uniform(fs: seq<Field>, bit: nat) {
    || (forall i | 0 <= i < |fs| :: fs[i].kind.TBool?)
    || (bit == 0 && forall i | 0 <= i < |fs| :: !fs[i].kind.TBool?)
  }

  /** Arrays are uniform; the payloads of everything else are whole words. */
  predicate Regular(fs: seq<Field>, size: nat, bit: nat, check: bool) {
    Uniform(fs, bit) || (size % 8 == 0 && !check)
  }

  /** Frame `f` is in front of slots `fs` of the block at word `at` with `size` payload bytes. */
  predicate InFront(env: Env, f: Frame, at: nat, fs: seq<Field>, size: nat) {
    && f.bitOffset < 8
    && f.offset >= 8 * at + HEADER_SIZE
    && Packed(f.offset - 8 * at - HEADER_SIZE, f.bitOffset, fs)
    && FieldsOk(env, fs, size)
    && Regular(fs, size, f.bitOffset, f.check)
    && 8 * at + HEADER_SIZE + size <= f.limit
    && (size % 8 == 0 ==> f.limit == 8 * at + HEADER_SIZE + size)
    && (f.check ==> f.processed + |fs| <= f.elements)
  }

  /** The guard turns the first of these slots away. */
  predicate Stuck(f: Frame, fld: Field, size: nat, decoding: bool) {
    f.bitOffset > 0 && Wide(fld.kind, decoding) && fld.offset + 8 == size && f.limit % 16 == 8
  }

  lemma SlotFits(env: Env, f: Frame, at: nat, fs: seq<Field>, size: nat)
    requires InFront(env, f, at, fs, size) && fs != [] && !fs[0].kind.TBool?
    ensures var pos := 8 * at + HEADER_SIZE + fs[0].offset;
      && Align(fs[0].kind) in {1, 2, 4, 8}
      && f.SlotStart(Align(fs[0].kind)) == pos
      && f.AlignToBytes().offset <= pos && pos + SlotBytes(fs[0].kind) <= f.limit
      && (f.Fits(8 * Align(fs[0].kind)) <==> !Stuck(f, fs[0], size, true))
  {
    hide Frame.Fits, Frame.SlotStart, Packed;
    var k := fs[0].kind;
    assert FieldOk(env, fs[0], size);
    Lands(f, at, fs);
    assert f.bitOffset == 0 || size % 8 == 0;
    if f.bitOffset > 0 {
      LimitAligned(f.limit, at, size);
    }
    GuardExact(f, Align(k));
  }

  lemma LimitAligned(limit: nat, at: nat, size: nat)
    requires size % 8 == 0 && limit == 8 * at + HEADER_SIZE + size
    ensures limit % 8 == 0
  {
    assert limit == 8 * (at + 1 + size / 8);
  }

  /** The frame behind its first slot. */
  function Passed(f: Frame, at: nat, fld: Field): Frame {
    f.(offset := 8 * at + HEADER_SIZE + NextOffset(fld), bitOffset := NextBit(fld), processed := f.processed + 1)
  }

  lemma InFrontOfRest(env: Env, f: Frame, at: nat, fs: seq<Field>, size: nat)
    requires InFront(env, f, at, fs, size) && fs != []
    ensures InFront(env, Passed(f, at, fs[0]), at, fs[1..], size)
    ensures fs[0].kind.TBool? ==>
      && f.offset == 8 * at + HEADER_SIZE + fs[0].offset < f.limit && f.bitOffset == fs[0].bit
      && f.SkipBits(1).(processed := f.processed + 1) == Passed(f, at, fs[0])
  {
    hide IsNext;
    assert FieldOk(env, fs[0], size);
  }

  /** A slot that is turned away is the last one. */
  lemma StuckIsLast(env: Env, f: Frame, at: nat, fs: seq<Field>, size: nat)
    requires InFront(env, f, at, fs, size) && fs != [] && Stuck(f, fs[0], size, true)
    ensures fs[1..] == [] && 8 * at + HEADER_SIZE + fs[0].offset + 8 == f.limit
  {
    hide IsNext;
    assert FieldOk(env, fs[0], size) && size % 8 == 0;
    if fs[1..] != [] {
      assert FieldOk(env, fs[1], size) && Packed(size, 0, fs[1..]);
      if fs[1].kind.TBool? {
        assert false;
      } else {
        NextGrows(size, fs[1].offset, Align(fs[1].kind));
        assert false;
      }
    }
  }

  lemma NextGrows(x: nat, y: nat, width: nat)
    requires IsNext(x, y, width)
    ensures x <= y
  {
  }

  // ---------------------------------------------------------------- the frame of a fresh block

  lemma BlockRegular(env: Env, b: Block, n: nat)
    requires WfEnv(env) && WfBlock(env, b)
    ensures Regular(Fields(env, b, n), PayloadSize(env, b, n), 0, b.BArray?)
  {
    match b
    case BStruct(id) => assert WfDef(env, env[id]);
    case BArray(elem, _) =>
    case BMap(_, _) =>
  }

  /** A frame that was just pushed for a block is in front of all its slots; `limit` may include padding. */
  lemma InFrontOfBlock(env: Env, b: Block, items: seq<Value>, at: nat, limit: nat, check: bool)
    requires PackedEnv(env) && ConformsBlock(env, b, items) && check == b.BArray?
    requires 8 * at + HEADER_SIZE + PayloadSize(env, b, |items|) <= limit
    requires limit <= 8 * (at + BlockWords(env, b, |items|))
    ensures InFront(env, Frame(8 * at + HEADER_SIZE, 0, limit, if check then SecondWord(env, b, |items|)
      else 0, 0, check),
                    at, Fields(env, b, |items|), PayloadSize(env, b, |items|))
    ensures |Fields(env, b, |items|)| == |items|
  {
    hide WfEnv, FieldsOk, Packed, Regular, ShapeOk;
    BlockFieldsOk(env, b, |items|);
    BlockPacked(env, b, |items|);
    BlockRegular(env, b, |items|);
  }

  lemma OddWord(word: nat)
    ensures 8 * word % 16 == 8 <==> word % 2 == 1
  {
    var q, r := word / 2, word % 2;
    assert 8 * word == 16 * q + 8 * r;
  }

  lemma InFrontNotFull(env: Env, f: Frame, at: nat, fs: seq<Field>, size: nat)
    requires InFront(env, f, at, fs, size) && fs != []
    ensures !f.Full()
  {
  }

  lemma SecondWordFits(f: Frame, pos: nat)
    requires f.bitOffset == 0 && f.offset == pos + 4 && pos % 4 == 0 && pos + 8 <= f.limit
    ensures f.Fits(32) && f.SlotStart(4) == pos + 4
  {
    hide GoAlign;
    AlignIsNext(pos + 4, 4);
    NextIsUnique(pos + 4, pos + 4, GoAlign(pos + 4, 4), 4);
    GuardExactAtByte(f, 4);
  }

  lemma InterfaceAligned(env: Env, f: Frame, at: nat, fs: seq<Field>, size: nat)
    requires InFront(env, f, at, fs, size) && fs != [] && fs[0].kind.TInterface?
    ensures (8 * at + HEADER_SIZE + fs[0].offset) % 4 == 0
    ensures 8 * at + HEADER_SIZE + fs[0].offset + 8 <= f.limit
  {
    hide IsNext;
    var o := f.offset - 8 * at - HEADER_SIZE;
    assert IsNext(o + (if f.bitOffset > 0 then 1 else 0), fs[0].offset, 4);
    assert FieldOk(env, fs[0], size);
    var a := Quotient(o + (if f.bitOffset > 0 then 1 else 0), fs[0].offset, 4);
    TimesMod4(2 * at + 2 + a);
  }
}
