/**
Struct layout in the Python bindings.  A struct is a list of field groups; its offsets are computed twice, once as a
format string for `struct` and once as running positions, and no packed offsets are ever passed in.
*/
module PythonLayout {
  import opened Bytes
  import opened Wire
  import opened GoLayout

  // ---------------------------------------------------------------- groups

  /** `FieldDescriptor`: a kind and the version that introduced the field. */
  datatype Desc = Desc(kind: Type, version: nat)

  /** `SingleFieldGroup` or `BooleanGroup` */
  datatype Group = Single(desc: Desc) | Bools(descs: seq<Desc>)

  function GroupAlign(g: Group): nat {
    if g.Single? then Align(g.desc.kind) else 1
  }

  function GroupSize(g: Group): nat {
    if g.Single? then SlotBytes(g.desc.kind) else 1
  }

  function Descs(g: Group): seq<Desc> {
    if g.Single? then [g.desc] else g.descs
  }

  /** What the generator emits: a byte of bools is a group of at most eight; only a full one is followed by another. */
  predicate WfGroups(env: Env, groups: seq<Group>) {
    && (forall i | 0 <= i < |groups| :: WfGroup(env, groups[i]))
    && (forall i | 0 < i < |groups| && groups[i].Bools? && groups[i - 1].Bools? :: |groups[i - 1].descs| == 8)
  }

  predicate WfGroup(env: Env, g: Group) {
    match g
    case Single(desc) => !desc.kind.TBool? && WfType(env, desc.kind)
    case Bools(descs) => 1 <= |descs| <= 8 && forall i | 0 <= i < |descs| :: descs[i].kind.TBool?
  }

  /** `NeededPaddingForAlignment` */
  function Padding(value: nat, alignment: nat): nat
    requires alignment > 0
  {
    if value % alignment != 0 then alignment - value % alignment else 0
  }

  function Aligned(value: nat, g: Group): nat {
    if GroupAlign(g) > 0 then value + Padding(value, GroupAlign(g)) else value
  }

  // ---------------------------------------------------------------- the two computations

  /** A piece of a format string: padding, or the code of a group. */
  datatype Code = Pad(bytes: nat) | Item(bytes: nat)

  /** `_GetStruct`: the format string, starting at payload offset `index`. */
  function Codes(groups: seq<Group>, index: nat): seq<Code>
    decreases |groups|
  {
    if groups == [] then (if Padding(index, 8) > 0 then [Pad(Padding(index, 8))] else [])
    else
      var at := Aligned(index, groups[0]);
      (if at > index then [Pad(at - index)] else []) + [Item(GroupSize(groups[0]))] +
        Codes(groups[1..], at + GroupSize(groups[0]))
  }

  /** Where `struct` puts the items of a format string. */
  function ItemOffsets(codes: seq<Code>, at: nat): seq<nat>
    decreases |codes|
  {
    if codes == [] then []
    else (if codes[0].Item? then [at] else []) + ItemOffsets(codes[1..], at + codes[0].bytes)
  }

  function CodesSize(codes: seq<Code>): nat
    decreases |codes|
  {
    if codes == [] then 0 else codes[0].bytes + CodesSize(codes[1..])
  }

  /** The running `position` of `Serialize` and `Deserialize` at each group. */
  function Positions(groups: seq<Group>, position: nat): seq<nat>
    decreases |groups|
  {
    if groups == [] then []
    else
      var at := Aligned(position, groups[0]);
      [at] + Positions(groups[1..], at + GroupSize(groups[0]))
  }

  lemma PaddingIs(value: nat, alignment: nat)
    requires alignment == 1 || alignment == 2 || alignment == 4 || alignment == 8
    ensures Padding(HEADER_SIZE + value, alignment) == Padding(value, alignment)
    ensures IsNext(value, value + Padding(value, alignment), alignment)
  {
    hide IsNext;
    RemainderBehindHeader(value, alignment);
    PaddingIsNext(value, alignment);
  }

  lemma RemainderBehindHeader(value: nat, alignment: nat)
    requires alignment == 1 || alignment == 2 || alignment == 4 || alignment == 8
    ensures (HEADER_SIZE + value) % alignment == value % alignment
  {
    if alignment == 2 {
      Remainder2(value);
    } else if alignment == 4 {
      Remainder4(value);
    } else if alignment == 8 {
      Remainder8(value);
    }
  }

  lemma Remainder2(value: nat)
    ensures (8 + value) % 2 == value % 2
  {
  }

  lemma Remainder4(value: nat)
    ensures (8 + value) % 4 == value % 4
  {
  }

  lemma Remainder8(value: nat)
    ensures (8 + value) % 8 == value % 8
  {
  }

  lemma PaddingIsNext(value: nat, alignment: nat)
    requires alignment == 1 || alignment == 2 || alignment == 4 || alignment == 8
    ensures IsNext(value, value + Padding(value, alignment), alignment)
  {
    var next := value / alignment + if value % alignment != 0 then 1 else 0;
    match alignment
    case 1 =>
    case 2 => assert value + Padding(value, 2) == 2 * next;
    case 4 => assert value + Padding(value, 4) == 4 * next;
    case 8 => assert value + Padding(value, 8) == 8 * next;
  }

  lemma PaddingBehindHeader(env: Env, value: nat, g: Group)
    requires WfGroup(env, g)
    ensures Aligned(HEADER_SIZE + value, g) == HEADER_SIZE + Aligned(value, g)
    ensures IsNext(value, Aligned(value, g), GroupAlign(g)) && value <= Aligned(value, g)
  {
    hide Padding, IsNext;
    PaddingIs(value, GroupAlign(g));
    NextGrows(value, Aligned(value, g), GroupAlign(g));
  }

  lemma PadThen(pad: nat, codes: seq<Code>, at: nat)
    ensures ItemOffsets((if pad > 0 then [Pad(pad)] else []) + codes, at) == ItemOffsets(codes, at + pad)
    ensures CodesSize((if pad > 0 then [Pad(pad)] else []) + codes) == pad + CodesSize(codes)
  {
    if pad > 0 {
      assert ([Pad(pad)] + codes)[1..] == codes;
    } else {
      assert [] + codes == codes;
    }
  }

  lemma ItemThen(bytes: nat, codes: seq<Code>, at: nat)
    ensures ItemOffsets([Item(bytes)] + codes, at) == [at] + ItemOffsets(codes, at + bytes)
    ensures CodesSize([Item(bytes)] + codes) == bytes + CodesSize(codes)
  {
    assert ([Item(bytes)] + codes)[1..] == codes;
  }

  lemma CodesNil(index: nat)
    ensures ItemOffsets(Codes([], index), index) == [] && CodesSize(Codes([], index)) == Padding(index, 8)
  {
    hide Padding;
    PadThen(Padding(index, 8), [], index);
    assert Codes([], index) == (if Padding(index, 8) > 0 then [Pad(Padding(index, 8))] else []) + [];
  }

  lemma CodesCons(env: Env, groups: seq<Group>, index: nat)
    requires groups != [] && WfGroup(env, groups[0])
    ensures var g, at := groups[0], Aligned(index, groups[0]);
      var rest := Codes(groups[1..], at + GroupSize(g));
      && index <= at
      && ItemOffsets(Codes(groups, index), index) == [at] + ItemOffsets(rest, at + GroupSize(g))
      && CodesSize(Codes(groups, index)) == at - index + GroupSize(g) + CodesSize(rest)
  {
    hide Aligned, Padding, IsNext, WfGroup, ItemOffsets, CodesSize, GroupSize;
    var g, at := groups[0], Aligned(index, groups[0]);
    var rest := Codes(groups[1..], at + GroupSize(g));
    PaddingBehindHeader(env, index, g);
    PadThen(at - index, [Item(GroupSize(g))] + rest, index);
    ItemThen(GroupSize(g), rest, at);
    assert (if at > index then [Pad(at - index)] else []) + [Item(GroupSize(g))] + rest ==
      (if at > index then [Pad(at - index)] else []) + ([Item(GroupSize(g))] + rest);
  }

  /** The two computations agree: every position is 8 plus the offset in the format string. */
  lemma {:induction false} PositionsAgree(env: Env, groups: seq<Group>, index: nat)
    requires forall i | 0 <= i < |groups| :: WfGroup(env, groups[i])
    ensures Positions(groups, HEADER_SIZE + index) == Shifted(ItemOffsets(Codes(groups, index), index))
    decreases |groups|
  {
    hide Aligned, Padding, IsNext, WfGroup, ItemOffsets, Codes, GroupSize, Shifted;
    if groups == [] {
      CodesNil(index);
      ShiftedNothing();
    } else {
      var at := Aligned(index, groups[0]);
      var next := at + GroupSize(groups[0]);
      PaddingBehindHeader(env, index, groups[0]);
      CodesCons(env, groups, index);
      PositionsAgree(env, groups[1..], next);
      ShiftedCons(at, ItemOffsets(Codes(groups[1..], next), next));
    }
  }

  lemma ShiftedNothing()
    ensures Shifted([]) == []
  {
  }

  lemma ShiftedCons(at: nat, offsets: seq<nat>)
    ensures Shifted([at] + offsets) == [HEADER_SIZE + at] + Shifted(offsets)
  {
  }

  function Shifted(offsets: seq<nat>): seq<nat> {
    seq(|offsets|, i requires 0 <= i < |offsets| => HEADER_SIZE + offsets[i])
  }

  // ---------------------------------------------------------------- the fields of a struct

  /** The end of the groups, before the struct is padded. */
  function End(groups: seq<Group>, index: nat): nat
    decreases |groups|
  {
    if groups == [] then index else End(groups[1..], Aligned(index, groups[0]) + GroupSize(groups[0]))
  }

  /** The slots of a struct: a group of bools is one byte, one bit each. */
  function Layout(groups: seq<Group>, index: nat): seq<Field>
    decreases |groups|
  {
    if groups == [] then []
    else
      var at := Aligned(index, groups[0]);
      GroupFields(groups[0], at) + Layout(groups[1..], at + GroupSize(groups[0]))
  }

  function GroupFields(g: Group, at: nat): seq<Field> {
    if g.Single? then [Field(at, 0, g.desc.kind)]
    else seq(|g.descs|, i requires 0 <= i < |g.descs| => Field(at, i, TBool))
  }

  /** The slots of groups whose places are given. */
  function Spread(groups: seq<Group>, offsets: seq<nat>): seq<Field>
    decreases |groups|
  {
    if groups == [] || offsets == [] then []
    else GroupFields(groups[0], offsets[0]) + Spread(groups[1..], offsets[1..])
  }

  /** The slots as `struct` finds them, by the format string. */
  function Formatted(groups: seq<Group>): seq<Field> {
    Spread(groups, ItemOffsets(Codes(groups, 0), 0))
  }

  /** The slots as the loops over the groups find them, by the running position. */
  function Walked(groups: seq<Group>): seq<Field> {
    Spread(groups, Relative(Positions(groups, HEADER_SIZE)))
  }

  /** Positions counted from the end of the header. */
  function Relative(positions: seq<nat>): seq<nat> {
    seq(|positions|, i requires 0 <= i < |positions| =>
      if positions[i] >= HEADER_SIZE then positions[i] - HEADER_SIZE else 0)
  }

  lemma {:induction false} SpreadIsLayout(env: Env, groups: seq<Group>, index: nat)
    requires forall i | 0 <= i < |groups| :: WfGroup(env, groups[i])
    ensures Spread(groups, ItemOffsets(Codes(groups, index), index)) == Layout(groups, index)
    decreases |groups|
  {
    hide Aligned, WfGroup, ItemOffsets, Codes, GroupSize, GroupFields;
    if groups != [] {
      var next := Aligned(index, groups[0]) + GroupSize(groups[0]);
      CodesCons(env, groups, index);
      SpreadIsLayout(env, groups[1..], next);
      var rest := ItemOffsets(Codes(groups[1..], next), next);
      assert ([Aligned(index, groups[0])] + rest)[1..] == rest;
    }
  }

  /** Both computations put every slot of a struct at the same place. */
  lemma OneLayout(env: Env, groups: seq<Group>)
    requires forall i | 0 <= i < |groups| :: WfGroup(env, groups[i])
    ensures Formatted(groups) == Walked(groups) == Layout(groups, 0)
  {
    hide WfGroup, ItemOffsets, Codes, Positions, Spread, Layout;
    SpreadIsLayout(env, groups, 0);
    PositionsAgree(env, groups, 0);
    var offsets := ItemOffsets(Codes(groups, 0), 0);
    assert Relative(Shifted(offsets)) == offsets;
  }

  function PayloadBytes(groups: seq<Group>): nat {
    CodesSize(Codes(groups, 0))
  }

  lemma {:induction false} SizeIsAligned(env: Env, groups: seq<Group>, index: nat)
    requires forall i | 0 <= i < |groups| :: WfGroup(env, groups[i])
    ensures index + CodesSize(Codes(groups, index)) == End(groups, index) + Padding(End(groups, index), 8)
    decreases |groups|
  {
    hide Aligned, Padding, WfGroup, CodesSize, Codes, GroupSize;
    if groups == [] {
      CodesNil(index);
    } else {
      CodesCons(env, groups, index);
      SizeIsAligned(env, groups[1..], Aligned(index, groups[0]) + GroupSize(groups[0]));
    }
  }

  // ---------------------------------------------------------------- first fit

  lemma {:induction false} BoolsPacked(at: nat, bit: nat, n: nat, rest: seq<Field>)
    requires bit < n <= 8
    requires if n == 8 then Packed(at + 1, 0, rest) else Packed(at, n, rest)
    ensures Packed(at, bit, seq(n - bit, i requires 0 <= i < n - bit => Field(at, bit + i, TBool)) + rest)
    decreases n - bit
  {
    var fs := seq(n - bit, i requires 0 <= i < n - bit => Field(at, bit + i, TBool));
    if bit + 1 < n {
      BoolsPacked(at, bit + 1, n, rest);
      assert (fs + rest)[1..] == seq(n - bit - 1, i requires 0 <= i < n - bit - 1 => Field(at, bit + 1 + i, TBool)) +
        rest;
    } else {
      assert (fs + rest)[1..] == rest;
    }
  }

  /** The Python layout is the packer's first fit. */
  lemma {:induction false} LayoutPacked(env: Env, groups: seq<Group>, index: nat, offset: nat, bit: nat)
    requires WfGroups(env, groups)
    requires (bit == 0 && offset == index) || (0 < bit < 8 && offset + 1 == index &&
      (groups == [] || groups[0].Single?))
    ensures Packed(offset, bit, Layout(groups, index))
    decreases |groups|
  {
    hide Aligned, IsNext, WfGroup, Packed;
    if groups == [] {
      PackedNothing(offset, bit);
    } else {
      var g, rest := groups[0], groups[1..];
      var at := Aligned(index, g);
      PaddingBehindHeader(env, index, g);
      RestWf(env, groups);
      if g.Single? {
        LayoutPacked(env, rest, at + GroupSize(g), at + GroupSize(g), 0);
        SinglePacked(env, g, at, offset, bit, Layout(rest, at + GroupSize(g)));
      } else {
        var n := |g.descs|;
        if n == 8 {
          LayoutPacked(env, rest, at + 1, at + 1, 0);
        } else {
          LayoutPacked(env, rest, at + 1, at, n);
        }
        BoolsAt(index, g);
        BoolsPacked(at, 0, n, Layout(rest, at + 1));
        assert GroupFields(g, at) == seq(n, i requires 0 <= i < n => Field(at, 0 + i, TBool));
      }
    }
  }

  lemma PackedNothing(offset: nat, bit: nat)
    ensures Packed(offset, bit, [])
  {
  }

  lemma BoolsAt(index: nat, g: Group)
    requires g.Bools?
    ensures Aligned(index, g) == index
  {
  }

  lemma RestWf(env: Env, groups: seq<Group>)
    requires WfGroups(env, groups) && groups != []
    ensures WfGroup(env, groups[0]) && WfGroups(env, groups[1..])
    ensures groups[0].Bools? ==> 1 <= |groups[0].descs| <= 8
    ensures groups[0].Bools? && |groups[0].descs| < 8 && |groups| > 1 ==> groups[1..][0].Single?
  {
    hide WfType;
    var rest := groups[1..];
    forall i | 0 < i < |rest| && rest[i].Bools? && rest[i - 1].Bools? ensures |rest[i - 1].descs| == 8 {
      assert rest[i] == groups[i + 1] && rest[i - 1] == groups[i];
    }
  }

  lemma SinglePacked(env: Env, g: Group, at: nat, offset: nat, bit: nat, rest: seq<Field>)
    requires g.Single? && WfGroup(env, g) && Packed(at + GroupSize(g), 0, rest)
    requires IsNext(offset + (if bit > 0 then 1 else 0), at, GroupAlign(g))
    ensures Packed(offset, bit, GroupFields(g, at) + rest)
  {
    hide IsNext, WfType;
    assert (GroupFields(g, at) + rest)[1..] == rest;
  }

  lemma {:induction false} LayoutInside(env: Env, groups: seq<Group>, index: nat, size: nat)
    requires (forall i | 0 <= i < |groups| :: WfGroup(env, groups[i])) && End(groups, index) <= size
    ensures FieldsOk(env, Layout(groups, index), size) && index <= End(groups, index)
    decreases |groups|
  {
    if groups != [] {
      var g := groups[0];
      var at := Aligned(index, g);
      LayoutInside(env, groups[1..], at + GroupSize(g), size);
      var fs := GroupFields(g, at);
      forall i | 0 <= i < |fs| ensures FieldOk(env, fs[i], size) {
        assert WfGroup(env, g);
      }
    }
  }

  // ---------------------------------------------------------------- versions

  function MaxVersion(descs: seq<Desc>): nat {
    if descs == [] then 0
    else
      var rest := MaxVersion(descs[1..]);
      if descs[0].version > rest then descs[0].version else rest
  }

  function AllDescs(groups: seq<Group>): seq<Desc> {
    if groups == [] then [] else Descs(groups[0]) + AllDescs(groups[1..])
  }

  /** `_GetVersion` */
  function Version(groups: seq<Group>): nat {
    MaxVersion(AllDescs(groups))
  }

  function UpTo(descs: seq<Desc>, version: nat): seq<Desc> {
    if descs == [] then []
    else (if descs[0].version <= version then [descs[0]] else []) + UpTo(descs[1..], version)
  }

  /** `_FilterGroups`: groups without a field of the version are dropped, groups of bools lose their later fields. */
  function Filter(groups: seq<Group>, version: nat): seq<Group>
    decreases |groups|
  {
    if groups == [] then []
    else
      var g, rest := groups[0], Filter(groups[1..], version);
      if UpTo(Descs(g), version) == [] then rest
      else [if g.Single? then g else Bools(UpTo(g.descs, version))] + rest
  }

  lemma {:induction false} UpToAll(descs: seq<Desc>, version: nat)
    requires MaxVersion(descs) <= version
    ensures UpTo(descs, version) == descs
  {
    if descs != [] {
      UpToAll(descs[1..], version);
      assert [descs[0]] + descs[1..] == descs;
    }
  }

  lemma {:induction false} MaxVersionSplits(a: seq<Desc>, b: seq<Desc>)
    ensures MaxVersion(a + b) == if MaxVersion(a) > MaxVersion(b) then MaxVersion(a) else MaxVersion(b)
  {
    if a == [] {
      assert a + b == b;
    } else {
      assert (a + b)[1..] == a[1..] + b;
      MaxVersionSplits(a[1..], b);
    }
  }

  /** Filtering to the struct's own version, or a later one, changes nothing. */
  lemma {:induction false} FilterOwn(env: Env, groups: seq<Group>, version: nat)
    requires (forall i | 0 <= i < |groups| :: WfGroup(env, groups[i])) && Version(groups) <= version
    ensures Filter(groups, version) == groups
    decreases |groups|
  {
    if groups != [] {
      var g := groups[0];
      assert WfGroup(env, g);
      MaxVersionSplits(Descs(g), AllDescs(groups[1..]));
      UpToAll(Descs(g), version);
      FilterOwn(env, groups[1..], version);
      assert [g] + groups[1..] == groups;
    }
  }

  // ---------------------------------------------------------------- bytes of bools

  /** The number whose binary digits are the bools, lowest first. */
  function ToByte(bs: seq<bool>): nat {
    if bs == [] then 0 else 2 * ToByte(bs[1..]) + if bs[0] then 1 else 0
  }

  /** The binary digits of a number, without leading zeros. */
  function Digits(value: nat): seq<bool> {
    if value == 0 then [] else [value % 2 == 1] + Digits(value / 2)
  }

  lemma {:induction false} ToByteBits(bs: seq<bool>, i: nat)
    ensures Bit(ToByte(bs), i) == (i < |bs| && bs[i])
    ensures ToByte(bs) < Pow2(|bs|)
  {
    if bs == [] {
      ZeroHasNoBits(i);
    } else {
      ToByteBits(bs[1..], if i > 0 then i - 1 else 0);
    }
  }

  lemma {:induction false} DigitsBits(value: nat, i: nat)
    ensures Bit(value, i) == (i < |Digits(value)| && Digits(value)[i])
  {
    if value == 0 {
      ZeroHasNoBits(i);
    } else if i > 0 {
      DigitsBits(value / 2, i - 1);
    }
  }

  /** `_ConvertBooleansToByte` */
  method ConvertBooleansToByte(bs: seq<bool>) returns (x: nat)
    ensures x == ToByte(bs)
  {
    x := 0;
    var i := |bs|;
    while i > 0
      invariant 0 <= i <= |bs| && x == ToByte(bs[i..])
    {
      i := i - 1;
      assert bs[i..][1..] == bs[i + 1..];
      x := x * 2 + if bs[i] then 1 else 0;
    }
    assert bs[0..] == bs;
  }

  /** `_ConvertByteToBooleans`: as many bools as asked for, or more if there are more digits. */
  method ConvertByteToBooleans(value: nat, minSize: nat) returns (res: seq<bool>)
    ensures |res| >= minSize
    ensures forall i: nat :: Bit(value, i) == (i < |res| && res[i])
  {
    res := [];
    var rest := value;
    while rest > 0
      invariant res + Digits(rest) == Digits(value)
      decreases rest
    {
      res := res + [rest % 2 == 1];
      rest := rest / 2;
    }
    ghost var digits := res;
    var missing := if minSize > |res| then minSize - |res| else 0;
    res := res + seq(missing, _ => false);
    forall i: nat ensures Bit(value, i) == (i < |res| && res[i]) {
      DigitsBits(value, i);
    }
  }

  /** Packing bools and unpacking them gives them back. */
  lemma BoolsRoundTrip(bs: seq<bool>, res: seq<bool>)
    requires |res| >= |bs| && forall i: nat :: Bit(ToByte(bs), i) == (i < |res| && res[i])
    ensures res[..|bs|] == bs && forall i | |bs| <= i < |res| :: !res[i]
  {
    forall i | 0 <= i < |res| ensures res[i] == (i < |bs| && bs[i]) {
      ToByteBits(bs, i);
    }
  }
}
