/**
Readers of other versions.  A reader picks some of the fields of each struct that a writer wrote; what it sees is the
writer's value with the other fields left out.
*/
module Versions {
  import opened Wire
  import GoLayout

  // ---------------------------------------------------------------- picked fields

  /** The fields that a reader reads, by struct. */
  type Picks = map<nat, seq<Field>>

  /** `sub` is `fs` with some fields left out. */
  predicate Sub(sub: seq<Field>, fs: seq<Field>)
    decreases |fs|
  {
    sub == [] || (fs != [] && (if sub[0] == fs[0] then Sub(sub[1..], fs[1..]) else Sub(sub, fs[1..])))
  }

  /** The writer's structs that the reader knows. */
  function Shared(picks: Picks, env: Env): Env {
    map id | id in picks && id in env :: env[id]
  }

  /** The reader's fields are fields of the writer, in their places, and the reader knows their types. */
  predicate PicksFrom(picks: Picks, env: Env) {
    forall id | id in picks && id in env :: Sub(picks[id], env[id].fields) && Known(Shared(picks, env), picks[id])
  }

  /** The reader reads every field of every struct. */
  predicate PicksAll(picks: Picks, env: Env) {
    forall id | id in env :: id in picks && picks[id] == env[id].fields
  }

  /** The reader's fields of a block. */
  function Picked(picks: Picks, env: Env, b: Block, n: nat): seq<Field> {
    if b.BStruct? && b.id in picks && b.id in env then picks[b.id] else Fields(env, b, n)
  }

  /** The reader knows the types of these slots. */
  predicate Known(env: Env, fs: seq<Field>) {
    forall i | 0 <= i < |fs| :: WfType(env, fs[i].kind)
  }

  lemma {:induction false} SubSelf(fs: seq<Field>)
    ensures Sub(fs, fs)
    decreases |fs|
  {
    if fs != [] { SubSelf(fs[1..]); }
  }

  lemma {:induction false} SubPrefix(fs: seq<Field>, more: seq<Field>)
    ensures Sub(fs, fs + more)
    decreases |fs|
  {
    if fs != [] {
      SubPrefix(fs[1..], more);
      assert (fs + more)[1..] == fs[1..] + more;
    }
  }

  lemma FieldsKnown(env: Env, fs: seq<Field>, size: nat)
    requires FieldsOk(env, fs, size)
    ensures Known(env, fs)
  {
    forall i | 0 <= i < |fs| ensures WfType(env, fs[i].kind) { assert FieldOk(env, fs[i], size); }
  }

  lemma BlockKnown(picks: Picks, env: Env, b: Block, n: nat)
    requires PicksFrom(picks, env) && WfBlock(Shared(picks, env), b)
    ensures Sub(Picked(picks, env, b, n), Fields(env, b, n)) && Known(Shared(picks, env), Picked(picks, env, b, n))
    ensures b.BStruct? ==> b.id in picks && b.id in env
  {
    hide Sub;
    var shared := Shared(picks, env);
    match b
    case BStruct(id) =>
    case BArray(elem, _) => SubSelf(Fields(env, b, n));
    case BMap(key, value) =>
      SubSelf(Fields(env, b, n));
      assert WfBlock(shared, BArray(key, 0)) && WfBlock(shared, BArray(value, 0));
  }

  // ---------------------------------------------------------------- what a reader sees

  function Seen(picks: Picks, env: Env, t: Type, v: Value): Value
    decreases v, 1
  {
    if v.VBlock? && t.TPtr? then VBlock(SeenBlock(picks, env, t.target, v.items)) else v
  }

  /** The values of the fields that the reader has. */
  function SeenAll(picks: Picks, env: Env, sub: seq<Field>, fs: seq<Field>, vs: seq<Value>): seq<Value>
    decreases vs, 2
  {
    if sub == [] || fs == [] || vs == [] then []
    else if sub[0] == fs[0] then
      [Seen(picks, env, fs[0].kind, vs[0])] + SeenAll(picks, env, sub[1..], fs[1..], vs[1..])
    else SeenAll(picks, env, sub, fs[1..], vs[1..])
  }

  function SeenBlock(picks: Picks, env: Env, b: Block, items: seq<Value>): seq<Value>
    decreases items, 3
  {
    SeenAll(picks, env, Picked(picks, env, b, |items|), Fields(env, b, |items|), items)
  }

  lemma {:induction false} SubMembers(sub: seq<Field>, fs: seq<Field>, k: nat)
    requires Sub(sub, fs) && k < |sub|
    ensures sub[k] in fs
    decreases |fs|
  {
    if sub[0] == fs[0] {
      if k > 0 { SubMembers(sub[1..], fs[1..], k - 1); }
    } else {
      SubMembers(sub, fs[1..], k);
    }
  }

  /** Each of the reader's fields is seen with the value that the writer gave it. */
  lemma {:induction false} SeenAt(picks: Picks, env: Env, sub: seq<Field>, fs: seq<Field>, vs: seq<Value>, k: nat,
                                  j: nat)
    requires Sub(sub, fs) && |fs| == |vs| && k < |sub| && j < |fs| && sub[k] == fs[j]
    requires forall i, i' | 0 <= i < i' < |fs| :: fs[i] != fs[i']
    ensures |SeenAll(picks, env, sub, fs, vs)| == |sub| &&
      SeenAll(picks, env, sub, fs, vs)[k] == Seen(picks, env, fs[j].kind, vs[j])
    decreases |fs|
  {
    hide Seen;
    SeenCount(picks, env, sub, fs, vs);
    if sub[0] == fs[0] {
      if k > 0 {
        SubMembers(sub[1..], fs[1..], k - 1);
        SeenAt(picks, env, sub[1..], fs[1..], vs[1..], k - 1, j - 1);
      }
    } else {
      SubMembers(sub, fs[1..], k);
      SeenAt(picks, env, sub, fs[1..], vs[1..], k, j - 1);
    }
  }

  lemma {:induction false} SeenCount(picks: Picks, env: Env, sub: seq<Field>, fs: seq<Field>, vs: seq<Value>)
    requires Sub(sub, fs) && |fs| == |vs|
    ensures |SeenAll(picks, env, sub, fs, vs)| == |sub|
    decreases |fs|
  {
    hide Seen;
    if sub != [] {
      SeenCount(picks, env, if sub[0] == fs[0] then sub[1..] else sub, fs[1..], vs[1..]);
    }
  }

  lemma {:induction false} PackedBehind(env: Env, offset: nat, bit: nat, fs: seq<Field>, size: nat, i: nat)
    requires GoLayout.Packed(offset, bit, fs) && FieldsOk(env, fs, size) && bit < 8 && i < |fs|
    ensures 8 * offset + bit <= 8 * fs[i].offset + fs[i].bit
    decreases |fs|
  {
    assert FieldOk(env, fs[0], size);
    if i > 0 {
      PackedBehind(env, GoLayout.NextOffset(fs[0]), GoLayout.NextBit(fs[0]), fs[1..], size, i - 1);
    }
  }

  lemma {:induction false} PackedDistinct(env: Env, offset: nat, bit: nat, fs: seq<Field>, size: nat, i: nat, j: nat)
    requires GoLayout.Packed(offset, bit, fs) && FieldsOk(env, fs, size) && i < j < |fs|
    ensures fs[i] != fs[j]
    decreases |fs|
  {
    assert FieldOk(env, fs[0], size);
    var offset', bit' := GoLayout.NextOffset(fs[0]), GoLayout.NextBit(fs[0]);
    if i == 0 {
      PackedBehind(env, offset', bit', fs[1..], size, j - 1);
    } else {
      PackedDistinct(env, offset', bit', fs[1..], size, i - 1, j - 1);
    }
  }

  /** A struct is seen with as many fields as the reader has, each with the value that the writer gave it. */
  lemma SeenField(picks: Picks, env: Env, id: nat, items: seq<Value>, k: nat, j: nat)
    requires PicksFrom(picks, env) && GoLayout.PackedEnv(env) && id in picks && ConformsBlock(env, BStruct(id), items)
    requires k < |picks[id]| && j < |env[id].fields| && picks[id][k] == env[id].fields[j]
    ensures |env[id].fields| == |items|
    ensures var seen := SeenBlock(picks, env, BStruct(id), items);
      |seen| == |picks[id]| && seen[k] == Seen(picks, env, env[id].fields[j].kind, items[j])
  {
    hide Seen, SeenAll, Conforms, GoLayout.Packed, FieldsOk;
    var fs := env[id].fields;
    assert WfDef(env, env[id]) && GoLayout.Packed(0, 0, fs);
    forall i, i' | 0 <= i < i' < |fs| ensures fs[i] != fs[i'] {
      PackedDistinct(env, 0, 0, fs, env[id].size, i, i');
    }
    SeenAt(picks, env, picks[id], fs, items, k, j);
  }

  /** A reader that knows every field sees everything. */
  lemma {:induction false} SeesAll(picks: Picks, env: Env, t: Type, v: Value)
    requires PicksAll(picks, env) && Conforms(env, t, v)
    ensures Seen(picks, env, t, v) == v
    decreases v, 1
  {
    hide PicksAll, ConformsBlock, SeenBlock;
    if v.VBlock? { SeesBlock(picks, env, t.target, v.items); }
  }

  lemma {:induction false} SeesEach(picks: Picks, env: Env, fs: seq<Field>, vs: seq<Value>)
    requires PicksAll(picks, env) && ConformsAll(env, fs, vs)
    ensures SeenAll(picks, env, fs, fs, vs) == vs
    decreases vs, 2
  {
    hide PicksAll, Conforms, Seen;
    if vs != [] {
      SeesAll(picks, env, fs[0].kind, vs[0]);
      SeesEach(picks, env, fs[1..], vs[1..]);
    }
  }

  lemma {:induction false} SeesBlock(picks: Picks, env: Env, b: Block, items: seq<Value>)
    requires PicksAll(picks, env) && ConformsBlock(env, b, items)
    ensures SeenBlock(picks, env, b, items) == items
    decreases items, 3
  {
    hide ConformsAll, SeenAll;
    SeesEach(picks, env, Fields(env, b, |items|), items);
  }

  lemma MapSeen(picks: Picks, env: Env, b: Block, items: seq<Value>)
    requires b.BMap? && ConformsBlock(env, b, items)
    ensures var seen := SeenBlock(picks, env, b, items);
      |seen| == 2 && seen[0].VBlock? && seen[1].VBlock? && |seen[0].items| == |seen[1].items|
  {
    hide SeenBlock;
    var fs := Fields(env, b, 2);
    assert ConformsAll(env, fs, items) && ConformsAll(env, fs[1..], items[1..]);
    SeenMap(picks, env, b, items);
    SeenArray(picks, env, fs[0].kind.target, items[0].items);
    SeenArray(picks, env, fs[1].kind.target, items[1].items);
  }

  lemma SeenMap(picks: Picks, env: Env, b: Block, items: seq<Value>)
    requires b.BMap? && |items| == 2
    ensures var fs := Fields(env, b, 2);
      SeenBlock(picks, env, b, items) ==
        [Seen(picks, env, fs[0].kind, items[0]), Seen(picks, env, fs[1].kind, items[1])]
  {
    hide Seen;
    var fs := Fields(env, b, 2);
    assert fs[1..][1..] == [] && items[1..][1..] == [];
    assert SeenAll(picks, env, fs[1..], fs[1..], items[1..]) == [Seen(picks, env, fs[1].kind, items[1])];
  }

  lemma SeenArray(picks: Picks, env: Env, b: Block, items: seq<Value>)
    requires b.BArray?
    ensures |SeenBlock(picks, env, b, items)| == |items|
  {
    hide SeenAll, Sub;
    var fs := Fields(env, b, |items|);
    SubSelf(fs);
    SeenCount(picks, env, fs, fs, items);
  }
}
