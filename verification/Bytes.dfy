/** Bytes, little-endian integers and single bits, as the archive format uses them. */
module Bytes {
  type Byte = n: nat | n < 256

  // ---------------------------------------------------------------- little-endian integers

  /** 256 to the power `width`. */
  function Pow256(width: nat): nat {
    if width == 0 then 1 else 256 * Pow256(width - 1)
  }

  /** The low `width` bytes of `n`, least significant byte first (so `n` is truncated modulo 256^width). */
  function ToLE(n: nat, width: nat): (bytes: seq<Byte>)
    ensures |bytes| == width
  {
    if width == 0 then [] else [n % 256] + ToLE(n / 256, width - 1)
  }

  /** The number whose little-endian bytes are `bytes`. */
  function LE(bytes: seq<Byte>): nat {
    if bytes == [] then 0 else bytes[0] + 256 * LE(bytes[1..])
  }

  lemma {:induction false} LERoundTrip(n: nat, width: nat)
    requires n < Pow256(width)
    ensures LE(ToLE(n, width)) == n
  {
    if width > 0 {
      assert ToLE(n, width)[1..] == ToLE(n / 256, width - 1);
      LERoundTrip(n / 256, width - 1);
    }
  }

  lemma {:induction false} LEBound(bytes: seq<Byte>)
    ensures LE(bytes) < Pow256(|bytes|)
  {
    if bytes != [] {
      LEBound(bytes[1..]);
    }
  }

  lemma {:induction false} LEJoin(lo: seq<Byte>, hi: seq<Byte>)
    ensures LE(lo + hi) == LE(lo) + Pow256(|lo|) * LE(hi)
  {
    if lo == [] {
      assert lo + hi == hi;
    } else {
      assert (lo + hi)[1..] == lo[1..] + hi;
      LEJoin(lo[1..], hi);
      assert 256 * (Pow256(|lo| - 1) * LE(hi)) == Pow256(|lo|) * LE(hi);
    }
  }

  lemma Pow256Values()
    ensures Pow256(1) == 0x100
    ensures Pow256(2) == 0x1_0000
    ensures Pow256(4) == 0x1_0000_0000
    ensures Pow256(8) == 0x1_0000_0000_0000_0000
  {
    assert Pow256(3) == 0x100_0000;
    assert Pow256(5) == 0x100_0000_0000;
    assert Pow256(6) == 0x1_0000_0000_0000;
  }

  /** The unsigned integer stored in the `width` bytes at `at`. */
  function UintAt(buf: seq<Byte>, at: nat, width: nat): nat
    requires at + width <= |buf|
  {
    LE(buf[at..at + width])
  }

  lemma {:induction false} LEOfZeros(bytes: seq<Byte>)
    requires forall i | 0 <= i < |bytes| :: bytes[i] == 0
    ensures LE(bytes) == 0
  {
    if bytes != [] { LEOfZeros(bytes[1..]); }
  }

  lemma ZeroNumber(buf: seq<Byte>, at: nat, width: nat)
    requires at + width <= |buf| && forall i | at <= i < at + width :: buf[i] == 0
    ensures UintAt(buf, at, width) == 0
  {
    LEOfZeros(buf[at..at + width]);
  }

  /** A number of which only the lowest byte is not zero. */
  lemma SmallNumber(buf: seq<Byte>, at: nat, width: nat)
    requires 1 <= width && at + width <= |buf| && forall i | at < i < at + width :: buf[i] == 0
    ensures UintAt(buf, at, width) == buf[at]
  {
    LEOfZeros(buf[at..at + width][1..]);
  }

  /** `buf` with the low `width` bytes of `n` stored at `at`. */
  function PutUint(buf: seq<Byte>, at: nat, width: nat, n: nat): (r: seq<Byte>)
    requires at + width <= |buf|
    ensures |r| == |buf|
    ensures forall i :: 0 <= i < |buf| && !(at <= i < at + width) ==> r[i] == buf[i]
  {
    buf[..at] + ToLE(n, width) + buf[at + width..]
  }

  lemma PutThenGet(buf: seq<Byte>, at: nat, width: nat, n: nat)
    requires at + width <= |buf| && n < Pow256(width)
    ensures UintAt(PutUint(buf, at, width, n), at, width) == n
  {
    assert PutUint(buf, at, width, n)[at..at + width] == ToLE(n, width);
    LERoundTrip(n, width);
  }

  // ---------------------------------------------------------------- bits

  /** `(n >> k) & 1 == 1` */
  predicate Bit(n: nat, k: nat) {
    if k == 0 then n % 2 == 1 else Bit(n / 2, k - 1)
  }

  /** `n | 1 << k` */
  function OrBit(n: nat, k: nat): nat {
    if k == 0 then n / 2 * 2 + 1 else OrBit(n / 2, k - 1) * 2 + n % 2
  }

  lemma {:induction false} OrBitBits(n: nat, k: nat, j: nat)
    ensures Bit(OrBit(n, k), j) == (j == k || Bit(n, j))
  {
    if k > 0 && j > 0 {
      OrBitBits(n / 2, k - 1, j - 1);
    }
  }

  function Pow2(k: nat): nat {
    if k == 0 then 1 else 2 * Pow2(k - 1)
  }

  lemma {:induction false} OrBitBound(n: nat, k: nat, width: nat)
    requires n < Pow2(width) && k < width
    ensures OrBit(n, k) < Pow2(width)
  {
    if k > 0 {
      OrBitBound(n / 2, k - 1, width - 1);
    }
  }

  /** The byte `b | 1 << k`. */
  function SetBit(b: Byte, k: nat): (r: Byte)
    requires k < 8
    ensures forall j: nat :: Bit(r, j) == (j == k || Bit(b, j))
  {
    assert Pow2(8) == 256 by { assert Pow2(4) == 16; }
    OrBitBound(b, k, 8);
    assert forall j: nat :: Bit(OrBit(b, k), j) == (j == k || Bit(b, j)) by {
      forall j: nat { OrBitBits(b, k, j); }
    }
    OrBit(b, k)
  }

  lemma {:induction false} ZeroHasNoBits(k: nat)
    ensures !Bit(0, k)
  {
    if k > 0 { ZeroHasNoBits(k - 1); }
  }

  // ---------------------------------------------------------------- stretches of a buffer

  /** `n` zero bytes. */
  function Zeros(n: nat): (z: seq<Byte>)
    ensures |z| == n && forall i | 0 <= i < n :: z[i] == 0
  {
    seq(n, _ => 0)
  }

  /** Stretches of bytes, each by its start and its size, one behind the other and below `limit`. */
  predicate InOrder(claims: seq<(nat, nat)>, limit: nat) {
    && (forall i | 0 <= i < |claims| :: 0 < claims[i].1 && claims[i].0 + claims[i].1 <= limit)
    && (forall i, k | 0 <= i < k < |claims| :: claims[i].0 + claims[i].1 <= claims[k].0)
  }
}
