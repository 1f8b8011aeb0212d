/** Bytes and the little-endian memory image of a 32-bit `int`, as `memcpy` writes and
    reads it on the simulator's host. */
module Bytes {
  type byte = bv8

  const TWO_TO_THE_31 := 0x8000_0000
  const TWO_TO_THE_32 := 0x1_0000_0000

  predicate IsInt32(i: int) {
    -TWO_TO_THE_31 <= i < TWO_TO_THE_31
  }

  function Min(a: int, b: int): int {
    if a <= b then a else b
  }

  /** The `n` lowest bytes of `u`, lowest first. */
  function NatBytes(u: nat, n: nat): (bs: seq<byte>)
    ensures |bs| == n
  {
    if n == 0 then [] else [(u % 256) as byte] + NatBytes(u / 256, n - 1)
  }

  function BytesNat(bs: seq<byte>): nat {
    if bs == [] then 0 else bs[0] as int + 256 * BytesNat(bs[1..])
  }

  function Power256(n: nat): nat {
    if n == 0 then 1 else 256 * Power256(n - 1)
  }

  /** The byte of value `v`, found by counting. */
  lemma ByteOf(v: int) returns (b: byte)
    requires 0 <= v < 256
    ensures b as int == v
  {
    b := 0;
    var n := 0;
    while n < v
      invariant 0 <= n <= v && b as int == n
    {
      b, n := b + 1, n + 1;
    }
  }

  lemma ByteRoundTrip(v: int)
    requires 0 <= v < 256
    ensures (v as byte) as int == v
  {
    var b := ByteOf(v);
    assert (b as int) as byte == b;
  }

  lemma {:induction false} NatRoundTrip(u: nat, n: nat)
    requires u < Power256(n)
    ensures BytesNat(NatBytes(u, n)) == u
  {
    if n > 0 {
      ByteRoundTrip(u % 256);
      NatRoundTrip(u / 256, n - 1);
      assert NatBytes(u, n)[1..] == NatBytes(u / 256, n - 1);
    }
  }

  /** The four bytes of an `int` (of the low 32 bits, were it wider). */
  function IntBytes(i: int): (bs: seq<byte>)
    ensures |bs| == 4
  {
    NatBytes(i % TWO_TO_THE_32, 4)
  }

  /** Four bytes read as an `int`, in two's complement. */
  function BytesInt(bs: seq<byte>): int
    requires |bs| == 4
  {
    var u := BytesNat(bs);
    if u < TWO_TO_THE_31 then u else u - TWO_TO_THE_32
  }

  lemma IntRoundTrip(i: int)
    requires IsInt32(i)
    ensures BytesInt(IntBytes(i)) == i
  {
    assert Power256(4) == TWO_TO_THE_32;
    NatRoundTrip(i % TWO_TO_THE_32, 4);
  }

  /** A number that is not negative is read from its four bytes by their weights. */
  lemma BytesIntIs(bs: seq<byte>)
    requires |bs| == 4 && BytesInt(bs) >= 0
    ensures BytesInt(bs) == bs[0] as int + 0x100 * bs[1] as int + 0x1_0000 * bs[2] as int + 0x100_0000 * bs[3] as int
  {
    assert BytesNat(bs[3..]) == bs[3] as int;
    assert bs[2..][1..] == bs[3..] && bs[1..][1..] == bs[2..];
    assert BytesNat(bs[2..]) == bs[2] as int + 256 * BytesNat(bs[3..]);
    assert BytesNat(bs[1..]) == bs[1] as int + 256 * BytesNat(bs[2..]);
  }

  /** Numbers less than `n` apart use different slots of a ring of `n`. */
  lemma SlotsDiffer(s: int, t: int, n: int)
    requires s < t < s + n
    ensures s % n != t % n
  {
    var q := t / n - s / n;
    assert t - s == n * q + (t % n - s % n);
    if q >= 1 {
      assert n * q >= n;
    }
  }

  /** `memcpy(dst + at, src, |src|)`. */
  method CopyBytes(dst: array<byte>, at: nat, src: seq<byte>)
    requires at + |src| <= dst.Length
    modifies dst
    ensures dst[..at] == old(dst[..at])
    ensures dst[at..at + |src|] == src
    ensures dst[at + |src|..] == old(dst[at + |src|..])
  {
    forall i | 0 <= i < |src| {
      dst[at + i] := src[i];
    }
  }
}
