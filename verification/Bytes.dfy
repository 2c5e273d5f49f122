/** Bytes, little-endian words and most-significant-bit-first bit strings. */
module Bytes {

  type byte = x: int | 0 <= x < 256

  function Pow2(k: nat): (p: nat)
    ensures p >= 1
  {
    if k == 0 then 1 else 2 * Pow2(k - 1)
  }

  function ShiftRight(n: nat, bits: nat): nat
    decreases bits
  {
    if bits == 0 then n else ShiftRight(n / 2, bits - 1)
  }

  lemma Pow2Values()
    ensures Pow2(5) == 32 && Pow2(6) == 64 && Pow2(8) == 256
    ensures Pow2(32) == 0x1_0000_0000
  {
    assert Pow2(4) == 16;
    assert Pow2(12) == 0x1000;
    assert Pow2(16) == 0x1_0000;
    assert Pow2(20) == 0x10_0000;
    assert Pow2(24) == 0x100_0000;
    assert Pow2(28) == 0x1000_0000;
  }

  // ----- little-endian words -----

  /** The low `k` bytes of `n`, least significant first. */
  function ToLe(n: nat, k: nat): (bs: seq<byte>)
    ensures |bs| == k
  {
    if k == 0 then [] else [n % 256] + ToLe(n / 256, k - 1)
  }

  function FromLe(bs: seq<byte>): nat {
    if bs == [] then 0 else bs[0] + 256 * FromLe(bs[1..])
  }

  /** A word survives a load followed by a store of the same width. */
  lemma {:induction false} LeRoundTrip(bs: seq<byte>)
    ensures ToLe(FromLe(bs), |bs|) == bs
  {
    if bs != [] {
      var n, rest := FromLe(bs), FromLe(bs[1..]);
      assert n % 256 == bs[0] && n / 256 == rest;
      LeRoundTrip(bs[1..]);
      assert bs == [bs[0]] + bs[1..];
    }
  }

  /** A value below 256^4 survives a 32-bit store followed by a load. */
  lemma LeWord(n: nat)
    requires n < 0x1_0000_0000
    ensures FromLe(ToLe(n, 4)) == n
  {
    var n1, n2, n3 := n / 256, n / 256 / 256, n / 256 / 256 / 256;
    var b3: seq<byte> := ToLe(n3, 1);
    var b2: seq<byte> := ToLe(n2, 2);
    var b1: seq<byte> := ToLe(n1, 3);
    var b0: seq<byte> := ToLe(n, 4);
    assert b3 == [n3] && FromLe(b3) == n3 by { assert b3[1..] == []; }
    assert FromLe(b2) == n2 by { assert b2[1..] == b3; }
    assert FromLe(b1) == n1 by { assert b1[1..] == b2; }
    assert FromLe(b0) == n by { assert b0[1..] == b1; }
  }

  /** Two 32-bit words with the same bytes are the same word. */
  lemma LeInjective(a: nat, b: nat)
    requires a < 0x1_0000_0000 && b < 0x1_0000_0000
    requires ToLe(a, 4) == ToLe(b, 4)
    ensures a == b
  {
    LeWord(a);
    LeWord(b);
  }

  // ----- bits, most significant first -----

  function ToBits(n: nat, k: nat): (bits: seq<bool>)
    ensures |bits| == k
  {
    if k == 0 then [] else ToBits(n / 2, k - 1) + [n % 2 == 1]
  }

  function FromBits(bits: seq<bool>): (n: nat)
    ensures n < Pow2(|bits|)
  {
    if bits == [] then 0
    else 2 * FromBits(bits[..|bits| - 1]) + (if bits[|bits| - 1] then 1 else 0)
  }

  lemma {:induction false} FromToBits(n: nat, k: nat)
    requires n < Pow2(k)
    ensures FromBits(ToBits(n, k)) == n
  {
    if k > 0 {
      FromToBits(n / 2, k - 1);
      var bits := ToBits(n, k);
      assert bits[..k - 1] == ToBits(n / 2, k - 1);
    }
  }

  lemma {:induction false} ToFromBits(bits: seq<bool>)
    ensures ToBits(FromBits(bits), |bits|) == bits
  {
    if bits != [] {
      var init := bits[..|bits| - 1];
      ToFromBits(init);
      assert FromBits(bits) / 2 == FromBits(init);
      assert bits == init + [bits[|bits| - 1]];
    }
  }

  function ByteBits(b: byte): (bits: seq<bool>)
    ensures |bits| == 8
  {
    ToBits(b, 8)
  }

  lemma ByteBitsInjective(a: byte, b: byte)
    requires ByteBits(a) == ByteBits(b)
    ensures a == b
  {
    Pow2Values();
    FromToBits(a, 8);
    FromToBits(b, 8);
  }

  /** The bits of a byte string in network order. */
  function Bits(bs: seq<byte>): (bits: seq<bool>)
    ensures |bits| == 8 * |bs|
  {
    if bs == [] then [] else ByteBits(bs[0]) + Bits(bs[1..])
  }

  lemma {:induction false} BitsConcat(a: seq<byte>, b: seq<byte>)
    ensures Bits(a + b) == Bits(a) + Bits(b)
  {
    if a == [] {
      assert a + b == b;
    } else {
      BitsConcat(a[1..], b);
      assert (a + b)[1..] == a[1..] + b;
    }
  }

  lemma {:induction false} BitsInjective(a: seq<byte>, b: seq<byte>)
    requires Bits(a) == Bits(b)
    ensures a == b
  {
    assert |a| == |b|;
    if a != [] {
      assert ByteBits(a[0]) == Bits(a)[..8] == Bits(b)[..8] == ByteBits(b[0]);
      ByteBitsInjective(a[0], b[0]);
      assert Bits(a[1..]) == Bits(a)[8..] == Bits(b)[8..] == Bits(b[1..]);
      BitsInjective(a[1..], b[1..]);
      assert a == [a[0]] + a[1..] && b == [b[0]] + b[1..];
    }
  }

  /** The bytes of a bit string whose length is a multiple of eight. */
  function Octets(bits: seq<bool>): (bs: seq<byte>)
    requires |bits| % 8 == 0
    ensures |bs| == |bits| / 8
  {
    if bits == [] then []
    else
      Pow2Values();
      [FromBits(bits[..8])] + Octets(bits[8..])
  }

  lemma {:induction false} BitsOfOctets(bits: seq<bool>)
    requires |bits| % 8 == 0
    ensures Bits(Octets(bits)) == bits
  {
    if bits != [] {
      BitsOfOctets(bits[8..]);
      ToFromBits(bits[..8]);
      assert Octets(bits)[1..] == Octets(bits[8..]);
      assert bits == bits[..8] + bits[8..];
    }
  }

  lemma {:induction false} OctetsOfBits(bs: seq<byte>)
    ensures Octets(Bits(bs)) == bs
  {
    if bs != [] {
      Pow2Values();
      OctetsOfBits(bs[1..]);
      FromToBits(bs[0], 8);
      assert Bits(bs)[..8] == ByteBits(bs[0]) && Bits(bs)[8..] == Bits(bs[1..]);
      assert bs == [bs[0]] + bs[1..];
    }
  }
}
