/**
The unpadded Base64URL and Base32 encodings of RFC 4648 (sections 5 and 6), as
one codec that cuts a bit string into digits of `k` bits.
*/
module Encoding {
  import opened Bytes
  import opened Wrappers

  function Zeros(n: nat): (z: seq<bool>)
    ensures |z| == n && forall i :: 0 <= i < n ==> !z[i]
  {
    seq(n, _ => false)
  }

  /** The digits of a bit string; the last one is filled up with zero bits. */
  function Digits(bits: seq<bool>, k: nat): (digits: seq<nat>)
    requires 0 < k <= 8
    ensures forall d :: d in digits ==> d < Pow2(k)
  {
    if bits == [] then []
    else if |bits| < k then [FromBits(bits + Zeros(k - |bits|))]
    else [FromBits(bits[..k])] + Digits(bits[k..], k)
  }

  function DigitBits(digits: seq<nat>, k: nat): seq<bool> {
    if digits == [] then [] else ToBits(digits[0], k) + DigitBits(digits[1..], k)
  }

  lemma {:induction false} DigitBitsLength(digits: seq<nat>, k: nat)
    ensures |DigitBits(digits, k)| == k * |digits|
  {
    if digits != [] {
      DigitBitsLength(digits[1..], k);
      assert k * |digits| == k + k * |digits[1..]|;
    }
  }

  /** The digits determine the bits, up to less than one digit of zeros. */
  lemma {:induction false} DigitsRoundTrip(bits: seq<bool>, k: nat)
    requires 0 < k <= 8
    ensures var all := DigitBits(Digits(bits, k), k);
            && |bits| <= |all| < |bits| + k && all[..|bits|] == bits
            && all[|bits|..] == Zeros(|all| - |bits|)
  {
    hide ToBits, FromBits, Pow2;
    if bits == [] {
    } else if |bits| < k {
      var padded := bits + Zeros(k - |bits|);
      ToFromBits(padded);
      assert DigitBits(Digits(bits, k), k) == padded by {
        assert Digits(bits, k)[1..] == [];
      }
    } else {
      DigitsRoundTrip(bits[k..], k);
      ToFromBits(bits[..k]);
      var all := DigitBits(Digits(bits, k), k);
      var rest := DigitBits(Digits(bits[k..], k), k);
      assert Digits(bits, k)[1..] == Digits(bits[k..], k);
      assert all == bits[..k] + rest;
      assert all[..|bits|] == bits[..k] + rest[..|bits| - k] == bits;
      assert all[|bits|..] == rest[|bits| - k..];
    }
  }

  lemma DigitsInjective(a: seq<byte>, b: seq<byte>, k: nat)
    requires 0 < k <= 8 && Digits(Bits(a), k) == Digits(Bits(b), k)
    ensures a == b
  {
    DigitsRoundTrip(Bits(a), k);
    DigitsRoundTrip(Bits(b), k);
    var all := DigitBits(Digits(Bits(a), k), k);
    assert |a| == |b|;
    assert Bits(a) == all[..|Bits(a)|] == Bits(b);
    BitsInjective(a, b);
  }

  // ----- alphabets -----

  function Base64Char(d: nat): char
    requires d < 64
  {
    if d < 26 then 'A' + d as char
    else if d < 52 then 'a' + (d - 26) as char
    else if d < 62 then '0' + (d - 52) as char
    else if d == 62 then '-' else '_'
  }

  function Base64Value(c: char): (d: Option<nat>)
    ensures d.Some? ==> d.value < 64
  {
    if 'A' <= c <= 'Z' then Some(c as nat - 'A' as nat)
    else if 'a' <= c <= 'z' then Some(26 + c as nat - 'a' as nat)
    else if '0' <= c <= '9' then Some(52 + c as nat - '0' as nat)
    else if c == '-' then Some(62) else if c == '_' then Some(63) else None
  }

  function Base32Char(d: nat): char
    requires d < 32
  {
    if d < 26 then 'a' + d as char else '2' + (d - 26) as char
  }

  function Base64Text(digits: seq<nat>): (text: string)
    requires forall d :: d in digits ==> d < 64
    ensures |text| == |digits|
  {
    seq(|digits|, (i: nat) requires i < |digits| => assert digits[i] in digits; Base64Char(digits[i]))
  }

  function Base64Values(text: string): (digits: Option<seq<nat>>)
    ensures digits.Some? ==> |digits.value| == |text| && forall d :: d in digits.value ==> d < 64
  {
    if text == "" then Some([])
    else
      match (Base64Value(text[0]), Base64Values(text[1..]))
      case (Some(d), Some(rest)) => Some([d] + rest)
      case _ => None
  }

  lemma {:induction false} Base64TextRoundTrip(digits: seq<nat>)
    requires forall d :: d in digits ==> d < 64
    ensures Base64Values(Base64Text(digits)) == Some(digits)
  {
    if digits != [] {
      assert digits[0] in digits && forall d :: d in digits[1..] ==> d in digits;
      Base64TextRoundTrip(digits[1..]);
      assert Base64Text(digits)[1..] == Base64Text(digits[1..]);
      assert digits == [digits[0]] + digits[1..];
    }
  }

  function Base64Encode(bs: seq<byte>): string {
    Pow2Values();
    Base64Text(Digits(Bits(bs), 6))
  }

  /** Rejects foreign characters, an incomplete last byte and non-zero trailing bits. */
  function Base64Decode(text: string): Option<seq<byte>> {
    match Base64Values(text)
    case None => None
    case Some(digits) =>
      var bits := DigitBits(digits, 6);
      var whole := |bits| / 8 * 8;
      if |bits| - whole < 6 && bits[whole..] == Zeros(|bits| - whole) then Some(Octets(bits[..whole])) else None
  }

  function Base32Encode(bs: seq<byte>): string {
    Pow2Values();
    var digits := Digits(Bits(bs), 5);
    seq(|digits|, (i: nat) requires i < |digits| => assert digits[i] in digits; Base32Char(digits[i]))
  }

  /** What is encoded is decoded to itself; n bytes take the ceiling of 4n/3 characters. */
  lemma Base64RoundTrip(bs: seq<byte>)
    ensures Base64Decode(Base64Encode(bs)) == Some(bs)
    ensures 4 * |bs| <= 3 * |Base64Encode(bs)| <= 4 * |bs| + 2
  {
    hide Bits, Digits, DigitBits, Base64Text, Base64Values, Octets, Pow2;
    Pow2Values();
    var bits := Bits(bs);
    var digits := Digits(bits, 6);
    DigitsRoundTrip(bits, 6);
    DigitBitsLength(digits, 6);
    Base64TextRoundTrip(digits);
    var all := DigitBits(digits, 6);
    assert |all| / 8 * 8 == |bits|;
    assert all[..|bits|] == bits;
    OctetsOfBits(bs);
  }

  /** Different byte strings have different Base32 texts. */
  lemma Base32Injective(a: seq<byte>, b: seq<byte>)
    requires Base32Encode(a) == Base32Encode(b)
    ensures a == b
  {
    hide Bits, Digits, Pow2;
    Pow2Values();
    var d, e := Digits(Bits(a), 5), Digits(Bits(b), 5);
    assert |d| == |Base32Encode(a)| == |e|;
    forall i | 0 <= i < |d|
      ensures d[i] == e[i]
    {
      assert d[i] in d && e[i] in e;
      assert Base32Encode(a)[i] == Base32Char(d[i]) && Base32Encode(b)[i] == Base32Char(e[i]);
    }
    DigitsInjective(a, b, 5);
  }

  // ----- the standard -----

  const CAPITALS := "ABCDEFGHIJKLMNOPQRSTUVWXYZ"
  const SMALL := "abcdefghijklmnopqrstuvwxyz"

  /** The alphabets, in order; the account keys write their Base32 in small letters. */
  lemma Alphabets(d: nat)
    requires d < 64
    ensures Base64Char(d) == (CAPITALS + SMALL + "0123456789-_")[d]
    ensures d < 32 ==> Base32Char(d) == (SMALL + "234567")[d]
  {
    CapitalAt(d);
    SmallAt(d);
    SmallAt(d - 26);
  }

  lemma CapitalAt(i: int)
    ensures 0 <= i < 26 ==> CAPITALS[i] == 'A' + i as char
  {
    if i < 13 {
    }
  }

  lemma SmallAt(i: int)
    ensures 0 <= i < 26 ==> SMALL[i] == 'a' + i as char
  {
    if i < 13 {
    }
  }

  /** Digits whose bits are the given ones, but for less than a digit of zeros at the end, are its digits. */
  lemma {:induction false} DigitsOfBits(digits: seq<nat>, bits: seq<bool>, k: nat)
    requires 0 < k <= 8 && forall d :: d in digits ==> d < Pow2(k)
    requires var all := DigitBits(digits, k);
             |bits| <= |all| < |bits| + k && all == bits + Zeros(|all| - |bits|)
    ensures Digits(bits, k) == digits
  {
    hide ToBits, FromBits, Pow2;
    DigitBitsLength(digits, k);
    if digits != [] {
      var all, rest := DigitBits(digits, k), DigitBits(digits[1..], k);
      assert digits[0] in digits && forall d :: d in digits[1..] ==> d in digits;
      FromToBits(digits[0], k);
      DigitBitsLength(digits[1..], k);
      assert all[..k] == ToBits(digits[0], k) && all[k..] == rest;
      if |bits| < k {
        OneDigit(k, |digits|, |bits|);
        assert digits == [digits[0]] && rest == [];
        assert bits + Zeros(k - |bits|) == all == ToBits(digits[0], k);
      } else {
        assert bits[..k] == all[..k];
        assert rest == bits[k..] + Zeros(|rest| - |bits[k..]|);
        DigitsOfBits(digits[1..], bits[k..], k);
        assert digits == [digits[0]] + digits[1..];
      }
    }
  }

  lemma OneDigit(k: nat, n: nat, b: nat)
    requires n > 0 && b < k && k * n < b + k
    ensures n == 1 && b > 0
  {
    assert k * n == k + k * (n - 1);
  }

  lemma {:induction false} ValuesAreText(text: string)
    requires Base64Values(text).Some?
    ensures Base64Text(Base64Values(text).value) == text
  {
    if text != "" {
      ValuesAreText(text[1..]);
      var rest := Base64Values(text[1..]).value;
      assert Base64Char(Base64Value(text[0]).value) == text[0];
      assert Base64Values(text).value == [Base64Value(text[0]).value] + rest;
      assert text == [text[0]] + text[1..];
    }
  }

  /** What decodes is what encoding writes: there is one text for each byte string, and no other is accepted. */
  lemma Base64Canonical(text: string)
    requires Base64Decode(text).Some?
    ensures Base64Encode(Base64Decode(text).value) == text
  {
    hide Base64Text, Base64Values, Digits, DigitBits, Octets, Bits;
    Pow2Values();
    var digits := Base64Values(text).value;
    var bits := DigitBits(digits, 6);
    var whole := |bits| / 8 * 8;
    BitsOfOctets(bits[..whole]);
    assert bits == bits[..whole] + Zeros(|bits| - whole);
    DigitsOfBits(digits, bits[..whole], 6);
    ValuesAreText(text);
  }
}
