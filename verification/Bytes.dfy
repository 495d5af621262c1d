/** Big-endian integers and the XOR of section 15.5 of RFC 5389, on byte sequences. */
module Bytes {
  newtype Byte = x: int | 0 <= x < 0x100
  type U16 = x: int | 0 <= x < 0x1_0000
  type U32 = x: int | 0 <= x < 0x1_0000_0000
  type U64 = x: int | 0 <= x < 0x1_0000_0000_0000_0000
  type Data = seq<Byte>

  // Conversion to uint16_t.
  function Wrap16(n: nat): (r: U16)
    ensures n < 0x1_0000 ==> r == n
  {
    n % 0x1_0000
  }

  function BE16(n: U16): (b: Data)
    ensures |b| == 2 && Get16(b, 0) == n
  {
    [(n / 0x100) as Byte, (n % 0x100) as Byte]
  }

  function BE32(n: U32): (b: Data)
    ensures |b| == 4 && Get32(b, 0) == n
  {
    BE16(n / 0x1_0000) + BE16(n % 0x1_0000)
  }

  function BE64(n: U64): (b: Data)
    ensures |b| == 8
  {
    BE32(n / 0x1_0000_0000) + BE32(n % 0x1_0000_0000)
  }

  function Get16(b: Data, i: nat): U16
    requires i + 2 <= |b|
  {
    (b[i] as int) * 0x100 + (b[i + 1] as int)
  }

  function Get32(b: Data, i: nat): U32
    requires i + 4 <= |b|
  {
    Get16(b, i) * 0x1_0000 + Get16(b, i + 2)
  }

  lemma BytesOf16(b: Data, i: nat)
    requires i + 2 <= |b|
    ensures BE16(Get16(b, i)) == b[i..i + 2]
  {
  }

  lemma BytesOf32(b: Data, i: nat)
    requires i + 4 <= |b|
    ensures BE32(Get32(b, i)) == b[i..i + 4]
  {
    BytesOf16(b, i);
    BytesOf16(b, i + 2);
    assert Get32(b, i) / 0x1_0000 == Get16(b, i) && Get32(b, i) % 0x1_0000 == Get16(b, i + 2);
    hide BE16, Get16, Get32;
  }

  lemma AppendParts(h: Data, w: Data, x: Data)
    ensures h + (w + x) == (h + w) + x
    ensures ((h + w) + x)[..|h| + |w|] == h + w
  {
  }

  function Zeros(n: nat): (b: Data)
    ensures |b| == n
  {
    seq(n, _ => 0)
  }

  function Pow2(k: nat): (p: nat)
    ensures p > 0
  {
    if k == 0 then 1 else 2 * Pow2(k - 1)
  }

  // The exclusive or of the low k bits.
  function XorBits(a: nat, b: nat, k: nat): (r: nat)
    ensures r < Pow2(k)
  {
    if k == 0 then 0 else (a + b) % 2 + 2 * XorBits(a / 2, b / 2, k - 1)
  }

  lemma LowBitTwice(a: nat, b: nat, x: nat)
    requires x % 2 == (a + b) % 2
    ensures (x + b) % 2 == a % 2
  {
  }

  lemma {:induction false} XorTwice(a: nat, b: nat, k: nat)
    requires a < Pow2(k)
    ensures XorBits(XorBits(a, b, k), b, k) == a
  {
    if k > 0 {
      LowBitTwice(a, b, XorBits(a, b, k));
      XorTwice(a / 2, b / 2, k - 1);
    }
  }

  // Bit i of x, counted from the lowest.
  function Bit(x: nat, i: nat): nat
    decreases i
  {
    if i == 0 then x % 2 else Bit(x / 2, i - 1)
  }

  lemma HalfOf(x: nat, bit: nat)
    requires bit < 2
    ensures (bit + 2 * x) / 2 == x && (bit + 2 * x) % 2 == bit
  {
  }

  /** What makes it the exclusive or: each bit of the result is set exactly if one of the two bits is. */
  lemma {:induction false} XorIsBitwise(a: nat, b: nat, k: nat, i: nat)
    requires i < k
    ensures Bit(XorBits(a, b, k), i) == (Bit(a, i) + Bit(b, i)) % 2
    decreases k
  {
    HalfOf(XorBits(a / 2, b / 2, k - 1), (a + b) % 2);
    if i > 0 {
      XorIsBitwise(a / 2, b / 2, k - 1, i - 1);
    }
  }

  lemma Pow2Values()
    ensures Pow2(16) == 0x1_0000 && Pow2(32) == 0x1_0000_0000
  {
    assert Pow2(8) == 0x100;
    assert Pow2(16) == 0x1_0000;
    assert Pow2(24) == 0x100_0000;
  }

  function Xor16(a: U16, b: U16): U16 {
    Pow2Values();
    XorBits(a, b, 16)
  }

  function Xor32(a: U32, b: U32): U32 {
    Pow2Values();
    XorBits(a, b, 32)
  }

  lemma Xor32Twice(a: U32, b: U32)
    ensures Xor32(Xor32(a, b), b) == a
  {
    Pow2Values();
    XorTwice(a, b, 32);
  }

  lemma Xor16Twice(a: U16, b: U16)
    ensures Xor16(Xor16(a, b), b) == a
  {
    Pow2Values();
    XorTwice(a, b, 16);
  }
}
