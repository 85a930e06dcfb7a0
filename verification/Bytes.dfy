/** Bytes, exclusive or, and big-endian numbers. */
module Bytes {
  import opened Powers

  type byte = b: int | 0 <= b < 256
  type bytes = seq<byte>

  /** Exclusive or of the lowest `width` bits of two numbers, bit by bit. */
  function XorBits(a: nat, b: nat, width: nat): (r: nat)
    ensures r < Pow2(width)
  {
    if width == 0 then 0
    else 2 * XorBits(a / 2, b / 2, width - 1) + (if a % 2 == b % 2 then 0 else 1)
  }

  function Xor(a: byte, b: byte): byte {
    assert Pow2(8) == 256 by { assert Pow2(4) == 16; }
    XorBits(a, b, 8)
  }

  /** The binary digit of `n` that stands for the j-th power of two. */
  function Bit(n: nat, j: nat): nat {
    if j == 0 then n % 2 else Bit(n / 2, j - 1)
  }

  lemma {:induction false} BitIsDigit(n: nat, j: nat)
    ensures Bit(n, j) == n / Pow2(j) % 2
  {
    if j > 0 {
      BitIsDigit(n / 2, j - 1);
      DivideTwice(n, 2, Pow2(j - 1));
    }
  }

  lemma XorHalves(a: nat, b: nat, width: nat)
    requires width > 0
    ensures XorBits(a, b, width) / 2 == XorBits(a / 2, b / 2, width - 1)
    ensures XorBits(a, b, width) % 2 == (a % 2 + b % 2) % 2
  {
    var half := XorBits(a / 2, b / 2, width - 1);
    var bit := if a % 2 == b % 2 then 0 else 1;
    assert (2 * half + bit) / 2 == half && (2 * half + bit) % 2 == bit;
  }

  /** Each digit of the exclusive or is the parity of the two digits; there are no others. */
  lemma {:induction false} XorBitAt(a: nat, b: nat, width: nat, j: nat)
    requires j < width
    ensures Bit(XorBits(a, b, width), j) == (Bit(a, j) + Bit(b, j)) % 2
  {
    XorHalves(a, b, width);
    if j > 0 {
      XorBitAt(a / 2, b / 2, width - 1, j - 1);
    }
  }

  lemma XorAt(a: byte, b: byte, j: nat)
    requires j < 8
    ensures Bit(Xor(a, b), j) == (Bit(a, j) + Bit(b, j)) % 2
  {
    XorBitAt(a, b, 8, j);
  }

  lemma {:induction false} XorBitsOwn(a: nat, k: nat, width: nat)
    requires k < Pow2(width)
    ensures XorBits(XorBits(a, k, width), a, width) == k
  {
    if width > 0 {
      XorBitsOwn(a / 2, k / 2, width - 1);
      var r := XorBits(a, k, width);
      assert r / 2 == XorBits(a / 2, k / 2, width - 1);
      assert r % 2 == if a % 2 == k % 2 then 0 else 1;
    }
  }

  /** What was combined with a byte comes out again by that byte. */
  lemma XorOwn(a: byte, k: byte)
    ensures Xor(Xor(a, k), a) == k
  {
    assert Pow2(8) == 256 by { assert Pow2(4) == 16; }
    XorBitsOwn(a, k, 8);
  }

  lemma {:induction false} XorBitsTwice(a: nat, k: nat, width: nat)
    requires a < Pow2(width)
    ensures XorBits(XorBits(a, k, width), k, width) == a
  {
    if width > 0 {
      XorBitsTwice(a / 2, k / 2, width - 1);
      var r := XorBits(a, k, width);
      assert r / 2 == XorBits(a / 2, k / 2, width - 1);
      assert r % 2 == if a % 2 == k % 2 then 0 else 1;
    }
  }

  lemma XorTwice(a: byte, k: byte)
    ensures Xor(Xor(a, k), k) == a
  {
    assert Pow2(8) == 256 by { assert Pow2(4) == 16; }
    XorBitsTwice(a, k, 8);
  }

  /** `n.to_bytes(size, "big")`, for a number that fits. */
  function ToBytes(n: nat, size: nat): (b: bytes)
    ensures |b| == size
  {
    if size == 0 then [] else ToBytes(n / 256, size - 1) + [n % 256]
  }

  /** `int.from_bytes(b, "big")`. */
  function FromBytes(b: bytes): nat {
    if b == [] then 0 else 256 * FromBytes(b[..|b| - 1]) + b[|b| - 1]
  }

  /** The most significant byte comes first. */
  lemma {:induction false} ToBytesAt(n: nat, size: nat, i: nat)
    requires i < size
    ensures ToBytes(n, size)[i] == n / Pow256(size - 1 - i) % 256
  {
    if i < size - 1 {
      ToBytesAt(n / 256, size - 1, i);
      DivideTwice(n, 256, Pow256(size - 2 - i));
    }
  }

  ghost predicate BigEndian(b: bytes, n: nat) {
    forall i | 0 <= i < |b| :: b[i] == n / Pow256(|b| - 1 - i) % 256
  }

  lemma ToBytesIsBigEndian(n: nat, size: nat)
    ensures BigEndian(ToBytes(n, size), n)
  {
    forall i | 0 <= i < size ensures ToBytes(n, size)[i] == n / Pow256(size - 1 - i) % 256 {
      ToBytesAt(n, size, i);
    }
  }

  lemma {:induction false} FromToBytes(n: nat, size: nat)
    requires n < Pow256(size)
    ensures FromBytes(ToBytes(n, size)) == n
  {
    if size > 0 {
      FromToBytes(n / 256, size - 1);
      assert ToBytes(n, size)[..size - 1] == ToBytes(n / 256, size - 1);
    }
  }

  lemma {:induction false} FromBytesFits(b: bytes)
    ensures FromBytes(b) < Pow256(|b|)
  {
    if b != [] {
      FromBytesFits(b[..|b| - 1]);
    }
  }
}
