/** Bytes, the bits inside them, and big-endian numbers. */
module Bytes {

  type Byte = bv8

  /** 1 << (7 - j): the mask of bit j, counted from the most significant end as the source does. */
  function Mask(j: nat): Byte
    requires j < 8
  {
    match j
    case 0 => 0x80
    case 1 => 0x40
    case 2 => 0x20
    case 3 => 0x10
    case 4 => 0x08
    case 5 => 0x04
    case 6 => 0x02
    case 7 => 0x01
  }

  predicate BitAt(b: Byte, j: nat)
    requires j < 8
  {
    b & Mask(j) != 0
  }

  function Digit(x: bool): nat {
    if x then 1 else 0
  }

  lemma XorMask(x: Byte, y: Byte, m: Byte)
    requires m == 0x80 || m == 0x40 || m == 0x20 || m == 0x10 || m == 0x08 || m == 0x04 || m == 0x02 || m == 0x01
    ensures ((x ^ y) & m != 0) == ((x & m != 0) != (y & m != 0))
  {
  }

  lemma XorBit(x: Byte, y: Byte, j: nat)
    requires j < 8
    ensures BitAt(x ^ y, j) == (BitAt(x, j) != BitAt(y, j))
  {
    var m := Mask(j);
    assert m == 0x80 || m == 0x40 || m == 0x20 || m == 0x10 || m == 0x08 || m == 0x04 || m == 0x02 || m == 0x01;
    XorMask(x, y, m);
  }

  /** Two bytes with the same eight bits are the same byte. */
  lemma SameBits(x: Byte, y: Byte)
    requires forall j: nat | j < 8 :: BitAt(x, j) == BitAt(y, j)
    ensures x == y
  {
    assert BitAt(x, 0) == BitAt(y, 0) && BitAt(x, 1) == BitAt(y, 1);
    assert BitAt(x, 2) == BitAt(y, 2) && BitAt(x, 3) == BitAt(y, 3);
    assert BitAt(x, 4) == BitAt(y, 4) && BitAt(x, 5) == BitAt(y, 5);
    assert BitAt(x, 6) == BitAt(y, 6) && BitAt(x, 7) == BitAt(y, 7);
  }

  lemma OrMask(y: Byte, i: nat, m: nat)
    requires i < 8 && m < 8
    ensures BitAt(y | Mask(i), m) == (m == i || BitAt(y, m))
  {
  }

  // ---- numbers ----

  /** One more binary digit at the low end. */
  function Push(p: nat, x: bool): nat {
    2 * p + Digit(x)
  }

  /** The first n bits of a byte at the low end of p, high bit first. */
  function PushBits(p: nat, x: Byte, n: nat): nat
    requires n <= 8
  {
    if n == 0 then p else Push(PushBits(p, x, n - 1), BitAt(x, n - 1))
  }

  /** The bytes as a big-endian unsigned integer: big.Int SetBytes, and binary.BigEndian for fixed widths. */
  function Number(s: seq<Byte>): nat {
    if s == [] then 0 else PushBits(Number(s[..|s| - 1]), s[|s| - 1], 8)
  }

  lemma PushTwo(p: nat, x: Byte, n: nat)
    requires n <= 6
    ensures PushBits(p, x, n + 2) == 4 * PushBits(p, x, n) + 2 * Digit(BitAt(x, n)) + Digit(BitAt(x, n + 1))
  {
    assert PushBits(p, x, n + 1) == Push(PushBits(p, x, n), BitAt(x, n));
  }

  lemma PushEight(p: nat, x: Byte)
    ensures PushBits(p, x, 8) == 0x100 * p + 128 * Digit(BitAt(x, 0)) + 64 * Digit(BitAt(x, 1))
                                 + 32 * Digit(BitAt(x, 2)) + 16 * Digit(BitAt(x, 3)) + 8 * Digit(BitAt(x, 4))
                                 + 4 * Digit(BitAt(x, 5)) + 2 * Digit(BitAt(x, 6)) + Digit(BitAt(x, 7))
  {
    PushTwo(p, x, 0);
    PushTwo(p, x, 2);
    PushTwo(p, x, 4);
    PushTwo(p, x, 6);
  }

  lemma ByteDigits(x: Byte)
    ensures x as nat == 128 * Digit(BitAt(x, 0)) + 64 * Digit(BitAt(x, 1)) + 32 * Digit(BitAt(x, 2))
                        + 16 * Digit(BitAt(x, 3)) + 8 * Digit(BitAt(x, 4)) + 4 * Digit(BitAt(x, 5))
                        + 2 * Digit(BitAt(x, 6)) + Digit(BitAt(x, 7))
  {
  }

  /** Pushing the bits of a byte is one step in base 256. */
  lemma PushByte(p: nat, x: Byte)
    ensures PushBits(p, x, 8) == 0x100 * p + x as nat
  {
    PushEight(p, x);
    ByteDigits(x);
  }

  /** Two bytes, the high one first. */
  lemma NumberOfTwo(s: seq<Byte>)
    requires |s| == 2
    ensures Number(s) == 0x100 * (s[0] as nat) + s[1] as nat
  {
    hide PushBits;
    PushByte(Number(s[..1]), s[1]);
    PushByte(Number(s[..1][..0]), s[0]);
    assert s[..1][..0] == [];
  }

  /** Pushing bits loses nothing. */
  lemma {:induction false} PushBitsInjective(p: nat, q: nat, x: Byte, y: Byte, n: nat, j: nat)
    requires n <= 8 && PushBits(p, x, n) == PushBits(q, y, n)
    ensures p == q && (j < n ==> BitAt(x, j) == BitAt(y, j))
  {
    hide BitAt;
    if n > 0 { PushBitsInjective(p, q, x, y, n - 1, j); }
  }

  lemma {:induction false} NumberInjective(s: seq<Byte>, t: seq<Byte>)
    requires |s| == |t|
    ensures Number(s) == Number(t) <==> s == t
  {
    if s != [] && Number(s) == Number(t) {
      var n := |s| - 1;
      forall j: nat | j < 8 ensures BitAt(s[n], j) == BitAt(t[n], j) {
        PushBitsInjective(Number(s[..n]), Number(t[..n]), s[n], t[n], 8, j);
      }
      PushBitsInjective(Number(s[..n]), Number(t[..n]), s[n], t[n], 8, 0);
      SameBits(s[n], t[n]);
      NumberInjective(s[..n], t[..n]);
      assert s == s[..n] + [s[n]] && t == t[..n] + [t[n]];
    }
  }

  lemma NumberLast(s: seq<Byte>)
    requires s != []
    ensures Number(s) == PushBits(Number(s[..|s| - 1]), s[|s| - 1], 8)
  {
  }

  lemma {:induction false} PushZeroBits(x: Byte, n: nat)
    requires n <= 8 && forall m: nat | m < n :: !BitAt(x, m)
    ensures PushBits(0, x, n) == 0
  {
    if n > 0 { PushZeroBits(x, n - 1); }
  }

  lemma {:induction false} LeadingZeros(x: seq<Byte>)
    requires forall m :: 0 <= m < |x| ==> x[m] == 0
    ensures Number(x) == 0
  {
    if x != [] {
      LeadingZeros(x[..|x| - 1]);
      PushZeroBits(x[|x| - 1], 8);
    }
  }

  // ---- writing numbers as bytes ----

  function FromBits(b0: bool, b1: bool, b2: bool, b3: bool, b4: bool, b5: bool, b6: bool, b7: bool): Byte {
    (if b0 then 0x80 else 0) | (if b1 then 0x40 else 0) | (if b2 then 0x20 else 0) | (if b3 then 0x10 else 0)
    | (if b4 then 0x08 else 0) | (if b5 then 0x04 else 0) | (if b6 then 0x02 else 0) | (if b7 then 0x01 else 0)
  }

  /** n >> i. */
  function Shr(n: nat, i: nat): nat {
    if i == 0 then n else Shr(n, i - 1) / 2
  }

  predicate LowBit(n: nat, i: nat) {
    Shr(n, i) % 2 == 1
  }

  /** uint8(n): the low eight binary digits of n. */
  function ByteOf(n: nat): Byte {
    FromBits(LowBit(n, 7), LowBit(n, 6), LowBit(n, 5), LowBit(n, 4),
             LowBit(n, 3), LowBit(n, 2), LowBit(n, 1), LowBit(n, 0))
  }

  lemma FromBitsBits(b0: bool, b1: bool, b2: bool, b3: bool, b4: bool, b5: bool, b6: bool, b7: bool)
    ensures var x := FromBits(b0, b1, b2, b3, b4, b5, b6, b7);
            BitAt(x, 0) == b0 && BitAt(x, 1) == b1 && BitAt(x, 2) == b2 && BitAt(x, 3) == b3
            && BitAt(x, 4) == b4 && BitAt(x, 5) == b5 && BitAt(x, 6) == b6 && BitAt(x, 7) == b7
  {
  }

  lemma ByteOfBits(n: nat, j: nat)
    requires j < 8
    ensures BitAt(ByteOf(n), j) == LowBit(n, 7 - j)
  {
    FromBitsBits(LowBit(n, 7), LowBit(n, 6), LowBit(n, 5), LowBit(n, 4),
                 LowBit(n, 3), LowBit(n, 2), LowBit(n, 1), LowBit(n, 0));
  }

  /** The byte cut off by a shift, pushed back, restores the number. */
  lemma {:induction false} PushByteOf(n: nat, m: nat)
    requires m <= 8
    ensures PushBits(Shr(n, 8), ByteOf(n), m) == Shr(n, 8 - m)
  {
    if m > 0 {
      PushByteOf(n, m - 1);
      ByteOfBits(n, m - 1);
      var h := Shr(n, 8 - m);
      assert Shr(n, 8 - (m - 1)) == h / 2;
    }
  }

  function Pow2(k: nat): (p: nat)
    ensures p > 0
  {
    if k == 0 then 1 else 2 * Pow2(k - 1)
  }

  lemma {:induction false} ShrBelow(n: nat, k: nat, i: nat)
    requires n < Pow2(k + i)
    ensures Shr(n, i) < Pow2(k)
    decreases i
  {
    if i > 0 { ShrBelow(n, k + 1, i - 1); }
  }

  lemma {:induction false} PushBitsBelow(p: nat, k: nat, x: Byte, n: nat)
    requires n <= 8 && p < Pow2(k)
    ensures PushBits(p, x, n) < Pow2(k + n)
  {
    if n > 0 { PushBitsBelow(p, k, x, n - 1); }
  }

  lemma {:induction false} NumberBelow(x: seq<Byte>)
    ensures Number(x) < Pow2(8 * |x|)
  {
    if x != [] {
      NumberBelow(x[..|x| - 1]);
      PushBitsBelow(Number(x[..|x| - 1]), 8 * (|x| - 1), x[|x| - 1], 8);
    }
  }

  const WORD := 0x1_0000_0000

  /** x cut to width bytes, most significant byte first. */
  function PutNumber(x: nat, width: nat): (s: seq<Byte>)
    ensures |s| == width
    decreases width
  {
    if width == 0 then [] else PutNumber(Shr(x, 8), width - 1) + [ByteOf(x)]
  }

  /** Reading back what was written. */
  lemma {:induction false} PutNumberRoundTrip(x: nat, width: nat)
    requires x < Pow2(8 * width)
    ensures Number(PutNumber(x, width)) == x
    decreases width
  {
    if width > 0 {
      ShrBelow(x, 8 * (width - 1), 8);
      PutNumberRoundTrip(Shr(x, 8), width - 1);
      var s := PutNumber(Shr(x, 8), width - 1);
      assert (s + [ByteOf(x)])[..width - 1] == s;
      PushByteOf(x, 8);
    }
  }

  /** binary.BigEndian.PutUint32 of uint32(x). */
  function PutWord(x: int): (s: seq<Byte>)
    ensures |s| == 4
  {
    PutNumber(x % WORD, 4)
  }

  lemma {:induction false} PowSum(j: nat, k: nat)
    ensures Pow2(j + k) == Pow2(j) * Pow2(k)
  {
    if j > 0 {
      PowSum(j - 1, k);
      calc {
        Pow2(j + k);
      ==
        2 * Pow2(j - 1 + k);
      ==
        2 * (Pow2(j - 1) * Pow2(k));
      ==  { TwiceProduct(Pow2(j - 1), Pow2(k)); }
        Pow2(j) * Pow2(k);
      }
    }
  }

  lemma TwiceProduct(a: int, b: int)
    ensures 2 * (a * b) == (2 * a) * b
  {
  }

  lemma WordPower()
    ensures Pow2(16) == 0x1_0000 && Pow2(32) == WORD
  {
    assert Pow2(0) == 1 && Pow2(1) == 2 * Pow2(0);
    assert Pow2(2) == 2 * Pow2(1);
    PowSum(2, 2);
    PowSum(4, 4);
    PowSum(8, 8);
    PowSum(16, 16);
  }

  /** A word reads back as what was written, cut to 32 bits. */
  lemma WordRoundTrip(x: int)
    ensures Number(PutWord(x)) == x % WORD
  {
    hide Pow2, PutNumber, Number;
    WordPower();
    PutNumberRoundTrip(x % WORD, 4);
  }

  /** Four bytes are the word they are read as. */
  lemma WordOfBytes(s: seq<Byte>)
    requires |s| == 4
    ensures Number(s) < WORD && PutWord(Number(s)) == s
  {
    hide Number, PutNumber, Pow2;
    WordPower();
    NumberBelow(s);
    WordRoundTrip(Number(s));
    NumberInjective(PutWord(Number(s)), s);
  }
}
