/** The checksum of one concrete message, and the polynomial by its exponents: values that the program and the
    reference of Crc32 could not get wrong together. */
module CrcValues {
  import opened Words
  import opened Crc32

  /** The generator polynomial of section 8.1.1.6.2 of ITU-T V.42, x^32 + x^26 + x^23 + ... + x + 1: the
      coefficient of x^e is bit 31 - e. */
  lemma PolyIsStandard()
    ensures POLY == Pow2(31 - 26) + Pow2(31 - 23) + Pow2(31 - 22) + Pow2(31 - 16) + Pow2(31 - 12) + Pow2(31 - 11)
                  + Pow2(31 - 10) + Pow2(31 - 8) + Pow2(31 - 7) + Pow2(31 - 5) + Pow2(31 - 4) + Pow2(31 - 2)
                  + Pow2(31 - 1) + Pow2(31)
  {
    Pow2Values();
    assert Pow2(15) == 0x8000 && Pow2(19) == 0x8_0000 && Pow2(23) == 0x80_0000;
  }

  lemma {:induction false} OnesOnto(a: nat, n: nat)
    requires a < Pow2(n)
    ensures Xor(a, Pow2(n) - 1) == Pow2(n) - 1 - a
    decreases n
  {
    if n == 0 {
      XorZero(a);
    } else {
      var p := Pow2(n - 1);
      OnesOnto(a / 2, n - 1);
      XorDouble(a / 2, p - 1, a % 2, 1);
    }
  }

  /** The final exclusive or is a complement. */
  lemma ComplementIs(a: uint32)
    ensures Xor(a, ONES) == ONES - a
  {
    Pow2Values();
    OnesOnto(a, 32);
  }

  lemma {:induction false} Halvings(n: nat)
    ensures Steps(Pow2(n), n + 1) == POLY
  {
    if n == 0 {
      assert Steps(1, 1) == Steps(Step(1), 0) == Step(1);
      XorZero(POLY);
    } else {
      Halvings(n - 1);
    }
  }

  lemma {:induction false} NoBits(n: nat)
    ensures Steps(0, n) == 0
  {
    if n > 0 {
      NoBits(n - 1);
    }
  }

  /** Bits equal to the low end of the register cancel it. */
  lemma SameBits(c: nat, n: nat)
    requires Low(c, n) < Pow2(n)
    ensures FeedBits(c, Bits(Low(c, n), n)) == Shr(c, n)
  {
    FeedLow(c, Low(c, n), n);
    XorSelf(Low(c, n));
    NoBits(n);
    XorZero(Shr(c, n));
  }

  /** A register no longer than the bits is used up. */
  lemma WholeRegister(c: nat, b: nat, n: nat)
    requires b < Pow2(n) && c < Pow2(n)
    ensures FeedBits(c, Bits(b, n)) == Steps(Xor(c, b), n)
  {
    FeedLow(c, b, n);
    ByteHasNoHigh(c, n);
    XorZero(Steps(Xor(c, b), n));
  }

  lemma OnesApart(c: nat, b: nat, n: nat)
    requires c == 2 * Pow2(n) - 1 && b == Pow2(n) - 1
    ensures Pow2(n + 1) == c + 1 && Xor(c, b) == Pow2(n)
  {
    OnesOnto(b, n + 1);
    XorComm(c, b);
  }

  /** n ones onto n + 1 ones leave the bit that is looked at last. */
  lemma OneBitLeft(c: nat, b: nat, n: nat)
    requires c == 2 * Pow2(n) - 1 && b == Pow2(n) - 1
    ensures FeedBits(c, Bits(b, n + 1)) == POLY
  {
    OnesApart(c, b, n);
    WholeRegister(c, b, n + 1);
    Halvings(n);
  }

  lemma ByteCancels(c: nat, c': nat, b: byte)
    requires c == 0x100 * c' + b
    ensures FeedBits(c, Bits(b, 8)) == c'
  {
    ByteShift(c);
    assert Pow2(8) == 0x100;
    SameBits(c, 8);
  }

  lemma SameByte(c: nat, c': nat, b: byte, rest: seq<byte>)
    requires c == 0x100 * c' + b
    ensures FeedBits(c, MessageBits([b] + rest)) == FeedBits(c', MessageBits(rest))
  {
    var data := [b] + rest;
    assert data[1..] == rest;
    FeedAppend(c, Bits(b, 8), MessageBits(rest));
    ByteCancels(c, c', b);
  }

  lemma SameThree(c0: nat, c1: nat, c2: nat, c3: nat, b: byte, last: byte)
    requires c0 == 0x100 * c1 + b && c1 == 0x100 * c2 + b && c2 == 0x100 * c3 + b
    ensures FeedBits(c0, MessageBits([b, b, b, last])) == FeedBits(c3, Bits(last, 8))
  {
    assert [b] + [b, b, last] == [b, b, b, last] && [b] + [b, last] == [b, b, last] && [b] + [last] == [b, last];
    SameByte(c0, c1, b, [b, b, last]);
    SameByte(c1, c2, b, [b, last]);
    SameByte(c2, c3, b, [last]);
    assert [last][1..] == [] && Bits(last, 8) + [] == Bits(last, 8);
  }

  /** It depends on the polynomial, on both complements, and on the order of bits and bytes. */
  lemma CheckValue(b: byte, last: byte)
    requires b == 0xFF && last == 0x7F
    ensures Crc([b, b, b, last]) == 0x1247_7CDF
  {
    SameThree(ONES, 0xFF_FFFF, 0xFFFF, 0xFF, b, last);
    assert Pow2(7) == 0x80;
    OneBitLeft(0xFF, 0x7F, 7);
    ComplementIs(POLY);
  }
}
