/** Unsigned machine words as natural numbers: exclusive or, and the laws of it that the checksum needs.
    `w & 1` is `w % 2`, `w >> k` is `w / Pow2(k)`, and truncation to k bits is `w % Pow2(k)`. */
module Words {

  type byte = x: nat | x < 0x100
  type uint16 = x: nat | x < 0x1_0000
  type uint32 = x: nat | x < 0x1_0000_0000

  function Pow2(n: nat): (p: nat)
    ensures p > 0
  {
    if n == 0 then 1 else 2 * Pow2(n - 1)
  }

  lemma Pow2Values()
    ensures Pow2(31) == 0x8000_0000 && Pow2(32) == 0x1_0000_0000
  {
    assert Pow2(8) == 0x100;
    assert Pow2(16) == 0x1_0000;
    assert Pow2(24) == 0x100_0000;
  }

  function Xor(a: nat, b: nat): nat
    decreases a + b
  {
    if a == 0 && b == 0 then 0
    else 2 * Xor(a / 2, b / 2) + (if a % 2 == b % 2 then 0 else 1)
  }

  lemma XorBit(a: nat, b: nat)
    ensures Xor(a, b) / 2 == Xor(a / 2, b / 2)
    ensures Xor(a, b) % 2 == if a % 2 == b % 2 then 0 else 1
  {
    var q, bit := Xor(a / 2, b / 2), if a % 2 == b % 2 then 0 else 1;
    assert Xor(a, b) == 2 * q + bit;
  }

  lemma XorDouble(x: nat, y: nat, a: nat, b: nat)
    requires a < 2 && b < 2
    ensures Xor(2 * x + a, 2 * y + b) == 2 * Xor(x, y) + (if a == b then 0 else 1)
  {
    XorBit(2 * x + a, 2 * y + b);
  }

  lemma {:induction false} XorZero(a: nat)
    ensures Xor(a, 0) == a == Xor(0, a)
  {
    if a != 0 {
      XorZero(a / 2);
    }
  }

  lemma {:induction false} XorSelf(a: nat)
    ensures Xor(a, a) == 0
  {
    if a != 0 {
      XorSelf(a / 2);
    }
  }

  lemma {:induction false} XorComm(a: nat, b: nat)
    ensures Xor(a, b) == Xor(b, a)
    decreases a + b
  {
    if a != 0 || b != 0 {
      XorComm(a / 2, b / 2);
    }
  }

  lemma {:induction false} XorAssoc(a: nat, b: nat, c: nat)
    ensures Xor(Xor(a, b), c) == Xor(a, Xor(b, c))
    decreases a + b + c
  {
    if a != 0 || b != 0 || c != 0 {
      XorAssoc(a / 2, b / 2, c / 2);
      XorBit(a, b);
      XorBit(b, c);
      XorBit(Xor(a, b), c);
      XorBit(a, Xor(b, c));
    }
  }

  lemma XorSwap(a: nat, b: nat, c: nat, d: nat)
    ensures Xor(Xor(a, b), Xor(c, d)) == Xor(Xor(a, c), Xor(b, d))
  {
    XorAssoc(a, b, Xor(c, d));
    XorAssoc(b, c, d);
    XorComm(b, c);
    XorAssoc(c, b, d);
    XorAssoc(a, c, Xor(b, d));
  }

  lemma XorCancel(a: nat, b: nat, c: nat)
    requires Xor(a, c) == Xor(b, c)
    ensures a == b
  {
    XorAssoc(a, c, c);
    XorAssoc(b, c, c);
    XorSelf(c);
    XorZero(a);
    XorZero(b);
  }

  lemma {:induction false} XorBound(a: nat, b: nat, n: nat)
    requires a < Pow2(n) && b < Pow2(n)
    ensures Xor(a, b) < Pow2(n)
  {
    if n > 0 && (a != 0 || b != 0) {
      XorBound(a / 2, b / 2, n - 1);
    }
  }

  /** Setting the top bit of a word that has it clear. */
  lemma {:induction false} XorTop(a: nat, b: nat, n: nat)
    requires a < Pow2(n) <= b < 2 * Pow2(n)
    ensures Pow2(n) <= Xor(a, b)
  {
    if n > 0 {
      XorTop(a / 2, b / 2, n - 1);
    }
  }

  // ----- Shifts and truncations, by repeated halving ---------------------------------------------

  function Shr(a: nat, n: nat): nat
    decreases n
  {
    if n == 0 then a else Shr(a / 2, n - 1)
  }

  function Shl(a: nat, n: nat): nat
    decreases n
  {
    if n == 0 then a else 2 * Shl(a, n - 1)
  }

  function Low(a: nat, n: nat): nat
    decreases n
  {
    if n == 0 then 0 else a % 2 + 2 * Low(a / 2, n - 1)
  }

  lemma ByteShift(a: nat)
    ensures Shr(a, 8) == a / 0x100
    ensures Low(a, 8) == a % 0x100
  {
    var b := a / 2 / 2 / 2 / 2;
    assert Shr(a, 8) == Shr(b, 4) == b / 2 / 2 / 2 / 2;
    assert Low(b, 4) == b % 16;
    assert Low(a / 2 / 2, 6) == a / 2 / 2 % 2 + 2 * (a / 2 / 2 / 2 % 2 + 2 * Low(b, 4));
  }

  lemma {:induction false} XorShr(a: nat, b: nat, n: nat)
    ensures Shr(Xor(a, b), n) == Xor(Shr(a, n), Shr(b, n))
  {
    if n > 0 {
      XorBit(a, b);
      XorShr(a / 2, b / 2, n - 1);
    }
  }

  lemma {:induction false} XorLow(a: nat, b: nat, n: nat)
    ensures Low(Xor(a, b), n) == Xor(Low(a, n), Low(b, n))
  {
    if n > 0 {
      XorLow(a / 2, b / 2, n - 1);
      XorDouble(Low(a / 2, n - 1), Low(b / 2, n - 1), a % 2, b % 2);
      XorBit(a, b);
    }
  }

  lemma ByteXor(a: nat, b: nat)
    ensures Xor(a, b) % 0x100 == Xor(a % 0x100, b % 0x100)
    ensures Xor(a, b) / 0x100 == Xor(a / 0x100, b / 0x100)
  {
    XorLow(a, b, 8);
    XorShr(a, b, 8);
    ByteShift(a);
    ByteShift(b);
    ByteShift(Xor(a, b));
  }

  /** A word is its low bits together with its high bits moved back up. */
  lemma {:induction false} Split(c: nat, n: nat)
    ensures Xor(Low(c, n), Shl(Shr(c, n), n)) == c
  {
    if n == 0 {
      XorZero(c);
    } else {
      Split(c / 2, n - 1);
      XorDouble(Low(c / 2, n - 1), Shl(Shr(c / 2, n - 1), n - 1), c % 2, 0);
    }
  }
}
