/** Section 4.1.2 of FIPS 180-4 bit by bit: what each function on words does to the bits of its arguments. */
module Sha256Bits {
  import opened JsNumber
  import opened Sha256Standard

  /** Bit `i` of a number, from the least significant. */
  predicate BitAt(x: nat, i: nat) { x / Pow2(i) % 2 == 1 }

  lemma Halved(x: nat, p: nat)
    requires p > 0
    ensures x / (2 * p) == x / 2 / p
  {
    var q, r := x / 2 / p, x / 2 % p;
    assert x / 2 == p * q + r;
    DivModUnique(x, 2 * p, q, 2 * r + x % 2);
  }

  lemma BitStep(x: nat, i: nat)
    ensures BitAt(x, 0) == (x % 2 == 1)
    ensures i > 0 ==> BitAt(x, i) == BitAt(x / 2, i - 1)
  {
    if i > 0 {
      Halved(x, Pow2(i - 1));
    }
  }

  /** A word is its bits. */
  lemma {:induction false} BitsDecide(x: nat, y: nat, k: nat)
    requires x < Pow2(k) && y < Pow2(k) && forall i :: 0 <= i < k ==> BitAt(x, i) == BitAt(y, i)
    ensures x == y
    decreases k
  {
    if k > 0 {
      forall i | 0 <= i < k - 1
        ensures BitAt(x / 2, i) == BitAt(y / 2, i)
      {
        BitStep(x, i + 1);
        BitStep(y, i + 1);
        assert BitAt(x, i + 1) == BitAt(y, i + 1);
      }
      BitStep(x, 0);
      BitStep(y, 0);
      assert BitAt(x, 0) == BitAt(y, 0);
      BitsDecide(x / 2, y / 2, k - 1);
    }
  }

  // ---------------------------------------------------------------- the three operators

  lemma {:induction false} AndBits(x: nat, y: nat, i: nat)
    ensures BitAt(BitAnd(x, y), i) == (BitAt(x, i) && BitAt(y, i))
    decreases i
  {
    BitStep(x, i);
    BitStep(y, i);
    BitStep(BitAnd(x, y), i);
    AndHalves(x, y);
    if i > 0 {
      AndBits(x / 2, y / 2, i - 1);
    }
  }

  lemma AndHalves(x: nat, y: nat)
    ensures BitAnd(x, y) / 2 == BitAnd(x / 2, y / 2)
    ensures BitAnd(x, y) % 2 == Bit(x % 2 == 1 && y % 2 == 1)
  {
    if x == 0 {
      assert BitAnd(x / 2, y / 2) == 0;
    }
  }

  lemma {:induction false} XorBits(x: nat, y: nat, i: nat)
    ensures BitAt(BitXor(x, y), i) == (BitAt(x, i) != BitAt(y, i))
    decreases i
  {
    BitStep(x, i);
    BitStep(y, i);
    BitStep(BitXor(x, y), i);
    XorHalves(x, y);
    if i > 0 {
      XorBits(x / 2, y / 2, i - 1);
    }
  }

  lemma XorHalves(x: nat, y: nat)
    ensures BitXor(x, y) / 2 == BitXor(x / 2, y / 2)
    ensures BitXor(x, y) % 2 == Bit(x % 2 != y % 2)
  {
    if x == 0 && y == 0 {
      assert BitXor(x / 2, y / 2) == 0;
    }
  }

  lemma {:induction false} NotBits(x: nat, k: nat, i: nat)
    requires x < Pow2(k) && i < k
    ensures BitAt(Pow2(k) - 1 - x, i) == !BitAt(x, i)
    decreases k
  {
    var y := Pow2(k) - 1 - x;
    BitStep(x, i);
    BitStep(y, i);
    assert y / 2 == Pow2(k - 1) - 1 - x / 2 && y % 2 == 1 - x % 2;
    if i > 0 {
      NotBits(x / 2, k - 1, i - 1);
    }
  }

  // ---------------------------------------------------------------- moving bits

  lemma ShiftBits(x: nat, n: nat, q: nat, i: nat)
    requires q == x / Pow2(n)
    ensures BitAt(q, i) == BitAt(x, n + i)
  {
    Pow2Add(n, i);
    DividedTwice(x, Pow2(n), Pow2(i));
  }

  lemma DividedTwice(x: nat, a: nat, b: nat)
    requires a > 0 && b > 0
    ensures a * b > 0 && x / a / b == x / (a * b)
  {
    var y, s := x / a, x % a;
    var q, r := y / b, y % b;
    assert x == a * y + s;
    assert y == b * q + r;
    DivisionOfDivision(x, a, b, y, s, q, r);
  }

  lemma DivisionOfDivision(x: int, a: int, b: int, y: int, s: int, q: int, r: int)
    requires x == a * y + s && 0 <= s < a && y == b * q + r && 0 <= r < b
    ensures a * b > 0 && x / (a * b) == q
  {
    Scaled(a, r + 1, b);
    assert a * (r + 1) == a * r + a && a * r >= 0;
    assert a * (b * q + r) == (a * b) * q + a * r;
    DivModUnique(x, a * b, q, a * r + s);
  }

  lemma {:induction false} LowBits(x: nat, n: nat, i: nat)
    requires i < n
    ensures BitAt(x % Pow2(n), i) == BitAt(x, i)
    decreases n
  {
    var p := Pow2(n - 1);
    HalfModulo(x, p);
    BitStep(x, i);
    BitStep(x % Pow2(n), i);
    assert x % Pow2(n) / 2 == x / 2 % p && x % Pow2(n) % 2 == x % 2;
    if i > 0 {
      LowBits(x / 2, n - 1, i - 1);
    }
  }

  /** Two fields side by side. */
  lemma {:induction false} JoinedBits(low: nat, high: nat, m: nat, i: nat)
    requires low < Pow2(m)
    ensures BitAt(low + high * Pow2(m), i) == if i < m then BitAt(low, i) else BitAt(high, i - m)
    decreases m
  {
    if m > 0 {
      var x, p := low + high * Pow2(m), Pow2(m - 1);
      assert high * Pow2(m) == 2 * (high * p);
      assert x / 2 == low / 2 + high * p && x % 2 == low % 2;
      BitStep(x, i);
      BitStep(low, i);
      if i > 0 {
        JoinedBits(low / 2, high, m - 1, i - 1);
      }
    } else {
      assert low == 0 && high * Pow2(0) == high;
    }
  }

  /** Rotation to the right by `n`: bit `i` is the bit `n` places up, and round the end. */
  lemma RotrBits(x: Word, n: nat, i: nat)
    requires 0 < n < 32 && i < 32
    ensures BitAt(Rotr(x, n), i) == BitAt(x, (i + n) % 32)
  {
    var low, high := RotrParts(x, n);
    hide BitAt, Pow2, Rotr;
    RotatedBits(x, n, i, low, high);
  }

  lemma RotrParts(x: Word, n: nat) returns (low: nat, high: nat)
    requires 0 < n < 32
    ensures low == x / Pow2(n) < Pow2(32 - n) && high == x % Pow2(n)
    ensures Rotr(x, n) == low + high * Pow2(32 - n)
  {
    var q, p := Pow2(n), Pow2(32 - n);
    Pow2Add(n, 32 - n);
    Pow2Is(32);
    RotationRange(x, q, p);
    low, high := x / q, x % q;
  }

  lemma RotatedBits(x: nat, n: nat, i: nat, low: nat, high: nat)
    requires 0 < n < 32 && i < 32 && low == x / Pow2(n) < Pow2(32 - n) && high == x % Pow2(n)
    ensures BitAt(low + high * Pow2(32 - n), i) == BitAt(x, (i + n) % 32)
  {
    hide BitAt, Pow2;
    JoinedBits(low, high, 32 - n, i);
    if i < 32 - n {
      ShiftBits(x, n, low, i);
    } else {
      LowBits(x, n, i - (32 - n));
    }
  }

  lemma ShiftRightBits(x: Word, n: nat, i: nat)
    requires n < 32 && i < 32
    ensures BitAt(ShiftRight(x, n), i) == (i + n < 32 && BitAt(x, i + n))
  {
    ShiftBits(x, n, ShiftRight(x, n), i);
    if i + n >= 32 {
      Pow2Is(32);
      NoBitsAbove(x, 32, i + n);
    }
  }

  lemma {:induction false} NoBitsAbove(x: nat, k: nat, i: nat)
    requires x < Pow2(k) && k <= i
    ensures !BitAt(x, i)
    decreases k
  {
    BitStep(x, i);
    if k == 0 {
      assert x == 0;
      DivModUnique(0, Pow2(i), 0, 0);
    } else {
      NoBitsAbove(x / 2, k - 1, i - 1);
    }
  }

  // ---------------------------------------------------------------- the six functions

  /** One, or all three. */
  predicate Odd(a: bool, b: bool, c: bool) { (a != b) != c }

  lemma Xor3Bits(x: Word, y: Word, z: Word, i: nat)
    ensures BitAt(Xor3(x, y, z), i) == Odd(BitAt(x, i), BitAt(y, i), BitAt(z, i))
  {
    XorBits(x, y, i);
    XorBits(BitXor(x, y), z, i);
  }

  /** Where `x` has a one, `Ch` has the bit of `y`, and elsewhere that of `z`. */
  lemma ChBits(x: Word, y: Word, z: Word, i: nat)
    requires i < 32
    ensures BitAt(Ch(x, y, z), i) == if BitAt(x, i) then BitAt(y, i) else BitAt(z, i)
  {
    Pow2Is(32);
    NotBits(x, 32, i);
    AndBits(x, y, i);
    AndBits(Complement(x), z, i);
    XorBits(BitAnd(x, y), BitAnd(Complement(x), z), i);
  }

  /** `Maj` has the bit that two of the three have. */
  lemma MajBits(x: Word, y: Word, z: Word, i: nat)
    ensures BitAt(Maj(x, y, z), i) == if BitAt(x, i) == BitAt(y, i) then BitAt(x, i) else BitAt(z, i)
  {
    AndBits(x, y, i);
    AndBits(x, z, i);
    AndBits(y, z, i);
    XorBits(BitAnd(x, y), BitAnd(x, z), i);
    XorBits(BitXor(BitAnd(x, y), BitAnd(x, z)), BitAnd(y, z), i);
  }

  /** The four sigmas: which bits of the word each bit is the sum of, modulo 2. */
  lemma BigSigmaBits(x: Word, i: nat)
    requires i < 32
    ensures BitAt(BigSigma0(x), i) == Odd(BitAt(x, (i + 2) % 32), BitAt(x, (i + 13) % 32), BitAt(x, (i + 22) % 32))
    ensures BitAt(BigSigma1(x), i) == Odd(BitAt(x, (i + 6) % 32), BitAt(x, (i + 11) % 32), BitAt(x, (i + 25) % 32))
  {
    hide BitAt, Rotr, Xor3;
    RotrBits(x, 2, i);
    RotrBits(x, 13, i);
    RotrBits(x, 22, i);
    Xor3Bits(Rotr(x, 2), Rotr(x, 13), Rotr(x, 22), i);
    RotrBits(x, 6, i);
    RotrBits(x, 11, i);
    RotrBits(x, 25, i);
    Xor3Bits(Rotr(x, 6), Rotr(x, 11), Rotr(x, 25), i);
  }

  lemma SmallSigmaBits(x: Word, i: nat)
    requires i < 32
    ensures BitAt(SmallSigma0(x), i)
         == Odd(BitAt(x, (i + 7) % 32), BitAt(x, (i + 18) % 32), i + 3 < 32 && BitAt(x, i + 3))
    ensures BitAt(SmallSigma1(x), i)
         == Odd(BitAt(x, (i + 17) % 32), BitAt(x, (i + 19) % 32), i + 10 < 32 && BitAt(x, i + 10))
  {
    hide BitAt, Rotr, ShiftRight, Xor3;
    RotrBits(x, 7, i);
    RotrBits(x, 18, i);
    ShiftRightBits(x, 3, i);
    Xor3Bits(Rotr(x, 7), Rotr(x, 18), ShiftRight(x, 3), i);
    RotrBits(x, 17, i);
    RotrBits(x, 19, i);
    ShiftRightBits(x, 10, i);
    Xor3Bits(Rotr(x, 17), Rotr(x, 19), ShiftRight(x, 10), i);
  }
}
