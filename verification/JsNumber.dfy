/**
 * The bitwise operators of JavaScript numbers, on integers: operands are taken modulo 2^32, and
 * every operator but `>>>` answers a signed 32-bit number. Bits are reached by halving.
 */
module JsNumber {
  const TWO31 := 0x8000_0000
  const TWO32 := 0x1_0000_0000

  type Byte = b: int | 0 <= b < 256
  type Word = w: int | 0 <= w < TWO32

  function Pow2(k: nat): (p: nat)
    ensures p > 0
  {
    if k == 0 then 1 else 2 * Pow2(k - 1)
  }

  function ToUint32(x: int): Word { x % TWO32 }

  function ToInt32(x: int): int {
    if ToUint32(x) < TWO31 then ToUint32(x) else ToUint32(x) - TWO32
  }

  function Bit(b: bool): nat { if b then 1 else 0 }

  function BitAnd(x: nat, y: nat): nat
    decreases x
  {
    if x == 0 then 0 else Bit(x % 2 == 1 && y % 2 == 1) + 2 * BitAnd(x / 2, y / 2)
  }

  function BitOr(x: nat, y: nat): nat
    decreases x + y
  {
    if x == 0 && y == 0 then 0 else Bit(x % 2 == 1 || y % 2 == 1) + 2 * BitOr(x / 2, y / 2)
  }

  function BitXor(x: nat, y: nat): nat
    decreases x + y
  {
    if x == 0 && y == 0 then 0 else Bit(x % 2 != y % 2) + 2 * BitXor(x / 2, y / 2)
  }

  // ---------------------------------------------------------------- the operators

  function And(a: int, b: int): int { ToInt32(BitAnd(ToUint32(a), ToUint32(b))) }
  function Or(a: int, b: int): int { ToInt32(BitOr(ToUint32(a), ToUint32(b))) }
  function Xor(a: int, b: int): int { ToInt32(BitXor(ToUint32(a), ToUint32(b))) }
  function Not(a: int): int { -ToInt32(a) - 1 }
  function Shl(a: int, n: nat): int { ToInt32(ToInt32(a) * Pow2(n)) }
  function Shr(a: int, n: nat): int { ToInt32(a) / Pow2(n) }
  function Ushr(a: int, n: nat): int { ToUint32(a) / Pow2(n) }

  // ---------------------------------------------------------------- bits and arithmetic

  lemma {:induction false} AndBound(x: nat, y: nat)
    ensures BitAnd(x, y) <= x
    decreases x
  {
    if x > 0 {
      AndBound(x / 2, y / 2);
    }
  }

  lemma {:induction false} OrXorBound(x: nat, y: nat, k: nat)
    requires x < Pow2(k) && y < Pow2(k)
    ensures BitOr(x, y) < Pow2(k) && BitXor(x, y) < Pow2(k)
    decreases k
  {
    if k > 0 {
      OrXorBound(x / 2, y / 2, k - 1);
    }
  }

  lemma {:induction false} OrZero(x: nat)
    ensures BitOr(0, x) == x && BitOr(x, 0) == x
  {
    if x > 0 {
      OrZero(x / 2);
    }
  }

  /** Bits that do not meet are added by OR. */
  lemma {:induction false} OrIsSum(high: nat, k: nat, low: nat)
    requires low < Pow2(k)
    ensures BitOr(high * Pow2(k), low) == high * Pow2(k) + low
    ensures BitOr(low, high * Pow2(k)) == high * Pow2(k) + low
    decreases k
  {
    if k == 0 {
      OrZero(high);
    } else {
      var h := high * Pow2(k - 1);
      assert high * Pow2(k) == 2 * h;
      OrIsSum(high, k - 1, low / 2);
      assert (2 * h) % 2 == 0 && (2 * h) / 2 == h;
      if h == 0 && low == 0 {
      } else {
        assert BitOr(2 * h, low) == low % 2 + 2 * BitOr(h, low / 2);
        assert BitOr(low, 2 * h) == low % 2 + 2 * BitOr(low / 2, h);
      }
    }
  }

  /** A mask of ones keeps the low bits. */
  lemma {:induction false} AndMask(x: nat, k: nat)
    ensures BitAnd(x, Pow2(k) - 1) == x % Pow2(k)
    decreases k
  {
    if k == 0 {
      AndNothing(x);
      DivModUnique(x, 1, x, 0);
    } else {
      AndMask(x / 2, k - 1);
      AndLongerMask(x, Pow2(k - 1));
      assert Pow2(k) == 2 * Pow2(k - 1);
    }
  }

  lemma AndLongerMask(x: nat, p: nat)
    requires p > 0 && BitAnd(x / 2, p - 1) == x / 2 % p
    ensures BitAnd(x, 2 * p - 1) == x % (2 * p)
  {
    AndOddMask(x, p);
    HalfModulo(x, p);
  }

  lemma AndOddMask(x: nat, p: nat)
    requires p > 0
    ensures BitAnd(x, 2 * p - 1) == x % 2 + 2 * BitAnd(x / 2, p - 1)
  {
    assert (2 * p - 1) / 2 == p - 1 && (2 * p - 1) % 2 == 1;
    if x == 0 {
      assert BitAnd(x / 2, p - 1) == 0;
    }
  }

  lemma {:induction false} AndNothing(x: nat)
    ensures BitAnd(x, 0) == 0
  {
    if x > 0 {
      AndNothing(x / 2);
    }
  }

  lemma HalfModulo(x: nat, p: nat)
    requires p > 0
    ensures x % (2 * p) == x % 2 + 2 * ((x / 2) % p)
  {
    var q, r := (x / 2) / p, (x / 2) % p;
    assert x / 2 == q * p + r;
    assert x == (2 * p) * q + (2 * r + x % 2);
    DivModUnique(x, 2 * p, q, 2 * r + x % 2);
  }

  lemma DivModUnique(x: int, d: int, q: int, r: int)
    requires 0 <= r < d && x == d * q + r
    ensures x / d == q && x % d == r
  {
    var q', r' := x / d, x % d;
    assert x == d * q' + r';
    if q < q' {
      Scaled(d, q + 1, q');
    } else if q' < q {
      Scaled(d, q' + 1, q);
    }
  }

  lemma Scaled(d: int, a: int, b: int)
    requires 0 < d && a <= b
    ensures d * a <= d * b
  {
    assert d * (b - a) >= 0;
  }

  lemma Pow2Add(a: nat, b: nat)
    ensures Pow2(a + b) == Pow2(a) * Pow2(b)
  {
    if a > 0 {
      Pow2Add(a - 1, b);
    }
  }

  lemma Pow2Is(k: nat)
    requires k <= 32
    ensures k == 6 ==> Pow2(k) == 64
    ensures k == 8 ==> Pow2(k) == 256
    ensures k == 12 ==> Pow2(k) == 4096
    ensures k == 16 ==> Pow2(k) == 65536
    ensures k == 18 ==> Pow2(k) == 262144
    ensures k == 24 ==> Pow2(k) == 16777216
    ensures k == 32 ==> Pow2(k) == TWO32
  {
    assert Pow2(4) == 16;
    Pow2Add(2, 4);
    Pow2Add(4, 4);
    Pow2Add(4, 8);
    Pow2Add(8, 8);
    Pow2Add(6, 12);
    Pow2Add(8, 16);
    Pow2Add(16, 16);
    assert Pow2(6) == 64;
  }

  /** A word is the same word whichever of its two numbers stands for it. */
  lemma WordOfInt32(w: Word)
    ensures ToUint32(ToInt32(w)) == w
  {
  }

  lemma ScaledModulo(x: nat, q: nat, p: nat)
    requires q > 0 && p > 0
    ensures q * p > 0 && (x * p) % (q * p) == x % q * p
  {
    var d, r := x / q, x % q;
    assert x == q * d + r;
    assert x * p == (q * p) * d + r * p;
    Scaled(p, r + 1, q);
    assert p * (r + 1) == r * p + p;
    assert 0 <= r * p < q * p;
    DivModUnique(x * p, q * p, d, r * p);
  }

  lemma QuotientBound(x: nat, q: nat, p: nat)
    requires q > 0 && x < q * p
    ensures x / q < p
  {
    if p <= x / q {
      Scaled(q, p, x / q);
    }
  }

  lemma RotationRange(x: nat, q: nat, p: nat)
    requires q > 0 && p > 0 && x < q * p
    ensures 0 <= x / q + x % q * p < q * p
    ensures 0 <= x / q < p <= q * p
  {
    QuotientBound(x, q, p);
    var r := x % q;
    Scaled(p, r + 1, q);
    assert p * (r + 1) == r * p + p;
    assert r * p >= 0;
    Scaled(p, 1, q);
  }

  /** Two numbers stand for the same word. */
  predicate Same(x: int, y: int) { ToUint32(x) == ToUint32(y) }

  lemma SameSum(x: int, y: int, x': int, y': int)
    requires Same(x, x') && Same(y, y')
    ensures Same(x + y, x' + y')
  {
    var k, l := x / TWO32 - x' / TWO32, y / TWO32 - y' / TWO32;
    assert x == x' + TWO32 * k && y == y' + TWO32 * l;
    SameShifted(x' + y', k + l);
  }

  lemma SameShifted(x: int, k: int)
    ensures Same(x + TWO32 * k, x)
  {
    DivModUnique(x + TWO32 * k, TWO32, x / TWO32 + k, x % TWO32);
  }
}
