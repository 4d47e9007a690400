/**
 * Sections 4.2.2 and 5.3.3 of FIPS 180-4 in arithmetic: the round constants are the first 32 bits of the
 * fractional parts of the cube roots of the first 64 primes, the initial hash value those of the square roots
 * of the first eight.
 */
module Sha256Constants {
  import opened JsNumber
  import opened Sha256Standard

  // ---------------------------------------------------------------- the first 64 primes

  const PRIMES: seq<nat> :=
    [2, 3, 5, 7, 11, 13, 17, 19]
    + [23, 29, 31, 37, 41, 43, 47, 53]
    + [59, 61, 67, 71, 73, 79, 83, 89]
    + [97, 101, 103, 107, 109, 113, 127, 131]
    + [137, 139, 149, 151, 157, 163, 167, 173]
    + [179, 181, 191, 193, 197, 199, 211, 223]
    + [227, 229, 233, 239, 241, 251, 257, 263]
    + [269, 271, 277, 281, 283, 293, 307, 311]

  predicate IsPrime(p: nat) { p > 1 && forall d :: 1 < d < p ==> p % d != 0 }

  /** No prime lies between. */
  predicate IsNext(p: nat, q: nat) { p < q && forall n :: p < n < q ==> !IsPrime(n) }

  /** Not divisible by a prime below 18. */
  predicate Sifted(n: nat) {
    n % 2 != 0 && n % 3 != 0 && n % 5 != 0 && n % 7 != 0 && n % 11 != 0 && n % 13 != 0 && n % 17 != 0
  }

  lemma SiftedHasNoSmallDivisor(n: nat, d: nat)
    requires Sifted(n) && 1 < d < 18
    ensures n % d != 0
  {
    var f := SmallFactor(d);
    if n % d == 0 {
      DivisorOfDivisor(n, d, f);
    }
  }

  lemma SmallFactor(d: nat) returns (f: nat)
    requires 1 < d < 18
    ensures (f == 2 || f == 3 || f == 5 || f == 7 || f == 11 || f == 13 || f == 17) && d % f == 0
  {
    f := if d % 2 == 0 then 2 else if d % 3 == 0 then 3 else if d % 5 == 0 then 5 else d;
  }

  lemma DivisorOfDivisor(n: nat, d: nat, f: nat)
    requires f > 0 && d > 0 && n % d == 0 && d % f == 0
    ensures n % f == 0
  {
    var q, e := n / d, d / f;
    assert n == d * q && d == f * e;
    assert n == f * (e * q);
    DivModUnique(n, f, e * q, 0);
  }

  /** Below 18 squared that is enough. */
  lemma SiftedIsPrime(n: nat)
    requires 18 <= n < 324 && Sifted(n)
    ensures IsPrime(n)
  {
    forall d | 1 < d < n
      ensures n % d != 0
    {
      if d < 18 {
        SiftedHasNoSmallDivisor(n, d);
      } else if n % d == 0 {
        var q := n / d;
        CoDivisor(n, d, q);
        SiftedHasNoSmallDivisor(n, q);
      }
    }
  }

  lemma CoDivisor(n: nat, d: nat, q: nat)
    requires 18 <= d < n < 324 && n == d * q
    ensures 1 < q < 18 && n % q == 0
  {
    if q >= 18 {
      Scaled(d, 18, q);
    }
    DivModUnique(n, q, d, 0);
  }

  lemma SiftedOnly(n: nat)
    requires n >= 18 && !Sifted(n)
    ensures !IsPrime(n)
  {
  }

  lemma SmallPrimes()
    ensures forall n :: 0 <= n < 18 ==> (IsPrime(n) <==> n in [2, 3, 5, 7, 11, 13, 17])
  {
    assert 4 % 2 == 0 && 6 % 2 == 0 && 8 % 2 == 0 && 9 % 3 == 0 && 10 % 2 == 0;
    assert 12 % 2 == 0 && 14 % 2 == 0 && 15 % 3 == 0 && 16 % 2 == 0;
  }

  predicate NoneSifted(p: nat, q: nat)
    decreases q - p
  {
    p >= q || (!Sifted(p) && NoneSifted(p + 1, q))
  }

  lemma {:induction false} NoneSiftedMeans(p: nat, q: nat, n: nat)
    requires NoneSifted(p, q) && p <= n < q
    ensures !Sifted(n)
    decreases q - p
  {
    if p < n {
      NoneSiftedMeans(p + 1, q, n);
    }
  }

  lemma NoneBetween(p: nat, q: nat)
    requires 18 <= p < q && NoneSifted(p + 1, q)
    ensures IsNext(p, q)
  {
    forall n | p < n < q
      ensures !IsPrime(n)
    {
      NoneSiftedMeans(p + 1, q, n);
      SiftedOnly(n);
    }
  }

  /** From the entry at `t` on, `count` entries are primes with none between them and their successors. */
  ghost predicate Consecutive(t: nat, count: nat)
    requires t + count <= 64
  {
    forall i :: t <= i < t + count ==> IsPrime(PRIMES[i]) && (i < 63 ==> IsNext(PRIMES[i], PRIMES[i + 1]))
  }

  lemma SmallNext(p: nat, q: nat)
    requires p < q <= 19 && forall n :: p < n < q ==> n == 18 || (n < 18 && n !in [2, 3, 5, 7, 11, 13, 17])
    ensures IsNext(p, q)
  {
    SmallPrimes();
    assert !IsPrime(18) by {
      assert 18 % 2 == 0;
    }
  }

  lemma SmallArePrime()
    ensures IsPrime(2) && IsPrime(3) && IsPrime(5) && IsPrime(7) && IsPrime(11) && IsPrime(13) && IsPrime(17)
  {
    SmallPrimes();
  }

  lemma FirstSeven()
    ensures Consecutive(0, 7)
  {
    SmallArePrime();
    SmallNext(2, 3);
    SmallNext(3, 5);
    SmallNext(5, 7);
    SmallNext(7, 11);
    SmallNext(11, 13);
    SmallNext(13, 17);
    SmallNext(17, 19);
    hide IsPrime, IsNext;
  }

  lemma From19()
    ensures Consecutive(7, 4)
  {
    hide IsPrime, IsNext;
    SiftedIsPrime(19);
    assert NoneSifted(20, 23);
    NoneBetween(19, 23);
    SiftedIsPrime(23);
    assert NoneSifted(24, 29);
    NoneBetween(23, 29);
    SiftedIsPrime(29);
    assert NoneSifted(30, 31);
    NoneBetween(29, 31);
    SiftedIsPrime(31);
    assert NoneSifted(32, 37);
    NoneBetween(31, 37);
  }

  lemma From37()
    ensures Consecutive(11, 4)
  {
    hide IsPrime, IsNext;
    SiftedIsPrime(37);
    assert NoneSifted(38, 41);
    NoneBetween(37, 41);
    SiftedIsPrime(41);
    assert NoneSifted(42, 43);
    NoneBetween(41, 43);
    SiftedIsPrime(43);
    assert NoneSifted(44, 47);
    NoneBetween(43, 47);
    SiftedIsPrime(47);
    assert NoneSifted(48, 53);
    NoneBetween(47, 53);
  }

  lemma From53()
    ensures Consecutive(15, 4)
  {
    hide IsPrime, IsNext;
    SiftedIsPrime(53);
    assert NoneSifted(54, 59);
    NoneBetween(53, 59);
    SiftedIsPrime(59);
    assert NoneSifted(60, 61);
    NoneBetween(59, 61);
    SiftedIsPrime(61);
    assert NoneSifted(62, 67);
    NoneBetween(61, 67);
    SiftedIsPrime(67);
    assert NoneSifted(68, 71);
    NoneBetween(67, 71);
  }

  lemma From71()
    ensures Consecutive(19, 4)
  {
    hide IsPrime, IsNext;
    SiftedIsPrime(71);
    assert NoneSifted(72, 73);
    NoneBetween(71, 73);
    SiftedIsPrime(73);
    assert NoneSifted(74, 79);
    NoneBetween(73, 79);
    SiftedIsPrime(79);
    assert NoneSifted(80, 83);
    NoneBetween(79, 83);
    SiftedIsPrime(83);
    assert NoneSifted(84, 89);
    NoneBetween(83, 89);
  }

  lemma From89()
    ensures Consecutive(23, 4)
  {
    hide IsPrime, IsNext;
    SiftedIsPrime(89);
    assert NoneSifted(90, 97);
    NoneBetween(89, 97);
    SiftedIsPrime(97);
    assert NoneSifted(98, 101);
    NoneBetween(97, 101);
    SiftedIsPrime(101);
    assert NoneSifted(102, 103);
    NoneBetween(101, 103);
    SiftedIsPrime(103);
    assert NoneSifted(104, 107);
    NoneBetween(103, 107);
  }

  lemma From107()
    ensures Consecutive(27, 4)
  {
    hide IsPrime, IsNext;
    SiftedIsPrime(107);
    assert NoneSifted(108, 109);
    NoneBetween(107, 109);
    SiftedIsPrime(109);
    assert NoneSifted(110, 113);
    NoneBetween(109, 113);
    SiftedIsPrime(113);
    assert NoneSifted(114, 127);
    NoneBetween(113, 127);
    SiftedIsPrime(127);
    assert NoneSifted(128, 131);
    NoneBetween(127, 131);
  }

  lemma From131()
    ensures Consecutive(31, 4)
  {
    hide IsPrime, IsNext;
    SiftedIsPrime(131);
    assert NoneSifted(132, 137);
    NoneBetween(131, 137);
    SiftedIsPrime(137);
    assert NoneSifted(138, 139);
    NoneBetween(137, 139);
    SiftedIsPrime(139);
    assert NoneSifted(140, 149);
    NoneBetween(139, 149);
    SiftedIsPrime(149);
    assert NoneSifted(150, 151);
    NoneBetween(149, 151);
  }

  lemma From151()
    ensures Consecutive(35, 4)
  {
    hide IsPrime, IsNext;
    SiftedIsPrime(151);
    assert NoneSifted(152, 157);
    NoneBetween(151, 157);
    SiftedIsPrime(157);
    assert NoneSifted(158, 163);
    NoneBetween(157, 163);
    SiftedIsPrime(163);
    assert NoneSifted(164, 167);
    NoneBetween(163, 167);
    SiftedIsPrime(167);
    assert NoneSifted(168, 173);
    NoneBetween(167, 173);
  }

  lemma From173()
    ensures Consecutive(39, 4)
  {
    hide IsPrime, IsNext;
    SiftedIsPrime(173);
    assert NoneSifted(174, 179);
    NoneBetween(173, 179);
    SiftedIsPrime(179);
    assert NoneSifted(180, 181);
    NoneBetween(179, 181);
    SiftedIsPrime(181);
    assert NoneSifted(182, 191);
    NoneBetween(181, 191);
    SiftedIsPrime(191);
    assert NoneSifted(192, 193);
    NoneBetween(191, 193);
  }

  lemma From193()
    ensures Consecutive(43, 4)
  {
    hide IsPrime, IsNext;
    SiftedIsPrime(193);
    assert NoneSifted(194, 197);
    NoneBetween(193, 197);
    SiftedIsPrime(197);
    assert NoneSifted(198, 199);
    NoneBetween(197, 199);
    SiftedIsPrime(199);
    assert NoneSifted(200, 211);
    NoneBetween(199, 211);
    SiftedIsPrime(211);
    assert NoneSifted(212, 223);
    NoneBetween(211, 223);
  }

  lemma From223()
    ensures Consecutive(47, 4)
  {
    hide IsPrime, IsNext;
    SiftedIsPrime(223);
    assert NoneSifted(224, 227);
    NoneBetween(223, 227);
    SiftedIsPrime(227);
    assert NoneSifted(228, 229);
    NoneBetween(227, 229);
    SiftedIsPrime(229);
    assert NoneSifted(230, 233);
    NoneBetween(229, 233);
    SiftedIsPrime(233);
    assert NoneSifted(234, 239);
    NoneBetween(233, 239);
  }

  lemma From239()
    ensures Consecutive(51, 4)
  {
    hide IsPrime, IsNext;
    SiftedIsPrime(239);
    assert NoneSifted(240, 241);
    NoneBetween(239, 241);
    SiftedIsPrime(241);
    assert NoneSifted(242, 251);
    NoneBetween(241, 251);
    SiftedIsPrime(251);
    assert NoneSifted(252, 257);
    NoneBetween(251, 257);
    SiftedIsPrime(257);
    assert NoneSifted(258, 263);
    NoneBetween(257, 263);
  }

  lemma From263()
    ensures Consecutive(55, 4)
  {
    hide IsPrime, IsNext;
    SiftedIsPrime(263);
    assert NoneSifted(264, 269);
    NoneBetween(263, 269);
    SiftedIsPrime(269);
    assert NoneSifted(270, 271);
    NoneBetween(269, 271);
    SiftedIsPrime(271);
    assert NoneSifted(272, 277);
    NoneBetween(271, 277);
    SiftedIsPrime(277);
    assert NoneSifted(278, 281);
    NoneBetween(277, 281);
  }

  lemma From281()
    ensures Consecutive(59, 4)
  {
    hide IsPrime, IsNext;
    SiftedIsPrime(281);
    assert NoneSifted(282, 283);
    NoneBetween(281, 283);
    SiftedIsPrime(283);
    assert NoneSifted(284, 293);
    NoneBetween(283, 293);
    SiftedIsPrime(293);
    assert NoneSifted(294, 307);
    NoneBetween(293, 307);
    SiftedIsPrime(307);
    assert NoneSifted(308, 311);
    NoneBetween(307, 311);
  }

  lemma From311()
    ensures Consecutive(63, 1)
  {
    hide IsPrime, IsNext;
    SiftedIsPrime(311);
  }

  lemma PrimesStart()
    ensures PRIMES[0] == 2 && !IsPrime(0) && !IsPrime(1)
  {
  }

  /** The table holds the first 64 primes: it starts with the first, and goes from each to the next. */
  lemma PrimesInOrder()
    ensures PRIMES[0] == 2 && !IsPrime(0) && !IsPrime(1)
    ensures Consecutive(0, 64)
  {
    PrimesStart();
    FirstSeven();
    From19();
    From37();
    From53();
    From71();
    From89();
    From107();
    From131();
    From151();
    From173();
    From193();
    From223();
    From239();
    From263();
    From281();
    From311();
    hide IsPrime, IsNext, PRIMES;
  }

  // ---------------------------------------------------------------- roots

  function Cube(x: int): int { x * x * x }

  function Square(x: int): int { x * x }

  /** The cube root of `p` is `c` and a fraction that begins with the 32 bits of `k`. */
  predicate CubeRoot(p: int, c: int, k: int) {
    && Cube(c) <= p < Cube(c + 1)
    && Cube(c * TWO32 + k) <= p * TWO32 * TWO32 * TWO32 < Cube(c * TWO32 + k + 1)
  }

  predicate SquareRoot(p: int, c: int, k: int) {
    && Square(c) <= p < Square(c + 1)
    && Square(c * TWO32 + k) <= p * TWO32 * TWO32 < Square(c * TWO32 + k + 1)
  }

  /** The entries from `t` on, as many as one row holds. */
  ghost predicate RowOfRoots(t: nat)
    requires t + 8 <= 64
  {
    forall i :: t <= i < t + 8 ==> HasCubeRoot(PRIMES[i], K[i])
  }

  ghost predicate HasCubeRoot(p: int, k: int) { exists c :: CubeRoot(p, c, k) }

  lemma RootIs(p: int, c: int, k: int)
    requires CubeRoot(p, c, k)
    ensures HasCubeRoot(p, k)
  {
  }

  lemma RootsFrom2()
    ensures RowOfRoots(0)
  {
    RootIs(2, 1, 0x428a2f98);
    RootIs(3, 1, 0x71374491);
    RootIs(5, 1, 0xb5c0fbcf);
    RootIs(7, 1, 0xe9b5dba5);
    RootIs(11, 2, 0x3956c25b);
    RootIs(13, 2, 0x59f111f1);
    RootIs(17, 2, 0x923f82a4);
    RootIs(19, 2, 0xab1c5ed5);
    hide HasCubeRoot;
  }

  lemma RootsFrom23()
    ensures RowOfRoots(8)
  {
    RootIs(23, 2, 0xd807aa98);
    RootIs(29, 3, 0x12835b01);
    RootIs(31, 3, 0x243185be);
    RootIs(37, 3, 0x550c7dc3);
    RootIs(41, 3, 0x72be5d74);
    RootIs(43, 3, 0x80deb1fe);
    RootIs(47, 3, 0x9bdc06a7);
    RootIs(53, 3, 0xc19bf174);
    hide HasCubeRoot;
  }

  lemma RootsFrom59()
    ensures RowOfRoots(16)
  {
    RootIs(59, 3, 0xe49b69c1);
    RootIs(61, 3, 0xefbe4786);
    RootIs(67, 4, 0x0fc19dc6);
    RootIs(71, 4, 0x240ca1cc);
    RootIs(73, 4, 0x2de92c6f);
    RootIs(79, 4, 0x4a7484aa);
    RootIs(83, 4, 0x5cb0a9dc);
    RootIs(89, 4, 0x76f988da);
    hide HasCubeRoot;
  }

  lemma RootsFrom97()
    ensures RowOfRoots(24)
  {
    RootIs(97, 4, 0x983e5152);
    RootIs(101, 4, 0xa831c66d);
    RootIs(103, 4, 0xb00327c8);
    RootIs(107, 4, 0xbf597fc7);
    RootIs(109, 4, 0xc6e00bf3);
    RootIs(113, 4, 0xd5a79147);
    RootIs(127, 5, 0x06ca6351);
    RootIs(131, 5, 0x14292967);
    hide HasCubeRoot;
  }

  lemma RootsFrom137()
    ensures RowOfRoots(32)
  {
    RootIs(137, 5, 0x27b70a85);
    RootIs(139, 5, 0x2e1b2138);
    RootIs(149, 5, 0x4d2c6dfc);
    RootIs(151, 5, 0x53380d13);
    RootIs(157, 5, 0x650a7354);
    RootIs(163, 5, 0x766a0abb);
    RootIs(167, 5, 0x81c2c92e);
    RootIs(173, 5, 0x92722c85);
    hide HasCubeRoot;
  }

  lemma RootsFrom179()
    ensures RowOfRoots(40)
  {
    RootIs(179, 5, 0xa2bfe8a1);
    RootIs(181, 5, 0xa81a664b);
    RootIs(191, 5, 0xc24b8b70);
    RootIs(193, 5, 0xc76c51a3);
    RootIs(197, 5, 0xd192e819);
    RootIs(199, 5, 0xd6990624);
    RootIs(211, 5, 0xf40e3585);
    RootIs(223, 6, 0x106aa070);
    hide HasCubeRoot;
  }

  lemma RootsFrom227()
    ensures RowOfRoots(48)
  {
    RootIs(227, 6, 0x19a4c116);
    RootIs(229, 6, 0x1e376c08);
    RootIs(233, 6, 0x2748774c);
    RootIs(239, 6, 0x34b0bcb5);
    RootIs(241, 6, 0x391c0cb3);
    RootIs(251, 6, 0x4ed8aa4a);
    RootIs(257, 6, 0x5b9cca4f);
    RootIs(263, 6, 0x682e6ff3);
    hide HasCubeRoot;
  }

  lemma RootsFrom269()
    ensures RowOfRoots(56)
  {
    RootIs(269, 6, 0x748f82ee);
    RootIs(271, 6, 0x78a5636f);
    RootIs(277, 6, 0x84c87814);
    RootIs(281, 6, 0x8cc70208);
    RootIs(283, 6, 0x90befffa);
    RootIs(293, 6, 0xa4506ceb);
    RootIs(307, 6, 0xbef9a3f7);
    RootIs(311, 6, 0xc67178f2);
    hide HasCubeRoot;
  }

  /** Section 4.2.2. */
  lemma RoundConstantsAreCubeRoots(t: nat)
    requires t < 64
    ensures |K| == 64 && K[t] < TWO32 && HasCubeRoot(PRIMES[t], K[t])
  {
    TableOfWords();
    RowOfEntry(t);
    hide K, PRIMES, HasCubeRoot;
  }

  lemma TableOfWords()
    ensures |K| == 64 && forall t :: 0 <= t < 64 ==> K[t] < TWO32
  {
  }

  lemma RowOfEntry(t: nat)
    requires t < 64
    ensures HasCubeRoot(PRIMES[t], K[t])
  {
    hide HasCubeRoot;
    var row := t / 8 * 8;
    assert row <= t < row + 8;
    if row == 0 {
      RootsFrom2();
    } else if row == 8 {
      RootsFrom23();
    } else if row == 16 {
      RootsFrom59();
    } else if row == 24 {
      RootsFrom97();
    } else if row == 32 {
      RootsFrom137();
    } else if row == 40 {
      RootsFrom179();
    } else if row == 48 {
      RootsFrom227();
    } else {
      RootsFrom269();
    }
  }

  /** Section 5.3.3. */
  lemma InitialHashIsSquareRoots()
    ensures SquareRoot(PRIMES[0], 1, INITIAL_HASH.a)
    ensures SquareRoot(PRIMES[1], 1, INITIAL_HASH.b)
    ensures SquareRoot(PRIMES[2], 2, INITIAL_HASH.c)
    ensures SquareRoot(PRIMES[3], 2, INITIAL_HASH.d)
    ensures SquareRoot(PRIMES[4], 3, INITIAL_HASH.e)
    ensures SquareRoot(PRIMES[5], 3, INITIAL_HASH.f)
    ensures SquareRoot(PRIMES[6], 4, INITIAL_HASH.g)
    ensures SquareRoot(PRIMES[7], 4, INITIAL_HASH.h)
  {
  }

  // ---------------------------------------------------------------- and no other words are

  lemma CubeOfNext(x: nat)
    ensures Cube(x) < Cube(x + 1)
  {
    assert Cube(x + 1) == Cube(x) + 3 * (x * x) + 3 * x + 1;
    assert x * x >= 0;
  }

  lemma {:induction false} CubesBetween(x: nat, y: nat)
    requires x <= y
    ensures Cube(x) <= Cube(y)
  {
    if x < y {
      CubesBetween(x, y - 1);
      CubeOfNext(y - 1);
    }
  }

  /** The bits of a root are determined, so a table with another entry has none of these properties. */
  lemma RootBitsAreOne(p: nat, c: nat, k: Word, c': nat, k': Word)
    requires CubeRoot(p, c, k) && CubeRoot(p, c', k')
    ensures c == c' && k == k'
  {
    if c < c' {
      CubesBetween(c + 1, c');
    } else if c' < c {
      CubesBetween(c' + 1, c);
    } else if k < k' {
      CubesBetween(c * TWO32 + k + 1, c * TWO32 + k');
    } else if k' < k {
      CubesBetween(c * TWO32 + k' + 1, c * TWO32 + k);
    }
  }
}
