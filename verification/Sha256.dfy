/**
 * The portable SHA-256 of src/Runtime/bytes.ts, against FIPS 180-4: section 5.1.1 (padding),
 * 5.3.3 (initial value), 4.1.2 and 4.2.2 (functions and constants), 6.2.2 (the hash computation).
 */
module Sha256Standard {
  import opened JsNumber

  // ---------------------------------------------------------------- section 4.1.2, on words

  /** The circular right shift: the low `n` bits move to the top. */
  function Rotr(x: Word, n: nat): Word
    requires n < 32
  {
    Pow2Add(n, 32 - n);
    Pow2Is(32);
    RotationRange(x, Pow2(n), Pow2(32 - n));
    x / Pow2(n) + x % Pow2(n) * Pow2(32 - n)
  }

  function ShiftRight(x: Word, n: nat): Word
    requires n < 32
  {
    Pow2Add(n, 32 - n);
    Pow2Is(32);
    RotationRange(x, Pow2(n), Pow2(32 - n));
    x / Pow2(n)
  }

  function Complement(x: Word): Word { TWO32 - 1 - x }

  function Ch(x: Word, y: Word, z: Word): nat { BitXor(BitAnd(x, y), BitAnd(Complement(x), z)) }

  function Maj(x: Word, y: Word, z: Word): nat { BitXor(BitXor(BitAnd(x, y), BitAnd(x, z)), BitAnd(y, z)) }

  function Xor3(a: Word, b: Word, c: Word): nat { BitXor(BitXor(a, b), c) }

  function BigSigma0(x: Word): nat { Xor3(Rotr(x, 2), Rotr(x, 13), Rotr(x, 22)) }
  function BigSigma1(x: Word): nat { Xor3(Rotr(x, 6), Rotr(x, 11), Rotr(x, 25)) }
  function SmallSigma0(x: Word): nat { Xor3(Rotr(x, 7), Rotr(x, 18), ShiftRight(x, 3)) }
  function SmallSigma1(x: Word): nat { Xor3(Rotr(x, 17), Rotr(x, 19), ShiftRight(x, 10)) }

  const K: seq<nat> :=
    [0x428a2f98, 0x71374491, 0xb5c0fbcf, 0xe9b5dba5, 0x3956c25b, 0x59f111f1, 0x923f82a4, 0xab1c5ed5]
    + [0xd807aa98, 0x12835b01, 0x243185be, 0x550c7dc3, 0x72be5d74, 0x80deb1fe, 0x9bdc06a7, 0xc19bf174]
    + [0xe49b69c1, 0xefbe4786, 0x0fc19dc6, 0x240ca1cc, 0x2de92c6f, 0x4a7484aa, 0x5cb0a9dc, 0x76f988da]
    + [0x983e5152, 0xa831c66d, 0xb00327c8, 0xbf597fc7, 0xc6e00bf3, 0xd5a79147, 0x06ca6351, 0x14292967]
    + [0x27b70a85, 0x2e1b2138, 0x4d2c6dfc, 0x53380d13, 0x650a7354, 0x766a0abb, 0x81c2c92e, 0x92722c85]
    + [0xa2bfe8a1, 0xa81a664b, 0xc24b8b70, 0xc76c51a3, 0xd192e819, 0xd6990624, 0xf40e3585, 0x106aa070]
    + [0x19a4c116, 0x1e376c08, 0x2748774c, 0x34b0bcb5, 0x391c0cb3, 0x4ed8aa4a, 0x5b9cca4f, 0x682e6ff3]
    + [0x748f82ee, 0x78a5636f, 0x84c87814, 0x8cc70208, 0x90befffa, 0xa4506ceb, 0xbef9a3f7, 0xc67178f2]

  // ---------------------------------------------------------------- sections 5.1.1 and 5.2.1

  /** A length in bytes is a whole number of blocks with room for the message, the marker and the length. */
  predicate FitsPadding(length: nat, message: nat) {
    length % 64 == 0 && length >= message + 9
  }

  /** The least such length. */
  function PaddedLength(message: nat): (n: nat)
    ensures FitsPadding(n, message) && n < message + 9 + 64
  {
    (message + 8) / 64 * 64 + 64
  }

  function Zeros(n: nat): seq<Byte> { seq(n, _ => 0) }

  /** `count` bytes of `x`, most significant first. */
  function BigEndian(x: nat, count: nat): (s: seq<Byte>)
    ensures |s| == count
  {
    if count == 0 then [] else BigEndian(x / 256, count - 1) + [x % 256]
  }

  function Padded(message: seq<Byte>): (s: seq<Byte>)
    ensures |s| == PaddedLength(|message|)
  {
    message + [0x80] + Zeros(PaddedLength(|message|) - |message| - 9) + BigEndian(8 * |message|, 8)
  }

  function WordAt(bytes: seq<Byte>, at: nat): Word
    requires at + 4 <= |bytes|
  {
    bytes[at] as int * 0x1000000 + bytes[at + 1] as int * 0x10000 + bytes[at + 2] as int * 0x100 + bytes[at + 3]
  }

  // ---------------------------------------------------------------- section 6.2.2

  datatype Vars = Vars(a: Word, b: Word, c: Word, d: Word, e: Word, f: Word, g: Word, h: Word)

  const INITIAL_HASH := Vars(0x6a09e667, 0xbb67ae85, 0x3c6ef372, 0xa54ff53a, 0x510e527f, 0x9b05688c, 0x1f83d9ab,
                             0x5be0cd19)

  /** Step 1: the message schedule of the block at `offset`. */
  function Schedule(bytes: seq<Byte>, offset: nat, t: nat): Word
    requires offset + 64 <= |bytes| && t < 64
  {
    if t < 16 then WordAt(bytes, offset + 4 * t)
    else (SmallSigma1(Schedule(bytes, offset, t - 2)) + Schedule(bytes, offset, t - 7)
          + SmallSigma0(Schedule(bytes, offset, t - 15)) + Schedule(bytes, offset, t - 16)) % TWO32
  }

  /** Step 3: one round. */
  function T1(v: Vars, k: nat, w: Word): nat { v.h + BigSigma1(v.e) + Ch(v.e, v.f, v.g) + k + w }

  function T2(v: Vars): nat { BigSigma0(v.a) + Maj(v.a, v.b, v.c) }

  function Round(v: Vars, k: nat, w: Word): Vars {
    Vars((T1(v, k, w) + T2(v)) % TWO32, v.a, v.b, v.c, (v.d + T1(v, k, w)) % TWO32, v.e, v.f, v.g)
  }

  /** Step 4: the intermediate hash value. */
  function AddVars(h: Vars, v: Vars): Vars {
    Vars((h.a + v.a) % TWO32, (h.b + v.b) % TWO32, (h.c + v.c) % TWO32, (h.d + v.d) % TWO32,
         (h.e + v.e) % TWO32, (h.f + v.f) % TWO32, (h.g + v.g) % TWO32, (h.h + v.h) % TWO32)
  }

  /** The working variables after `t` rounds over block `block`, from the hash value before it. */
  function Rounds(bytes: seq<Byte>, block: nat, t: nat): Vars
    requires 64 * block + 64 <= |bytes| && t <= 64
    decreases block, t + 1
  {
    if t == 0 then HashBlocks(bytes, block)
    else Round(Rounds(bytes, block, t - 1), K[t - 1], Schedule(bytes, 64 * block, t - 1))
  }

  /** The hash value after the first `blocks` blocks. */
  function HashBlocks(bytes: seq<Byte>, blocks: nat): Vars
    requires 64 * blocks <= |bytes|
    decreases blocks, 0
  {
    if blocks == 0 then INITIAL_HASH
    else AddVars(HashBlocks(bytes, blocks - 1), Rounds(bytes, blocks - 1, |K|))
  }

  function Output(v: Vars): seq<Byte> {
    BigEndian(v.a, 4) + BigEndian(v.b, 4) + BigEndian(v.c, 4) + BigEndian(v.d, 4)
    + BigEndian(v.e, 4) + BigEndian(v.f, 4) + BigEndian(v.g, 4) + BigEndian(v.h, 4)
  }

  function Sha256(message: seq<Byte>): seq<Byte> {
    var bytes := Padded(message);
    Output(HashBlocks(bytes, |bytes| / 64))
  }

  /** No shorter length has room: `PaddedLength` is the least multiple of 64 that does. */
  lemma PaddedLengthIsLeast(message: nat, length: nat)
    requires FitsPadding(length, message)
    ensures PaddedLength(message) <= length
  {
    assert length / 64 * 64 == length;
    assert length / 64 >= (message + 9 + 63) / 64;
  }
}

/** `sha256SyncPortable`, in the numbers JavaScript computes with. */
module Sha256Portable {
  import opened JsNumber
  import opened Sha256Standard

  /** The table the loop reads. */
  const SHA256_K: seq<nat> :=
    [0x428a2f98, 0x71374491, 0xb5c0fbcf, 0xe9b5dba5, 0x3956c25b, 0x59f111f1, 0x923f82a4, 0xab1c5ed5]
    + [0xd807aa98, 0x12835b01, 0x243185be, 0x550c7dc3, 0x72be5d74, 0x80deb1fe, 0x9bdc06a7, 0xc19bf174]
    + [0xe49b69c1, 0xefbe4786, 0x0fc19dc6, 0x240ca1cc, 0x2de92c6f, 0x4a7484aa, 0x5cb0a9dc, 0x76f988da]
    + [0x983e5152, 0xa831c66d, 0xb00327c8, 0xbf597fc7, 0xc6e00bf3, 0xd5a79147, 0x06ca6351, 0x14292967]
    + [0x27b70a85, 0x2e1b2138, 0x4d2c6dfc, 0x53380d13, 0x650a7354, 0x766a0abb, 0x81c2c92e, 0x92722c85]
    + [0xa2bfe8a1, 0xa81a664b, 0xc24b8b70, 0xc76c51a3, 0xd192e819, 0xd6990624, 0xf40e3585, 0x106aa070]
    + [0x19a4c116, 0x1e376c08, 0x2748774c, 0x34b0bcb5, 0x391c0cb3, 0x4ed8aa4a, 0x5b9cca4f, 0x682e6ff3]
    + [0x748f82ee, 0x78a5636f, 0x84c87814, 0x8cc70208, 0x90befffa, 0xa4506ceb, 0xbef9a3f7, 0xc67178f2]

  /** It is the standard's. */
  lemma TablesAgree(t: nat)
    requires t < 64
    ensures SHA256_K[t] == K[t]
  {
  }

  // ---------------------------------------------------------------- words and their numbers

  lemma XorWord(a: int, b: int)
    ensures ToUint32(Xor(a, b)) == BitXor(ToUint32(a), ToUint32(b))
  {
    Pow2Is(32);
    OrXorBound(ToUint32(a), ToUint32(b), 32);
    WordOfInt32(BitXor(ToUint32(a), ToUint32(b)));
  }

  lemma AndWord(a: int, b: int)
    ensures ToUint32(And(a, b)) == BitAnd(ToUint32(a), ToUint32(b))
  {
    AndBound(ToUint32(a), ToUint32(b));
    WordOfInt32(BitAnd(ToUint32(a), ToUint32(b)));
  }

  lemma NotWord(a: int)
    ensures ToUint32(Not(a)) == Complement(ToUint32(a))
  {
  }

  /** `x | 0` keeps the word. */
  lemma OrZeroWord(x: int)
    ensures ToUint32(Or(x, 0)) == ToUint32(x)
  {
    OrZero(ToUint32(x));
    WordOfInt32(ToUint32(x));
  }

  /** `a << n` drops the bits that leave the word. */
  lemma ShlWord(a: int, n: nat)
    requires n < 32
    ensures ToUint32(Shl(a, n)) == ToUint32(a) * Pow2(n) % TWO32
  {
    var x, p := ToUint32(a), Pow2(n);
    if ToInt32(a) != x {
      ScaledBySign(x, p);
    }
    WordOfInt32(ToUint32(ToInt32(a) * p));
  }

  lemma ScaledBySign(x: int, p: nat)
    ensures Same((x - TWO32) * p, x * p)
  {
    var m: int := p;
    assert (x - TWO32) * p == x * p + TWO32 * (-m);
    SameShifted(x * p, -m);
  }

  function JsRotate(a: int, n: nat): int
    requires n < 32
  {
    Or(Ushr(a, n), Shl(a, 32 - n))
  }

  /** OR of the two parts of a rotated word, as words. */
  lemma RotatedParts(x: Word, n: nat)
    requires 0 < n < 32
    ensures 0 <= x / Pow2(n) < TWO32 && x * Pow2(32 - n) % TWO32 == x % Pow2(n) * Pow2(32 - n)
    ensures BitOr(x / Pow2(n), x * Pow2(32 - n) % TWO32) == Rotr(x, n)
    ensures 0 <= Rotr(x, n) < TWO32
  {
    var q, p := Pow2(n), Pow2(32 - n);
    Pow2Add(n, 32 - n);
    Pow2Is(32);
    ScaledModulo(x, q, p);
    RotationRange(x, q, p);
    OrIsSum(x % q, 32 - n, x / q);
  }

  /** The two words that are joined, and the number JavaScript makes of what they join to. */
  lemma RotateJoins(a: int, n: nat, x: Word, low: Word, high: Word)
    requires 0 < n < 32 && x == ToUint32(a) && low == Ushr(a, n) && high == ToUint32(Shl(a, 32 - n))
    ensures JsRotate(a, n) == ToInt32(BitOr(low, high))
  {
    assert ToUint32(low) == low;
    hide BitOr, Pow2;
  }

  /** `(a >>> n) | (a << 32 - n)` is the circular right shift. */
  lemma RotationWord(a: int, n: nat)
    requires 0 < n < 32
    ensures ToUint32(JsRotate(a, n)) == Rotr(ToUint32(a), n)
    ensures 0 <= Rotr(ToUint32(a), n) < TWO32
  {
    var x := ToUint32(a);
    RotatedParts(x, n);
    ShlWord(a, 32 - n);
    RotateJoins(a, n, x, x / Pow2(n), x * Pow2(32 - n) % TWO32);
    WordOfInt32(Rotr(x, n));
  }

  // ---------------------------------------------------------------- the six functions, in JavaScript

  method Rotate(a: int, n: nat) returns (r: int)
    requires 0 < n < 32
    ensures ToUint32(r) == Rotr(ToUint32(a), n)
  {
    RotationWord(a, n);
    r := Or(Ushr(a, n), Shl(a, 32 - n));
  }

  method ShiftRightJs(a: int, n: nat) returns (r: int)
    requires n < 32
    ensures ToUint32(r) == ShiftRight(ToUint32(a), n)
  {
    r := Ushr(a, n);
    assert r == ShiftRight(ToUint32(a), n);
  }

  method Xor3Js(a: int, b: int, c: int) returns (r: int)
    ensures ToUint32(r) == Xor3(ToUint32(a), ToUint32(b), ToUint32(c))
  {
    XorWord(a, b);
    XorWord(Xor(a, b), c);
    r := Xor(Xor(a, b), c);
  }

  method BigSigma0Js(a: int) returns (r: int)
    ensures ToUint32(r) == BigSigma0(ToUint32(a))
  {
    var r2 := Rotate(a, 2);
    var r13 := Rotate(a, 13);
    var r22 := Rotate(a, 22);
    r := Xor3Js(r2, r13, r22);
  }

  method BigSigma1Js(a: int) returns (r: int)
    ensures ToUint32(r) == BigSigma1(ToUint32(a))
  {
    var r6 := Rotate(a, 6);
    var r11 := Rotate(a, 11);
    var r25 := Rotate(a, 25);
    r := Xor3Js(r6, r11, r25);
  }

  method SmallSigma0Js(a: Word) returns (r: int)
    ensures ToUint32(r) == SmallSigma0(a)
  {
    assert ToUint32(a) == a;
    var r7 := Rotate(a, 7);
    var r18 := Rotate(a, 18);
    var s3 := ShiftRightJs(a, 3);
    r := Xor3Js(r7, r18, s3);
  }

  method SmallSigma1Js(a: Word) returns (r: int)
    ensures ToUint32(r) == SmallSigma1(a)
  {
    assert ToUint32(a) == a;
    var r17 := Rotate(a, 17);
    var r19 := Rotate(a, 19);
    var s10 := ShiftRightJs(a, 10);
    r := Xor3Js(r17, r19, s10);
  }

  method ChJs(e: int, f: int, g: int) returns (r: int)
    ensures ToUint32(r) == Ch(ToUint32(e), ToUint32(f), ToUint32(g))
  {
    AndWord(e, f);
    NotWord(e);
    AndWord(Not(e), g);
    XorWord(And(e, f), And(Not(e), g));
    r := Xor(And(e, f), And(Not(e), g));
  }

  method MajJs(a: int, b: int, c: int) returns (r: int)
    ensures ToUint32(r) == Maj(ToUint32(a), ToUint32(b), ToUint32(c))
  {
    AndWord(a, b);
    AndWord(a, c);
    AndWord(b, c);
    XorWord(And(a, b), And(a, c));
    XorWord(Xor(And(a, b), And(a, c)), And(b, c));
    r := Xor(Xor(And(a, b), And(a, c)), And(b, c));
  }

  // ---------------------------------------------------------------- the blocks

  /** `x | 0`. */
  method Truncate(x: int) returns (r: int)
    ensures Same(r, x)
  {
    OrZeroWord(x);
    r := Or(x, 0);
  }

  /** A sum of words, cut to a word at the end or as it goes. */
  lemma ScheduleSum(w16: Word, s0: int, w7: Word, s1: int)
    ensures ToUint32(w16 + s0 + w7 + s1) == (ToUint32(s1) + w7 + ToUint32(s0) + w16) % TWO32
  {
    SameSum(s0, s1, ToUint32(s0), ToUint32(s1));
    SameSum(s0 + s1, w16 + w7, ToUint32(s0) + ToUint32(s1), w16 + w7);
  }

  method SumOfFour(w16: Word, s0: int, w7: Word, s1: int, ghost u0: Word, ghost u1: Word) returns (r: Word)
    requires ToUint32(s0) == u0 && ToUint32(s1) == u1
    ensures r == (u1 + w7 + u0 + w16) % TWO32
  {
    ScheduleSum(w16, s0, w7, s1);
    var sum := Truncate(w16 + s0 + w7 + s1);
    r := ToUint32(sum);
  }

  /** The first `n` words of the schedule are in place. */
  ghost predicate Scheduled(w: array<Word>, bytes: seq<Byte>, offset: nat, n: nat)
    requires n <= 64 == w.Length && offset + 64 <= |bytes|
    reads w
  {
    forall t | 0 <= t < n :: w[t] == Schedule(bytes, offset, t)
  }

  /** `w[i]` past the first 16. */
  method NextWord(w: array<Word>, i: nat, ghost bytes: seq<Byte>, ghost offset: nat) returns (next: Word)
    requires 16 <= i < 64 == w.Length && offset + 64 <= |bytes|
    requires Scheduled(w, bytes, offset, i)
    ensures next == Schedule(bytes, offset, i)
  {
    var s0 := SmallSigma0Js(w[i - 15]);
    var s1 := SmallSigma1Js(w[i - 2]);
    hide SmallSigma0, SmallSigma1;
    next := SumOfFour(w[i - 16], s0, w[i - 7], s1, ToUint32(s0), ToUint32(s1));
  }

  /** `w[i] = view.getUint32(offset + i * 4)` for the first 16 words, the recurrence for the rest. */
  method ExpandSchedule(padded: array<Byte>, offset: nat, w: array<Word>, ghost bytes: seq<Byte>)
    requires w.Length == 64 && bytes == padded[..] && offset + 64 <= padded.Length
    modifies w
    ensures Scheduled(w, bytes, offset, 64) && padded[..] == bytes
  {
    ReadWords(padded, offset, w, bytes);
    for i := 16 to 64
      invariant Scheduled(w, bytes, offset, i)
    {
      StoreWord(w, i, bytes, offset);
    }
  }

  method StoreWord(w: array<Word>, i: nat, ghost bytes: seq<Byte>, ghost offset: nat)
    requires 16 <= i < 64 == w.Length && offset + 64 <= |bytes| && Scheduled(w, bytes, offset, i)
    modifies w
    ensures Scheduled(w, bytes, offset, i + 1)
  {
    var next := NextWord(w, i, bytes, offset);
    w[i] := next;
  }

  /** Big-endian, from the block itself. */
  method ReadWords(padded: array<Byte>, offset: nat, w: array<Word>, ghost bytes: seq<Byte>)
    requires w.Length == 64 && bytes == padded[..] && offset + 64 <= padded.Length
    modifies w
    ensures Scheduled(w, bytes, offset, 16)
  {
    for i := 0 to 16
      invariant Scheduled(w, bytes, offset, i)
    {
      w[i] := WordAt(padded[..], offset + i * 4);
      FirstWords(bytes, offset, i);
    }
  }

  lemma FirstWords(bytes: seq<Byte>, offset: nat, t: nat)
    requires offset + 64 <= |bytes| && t < 16
    ensures Schedule(bytes, offset, t) == WordAt(bytes, offset + t * 4)
  {
  }

  function Words(a: int, b: int, c: int, d: int, e: int, f: int, g: int, h: int): Vars {
    Vars(ToUint32(a), ToUint32(b), ToUint32(c), ToUint32(d), ToUint32(e), ToUint32(f), ToUint32(g), ToUint32(h))
  }

  lemma SameSum3(x: int, y: int, z: int)
    ensures Same(x + y + z, ToUint32(x) + ToUint32(y) + ToUint32(z))
  {
    SameSum(x, y, ToUint32(x), ToUint32(y));
    SameSum(x + y, z, ToUint32(x) + ToUint32(y), ToUint32(z));
  }

  /** The temporaries of a round, each cut to 32 bits, come to the standard's sums. */
  lemma RoundSums(d: int, h: int, s1: int, ch: int, kw: nat, s0: int, maj: int, t1: int, t2: int, a': int, e': int)
    requires Same(t1, h + s1 + ch + kw) && Same(t2, s0 + maj)
    requires Same(a', t1 + t2) && Same(e', d + t1)
    ensures var u1 := ToUint32(h) + ToUint32(s1) + ToUint32(ch) + kw;
            && ToUint32(a') == (u1 + (ToUint32(s0) + ToUint32(maj))) % TWO32
            && ToUint32(e') == (ToUint32(d) + u1) % TWO32
  {
    var u1 := ToUint32(h) + ToUint32(s1) + ToUint32(ch) + kw;
    var u2 := ToUint32(s0) + ToUint32(maj);
    SameSum3(h, s1, ch);
    SameSum(h + s1 + ch, kw, ToUint32(h) + ToUint32(s1) + ToUint32(ch), kw);
    SameSum(s0, maj, ToUint32(s0), ToUint32(maj));
    SameSum(t1, t2, u1, u2);
    SameSum(d, t1, ToUint32(d), u1);
  }

  /** The four sums of one turn of the loop. */
  method RoundTotals(d: int, h: int, s1: int, ch: int, k: nat, w: Word, s0: int, maj: int,
                     ghost v: Vars, ghost u1: nat, ghost u2: nat)
    returns (a': int, e': int)
    requires ToUint32(d) == v.d
    requires u1 == ToUint32(h) + ToUint32(s1) + ToUint32(ch) + k + w && u2 == ToUint32(s0) + ToUint32(maj)
    ensures ToUint32(a') == (u1 + u2) % TWO32 && ToUint32(e') == (v.d + u1) % TWO32
  {
    var t1 := Truncate(h + s1 + ch + k + w);
    var t2 := Truncate(s0 + maj);
    e' := Truncate(d + t1);
    a' := Truncate(t1 + t2);
    assert h + s1 + ch + k + w == h + s1 + ch + (k + w);
    RoundSums(d, h, s1, ch, k + w, s0, maj, t1, t2, a', e');
  }

  /** One turn of the loop: the two assignments that are not moves. */
  method RoundJs(a: int, b: int, c: int, d: int, e: int, f: int, g: int, h: int, k: nat, w: Word)
    returns (a': int, e': int)
    ensures var v := Round(Words(a, b, c, d, e, f, g, h), k, w); ToUint32(a') == v.a && ToUint32(e') == v.e
  {
    var s1 := BigSigma1Js(e);
    var ch := ChJs(e, f, g);
    var s0 := BigSigma0Js(a);
    var maj := MajJs(a, b, c);
    a', e' := RoundEnds(d, h, s1, ch, k, w, s0, maj, Words(a, b, c, d, e, f, g, h));
  }

  /** With the four functions computed, those two assignments. */
  method RoundEnds(d: int, h: int, s1: int, ch: int, k: nat, w: Word, s0: int, maj: int, ghost v: Vars)
    returns (a': int, e': int)
    requires ToUint32(d) == v.d && ToUint32(h) == v.h
    requires ToUint32(s1) == BigSigma1(v.e) && ToUint32(ch) == Ch(v.e, v.f, v.g)
    requires ToUint32(s0) == BigSigma0(v.a) && ToUint32(maj) == Maj(v.a, v.b, v.c)
    ensures ToUint32(a') == Round(v, k, w).a && ToUint32(e') == Round(v, k, w).e
  {
    ghost var u1 := ToUint32(h) + ToUint32(s1) + ToUint32(ch) + k + w;
    ghost var u2 := ToUint32(s0) + ToUint32(maj);
    hide BigSigma0, BigSigma1, Ch, Maj;
    RoundIs(v, k, w, u1, u2);
    a', e' := RoundTotals(d, h, s1, ch, k, w, s0, maj, v, u1, u2);
  }

  lemma RoundIs(v: Vars, k: nat, w: Word, u1: nat, u2: nat)
    requires u1 == v.h + BigSigma1(v.e) + Ch(v.e, v.f, v.g) + k + w && u2 == BigSigma0(v.a) + Maj(v.a, v.b, v.c)
    ensures Round(v, k, w).a == (u1 + u2) % TWO32 && Round(v, k, w).e == (v.d + u1) % TWO32
  {
    hide BigSigma0, BigSigma1, Ch, Maj;
  }

  /** The 64 rounds over one block. */
  method RunRounds(h0: int, h1: int, h2: int, h3: int, h4: int, h5: int, h6: int, h7: int, w: array<Word>,
                   ghost bytes: seq<Byte>, ghost block: nat)
    returns (a: int, b: int, c: int, d: int, e: int, f: int, g: int, h: int)
    requires w.Length == 64 && 64 * block + 64 <= |bytes|
    requires Scheduled(w, bytes, 64 * block, 64)
    requires Words(h0, h1, h2, h3, h4, h5, h6, h7) == HashBlocks(bytes, block)
    ensures Words(a, b, c, d, e, f, g, h) == Rounds(bytes, block, |K|)
  {
    a, b, c, d, e, f, g, h := h0, h1, h2, h3, h4, h5, h6, h7;
    for i := 0 to 64
      invariant Words(a, b, c, d, e, f, g, h) == Rounds(bytes, block, i)
    {
      ghost var next := Round(Words(a, b, c, d, e, f, g, h), K[i], w[i]);
      assert next == Rounds(bytes, block, i + 1);
      TablesAgree(i);
      var top, middle := RoundJs(a, b, c, d, e, f, g, h, SHA256_K[i], w[i]);
      h := g;
      g := f;
      f := e;
      e := middle;
      d := c;
      c := b;
      b := a;
      a := top;
      assert Words(a, b, c, d, e, f, g, h) == next;
    }
  }

  /** `(x + y) | 0`. */
  method AddNumber(x: int, y: int) returns (r: int)
    ensures ToUint32(r) == (ToUint32(x) + ToUint32(y)) % TWO32
  {
    SameSum(x, y, ToUint32(x), ToUint32(y));
    r := Truncate(x + y);
  }

  method AddNumbers(h0: int, h1: int, h2: int, h3: int, h4: int, h5: int, h6: int, h7: int,
                    a: int, b: int, c: int, d: int, e: int, f: int, g: int, h: int)
    returns (r0: int, r1: int, r2: int, r3: int, r4: int, r5: int, r6: int, r7: int)
    ensures Words(r0, r1, r2, r3, r4, r5, r6, r7) ==
              AddVars(Words(h0, h1, h2, h3, h4, h5, h6, h7), Words(a, b, c, d, e, f, g, h))
  {
    r0 := AddNumber(h0, a);
    r1 := AddNumber(h1, b);
    r2 := AddNumber(h2, c);
    r3 := AddNumber(h3, d);
    r4 := AddNumber(h4, e);
    r5 := AddNumber(h5, f);
    r6 := AddNumber(h6, g);
    r7 := AddNumber(h7, h);
  }

  // ---------------------------------------------------------------- the whole digest

  /** `(((bytes + 8) >> 6) + 1) << 6`. */
  function JsPaddedLength(bytes: nat): int { Shl(Shr(bytes + 8, 6) + 1, 6) }

  /** The shifts give the padded length exactly while it is a non-negative 32-bit number. */
  lemma JsPaddedLengthIsRight(bytes: nat)
    ensures JsPaddedLength(bytes) == PaddedLength(bytes) <==> PaddedLength(bytes) < TWO31
  {
    Pow2Is(6);
    if PaddedLength(bytes) < TWO31 {
      assert ToInt32(bytes + 8) == bytes + 8;
      var blocks := (bytes + 8) / 64 + 1;
      assert ToInt32(blocks) == blocks && ToInt32(blocks * 64) == blocks * 64;
    } else {
      assert JsPaddedLength(bytes) < TWO31;
    }
  }

  /** `view.setUint32(at, x)`. */
  method SetUint32(a: array<Byte>, at: nat, x: int)
    requires at + 4 <= a.Length
    modifies a
    ensures a[..] == old(a[..at]) + BigEndian(ToUint32(x), 4) + old(a[at + 4..])
  {
    var u := ToUint32(x);
    FourBytes(u);
    a[at], a[at + 1], a[at + 2], a[at + 3] := u / 0x1000000, u / 0x10000 % 0x100, u / 0x100 % 0x100, u % 0x100;
    assert a[..] == a[..at] + [a[at], a[at + 1], a[at + 2], a[at + 3]] + a[at + 4..];
  }

  lemma FourBytes(u: Word)
    ensures 0 <= u / 0x1000000 < 256
    ensures BigEndian(u, 4) == [u / 0x1000000, u / 0x10000 % 0x100, u / 0x100 % 0x100, u % 0x100]
  {
    assert u / 0x100 / 0x100 == u / 0x10000 && u / 0x10000 / 0x100 == u / 0x1000000;
    assert BigEndian(u, 4) == BigEndian(u / 0x100, 3) + [u % 0x100];
    assert BigEndian(u / 0x100, 3) == BigEndian(u / 0x10000, 2) + [u / 0x100 % 0x100];
    assert BigEndian(u / 0x10000, 2) == BigEndian(u / 0x1000000, 1) + [u / 0x10000 % 0x100];
    assert BigEndian(u / 0x1000000, 1) == BigEndian(u / 0x1000000 / 0x100, 0) + [u / 0x1000000 % 0x100];
  }

  /** The two 32-bit writes of the length are its eight bytes. */
  lemma EightBytes(high: nat, low: Word)
    ensures BigEndian(high * TWO32 + low, 8) == BigEndian(high, 4) + BigEndian(low, 4)
  {
    Pow2Is(32);
    LastBytes(high, low, 4);
  }

  lemma PaddedParts(data: seq<Byte>, bitLength: nat)
    requires bitLength == 8 * |data|
    ensures Padded(data) == data + [0x80] + Zeros(PaddedLength(|data|) - |data| - 9)
                            + (BigEndian(bitLength / TWO32, 4) + BigEndian(bitLength % TWO32, 4))
  {
    assert bitLength == bitLength / TWO32 * TWO32 + bitLength % TWO32;
    EightBytes(bitLength / TWO32, bitLength % TWO32);
  }

  lemma {:induction false} LastBytes(high: nat, low: nat, count: nat)
    requires low < Pow2(8 * count)
    ensures BigEndian(high * Pow2(8 * count) + low, 4 + count) == BigEndian(high, 4) + BigEndian(low, count)
  {
    hide BigEndian, Pow2;
    if count == 0 {
      NoLastBytes(high, low);
    } else {
      var q := Pow2(8 * (count - 1));
      EightMoreBits(count);
      LowByte(high, low, q);
      LastBytes(high, low / 256, count - 1);
      LastBytesStep(high, low, q, high * (256 * q) + low, count);
    }
  }

  lemma NoLastBytes(high: nat, low: nat)
    requires low < Pow2(0)
    ensures BigEndian(high * Pow2(0) + low, 4) == BigEndian(high, 4) + BigEndian(low, 0)
  {
    assert BigEndian(low, 0) == [];
  }

  lemma EightMoreBits(count: nat)
    requires count > 0
    ensures Pow2(8 * count) == 256 * Pow2(8 * (count - 1))
  {
    assert 8 * count == 8 + 8 * (count - 1);
    hide Pow2;
    Pow2Add(8, 8 * (count - 1));
    Pow2Is(8);
  }

  /** One byte more at the end of both. */
  lemma LastBytesStep(high: nat, low: nat, q: nat, x: nat, count: nat)
    requires count > 0 && x / 256 == high * q + low / 256 && x % 256 == low % 256
    requires BigEndian(high * q + low / 256, 4 + (count - 1)) == BigEndian(high, 4) + BigEndian(low / 256, count - 1)
    ensures BigEndian(x, 4 + count) == BigEndian(high, 4) + BigEndian(low, count)
  {
    LastByteIs(x, low, 3 + count, count - 1);
  }

  lemma LastByteIs(x: nat, low: nat, more: nat, count: nat)
    requires x % 256 == low % 256
    ensures BigEndian(x, more + 1) == BigEndian(x / 256, more) + [low % 256]
    ensures BigEndian(low, count + 1) == BigEndian(low / 256, count) + [low % 256]
  {
  }

  lemma LowByte(high: nat, low: nat, q: nat)
    requires low < 256 * q
    ensures (high * (256 * q) + low) / 256 == high * q + low / 256
    ensures (high * (256 * q) + low) % 256 == low % 256
  {
    assert high * (256 * q) == 256 * (high * q);
    DivModUnique(256 * (high * q) + low, 256, high * q + low / 256, low % 256);
  }

  /** The two writes of the length into zeroed room, as sequences. */
  lemma LengthWritten(data: seq<Byte>, zeroed: seq<Byte>, low: seq<Byte>, high: seq<Byte>)
    requires |low| == |high| == 4 && |zeroed| >= |data| + 9
    requires zeroed == data + [0x80] + Zeros(|zeroed| - |data| - 1)
    ensures var n := |zeroed|;
            var once := zeroed[..n - 4] + low + zeroed[n..];
            once[..n - 8] + high + once[n - 4..] == data + [0x80] + Zeros(n - |data| - 9) + (high + low)
  {
    var n := |zeroed|;
    var once := zeroed[..n - 4] + low + zeroed[n..];
    assert once[n - 4..] == low;
    assert once[..n - 8] == zeroed[..n - 8] == data + [0x80] + Zeros(n - |data| - 9);
  }

  method PaddedLengthJs(bytes: nat) returns (paddedLength: int)
    requires PaddedLength(bytes) < TWO31
    ensures paddedLength == PaddedLength(bytes)
  {
    JsPaddedLengthIsRight(bytes);
    paddedLength := JsPaddedLength(bytes);
  }

  /** `bitLength >>> 0` and `Math.floor(bitLength / 2 ** 32)`, at the end of the buffer. */
  method WriteLength(padded: array<Byte>, bitLength: nat)
    requires padded.Length >= 8 && bitLength < TWO32 * TWO32
    modifies padded
    ensures var zeroed, n := old(padded[..]), padded.Length;
            var once := zeroed[..n - 4] + BigEndian(bitLength % TWO32, 4) + zeroed[n..];
            padded[..] == once[..n - 8] + BigEndian(bitLength / TWO32, 4) + once[n - 4..]
  {
    var high, low := bitLength / 0x1_0000_0000, ToUint32(bitLength);
    assert ToUint32(high) == high && ToUint32(low) == low;
    SetUint32(padded, padded.Length - 4, low);
    SetUint32(padded, padded.Length - 8, high);
  }

  /** The padded message in place: data, marker, zeros, length. */
  method PadMessage(data: seq<Byte>) returns (padded: array<Byte>)
    requires PaddedLength(|data|) < TWO31
    ensures fresh(padded) && padded[..] == Padded(data)
  {
    var bytes := |data|;
    var bitLength := bytes * 8;
    var paddedLength := PaddedLengthJs(bytes);
    padded := ZeroedWith(data, paddedLength);
    ghost var zeroed := padded[..];
    WriteLength(padded, bitLength);
    WrittenIsPadded(data, zeroed, bitLength);
  }

  lemma WrittenIsPadded(data: seq<Byte>, zeroed: seq<Byte>, bitLength: nat)
    requires |zeroed| == PaddedLength(|data|) && bitLength == 8 * |data|
    requires zeroed == data + [0x80] + Zeros(|zeroed| - |data| - 1)
    ensures var n := |zeroed|;
            var once := zeroed[..n - 4] + BigEndian(bitLength % TWO32, 4) + zeroed[n..];
            once[..n - 8] + BigEndian(bitLength / TWO32, 4) + once[n - 4..] == Padded(data)
  {
    PaddedParts(data, bitLength);
    LengthWritten(data, zeroed, BigEndian(bitLength % TWO32, 4), BigEndian(bitLength / TWO32, 4));
  }

  method ZeroedWith(data: seq<Byte>, length: nat) returns (padded: array<Byte>)
    requires length > |data|
    ensures fresh(padded) && padded[..] == data + [0x80] + Zeros(length - |data| - 1)
  {
    padded := new Byte[length](_ => 0);
    forall i | 0 <= i < |data| {
      padded[i] := data[i];
    }
    padded[|data|] := 0x80;
  }

  /** One turn of the loop over the blocks. */
  method HashBlock(padded: array<Byte>, offset: nat, w: array<Word>,
                   h0: int, h1: int, h2: int, h3: int, h4: int, h5: int, h6: int, h7: int,
                   ghost bytes: seq<Byte>, ghost blocks: nat)
    returns (r0: int, r1: int, r2: int, r3: int, r4: int, r5: int, r6: int, r7: int)
    requires w.Length == 64 && bytes == padded[..] && offset == 64 * blocks && offset + 64 <= padded.Length
    requires Words(h0, h1, h2, h3, h4, h5, h6, h7) == HashBlocks(bytes, blocks)
    modifies w
    ensures Words(r0, r1, r2, r3, r4, r5, r6, r7) == HashBlocks(bytes, blocks + 1)
    ensures padded[..] == bytes
  {
    ExpandSchedule(padded, offset, w, bytes);
    var a, b, c, d, e, f, g, h := RunRounds(h0, h1, h2, h3, h4, h5, h6, h7, w, bytes, blocks);
    r0, r1, r2, r3, r4, r5, r6, r7 := AddNumbers(h0, h1, h2, h3, h4, h5, h6, h7, a, b, c, d, e, f, g, h);
  }

  method HashPadded(padded: array<Byte>)
    returns (h0: int, h1: int, h2: int, h3: int, h4: int, h5: int, h6: int, h7: int)
    requires padded.Length % 64 == 0
    ensures Words(h0, h1, h2, h3, h4, h5, h6, h7) == HashBlocks(padded[..], padded.Length / 64)
  {
    h0, h1, h2, h3 := 0x6a09e667, 0xbb67ae85, 0x3c6ef372, 0xa54ff53a;
    h4, h5, h6, h7 := 0x510e527f, 0x9b05688c, 0x1f83d9ab, 0x5be0cd19;
    assert Words(h0, h1, h2, h3, h4, h5, h6, h7) == INITIAL_HASH;
    h0, h1, h2, h3, h4, h5, h6, h7 := HashFrom(padded, h0, h1, h2, h3, h4, h5, h6, h7, padded.Length / 64);
  }

  /** The loop over the blocks. */
  method HashFrom(padded: array<Byte>, i0: int, i1: int, i2: int, i3: int, i4: int, i5: int, i6: int, i7: int,
                  ghost total: nat)
    returns (h0: int, h1: int, h2: int, h3: int, h4: int, h5: int, h6: int, h7: int)
    requires padded.Length == 64 * total && Words(i0, i1, i2, i3, i4, i5, i6, i7) == HashBlocks(padded[..], 0)
    ensures Words(h0, h1, h2, h3, h4, h5, h6, h7) == HashBlocks(padded[..], total)
  {
    h0, h1, h2, h3, h4, h5, h6, h7 := i0, i1, i2, i3, i4, i5, i6, i7;
    ghost var bytes, blocks := padded[..], 0;
    var w := new Word[64](_ => 0);
    var offset := 0;
    while offset < padded.Length
      invariant offset == 64 * blocks && blocks <= total && padded[..] == bytes
      invariant Words(h0, h1, h2, h3, h4, h5, h6, h7) == HashBlocks(bytes, blocks)
    {
      h0, h1, h2, h3, h4, h5, h6, h7 := HashBlock(padded, offset, w, h0, h1, h2, h3, h4, h5, h6, h7, bytes, blocks);
      blocks := blocks + 1;
      offset := offset + 64;
    }
    assert blocks == total;
  }

  method Sha256SyncPortable(data: seq<Byte>) returns (out: array<Byte>)
    requires PaddedLength(|data|) < TWO31
    ensures out[..] == Sha256(data)
  {
    var padded := PadMessage(data);
    var h0, h1, h2, h3, h4, h5, h6, h7 := HashPadded(padded);
    out := WriteDigest(h0, h1, h2, h3, h4, h5, h6, h7);
  }

  method WriteDigest(h0: int, h1: int, h2: int, h3: int, h4: int, h5: int, h6: int, h7: int) returns (out: array<Byte>)
    ensures fresh(out) && out[..] == Output(Words(h0, h1, h2, h3, h4, h5, h6, h7))
  {
    out := new Byte[32](_ => 0);
    SetUint32(out, 0, h0);
    assert out[..4] == BigEndian(ToUint32(h0), 4);
    SetUint32(out, 4, h1);
    assert out[..8] == BigEndian(ToUint32(h0), 4) + BigEndian(ToUint32(h1), 4);
    SetUint32(out, 8, h2);
    ghost var done := out[..12];
    SetUint32(out, 12, h3);
    assert out[..16] == done + BigEndian(ToUint32(h3), 4);
    done := out[..16];
    SetUint32(out, 16, h4);
    assert out[..20] == done + BigEndian(ToUint32(h4), 4);
    done := out[..20];
    SetUint32(out, 20, h5);
    assert out[..24] == done + BigEndian(ToUint32(h5), 4);
    done := out[..24];
    SetUint32(out, 24, h6);
    assert out[..28] == done + BigEndian(ToUint32(h6), 4);
    SetUint32(out, 28, h7);
    assert out[..] == out[..32];
  }
}
