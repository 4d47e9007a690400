/**
 * Base64 as src/Runtime/bytes.ts has it. `Base64Standard` is the reading of RFC 4648, sections 4
 * and 5, in arithmetic; `Base64` computes it with shifts and masks, one group at a time.
 */
module Base64Standard {
  import opened Wrappers
  import opened JsNumber
  import opened JsText

  type Sextet = v: int | 0 <= v < 64

  const PLUS: Unit := 0x2B
  const MINUS: Unit := 0x2D
  const SLASH: Unit := 0x2F
  const PAD: Unit := 0x3D         // the padding character, an equals sign
  const UNDERSCORE: Unit := 0x5F

  datatype Error = BadPadding | BadLength | BadCharacter(c: Unit)

  /** Table 1 of RFC 4648. */
  function CharOf(v: Sextet): Unit {
    if v < 26 then 0x41 + v
    else if v < 52 then 0x61 + (v - 26)
    else if v < 62 then 0x30 + (v - 52)
    else if v == 62 then PLUS else SLASH
  }

  /** `BASE64_ALPHABET.indexOf(c)`, with no position for a character outside it. */
  function ValueOf(c: Unit): (r: Option<Sextet>)
    ensures r.Some? ==> CharOf(r.value) == c
  {
    if 0x41 <= c <= 0x5A then Some(c - 0x41)
    else if 0x61 <= c <= 0x7A then Some(c - 0x61 + 26)
    else if 0x30 <= c <= 0x39 then Some(c - 0x30 + 52)
    else if c == PLUS then Some(62)
    else if c == SLASH then Some(63)
    else None
  }

  lemma ValueOfCharOf(v: Sextet)
    ensures ValueOf(CharOf(v)) == Some(v) && CharOf(v) != PAD
  {
  }

  // ---------------------------------------------------------------- encoding

  /** One group: three bytes as four sextets, high bits first. */
  function Quad(a: Byte, b: Byte, c: Byte): seq<Sextet> {
    var n: int := a * 65536 + b * 256 + c;
    [n / 262144, n / 4096 % 64, n / 64 % 64, n % 64]
  }

  function Chars(q: seq<Sextet>): Units { seq(|q|, i requires 0 <= i < |q| => CharOf(q[i])) }

  /** The characters of the first group: a missing byte leaves a padding character. */
  function GroupText(bytes: seq<Byte>): (text: Units)
    requires bytes != []
    ensures |text| == 4
  {
    if |bytes| == 1 then Chars(Quad(bytes[0], 0, 0)[..2]) + [PAD, PAD]
    else if |bytes| == 2 then Chars(Quad(bytes[0], bytes[1], 0)[..3]) + [PAD]
    else Chars(Quad(bytes[0], bytes[1], bytes[2]))
  }

  function NextGroup(bytes: seq<Byte>): (rest: seq<Byte>)
    ensures bytes != [] ==> |rest| < |bytes|
  {
     if |bytes| <= 3 then [] else bytes[3..]
  }

  function Encode(bytes: seq<Byte>): Units
    decreases |bytes|
  {
    if bytes == [] then [] else GroupText(bytes) + Encode(NextGroup(bytes))
  }

  /** Section 5: the URL-safe alphabet. */
  function UrlChar(c: Unit): Unit { if c == PLUS then MINUS else if c == SLASH then UNDERSCORE else c }

  function StdChar(c: Unit): Unit { if c == MINUS then PLUS else if c == UNDERSCORE then SLASH else c }

  function Mapped(f: Unit -> Unit, s: Units): Units { seq(|s|, i requires 0 <= i < |s| => f(s[i])) }

  function StripPadding(s: Units): Units {
    if s != [] && s[|s| - 1] == PAD then StripPadding(s[..|s| - 1]) else s
  }

  function UrlEncode(bytes: seq<Byte>): Units { StripPadding(Mapped(UrlChar, Encode(bytes))) }

  // ---------------------------------------------------------------- decoding

  /** The white space and line terminators of ECMAScript. */
  predicate IsSpace(c: Unit) {
    0x09 <= c <= 0x0D || c == 0x20 || c == 0xA0 || c == 0x1680 || 0x2000 <= c <= 0x200A
    || c == 0x2028 || c == 0x2029 || c == 0x202F || c == 0x205F || c == 0x3000 || c == 0xFEFF
  }

  function WithoutSpace(s: Units): Units {
    if s == [] then [] else (if IsSpace(s[0]) then [] else [s[0]]) + WithoutSpace(s[1..])
  }

  function Clean(text: Units): Units { Mapped(StdChar, WithoutSpace(text)) }

  /** Position of the first `=`, or the length. */
  function FirstPadding(s: Units): nat {
    if s == [] || s[0] == PAD then 0 else 1 + FirstPadding(s[1..])
  }

  function Missing(length: nat): nat { (4 - length % 4) % 4 }

  function Equals(n: nat): Units { seq(n, _ => PAD) }

  /** The text padded to whole quads, or why it cannot be. */
  function Normalized(text: Units): Result<Units, Error> {
    var clean := Clean(text);
    var first := FirstPadding(clean);
    if first < |clean| then
      if |clean| - first > 2 || clean[first..] != Equals(|clean| - first) then Err(BadPadding)
      else if |clean| % 4 != 0 || first % 4 < 2 then Err(BadPadding)
      else Ok(clean)
    else if |clean| % 4 == 1 then Err(BadLength)
    else Ok(clean + Equals(Missing(|clean|)))
  }

  /** A padding character counts as zero bits. */
  function BitsOf(c: Unit): Option<Sextet> { if c == PAD then Some(0) else ValueOf(c) }

  predicate AllBits(s: Units) { forall i :: 0 <= i < |s| ==> BitsOf(s[i]).Some? }

  function FirstBad(s: Units): (bad: Option<Unit>)
    ensures bad.None? <==> AllBits(s)
  {
    if s == [] then None
    else if BitsOf(s[0]).None? then Some(s[0])
    else
      assert AllBits(s[1..]) ==> AllBits([s[0]] + s[1..]);
      FirstBad(s[1..])
  }

  function ThreeBytes(p: Sextet, q: Sextet, r: Sextet, s: Sextet): seq<Byte> {
    var n: int := p * 262144 + q * 4096 + r * 64 + s;
    [n / 65536, n / 256 % 256, n % 256]
  }

  function GroupBytes(s: Units): (bytes: seq<Byte>)
    requires |s| == 4 && AllBits(s)
    ensures |bytes| == 3
  {
    ThreeBytes(BitsOf(s[0]).value, BitsOf(s[1]).value, BitsOf(s[2]).value, BitsOf(s[3]).value)
  }

  /** Whole groups of four characters, three bytes each. */
  function DecodeQuads(s: Units): seq<Byte>
    requires AllBits(s)
  {
    if |s| < 4 then [] else GroupBytes(s[..4]) + DecodeQuads(s[4..])
  }

  lemma {:induction false} DecodedLength(s: Units, m: nat)
    requires AllBits(s) && |s| == 4 * m
    ensures |DecodeQuads(s)| == 3 * m
  {
    if m > 0 {
      DecodedLength(s[4..], m - 1);
    }
  }

  function PaddingOf(s: Units): nat {
    if |s| >= 2 && s[|s| - 2..] == [PAD, PAD] then 2 else if |s| >= 1 && s[|s| - 1] == PAD then 1 else 0
  }

  function Decode(text: Units): Result<seq<Byte>, Error> {
    match Normalized(text)
    case Err(e) => Err(e)
    case Ok(s) =>
      match FirstBad(s)
      case Some(c) => Err(BadCharacter(c))
      case None =>
        DecodedLength(s, |s| / 4);
        Ok(DecodeQuads(s)[..|s| / 4 * 3 - PaddingOf(s)])
  }

  /** `base64UrlDecode` pads before anything else looks at the text. */
  function UrlDecode(text: Units): Result<seq<Byte>, Error> {
    Decode(Mapped(StdChar, text) + Equals(Missing(|text|)))
  }
}

module Base64 {
  import opened Wrappers
  import opened JsNumber
  import opened JsText
  import opened Base64Standard

  // ---------------------------------------------------------------- shifts and masks

  lemma Small(x: int)
    requires 0 <= x < TWO31
    ensures ToUint32(x) == x && ToInt32(x) == x
  {
  }

  lemma ShlSmall(x: nat, k: nat, y: nat)
    requires x < TWO31 && y == x * Pow2(k) < TWO31
    ensures Shl(x, k) == y
  {
    Small(x);
    Small(y);
  }

  /** Joining a field below bits that are already in place adds it. */
  lemma OrSmall(x: nat, low: nat, high: nat, k: nat)
    requires x == high * Pow2(k) && low < Pow2(k) && x + low < TWO31
    ensures Or(x, low) == x + low
  {
    OrIsSum(high, k, low);
    Small(x);
    Small(low);
    Small(x + low);
  }

  lemma ShrSmall(n: nat, k: nat, p: nat, x: nat)
    requires n < TWO31 && p == Pow2(k) && x == n / p
    ensures Shr(n, k) == x <= n
  {
    Small(n);
    Scaled(n + 1, 1, p);
    QuotientBound(n, p, n + 1);
  }

  lemma AndSmall(x: nat, width: nat, p: nat)
    requires x < TWO31 && p == Pow2(width) <= 256
    ensures And(x, p - 1) == x % p <= p - 1
  {
    AndMask(x, width);
    Small(x);
    Small(p - 1);
    Small(x % p);
  }

  /** `x << k`, for a value whose bits stay below the sign. */
  method ShiftLeft(x: nat, k: nat, ghost p: nat) returns (r: int)
    requires p == Pow2(k) && x <= x * p < TWO31
    ensures r == x * p
  {
    ShlSmall(x, k, x * p);
    r := Shl(x, k);
  }

  /** `x | low`, for fields that do not meet. */
  method Join(x: nat, low: nat, ghost high: nat, ghost k: nat, ghost p: nat) returns (r: int)
    requires p == Pow2(k) && x == high * p && low < p && x + low < TWO31
    ensures r == x + low
  {
    OrSmall(x, low, high, k);
    r := Or(x, low);
  }

  /** `(n >> k) & mask`: `x` is what the shift leaves. */
  method Field(n: nat, k: nat, mask: nat, ghost width: nat, ghost p: nat, ghost x: nat) returns (r: nat)
    requires n < TWO31 && p == Pow2(k) && x == n / p && mask < 256 && mask + 1 == Pow2(width)
    ensures r == x % (mask + 1) <= mask
  {
    ShrSmall(n, k, p, x);
    AndSmall(x, width, mask + 1);
    r := And(Shr(n, k), mask);
  }

  /** `n & mask`. */
  method LowField(n: nat, mask: nat, ghost width: nat) returns (r: nat)
    requires n < TWO31 && mask < 256 && mask + 1 == Pow2(width)
    ensures r == n % (mask + 1) <= mask
  {
    AndSmall(n, width, mask + 1);
    r := And(n, mask);
  }

  lemma Powers()
    ensures Pow2(6) == 64 && Pow2(8) == 256 && Pow2(12) == 4096 && Pow2(16) == 65536 && Pow2(18) == 262144
  {
    Pow2Is(6);
    Pow2Is(8);
    Pow2Is(12);
    Pow2Is(16);
    Pow2Is(18);
  }

  lemma QuadOfNumber(a: Byte, b: Byte, c: Byte, n: nat)
    requires n == (a as int * 256 + b as int) * 256 + c as int
    ensures n < 0x100_0000 && 0 <= n / 262144 < 64 && n / 262144 % 64 == n / 262144
    ensures Quad(a, b, c) == [n / 262144, n / 4096 % 64, n / 64 % 64, n % 64]
  {
    assert n == a as int * 65536 + b as int * 256 + c as int;
  }

  /** The four table positions of one group. */
  method Split(a: Byte, b: Byte, c: Byte) returns (p: Sextet, q: Sextet, r: Sextet, s: Sextet)
    ensures [p, q, r, s] == Quad(a, b, c)
  {
    Powers();
    var high := ShiftLeft(a, 16, 65536);
    var middle := ShiftLeft(b, 8, 256);
    var triple := Join(high, middle, a, 16, 65536);
    triple := Join(triple, c, a * 256 + b, 8, 256);
    var n: nat := triple;
    QuadOfNumber(a, b, c, n);
    hide Quad, Pow2;
    p := Field(n, 18, 0x3f, 6, 262144, n / 262144);
    q := Field(n, 12, 0x3f, 6, 4096, n / 4096);
    r := Field(n, 6, 0x3f, 6, 64, n / 64);
    s := LowField(n, 0x3f, 6);
  }

  /** The three bytes of one group. */
  method Merge(p: Sextet, q: Sextet, r: Sextet, s: Sextet) returns (a: Byte, b: Byte, c: Byte)
    ensures [a, b, c] == ThreeBytes(p, q, r, s)
  {
    Powers();
    var p' := ShiftLeft(p, 18, 262144);
    var q' := ShiftLeft(q, 12, 4096);
    var r' := ShiftLeft(r, 6, 64);
    var quad := Join(p', q', p, 18, 262144);
    quad := Join(quad, r', p * 64 + q, 12, 4096);
    quad := Join(quad, s, p * 4096 + q * 64 + r, 6, 64);
    var n: nat := quad;
    assert n / 65536 % 256 == n / 65536;
    a := Field(n, 16, 0xff, 8, 65536, n / 65536);
    b := Field(n, 8, 0xff, 8, 256, n / 256);
    c := LowField(n, 0xff, 8);
  }

  // ---------------------------------------------------------------- encoding

  lemma CharsOfFour(q: seq<Sextet>)
    requires |q| == 4
    ensures Chars(q) == [CharOf(q[0]), CharOf(q[1]), CharOf(q[2]), CharOf(q[3])]
    ensures Chars(q[..3]) == [CharOf(q[0]), CharOf(q[1]), CharOf(q[2])]
    ensures Chars(q[..2]) == [CharOf(q[0]), CharOf(q[1])]
  {
  }

  lemma GroupTextIs(bytes: seq<Byte>, q: seq<Sextet>)
    requires bytes != []
    requires q == Quad(bytes[0], if |bytes| > 1 then bytes[1] else 0, if |bytes| > 2 then bytes[2] else 0)
    ensures |q| == 4
    ensures GroupText(bytes) == [CharOf(q[0]), CharOf(q[1]), if |bytes| > 1 then CharOf(q[2]) else PAD,
                                 if |bytes| > 2 then CharOf(q[3]) else PAD]
  {
    CharsOfFour(q);
  }

  ghost function From(bytes: seq<Byte>, i: nat): seq<Byte> { if i < |bytes| then bytes[i..] else [] }

  lemma EncodeFrom(bytes: seq<Byte>, i: nat)
    requires i < |bytes|
    ensures Encode(From(bytes, i)) == GroupText(bytes[i..]) + Encode(From(bytes, i + 3))
  {
    hide GroupText;
    assert NextGroup(bytes[i..]) == From(bytes, i + 3);
  }

  /** One turn of the loop: the four characters of a group. */
  method AppendGroup(bytes: array<Byte>, i: nat, before: Units) returns (out: Units)
    requires i < bytes.Length
    ensures out == before + GroupText(bytes[i..])
  {
    var a := bytes[i];
    var b := if i + 1 < bytes.Length then bytes[i + 1] else 0;
    var c := if i + 2 < bytes.Length then bytes[i + 2] else 0;
    var p, q, r, s := Split(a, b, c);
    hide Quad, CharOf;
    GroupTextIs(bytes[i..], [p, q, r, s]);
    out := before + [CharOf(p)];
    out := out + [CharOf(q)];
    out := out + [if i + 1 < bytes.Length then CharOf(r) else PAD];
    out := out + [if i + 2 < bytes.Length then CharOf(s) else PAD];
  }

  method Base64Encode(bytes: array<Byte>) returns (out: Units)
    ensures out == Encode(bytes[..])
  {
    out := [];
    var i := 0;
    while i < bytes.Length
      invariant 0 <= i
      invariant out + Encode(From(bytes[..], i)) == Encode(bytes[..])
    {
      ghost var before := out;
      out := AppendGroup(bytes, i, out);
      EncodeFrom(bytes[..], i);
      assert bytes[..][i..] == bytes[i..];
      Appended(before, GroupText(bytes[i..]), Encode(From(bytes[..], i + 3)));
      i := i + 3;
    }
  }

  lemma Appended(before: Units, group: Units, rest: Units)
    ensures before + group + rest == before + (group + rest)
  {
  }

  method Base64UrlEncode(bytes: array<Byte>) returns (out: Units)
    ensures out == UrlEncode(bytes[..])
  {
    var text := Base64Encode(bytes);
    out := StripPadding(Mapped(UrlChar, text));
  }

  // ---------------------------------------------------------------- decoding

  /** `base64Value`: the thrown error names the character. */
  method Base64Value(c: Unit) returns (r: Result<Sextet, Error>)
    ensures r == match BitsOf(c) { case Some(v) => Ok(v) case None => Err(BadCharacter(c)) }
  {
    if c == PAD {
      return Ok(0);
    }
    var index := ValueOf(c);
    if index.None? {
      return Err(BadCharacter(c));
    }
    return Ok(index.value);
  }

  method Pad(text: Units) returns (padded: Units)
    ensures padded == text + Equals(Missing(|text|))
  {
    padded := text;
    ghost var added := 0;
    while |padded| % 4 != 0
      invariant 0 <= added <= Missing(|text|) && padded == text + Equals(added)
      decreases Missing(|text|) - added
    {
      added := added + 1;
      padded := padded + [PAD];
      assert padded == text + Equals(added);
    }
  }

  lemma {:induction false} FirstBadSkips(s: Units, k: nat)
    requires k <= |s| && AllBits(s[..k])
    ensures FirstBad(s) == FirstBad(s[k..])
  {
    if k == 0 {
      assert s[k..] == s;
    } else {
      assert BitsOf(s[..k][0]).Some?;
      assert s[1..][..k - 1] == s[..k][1..];
      FirstBadSkips(s[1..], k - 1);
      assert s[1..][k - 1..] == s[k..];
    }
  }

  lemma FirstBadIs(s: Units, k: nat)
    requires k < |s| && AllBits(s[..k]) && BitsOf(s[k]).None?
    ensures FirstBad(s) == Some(s[k])
  {
    FirstBadSkips(s, k);
    assert s[k..][0] == s[k];
  }

  /** One turn of the loop before its writes: the values of a group, in the order they are asked for. */
  method DecodeGroup(clean: Units, i: nat) returns (bytes: Result<(Byte, Byte, Byte), Error>)
    requires i + 4 <= |clean|
    ensures bytes.Ok? ==> AllBits(clean[i..i + 4])
    ensures bytes.Ok? ==> [bytes.value.0, bytes.value.1, bytes.value.2] == GroupBytes(clean[i..i + 4])
    ensures bytes.Err? ==> FirstBad(clean[i..]).Some? && bytes.error == BadCharacter(FirstBad(clean[i..]).value)
  {
    ghost var rest := clean[i..];
    assert forall j :: 0 <= j < 4 ==> rest[j] == clean[i + j];
    var p := Base64Value(clean[i]);
    if p.Err? {
      FirstBadIs(rest, 0);
      return Err(p.error);
    }
    var q := Base64Value(clean[i + 1]);
    if q.Err? {
      FirstBadIs(rest, 1);
      return Err(q.error);
    }
    var r := Base64Value(clean[i + 2]);
    if r.Err? {
      FirstBadIs(rest, 2);
      return Err(r.error);
    }
    var s := Base64Value(clean[i + 3]);
    if s.Err? {
      FirstBadIs(rest, 3);
      return Err(s.error);
    }
    var a, b, c := Merge(p.value, q.value, r.value, s.value);
    return Ok((a, b, c));
  }

  function Least(a: nat, b: nat): nat { if a < b then a else b }

  /** The three guarded writes: `done` is all that was decoded, `out` the part of it that has room. */
  method Store(out: array<Byte>, offset: nat, a: Byte, b: Byte, c: Byte, ghost done: seq<Byte>) returns (next: nat)
    requires offset == Least(|done|, out.Length) && out[..offset] == done[..offset]
    modifies out
    ensures next == Least(|done| + 3, out.Length)
    ensures out[..next] == (done + [a, b, c])[..next]
  {
    next := offset;
    if next < out.Length {
      out[next] := a;
      next := next + 1;
    }
    if next < out.Length {
      out[next] := b;
      next := next + 1;
    }
    if next < out.Length {
      out[next] := c;
      next := next + 1;
    }
  }

  /** The early checks, then the padding loop. */
  method Normalize(text: Units) returns (r: Result<Units, Error>)
    ensures r == Normalized(text)
  {
    var clean := Clean(text);
    var first := FirstPadding(clean);
    FirstPaddingIs(clean);
    if first < |clean| {
      var padding := |clean| - first;
      if padding > 2 || exists k :: first <= k < |clean| && clean[k] != PAD {
        return Err(BadPadding);
      }
      assert clean[first..] == Equals(padding);
      if |clean| % 4 != 0 || first % 4 < 2 {
        return Err(BadPadding);
      }
    } else if |clean| % 4 == 1 {
      return Err(BadLength);
    }
    assert clean + Equals(0) == clean;
    clean := Pad(clean);
    return Ok(clean);
  }

  lemma {:induction false} FirstPaddingIs(s: Units)
    ensures FirstPadding(s) <= |s|
    ensures forall k :: 0 <= k < FirstPadding(s) ==> s[k] != PAD
    ensures FirstPadding(s) < |s| ==> s[FirstPadding(s)] == PAD
  {
    if s != [] && s[0] != PAD {
      FirstPaddingIs(s[1..]);
    }
  }

  lemma {:induction false} DecodeAppend(s: Units, t: Units, m: nat)
    requires AllBits(s + t) && |s| == 4 * m && |t| == 4
    ensures AllBits(s) && AllBits(t) && DecodeQuads(s + t) == DecodeQuads(s) + GroupBytes(t)
  {
    hide BitsOf, GroupBytes;
    assert forall i :: 0 <= i < |s| ==> s[i] == (s + t)[i];
    assert forall i :: 0 <= i < |t| ==> t[i] == (s + t)[|s| + i];
    if m == 0 {
      assert s + t == t && t[..4] == t;
    } else {
      assert (s + t)[..4] == s[..4] && (s + t)[4..] == s[4..] + t;
      DecodeAppend(s[4..], t, m - 1);
    }
  }

  lemma DecodeStep(clean: Units, i: nat, n: nat)
    requires i == 4 * n && i + 4 <= |clean| && AllBits(clean[..i]) && AllBits(clean[i..i + 4])
    ensures AllBits(clean[..i + 4])
    ensures DecodeQuads(clean[..i + 4]) == DecodeQuads(clean[..i]) + GroupBytes(clean[i..i + 4])
    ensures |DecodeQuads(clean[..i])| == 3 * n
  {
    assert clean[..i + 4] == clean[..i] + clean[i..i + 4];
    DecodeAppend(clean[..i], clean[i..i + 4], n);
    DecodedLength(clean[..i], n);
  }

  method Base64Decode(text: Units) returns (r: Result<array<Byte>, Error>)
    ensures r.Ok? ==> Decode(text) == Ok(r.value[..])
    ensures r.Err? ==> Decode(text) == Err(r.error)
  {
    var normal := Normalize(text);
    if normal.Err? {
      return Err(normal.error);
    }
    var clean := normal.value;
    var pad := PaddingOf(clean);
    r := DecodeClean(clean, pad, |clean| / 4);
  }

  method DecodeClean(clean: Units, pad: nat, groups: nat) returns (r: Result<array<Byte>, Error>)
    requires |clean| == 4 * groups && pad <= 3 * groups
    ensures r.Ok? ==> AllBits(clean) && |DecodeQuads(clean)| == 3 * groups
    ensures r.Ok? ==> r.value[..] == DecodeQuads(clean)[..3 * groups - pad]
    ensures r.Err? ==> FirstBad(clean).Some? && r.error == BadCharacter(FirstBad(clean).value)
  {
    var out := new Byte[3 * groups - pad];
    var offset, i := 0, 0;
    ghost var n, done: seq<Byte> := 0, [];
    while i < |clean|
      invariant i == 4 * n && n <= groups && AllBits(clean[..i])
      invariant |done| == 3 * n && done == DecodeQuads(clean[..i])
      invariant offset == Least(3 * n, out.Length)
      invariant out[..offset] == done[..offset]
    {
      var bytes := DecodeGroup(clean, i);
      if bytes.Err? {
        FirstBadSkips(clean, i);
        return Err(bytes.error);
      }
      DecodeStep(clean, i, n);
      offset := Store(out, offset, bytes.value.0, bytes.value.1, bytes.value.2, done);
      done := DecodeQuads(clean[..i + 4]);
      i, n := i + 4, n + 1;
    }
    assert clean[..i] == clean;
    DecodedLength(clean, groups);
    return Ok(out);
  }

  method Base64UrlDecode(text: Units) returns (r: Result<array<Byte>, Error>)
    ensures r.Ok? ==> UrlDecode(text) == Ok(r.value[..])
    ensures r.Err? ==> UrlDecode(text) == Err(r.error)
  {
    var padded := Pad(Mapped(StdChar, text));
    r := Base64Decode(padded);
  }
}
