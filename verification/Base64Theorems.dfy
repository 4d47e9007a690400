/**
 * What base64 is for: decoding undoes encoding in both alphabets, padding is optional on the way
 * in, and only texts whose unused bits are zero come back as they were.
 */
module Base64Theorems {
  import opened Wrappers
  import opened JsNumber
  import opened JsText
  import opened Base64Standard
  import Base64

  predicate InAlphabet(c: Unit) { ValueOf(c).Some? }

  lemma AlphabetIsPlain(c: Unit)
    requires InAlphabet(c) || c == PAD
    ensures !IsSpace(c) && StdChar(c) == c && BitsOf(c).Some?
    ensures !IsSpace(UrlChar(c)) && StdChar(UrlChar(c)) == c
    ensures UrlChar(c) == PAD <==> c == PAD
    ensures InAlphabet(c) ==> c != PAD
  {
  }

  /** Whole groups, the last of them with at most two padding characters at its end. */
  predicate Shaped(s: Units, body: nat, groups: nat) {
    body <= |s| <= body + 2 && |s| == 4 * groups
    && (forall i :: 0 <= i < body ==> InAlphabet(s[i]))
    && (forall i :: body <= i < |s| ==> s[i] == PAD)
  }

  lemma ShapedIsPlain(s: Units, body: nat, groups: nat)
    requires Shaped(s, body, groups)
    ensures AllBits(s)
    ensures forall i :: 0 <= i < |s| ==> !IsSpace(s[i]) && StdChar(s[i]) == s[i]
    ensures forall i :: 0 <= i < body ==> s[i] != PAD
  {
    forall i | 0 <= i < |s|
      ensures !IsSpace(s[i]) && StdChar(s[i]) == s[i] && BitsOf(s[i]).Some?
    {
      AlphabetIsPlain(s[i]);
    }
  }

  // ---------------------------------------------------------------- one group

  /** Three digits of base 256 are read back from their sum, and so are four of base 64. */
  lemma BytesOfSum(a: Byte, b: Byte, c: Byte, n: int)
    requires n == a as int * 65536 + b as int * 256 + c as int
    ensures n / 65536 == a && n / 256 % 256 == b && n % 256 == c
  {
    var high := a as int * 256 + b as int;
    DivModUnique(n, 65536, a, b as int * 256 + c as int);
    DivModUnique(n, 256, high, c);
    DivModUnique(high, 256, a, b);
  }

  lemma SextetsOfSum(p: Sextet, q: Sextet, r: Sextet, s: Sextet, n: int)
    requires n == p as int * 262144 + q as int * 4096 + r as int * 64 + s as int
    ensures n / 262144 == p && n / 4096 % 64 == q && n / 64 % 64 == r && n % 64 == s
  {
    var high := p as int * 64 + q as int;
    var middle := p as int * 4096 + q as int * 64 + r as int;
    DivModUnique(n, 262144, p, q as int * 4096 + r as int * 64 + s as int);
    DivModUnique(n, 4096, high, r as int * 64 + s as int);
    DivModUnique(n, 64, middle, s);
    DivModUnique(high, 64, p, q);
    DivModUnique(middle, 64, high, r);
  }

  /** A number below 2^24 is the sum of its fields, whichever way it is cut. */
  lemma SumOfSextets(n: int)
    requires 0 <= n < 0x100_0000
    ensures 0 <= n / 262144 < 64
    ensures n == n / 262144 * 262144 + n / 4096 % 64 * 4096 + n / 64 % 64 * 64 + n % 64
  {
    var x := n / 64;
    var y := x / 64;
    DivModUnique(n, 4096, y, x % 64 * 64 + n % 64);
    DivModUnique(n, 262144, y / 64, y % 64 * 4096 + x % 64 * 64 + n % 64);
  }

  lemma SumOfBytes(n: int)
    requires 0 <= n < 0x100_0000
    ensures 0 <= n / 65536 < 256
    ensures n == n / 65536 * 65536 + n / 256 % 256 * 256 + n % 256
  {
    var x := n / 256;
    DivModUnique(n, 65536, x / 256, x % 256 * 256 + n % 256);
  }

  /** Splitting and joining a group are inverse in both directions. */
  lemma GroupRoundTrip(a: Byte, b: Byte, c: Byte, q: seq<Sextet>)
    requires q == Quad(a, b, c)
    ensures |q| == 4 && ThreeBytes(q[0], q[1], q[2], q[3]) == [a, b, c]
    ensures c == 0 ==> q[3] == 0
    ensures b == 0 && c == 0 ==> q[2] == 0
  {
    var n := a as int * 65536 + b as int * 256 + c as int;
    assert q == [n / 262144, n / 4096 % 64, n / 64 % 64, n % 64];
    SumOfSextets(n);
    BytesOfSum(a, b, c, n);
    if c == 0 {
      DivModUnique(n, 64, a as int * 1024 + b as int * 4, 0);
      if b == 0 {
        DivModUnique(a as int * 1024, 64, a as int * 16, 0);
      }
    }
  }

  lemma QuadRoundTrip(p: Sextet, q: Sextet, r: Sextet, s: Sextet, g: seq<Byte>)
    requires g == ThreeBytes(p, q, r, s)
    ensures |g| == 3 && Quad(g[0], g[1], g[2]) == [p, q, r, s]
  {
    var n := p as int * 262144 + q as int * 4096 + r as int * 64 + s as int;
    assert g == [n / 65536, n / 256 % 256, n % 256];
    SumOfBytes(n);
    SextetsOfSum(p, q, r, s, n);
  }

  function Zeros(n: nat): seq<Byte> { seq(n, _ => 0) }

  lemma GroupDecodes(bytes: seq<Byte>, used: nat)
    requires bytes != [] && used == (if |bytes| > 3 then 3 else |bytes|)
    ensures Shaped(GroupText(bytes), used + 1, 1) && AllBits(GroupText(bytes))
    ensures GroupBytes(GroupText(bytes)) == bytes[..used] + Zeros(3 - used)
  {
    var b: Byte := if |bytes| > 1 then bytes[1] else 0;
    var c: Byte := if |bytes| > 2 then bytes[2] else 0;
    var q := Quad(bytes[0], b, c);
    hide Quad, ThreeBytes, ValueOf, CharOf;
    Base64.GroupTextIs(bytes, q);
    GroupRoundTrip(bytes[0], b, c, q);
    ValueOfCharOf(q[0]);
    ValueOfCharOf(q[1]);
    ValueOfCharOf(q[2]);
    ValueOfCharOf(q[3]);
  }

  // ---------------------------------------------------------------- whole encodings

  lemma ShapesJoin(head: Units, rest: Units, body: nat, groups: nat)
    requires Shaped(head, 4, 1) && Shaped(rest, body, groups)
    ensures Shaped(head + rest, 4 + body, 1 + groups)
  {
    var all := head + rest;
    forall i | 0 <= i < |all|
      ensures if i < 4 + body then InAlphabet(all[i]) else all[i] == PAD
    {
      assert all[i] == if i < 4 then head[i] else rest[i - 4];
    }
  }

  lemma DecodeJoins(head: Units, rest: Units)
    requires |head| == 4 && AllBits(head) && AllBits(rest)
    ensures AllBits(head + rest) && DecodeQuads(head + rest) == GroupBytes(head) + DecodeQuads(rest)
  {
    var all := head + rest;
    assert forall i :: 0 <= i < |all| ==> all[i] == if i < 4 then head[i] else rest[i - 4];
    assert all[..4] == head && all[4..] == rest;
  }

  /** `pad` bytes are missing from the last of `groups` groups. */
  predicate Groups(length: nat, groups: nat, pad: nat) { length + pad == 3 * groups && pad <= 2 }

  lemma {:induction false} EncodingDecodes(bytes: seq<Byte>, groups: nat, pad: nat)
    requires Groups(|bytes|, groups, pad)
    ensures |Encode(bytes)| == 4 * groups >= pad && Shaped(Encode(bytes), 4 * groups - pad, groups)
    ensures AllBits(Encode(bytes)) && DecodeQuads(Encode(bytes)) == bytes + Zeros(pad)
    decreases groups
  {
    if groups == 0 {
      assert bytes + Zeros(0) == bytes;
    } else if groups == 1 {
      GroupDecodes(bytes, |bytes|);
      assert Encode(bytes) == GroupText(bytes) + Encode([]) == GroupText(bytes);
      DecodeJoins(GroupText(bytes), []);
      assert bytes[..|bytes|] == bytes;
    } else {
      EncodingDecodes(NextGroup(bytes), groups - 1, pad);
      LongerEncodingDecodes(bytes, groups, pad);
    }
  }

  lemma LongerEncodingDecodes(bytes: seq<Byte>, groups: nat, pad: nat)
    requires groups > 1 && Groups(|bytes|, groups, pad)
    requires var rest := Encode(NextGroup(bytes));
             Shaped(rest, 4 * (groups - 1) - pad, groups - 1)
             && AllBits(rest) && DecodeQuads(rest) == NextGroup(bytes) + Zeros(pad)
    ensures Shaped(Encode(bytes), 4 * groups - pad, groups)
    ensures AllBits(Encode(bytes)) && DecodeQuads(Encode(bytes)) == bytes + Zeros(pad)
  {
    hide GroupText, GroupBytes, BitsOf;
    var head, rest := GroupText(bytes), Encode(NextGroup(bytes));
    GroupDecodes(bytes, 3);
    DecodeJoins(head, rest);
    ShapesJoin(head, rest, 4 * (groups - 1) - pad, groups - 1);
    assert bytes[..3] + Zeros(0) + (NextGroup(bytes) + Zeros(pad)) == bytes + Zeros(pad);
  }

  // ---------------------------------------------------------------- reading a text

  lemma {:induction false} NothingToRemove(s: Units)
    requires forall i :: 0 <= i < |s| ==> !IsSpace(s[i])
    ensures WithoutSpace(s) == s
  {
    if s != [] {
      NothingToRemove(s[1..]);
    }
  }

  lemma {:induction false} FirstPaddingAt(s: Units, k: nat)
    requires k <= |s| && (forall i :: 0 <= i < k ==> s[i] != PAD) && (k < |s| ==> s[k] == PAD)
    ensures FirstPadding(s) == k
  {
    if k > 0 {
      FirstPaddingAt(s[1..], k - 1);
    }
  }

  /** Clean text without its padding is padded back to the shape it had. */
  lemma NormalizesTo(text: Units, s: Units, body: nat, groups: nat)
    requires Shaped(s, body, groups) && (Clean(text) == s || Clean(text) == s[..body])
    ensures Normalized(text) == Ok(s)
  {
    hide Clean, BitsOf, ValueOf, IsSpace, StdChar;
    ShapedIsPlain(s, body, groups);
    FirstPaddingAt(s, body);
    FirstPaddingAt(s[..body], body);
    assert s[body..] == Equals(|s| - body);
    assert body % 4 == (if |s| == body then 0 else 4 - (|s| - body)) && Missing(body) == |s| - body;
    assert s[..body] + s[body..] == s;
    assert s == s[..body] || Clean(text) == s || Clean(text) == s[..body];
    if body == |s| {
      assert s[..body] == s && s + Equals(0) == s;
    }
  }

  lemma PaddingOfShape(s: Units, body: nat, groups: nat)
    requires Shaped(s, body, groups)
    ensures PaddingOf(s) == |s| - body
  {
    ShapedIsPlain(s, body, groups);
    if |s| >= 2 {
      assert s[|s| - 2..] == [s[|s| - 2], s[|s| - 1]];
    }
  }

  function Decoded(s: Units, body: nat, groups: nat): seq<Byte>
    requires Shaped(s, body, groups)
  {
    ShapedIsPlain(s, body, groups);
    DecodedLength(s, groups);
    DecodeQuads(s)[..3 * groups - (|s| - body)]
  }

  lemma DecodeOfNormal(text: Units, s: Units, groups: nat)
    requires Normalized(text) == Ok(s) && AllBits(s) && |s| == 4 * groups
    ensures PaddingOf(s) <= |DecodeQuads(s)| == 3 * groups
    ensures Decode(text) == Ok(DecodeQuads(s)[..3 * groups - PaddingOf(s)])
  {
    DecodedLength(s, groups);
    assert FirstBad(s).None? && |s| / 4 == groups;
  }

  lemma ShapedDecodes(text: Units, s: Units, body: nat, groups: nat)
    requires Shaped(s, body, groups) && (Clean(text) == s || Clean(text) == s[..body])
    ensures Decode(text) == Ok(Decoded(s, body, groups))
  {
    hide Clean, Normalized, Decode, BitsOf, FirstBad;
    ShapedIsPlain(s, body, groups);
    NormalizesTo(text, s, body, groups);
    PaddingOfShape(s, body, groups);
    DecodeOfNormal(text, s, groups);
  }

  // ---------------------------------------------------------------- round trips

  function GroupsOf(length: nat): nat { (length + 2) / 3 }

  lemma GroupsFit(length: nat, groups: nat)
    requires groups == GroupsOf(length)
    ensures Groups(length, groups, 3 * groups - length)
  {
  }

  lemma {:induction false} PaddingStrips(s: Units, k: nat)
    requires k <= |s| && (forall i :: k <= i < |s| ==> s[i] == PAD) && (k > 0 ==> s[k - 1] != PAD)
    ensures StripPadding(s) == s[..k]
    decreases |s|
  {
    if k < |s| {
      PaddingStrips(s[..|s| - 1], k);
      assert s[..|s| - 1][..k] == s[..k];
    } else {
      assert s[..k] == s;
    }
  }

  lemma CleanOfShaped(s: Units, body: nat, groups: nat)
    requires Shaped(s, body, groups)
    ensures Clean(s) == s
  {
    ShapedIsPlain(s, body, groups);
    NothingToRemove(s);
    assert Mapped(StdChar, s) == s;
  }

  /** The URL-safe form read back: nothing is dropped, and the standard characters return. */
  lemma CleanOfUrl(s: Units, url: Units)
    requires (forall i :: 0 <= i < |s| ==> InAlphabet(s[i])) && url == Mapped(UrlChar, s)
    ensures Clean(url) == s && Mapped(StdChar, url) == s
  {
    forall i | 0 <= i < |s|
      ensures !IsSpace(url[i]) && StdChar(url[i]) == s[i]
    {
      AlphabetIsPlain(s[i]);
    }
    NothingToRemove(url);
    assert Mapped(StdChar, url) == s;
  }

  lemma UrlStrips(s: Units, body: nat, groups: nat)
    requires Shaped(s, body, groups)
    ensures StripPadding(Mapped(UrlChar, s)) == Mapped(UrlChar, s[..body])
  {
    var mapped := Mapped(UrlChar, s);
    forall i | 0 <= i < |s|
      ensures mapped[i] == PAD <==> i >= body
    {
      AlphabetIsPlain(s[i]);
    }
    PaddingStrips(mapped, body);
    assert mapped[..body] == Mapped(UrlChar, s[..body]);
  }

  lemma PaddingReturns(s: Units, body: nat, groups: nat)
    requires Shaped(s, body, groups)
    ensures s[..body] + Equals(Missing(body)) == s
  {
    var pad := |s| - body;
    assert body % 4 == (if pad == 0 then 0 else 4 - pad) && Missing(body) == pad;
    assert s[body..] == Equals(pad);
    assert s == s[..body] + s[body..];
  }

  /** Sections 4 and 5 of RFC 4648: every byte sequence comes back, padded or URL-safe. */
  lemma DecodeUndoesEncode(bytes: seq<Byte>)
    ensures Decode(Encode(bytes)) == Ok(bytes)
    ensures UrlDecode(UrlEncode(bytes)) == Ok(bytes)
    ensures Decode(UrlEncode(bytes)) == Ok(bytes)
  {
    var groups := GroupsOf(|bytes|);
    var pad := 3 * groups - |bytes|;
    GroupsFit(|bytes|, groups);
    EncodingDecodes(bytes, groups, pad);
    var s, body := Encode(bytes), 4 * groups - pad;
    var url := Mapped(UrlChar, s[..body]);
    CleanOfShaped(s, body, groups);
    CleanOfUrl(s[..body], url);
    UrlStrips(s, body, groups);
    PaddingReturns(s, body, groups);
    ShapedDecodes(s, s, body, groups);
    ShapedDecodes(url, s, body, groups);
    assert UrlDecode(url) == Decode(s);
    assert (bytes + Zeros(pad))[..3 * groups - pad] == bytes;
  }

  lemma EncodeIsInjective(a: seq<Byte>, b: seq<Byte>)
    requires Encode(a) == Encode(b) || UrlEncode(a) == UrlEncode(b)
    ensures a == b
  {
    DecodeUndoesEncode(a);
    DecodeUndoesEncode(b);
  }

  // ---------------------------------------------------------------- unpadded texts

  lemma {:induction false} WithoutSpaceOfPadded(text: Units, n: nat)
    ensures WithoutSpace(text + Equals(n)) == WithoutSpace(text) + Equals(n)
  {
    if text == [] {
      NothingToRemove(Equals(n));
      assert text + Equals(n) == Equals(n);
    } else {
      assert (text + Equals(n))[1..] == text[1..] + Equals(n);
      WithoutSpaceOfPadded(text[1..], n);
    }
  }

  lemma PaddedIsClean(text: Units, clean: Units, pad: nat)
    requires clean == Clean(text) && FirstPadding(clean) == |clean|
    ensures var padded := clean + Equals(pad);
            Clean(text + Equals(pad)) == padded && FirstPadding(padded) == |clean| && padded[|clean|..] == Equals(pad)
  {
    WithoutSpaceOfPadded(text, pad);
    Base64.FirstPaddingIs(clean);
    FirstPaddingAt(clean + Equals(pad), |clean|);
    var padded, bare := clean + Equals(pad), WithoutSpace(text);
    var mapped := Mapped(StdChar, bare + Equals(pad));
    assert |clean| == |bare| && forall i :: 0 <= i < |bare| ==> clean[i] == StdChar(bare[i]);
    forall i | 0 <= i < |padded|
      ensures mapped[i] == padded[i]
    {
      assert (bare + Equals(pad))[i] == if i < |bare| then bare[i] else PAD;
      assert mapped[i] == StdChar((bare + Equals(pad))[i]);
    }
    assert mapped == padded && Clean(text + Equals(pad)) == padded;
  }

  /**
   * A text without padding reads as its padded form. The one length that has no padded form fails
   * either way: with a length error bare, with a padding error once three signs are added.
   */
  lemma PaddingIsOptional(text: Units, clean: Units, pad: nat)
    requires clean == Clean(text) && FirstPadding(clean) == |clean| && pad == Missing(|clean|)
    ensures |clean| % 4 != 1 ==> Decode(text + Equals(pad)) == Decode(text)
    ensures |clean| % 4 == 1 ==> Decode(text) == Err(BadLength)
    ensures |clean| % 4 == 1 ==> Decode(text + Equals(pad)) == Err(BadPadding)
  {
    PaddedIsClean(text, clean, pad);
    PaddedNormalizes(text, clean, pad, text + Equals(pad), clean + Equals(pad));
  }

  lemma PaddedNormalizes(text: Units, clean: Units, pad: nat, withPadding: Units, padded: Units)
    requires clean == Clean(text) && FirstPadding(clean) == |clean| && pad == Missing(|clean|)
    requires padded == clean + Equals(pad) == Clean(withPadding) && FirstPadding(padded) == |clean|
    requires padded[|clean|..] == Equals(pad)
    ensures if |clean| % 4 == 1 then Normalized(withPadding) == Err(BadPadding) && Normalized(text) == Err(BadLength)
            else Normalized(withPadding) == Ok(padded) == Normalized(text)
  {
    if |clean| % 4 == 1 {
      assert pad == 3;
    } else {
      assert pad <= 2 && |padded| % 4 == 0 && (pad > 0 ==> |clean| % 4 >= 2);
      assert pad == 0 ==> padded == clean;
    }
  }

  // ---------------------------------------------------------------- texts that come back

  /** The bits of the last character that no byte uses. */
  predicate UnusedBitsAreZero(s: Units, body: nat)
    requires body <= |s|
  {
    (|s| == body + 1 && body > 0 ==> BitsOf(s[body - 1]).Some? && BitsOf(s[body - 1]).value % 4 == 0)
    && (|s| == body + 2 && body > 0 ==> BitsOf(s[body - 1]).Some? && BitsOf(s[body - 1]).value % 16 == 0)
  }

  /** What two bytes keep of three sextets. */
  lemma CutThird(p: Sextet, q: Sextet, r: Sextet, g: seq<Byte>)
    requires g == ThreeBytes(p, q, r, 0)
    ensures |g| == 3 && Quad(g[0], g[1], 0) == [p, q, r - r % 4, 0]
  {
    var n := p as int * 262144 + q as int * 4096 + r as int * 64;
    assert g == [n / 65536, n / 256 % 256, n % 256];
    SumOfBytes(n);
    DivModUnique(n, 256, p as int * 1024 + q as int * 16 + r as int / 4, r as int % 4 * 64);
    SextetsOfSum(p, q, r - r % 4, 0, n - n % 256);
  }

  /** And what one byte keeps of two. */
  lemma CutSecond(p: Sextet, q: Sextet, g: seq<Byte>)
    requires g == ThreeBytes(p, q, 0, 0)
    ensures |g| == 3 && Quad(g[0], 0, 0) == [p, q - q % 16, 0, 0]
  {
    var n := p as int * 262144 + q as int * 4096;
    assert g == [n / 65536, n / 256 % 256, n % 256];
    SumOfBytes(n);
    DivModUnique(n, 65536, p as int * 4 + q as int / 16, q as int % 16 * 4096);
    SextetsOfSum(p, q - q % 16, 0, 0, n - n % 65536);
  }

  lemma OneGroupReturns(s: Units, body: nat)
    requires Shaped(s, body, 1) && AllBits(s)
    ensures GroupText(GroupBytes(s)[..body - 1]) == s <==> UnusedBitsAreZero(s, body)
  {
    if body == 4 {
      FullGroupReturns(s);
    } else if body == 3 {
      TwoBytesReturn(s);
    } else {
      OneByteReturns(s);
    }
  }

  lemma FullGroupReturns(s: Units)
    requires Shaped(s, 4, 1) && AllBits(s)
    ensures GroupText(GroupBytes(s)[..3]) == s
  {
    var p, q, r, t := BitsOf(s[0]).value, BitsOf(s[1]).value, BitsOf(s[2]).value, BitsOf(s[3]).value;
    QuadRoundTrip(p, q, r, t, ThreeBytes(p, q, r, t));
    Base64.GroupTextIs(GroupBytes(s)[..3], [p, q, r, t]);
  }

  lemma TwoBytesReturn(s: Units)
    requires Shaped(s, 3, 1) && AllBits(s)
    ensures GroupText(GroupBytes(s)[..2]) == s <==> BitsOf(s[2]).value % 4 == 0
  {
    var p, q, r := BitsOf(s[0]).value, BitsOf(s[1]).value, BitsOf(s[2]).value;
    CutThird(p, q, r, ThreeBytes(p, q, r, 0));
    Base64.GroupTextIs(GroupBytes(s)[..2], [p, q, r - r % 4, 0]);
    ValueOfCharOf(r - r % 4);
  }

  lemma OneByteReturns(s: Units)
    requires Shaped(s, 2, 1) && AllBits(s)
    ensures GroupText(GroupBytes(s)[..1]) == s <==> BitsOf(s[1]).value % 16 == 0
  {
    var p, q := BitsOf(s[0]).value, BitsOf(s[1]).value;
    CutSecond(p, q, ThreeBytes(p, q, 0, 0));
    Base64.GroupTextIs(GroupBytes(s)[..1], [p, q - q % 16, 0, 0]);
    ValueOfCharOf(q - q % 16);
  }

  /** `bytes` is what a decoder keeps of the groups of `s`. */
  predicate Kept(s: Units, body: nat, groups: nat, bytes: seq<Byte>) {
    Shaped(s, body, groups) && AllBits(s) && |bytes| + |s| == 3 * groups + body && bytes <= DecodeQuads(s)
  }

  lemma KeptAfterHead(s: Units, body: nat, groups: nat, bytes: seq<Byte>)
    requires groups > 1 && Kept(s, body, groups, bytes)
    ensures |bytes| >= 3 && Shaped(s[..4], 4, 1) && AllBits(s[..4]) && bytes[..3] == GroupBytes(s[..4])
    ensures Kept(s[4..], body - 4, groups - 1, bytes[3..])
  {
    var rest := s[4..];
    assert forall i :: 0 <= i < |rest| ==> rest[i] == s[i + 4];
    assert DecodeQuads(s) == GroupBytes(s[..4]) + DecodeQuads(rest);
    assert bytes == DecodeQuads(s)[..|bytes|];
    DecodedLength(rest, groups - 1);
    assert bytes[3..] == DecodeQuads(rest)[..|bytes| - 3];
  }

  lemma {:induction false} ShapedReturns(s: Units, body: nat, groups: nat, bytes: seq<Byte>)
    requires Kept(s, body, groups, bytes)
    ensures Encode(bytes) == s <==> UnusedBitsAreZero(s, body)
    decreases groups
  {
    if groups == 1 {
      DecodedLength(s, 1);
      assert s[..4] == s && DecodeQuads(s) == GroupBytes(s);
      OneGroupReturns(s, body);
      assert bytes == GroupBytes(s)[..body - 1];
      assert Encode(bytes) == GroupText(bytes);
    } else if groups > 1 {
      KeptAfterHead(s, body, groups, bytes);
      ShapedReturns(s[4..], body - 4, groups - 1, bytes[3..]);
      ReturnsBehindHead(s, body, bytes);
    }
  }

  lemma ReturnsBehindHead(s: Units, body: nat, bytes: seq<Byte>)
    requires 8 <= |s| && |s| - 2 <= body <= |s| && |bytes| >= 3
    requires Shaped(s[..4], 4, 1) && AllBits(s[..4]) && bytes[..3] == GroupBytes(s[..4])
    requires Encode(bytes[3..]) == s[4..] <==> UnusedBitsAreZero(s[4..], body - 4)
    ensures Encode(bytes) == s <==> UnusedBitsAreZero(s, body)
  {
    hide GroupBytes, Encode, BitsOf;
    HeadReturns(s[..4], bytes[3..]);
    assert bytes == bytes[..3] + bytes[3..] && s == s[..4] + s[4..];
  }

  lemma HeadReturns(head: Units, tail: seq<Byte>)
    requires Shaped(head, 4, 1) && AllBits(head)
    ensures Encode(GroupBytes(head) + tail) == head + Encode(tail)
  {
    var bytes := GroupBytes(head) + tail;
    OneGroupReturns(head, 4);
    assert GroupBytes(head)[..3] == GroupBytes(head) && NextGroup(bytes) == tail;
    assert GroupText(bytes) == GroupText(GroupBytes(head));
  }

  /** An accepted text is, once normalized, of the shape the encoder produces. */
  lemma AcceptedIsShaped(text: Units, s: Units)
    requires Normalized(text) == Ok(s) && AllBits(s)
    ensures Shaped(s, FirstPadding(s), |s| / 4)
  {
    var clean := Clean(text);
    var first := FirstPadding(clean);
    Base64.FirstPaddingIs(clean);
    NormalizedForm(text, s, clean, first);
    FirstPaddingAt(s, first);
  }

  lemma NormalizedForm(text: Units, s: Units, clean: Units, first: nat)
    requires Normalized(text) == Ok(s) && clean == Clean(text) && first == FirstPadding(clean) <= |clean|
    ensures first <= |s| <= first + 2 && |s| % 4 == 0 && s[..first] == clean[..first]
    ensures forall k :: first <= k < |s| ==> s[k] == PAD
  {
    if first < |clean| {
      assert s == clean && s[first..] == Equals(|s| - first);
      forall k | first <= k < |s|
        ensures s[k] == PAD
      {
        assert s[first..][k - first] == PAD;
      }
    } else {
      assert s == clean + Equals(Missing(|clean|)) && clean[..first] == clean;
    }
  }

  /** Encoding undoes decoding exactly on the texts whose unused bits are zero. */
  lemma EncodeUndoesDecode(text: Units, s: Units)
    requires Decode(text).Ok? && Normalized(text) == Ok(s)
    ensures FirstPadding(s) <= |s|
    ensures Encode(Decode(text).value) == s <==> UnusedBitsAreZero(s, FirstPadding(s))
  {
    AcceptedIsShaped(text, s);
    var body, groups := FirstPadding(s), |s| / 4;
    DecodedLength(s, groups);
    PaddingOfShape(s, body, groups);
    DecodeOfNormal(text, s, groups);
    ShapedReturns(s, body, groups, Decode(text).value);
  }
}
