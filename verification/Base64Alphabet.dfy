/** The encoding of Base64Standard against Tables 1 and 2 and the test vectors of RFC 4648 (sections 4, 5 and 10). */
module Base64Alphabet {
  import opened Wrappers
  import opened JsNumber
  import opened JsText
  import opened Base64Standard
  import Base64Theorems

  /** Table 1, eight values a row. */
  const TABLE_1: seq<string> :=
    ["ABCDEFGH", "IJKLMNOP", "QRSTUVWX", "YZabcdef", "ghijklmn", "opqrstuv", "wxyz0123", "456789+/"]

  /** Table 2 differs in its last two characters. */
  const TABLE_2: seq<string> :=
    ["ABCDEFGH", "IJKLMNOP", "QRSTUVWX", "YZabcdef", "ghijklmn", "opqrstuv", "wxyz0123", "456789-_"]

  predicate IsTable(table: seq<string>) { |table| == 8 && forall row :: 0 <= row < 8 ==> |table[row]| == 8 }

  function Entry(table: seq<string>, v: Sextet): int
    requires IsTable(table)
  {
    table[v / 8][v % 8] as int
  }

  lemma TablesAreTables()
    ensures IsTable(TABLE_1) && IsTable(TABLE_2)
  {
  }

  /** Each value is written as its table says, in either alphabet, and read back from that character only. */
  lemma AlphabetIsTable(v: Sextet, c: Unit)
    ensures IsTable(TABLE_1) && IsTable(TABLE_2)
    ensures CharOf(v) == Entry(TABLE_1, v) && UrlChar(CharOf(v)) == Entry(TABLE_2, v)
    ensures StdChar(UrlChar(CharOf(v))) == CharOf(v)
    ensures ValueOf(c) == Some(v) <==> c == Entry(TABLE_1, v)
  {
    TablesAreTables();
    RowIs(v / 8, v % 8);
    ValueOfCharOf(v);
  }

  lemma RowIs(row: nat, k: nat)
    requires row < 8 && k < 8
    ensures CharOf(8 * row + k) == TABLE_1[row][k] as int && UrlChar(CharOf(8 * row + k)) == TABLE_2[row][k] as int
  {
    match row
    case 0 =>
    case 1 =>
    case 2 =>
    case 3 =>
    case 4 =>
    case 5 =>
    case 6 =>
    case _ =>
  }

  /** A group is one number: three bytes of it, or four sextets, each from the high end. */
  lemma GroupIsOneNumber(a: Byte, b: Byte, c: Byte)
    ensures var q := Quad(a, b, c);
            |q| == 4 && q[0] as int * 262144 + q[1] as int * 4096 + q[2] as int * 64 + q[3] as int
                        == a as int * 65536 + b as int * 256 + c as int
  {
    Base64Theorems.SumOfSextets(a as int * 65536 + b as int * 256 + c as int);
  }

  predicate Spell(units: seq<int>, s: string) { |units| == |s| && forall i :: 0 <= i < |s| ==> units[i] == s[i] as int }

  lemma OneGroup(bytes: seq<Byte>)
    requires 0 < |bytes| <= 3
    ensures Encode(bytes) == GroupText(bytes)
  {
    assert NextGroup(bytes) == [];
  }

  lemma TwoGroups(bytes: seq<Byte>)
    requires 3 < |bytes| <= 6
    ensures Encode(bytes) == GroupText(bytes) + GroupText(bytes[3..])
  {
    OneGroup(bytes[3..]);
  }

  const F: Byte := 0x66
  const O: Byte := 0x6F
  const B: Byte := 0x62
  const A: Byte := 0x61
  const R: Byte := 0x72

  /** Section 10: the test vectors. */
  lemma TestVectors()
    ensures Spell([F, O, O, B, A, R], "foobar")
    ensures Encode([]) == []
    ensures Spell(Encode([F]), "Zg==")
    ensures Spell(Encode([F, O]), "Zm8=")
    ensures Spell(Encode([F, O, O]), "Zm9v")
    ensures Spell(Encode([F, O, O, B]), "Zm9vYg==")
    ensures Spell(Encode([F, O, O, B, A]), "Zm9vYmE=")
    ensures Spell(Encode([F, O, O, B, A, R]), "Zm9vYmFy")
  {
    hide Encode, GroupText;
    assert Encode([]) == [] by {
      NothingEncodes();
    }
    OneGroup([F]);
    OneGroup([F, O]);
    OneGroup([F, O, O]);
    Groups();
    VectorOfTwo([F, O, O, B], [B]);
    VectorOfTwo([F, O, O, B, A], [B, A]);
    VectorOfTwo([F, O, O, B, A, R], [B, A, R]);
  }

  lemma NothingEncodes()
    ensures Encode([]) == []
  {
  }

  lemma VectorOfTwo(bytes: seq<Byte>, rest: seq<Byte>)
    requires 0 < |rest| <= 3 && bytes == [F, O, O] + rest
    ensures Encode(bytes) == GroupText([F, O, O]) + GroupText(rest)
  {
    hide Encode;
    TwoGroups(bytes);
    assert bytes[3..] == rest;
    FirstGroupOnly(bytes);
  }

  lemma FirstGroupOnly(bytes: seq<Byte>)
    requires |bytes| > 3 && bytes[..3] == [F, O, O]
    ensures GroupText(bytes) == GroupText([F, O, O])
  {
    assert bytes[0] == bytes[..3][0] && bytes[1] == bytes[..3][1] && bytes[2] == bytes[..3][2];
  }

  lemma Groups()
    ensures Spell(GroupText([F]), "Zg==") && Spell(GroupText([B]), "Yg==")
    ensures Spell(GroupText([F, O]), "Zm8=") && Spell(GroupText([B, A]), "YmE=")
    ensures Spell(GroupText([F, O, O]), "Zm9v") && Spell(GroupText([B, A, R]), "YmFy")
  {
    OneByteGroups();
    TwoByteGroups();
    ThreeByteGroups();
  }

  lemma OneByteGroups()
    ensures Spell(GroupText([F]), "Zg==") && Spell(GroupText([B]), "Yg==")
  {
    QuadOf(F, 0, 0, 25, 32, 0, 0);
    QuadOf(B, 0, 0, 24, 32, 0, 0);
    hide Quad;
    assert [25, 32, 0, 0][..2] == [25, 32] && [24, 32, 0, 0][..2] == [24, 32];
  }

  lemma TwoByteGroups()
    ensures Spell(GroupText([F, O]), "Zm8=") && Spell(GroupText([B, A]), "YmE=")
  {
    QuadsOfTwo();
    hide Quad;
    assert [25, 38, 60, 0][..3] == [25, 38, 60] && [24, 38, 4, 0][..3] == [24, 38, 4];
  }

  lemma ThreeByteGroups()
    ensures Spell(GroupText([F, O, O]), "Zm9v") && Spell(GroupText([B, A, R]), "YmFy")
  {
    QuadsOfThree();
    hide Quad;
  }

  /** A group is the four sextets with its number. */
  lemma QuadOf(a: Byte, b: Byte, c: Byte, p: Sextet, q: Sextet, r: Sextet, s: Sextet)
    requires a as int * 65536 + b as int * 256 + c as int
          == p as int * 262144 + q as int * 4096 + r as int * 64 + s as int
    ensures Quad(a, b, c) == [p, q, r, s]
  {
    Base64Theorems.SextetsOfSum(p, q, r, s, a as int * 65536 + b as int * 256 + c as int);
  }

  lemma QuadsOfTwo()
    ensures Quad(F, O, 0) == [25, 38, 60, 0] && Quad(B, A, 0) == [24, 38, 4, 0]
  {
    hide Quad;
    QuadOf(F, O, 0, 25, 38, 60, 0);
    QuadOf(B, A, 0, 24, 38, 4, 0);
  }

  lemma QuadsOfThree()
    ensures Quad(F, O, O) == [25, 38, 61, 47] && Quad(B, A, R) == [24, 38, 5, 50]
  {
    hide Quad;
    QuadOf(F, O, O, 25, 38, 61, 47);
    QuadOf(B, A, R, 24, 38, 5, 50);
  }
}
