/** src/base64.rs against RFC 4648: the alphabet, and what a group of bytes stands for. */
module Base64Table {
  import opened Common
  import opened Base64

  const UPPER := "ABCDEFGHIJKLMNOPQRSTUVWXYZ"
  const LOWER := "abcdefghijklmnopqrstuvwxyz"
  const DIGITS := "0123456789"

  /** The alphabet of section 4 of RFC 4648, in its order. */
  const ALPHABET := UPPER + LOWER + DIGITS + "+/"

  lemma TableIsTheAlphabet(v: Sextet)
    ensures |ALPHABET| == 64 && Symbol(v) == ALPHABET[v] as int
  {
    if v < 26 {
      assert ALPHABET[v] == UPPER[v];
    } else if v < 52 {
      assert ALPHABET[v] == LOWER[v - 26];
    } else if v < 62 {
      assert ALPHABET[v] == DIGITS[v - 52];
    } else {
      assert ALPHABET[v] == "+/"[v - 62];
    }
  }

  /** The reverse table finds exactly the characters of the alphabet, each at its place. */
  lemma ReverseInverts(b: u8)
    ensures InAlphabet(b) <==> exists v: Sextet :: Symbol(v) == b
    ensures InAlphabet(b) ==> |ALPHABET| == 64 && ALPHABET[Value(b)] as int == b
  {
    if InAlphabet(b) {
      assert Symbol(Value(b)) == b;
      TableIsTheAlphabet(Value(b));
    }
  }

  /** The four parts of 24 bits, by the parts of the three bytes. */
  lemma Parts24(a1: nat, a0: nat, b1: nat, b0: nat, c1: nat, c0: nat)
    requires a1 < 64 && a0 < 4 && b1 < 16 && b0 < 16 && c1 < 4 && c0 < 64
    ensures var x := 65536 * (4 * a1 + a0) + 256 * (16 * b1 + b0) + (64 * c1 + c0);
      && x / 262144 == a1 && x / 4096 % 64 == 16 * a0 + b1
      && x / 64 % 64 == 4 * b0 + c1 && x % 64 == c0
  {
    var x := 65536 * (4 * a1 + a0) + 256 * (16 * b1 + b0) + (64 * c1 + c0);
    assert x == 262144 * a1 + (65536 * a0 + 4096 * b1 + 256 * b0 + 64 * c1 + c0);
    assert x == 4096 * (64 * a1 + 16 * a0 + b1) + (256 * b0 + 64 * c1 + c0);
    assert x / 4096 == 64 * a1 + 16 * a0 + b1;
    assert x == 64 * (64 * (64 * a1 + 16 * a0 + b1) + 4 * b0 + c1) + c0;
    assert x / 64 == 64 * (64 * a1 + 16 * a0 + b1) + 4 * b0 + c1;
  }

  /** Three bytes and their four characters are the same number of 24 bits, most significant part first. */
  lemma GroupIsNumber(a: u8, b: u8, c: u8)
    ensures var x := 65536 * a + 256 * b + c;
      && x / 262144 < 64
      && Encoded([a, b, c]) == [Symbol(x / 262144), Symbol(x / 4096 % 64), Symbol(x / 64 % 64), Symbol(x % 64)]
  {
    hide Symbol;
    Parts24(a / 4, a % 4, b / 16, b % 16, c / 64, c % 64);
    assert 4 * (a / 4) + a % 4 == a && 16 * (b / 16) + b % 16 == b && 64 * (c / 64) + c % 64 == c;
    var none: seq<u8> := [];
    assert [a, b, c][3..] == none;
    assert Symbols(none) == [] && Padding(0) == [];
  }

  /** Shorter groups are filled up with zero bits, and with padding in the place of whole characters of them. */
  lemma ShortGroups(a: u8, b: u8)
    ensures |Encoded([a, b, 0])| == 4 && |Encoded([a, 0, 0])| == 4
    ensures Encoded([a, b]) == Encoded([a, b, 0])[..3] + [PADDING_CHAR]
    ensures Encoded([a]) == Encoded([a, 0, 0])[..2] + [PADDING_CHAR, PADDING_CHAR]
  {
    hide Symbol;
    ThreeSymbols(a, b, 0);
    ThreeSymbols(a, 0, 0);
    assert Padding(1) == [PADDING_CHAR] && Padding(2) == [PADDING_CHAR, PADDING_CHAR];
  }

  lemma ThreeSymbols(a: u8, b: u8, c: u8)
    ensures Encoded([a, b, c])
      == [Symbol(a / 4), Symbol(a % 4 * 16 + b / 16), Symbol(b % 16 * 4 + c / 64), Symbol(c % 64)]
  {
    hide Symbol;
    var none: seq<u8> := [];
    assert [a, b, c][3..] == none;
    assert Symbols(none) == [] && Padding(0) == [];
  }

  /** Whole groups are encoded one after the other. */
  lemma GroupsInOrder(a: u8, b: u8, c: u8, rest: seq<u8>)
    ensures Encoded([a, b, c] + rest) == Encoded([a, b, c]) + Encoded(rest)
  {
    hide Symbol;
    ThreeSymbols(a, b, c);
    var all := [a, b, c] + rest;
    assert all[3..] == rest && all[0] == a && all[1] == b && all[2] == c;
    assert |all| % 3 == |rest| % 3;
  }
}
