/**
 src/base64.rs: encoding and decoding with stepped loops over bytes, as sections 3.2, 3.5 and 4 of
 RFC 4648 have it. Shifts and masks are written as divisions and remainders.
 */
module Base64 {
  import opened Common

  const PADDING_CHAR: u8 := 61
  const BAD_IDX: u8 := 255

  type Sextet = x: int | 0 <= x < 64

  /** TABLE: the letters A-Z, a-z, the digits 0-9, + and /. */
  function Symbol(v: Sextet): u8 {
    if v < 26 then 65 + v
    else if v < 52 then 97 + (v - 26)
    else if v < 62 then 48 + (v - 52)
    else if v == 62 then 43
    else 47
  }

  /** TABLE_REVERSE, with BAD_IDX beyond its end as well. */
  function Reverse(b: u8): u8 {
    if 65 <= b <= 90 then b - 65
    else if 97 <= b <= 122 then b - 97 + 26
    else if 48 <= b <= 57 then b - 48 + 52
    else if b == 43 then 62
    else if b == 47 then 63
    else BAD_IDX
  }

  predicate InAlphabet(b: u8) {
    Reverse(b) != BAD_IDX
  }

  function Value(b: u8): Sextet
    requires InAlphabet(b)
  {
    Reverse(b)
  }

  // ---------------------------------------------------------------- what the strings mean

  /** The characters for these bytes, without padding. */
  function Symbols(b: seq<u8>): seq<u8> {
    if |b| == 0 then []
    else if |b| == 1 then [Symbol(b[0] / 4), Symbol(b[0] % 4 * 16)]
    else if |b| == 2 then [Symbol(b[0] / 4), Symbol(b[0] % 4 * 16 + b[1] / 16), Symbol(b[1] % 16 * 4)]
    else [Symbol(b[0] / 4), Symbol(b[0] % 4 * 16 + b[1] / 16), Symbol(b[1] % 16 * 4 + b[2] / 64), Symbol(b[2] % 64)]
         + Symbols(b[3..])
  }

  function PaddingLength(n: nat): nat {
    if n % 3 == 1 then 2 else if n % 3 == 2 then 1 else 0
  }

  function Padding(n: nat): seq<u8> {
    seq(n, _ => PADDING_CHAR)
  }

  function Encoded(b: seq<u8>): seq<u8> {
    Symbols(b) + Padding(PaddingLength(|b|))
  }

  predicate AllInAlphabet(s: seq<u8>) {
    forall i :: 0 <= i < |s| ==> InAlphabet(s[i])
  }

  /** The bytes for these characters. Bits that do not fill a byte are dropped. */
  function Bytes(s: seq<u8>): seq<u8>
    requires AllInAlphabet(s)
  {
    if |s| < 2 then []
    else
      var b0: u8 := Value(s[0]) * 4 + Value(s[1]) / 16;
      if |s| == 2 then [b0]
      else
        var b1: u8 := Value(s[1]) % 16 * 16 + Value(s[2]) / 4;
        if |s| == 3 then [b0, b1]
        else
          var b2: u8 := Value(s[2]) % 4 * 64 + Value(s[3]);
          [b0, b1, b2] + Bytes(s[4..])
  }

  /** The first position whose character is not in the alphabet, or the length of the string. */
  function FirstBad(s: seq<u8>): (k: nat)
    ensures k <= |s| && (k < |s| ==> !InAlphabet(s[k]))
    ensures forall i :: 0 <= i < k ==> InAlphabet(s[i])
  {
    if s == [] || !InAlphabet(s[0]) then 0 else 1 + FirstBad(s[1..])
  }

  /** `Overrun` is the panic of an index that is out of range. */
  datatype Outcome = Decoded(bytes: seq<u8>) | Invalid(byte: Option<u8>, index: nat) | Overrun

  /** Strings that are refused for their length, whatever is in them. */
  predicate TooShort(s: seq<u8>) {
    |s| == 1 || (2 <= |s| < 4 && s[|s| - 1] == PADDING_CHAR && s[|s| - 2] == PADDING_CHAR)
  }

  /** Where a padding character ends the string: third or fourth in its group, and one of the last two. */
  predicate EndsAt(s: seq<u8>, k: nat)
    requires k < |s|
  {
    s[k] == PADDING_CHAR && k % 4 >= 2 && k + 2 >= |s|
  }

  /** What a string decodes to, by its first character that is not in the alphabet. */
  function Meaning(s: seq<u8>): Outcome {
    if TooShort(s) then Invalid(None, 0)
    else
      var k := FirstBad(s);
      if k == |s| then (if |s| % 4 == 1 then Overrun else Decoded(Bytes(s)))
      else if EndsAt(s, k) then Decoded(Bytes(s[..k]))
      else Invalid(Some(s[k]), k)
  }

  // ---------------------------------------------------------------- encode

  /** `get_encode_capacity`: the bits in groups of six, rounded up to groups of four characters. */
  function EncodeCapacity(n: nat): nat {
    var capacity := (n * 8 + 5) / 6;
    if capacity % 4 != 0 then capacity + (4 - capacity % 4) else capacity
  }

  lemma CapacityIs(n: nat)
    ensures EncodeCapacity(n) == 4 * ((n + 2) / 3)
  {
    var q := n / 3;
    if n == 3 * q {
      assert (n * 8 + 5) / 6 == 4 * q;
    } else if n == 3 * q + 1 {
      assert (n * 8 + 5) / 6 == 4 * q + 2;
    } else {
      assert n == 3 * q + 2;
      assert (n * 8 + 5) / 6 == 4 * q + 3;
    }
  }

  lemma {:induction false} CapacityStep(n: nat)
    ensures EncodeCapacity(n + 3) == EncodeCapacity(n) + 4 && PaddingLength(n + 3) == PaddingLength(n)
  {
    hide EncodeCapacity;
    CapacityIs(n);
    CapacityIs(n + 3);
  }

  lemma {:induction false} SymbolsLength(b: seq<u8>)
    ensures |Symbols(b)| + PaddingLength(|b|) == EncodeCapacity(|b|)
  {
    hide Symbol, EncodeCapacity;
    if |b| >= 3 {
      SymbolsLength(b[3..]);
      CapacityStep(|b| - 3);
    } else {
      CapacityIs(|b|);
    }
  }

  lemma {:induction false} SymbolsInAlphabet(b: seq<u8>)
    ensures AllInAlphabet(Symbols(b))
  {
    hide Symbol, InAlphabet;
    SymbolsAreInAlphabet();
    if |b| >= 3 {
      SymbolsInAlphabet(b[3..]);
    }
  }

  lemma SymbolsAreInAlphabet()
    ensures forall v: Sextet :: InAlphabet(Symbol(v))
  {
  }

  lemma {:induction false} SymbolsAppend(a: seq<u8>, b: seq<u8>)
    requires |a| % 3 == 0
    ensures Symbols(a + b) == Symbols(a) + Symbols(b)
  {
    if a == [] {
      assert a + b == b;
    } else {
      assert (a + b)[3..] == a[3..] + b;
      SymbolsAppend(a[3..], b);
    }
  }

  method Encode(bytes: seq<u8>) returns (output: seq<u8>)
    ensures output == Encoded(bytes)
    ensures |output| == EncodeCapacity(|bytes|) == 4 * ((|bytes| + 2) / 3)
  {
    hide Symbol, Symbols, EncodeCapacity;
    CapacityIs(|bytes|);
    SymbolsLength(bytes);
    if bytes == [] {
      NoSymbols();
      return [];
    }
    output := [];
    var i := 0;
    NoSymbols();
    while i < |bytes|
      invariant i % 3 == 0 && i <= |bytes| + 2
      invariant output == Symbols(if i <= |bytes| then bytes[..i] else bytes)
      decreases |bytes| - i
    {
      ghost var done, group := bytes[..i], if i + 3 <= |bytes| then bytes[i..i + 3] else bytes[i..];
      SymbolsAppend(done, group);
      SymbolsOfGroup(group);
      assert done + group == if i + 3 <= |bytes| then bytes[..i + 3] else bytes;
      // 1st char
      var byte: u8 := bytes[i] / 4;
      output := output + [Symbol(byte)];
      // 2nd char
      byte := bytes[i] % 4 * 16;
      var byte2: u8 := (if i + 1 < |bytes| then bytes[i + 1] else 0) / 16;
      byte := byte + byte2;
      output := output + [Symbol(byte)];
      // 3rd char
      if i + 1 >= |bytes| {
        i := i + 3;
        break;
      }
      byte := bytes[i + 1] % 16 * 4;
      byte2 := (if i + 2 < |bytes| then bytes[i + 2] else 0) / 64;
      byte := byte + byte2;
      output := output + [Symbol(byte)];
      // 4th char
      if i + 2 >= |bytes| {
        i := i + 3;
        break;
      }
      byte := bytes[i + 2] % 64;
      output := output + [Symbol(byte)];
      i := i + 3;
    }
    assert bytes[..|bytes|] == bytes;
    output := output + Padding(EncodeCapacity(|bytes|) - |output|);
  }

  lemma NoSymbols()
    ensures Symbols([]) == []
  {
  }

  /** One group of up to three bytes. */
  function GroupSymbols(g: seq<u8>): seq<u8>
    requires 1 <= |g| <= 3
  {
    [Symbol(g[0] / 4), Symbol(g[0] % 4 * 16 + (if |g| > 1 then g[1] / 16 else 0))]
    + (if |g| > 1 then [Symbol(g[1] % 16 * 4 + (if |g| > 2 then g[2] / 64 else 0))] else [])
    + (if |g| > 2 then [Symbol(g[2] % 64)] else [])
  }

  lemma {:induction false} SymbolsOfGroup(g: seq<u8>)
    requires 1 <= |g| <= 3
    ensures Symbols(g) == GroupSymbols(g)
  {
    hide Symbol;
    if |g| == 3 {
      assert g[3..] == [];
      NoSymbols();
    }
  }

  // ---------------------------------------------------------------- decode

  datatype Lookup = Found(index: Sextet) | Missing(byte: u8, at: nat)

  /** `get_index_of_byte`. */
  function IndexOfByte(byte: u8, at: nat): (r: Lookup)
    ensures r.Found? <==> InAlphabet(byte)
    ensures r.Found? ==> r.index == Value(byte) && Symbol(r.index) == byte
    ensures r.Missing? ==> r.byte == byte && r.at == at
  {
    if Reverse(byte) == BAD_IDX then Missing(byte, at) else Found(Reverse(byte))
  }

  /** `get_decode_capacity`. */
  function DecodeCapacity(s: seq<u8>): int
    requires |s| >= 2
  {
    |s| * 6 / 8 - (if s[|s| - 1] == PADDING_CHAR then 1 else 0) - (if s[|s| - 2] == PADDING_CHAR then 1 else 0)
  }

  lemma {:induction false} FirstBadIs(s: seq<u8>, k: nat)
    requires k <= |s| && (k < |s| ==> !InAlphabet(s[k]))
    requires forall i :: 0 <= i < k ==> InAlphabet(s[i])
    ensures FirstBad(s) == k
  {
  }

  lemma {:induction false} BytesAppend(a: seq<u8>, b: seq<u8>)
    requires |a| % 4 == 0 && AllInAlphabet(a) && AllInAlphabet(b)
    ensures Bytes(a + b) == Bytes(a) + Bytes(b)
  {
    hide Reverse;
    if a == [] {
      assert a + b == b;
    } else {
      assert (a + b)[4..] == a[4..] + b;
      BytesAppend(a[4..], b);
    }
  }

  lemma NoBytes()
    ensures AllInAlphabet([]) && Bytes([]) == []
  {
  }

  lemma PaddingIsBad()
    ensures !InAlphabet(PADDING_CHAR)
  {
  }

  /** The first two, three or four characters of a group give one, two or three bytes. */
  lemma BytesOfGroup(s: seq<u8>, i: nat, m: nat)
    requires i % 4 == 0 && 2 <= m <= 4 && i + m <= |s|
    requires AllInAlphabet(s[..i])
    requires forall j :: i <= j < i + m ==> InAlphabet(s[j])
    ensures AllInAlphabet(s[..i + m])
    ensures Bytes(s[..i + m]) == Bytes(s[..i])
      + [Value(s[i]) * 4 + Value(s[i + 1]) / 16]
      + (if m > 2 then [Value(s[i + 1]) % 16 * 16 + Value(s[i + 2]) / 4] else [])
      + (if m > 3 then [Value(s[i + 2]) % 4 * 64 + Value(s[i + 3])] else [])
  {
    hide Reverse;
    var group := s[i..i + m];
    assert s[..i + m] == s[..i] + group;
    assert forall j :: 0 <= j < i ==> s[j] == s[..i][j];
    BytesAppend(s[..i], group);
    assert Bytes(group[|group|..]) == [];
  }

  /** Each character after the first of a group gives one more byte. */
  lemma OneMoreByte(s: seq<u8>, i: nat, m: nat)
    requires i % 4 == 0 && 2 <= m <= 4 && i + m <= |s|
    requires AllInAlphabet(s[..i + m])
    ensures AllInAlphabet(s[..i]) && (m > 2 ==> AllInAlphabet(s[..i + m - 1]))
    ensures forall j :: i <= j < i + m ==> InAlphabet(s[j])
    ensures m == 2 ==> Bytes(s[..i + 2]) == Bytes(s[..i]) + [Value(s[i]) * 4 + Value(s[i + 1]) / 16]
    ensures m == 3 ==> Bytes(s[..i + 3]) == Bytes(s[..i + 2]) + [Value(s[i + 1]) % 16 * 16 + Value(s[i + 2]) / 4]
    ensures m == 4 ==> Bytes(s[..i + 4]) == Bytes(s[..i + 3]) + [Value(s[i + 2]) % 4 * 64 + Value(s[i + 3])]
  {
    hide InAlphabet, Value, Bytes;
    forall j | 0 <= j < i + m
      ensures InAlphabet(s[j])
    {
      assert s[..i + m][j] == s[j];
    }
    BytesOfGroup(s, i, m);
    if m > 2 {
      BytesOfGroup(s, i, m - 1);
    }
  }

  lemma InAlphabetSoFar(s: seq<u8>, k: nat)
    requires k < |s| && AllInAlphabet(s[..k]) && InAlphabet(s[k])
    ensures AllInAlphabet(s[..k + 1])
  {
  }

  /** The string up to its first bad character, or all of it. */
  lemma MeaningAt(s: seq<u8>, k: nat)
    requires !TooShort(s)
    requires k <= |s| && (k < |s| ==> !InAlphabet(s[k]))
    requires AllInAlphabet(s[..k])
    ensures AllInAlphabet(s[..k]) && Meaning(s) ==
      if k == |s| then (if |s| % 4 == 1 then Overrun else Decoded(Bytes(s[..k])))
      else if s[k] == PADDING_CHAR && k % 4 >= 2 && k + 2 >= |s| then Decoded(Bytes(s[..k]))
      else Invalid(Some(s[k]), k)
  {
    hide InAlphabet, Bytes, TooShort;
    assert forall i :: 0 <= i < k ==> s[i] == s[..k][i];
    FirstBadIs(s, k);
    assert k == |s| ==> s[..k] == s;
  }

  lemma ShortMeaning(s: seq<u8>)
    requires TooShort(s)
    ensures Meaning(s) == Invalid(None, 0)
  {
  }

  /** A padding character is an error unless it is one of the last two characters. */
  method AtPadding(s: seq<u8>, k: nat, output: seq<u8>) returns (r: Outcome)
    requires !TooShort(s) && k < |s| && k % 4 >= 2 && s[k] == PADDING_CHAR
    requires AllInAlphabet(s[..k]) && output == Bytes(s[..k])
    ensures r == Meaning(s)
  {
    hide InAlphabet, AllInAlphabet, Bytes, Meaning, TooShort;
    PaddingIsBad();
    MeaningAt(s, k);
    return if k < |s| - 2 then Invalid(Some(s[k]), k) else Decoded(output);
  }

  /** The character at k, which is added to those before it if it is in the alphabet. */
  method ReadIndex(s: seq<u8>, k: nat) returns (found: Lookup)
    requires !TooShort(s) && k < |s| && AllInAlphabet(s[..k])
    ensures found.Found? ==> AllInAlphabet(s[..k + 1]) && InAlphabet(s[k]) && found.index == Value(s[k])
    ensures found.Missing? ==> Meaning(s) == Invalid(Some(found.byte), found.at) || EndsAt(s, k)
  {
    hide InAlphabet, AllInAlphabet, Value, Bytes, Symbol, Meaning, TooShort;
    found := IndexOfByte(s[k], k);
    if found.Found? {
      InAlphabetSoFar(s, k);
    } else {
      MeaningAt(s, k);
    }
  }

  method Decode(s: seq<u8>) returns (r: Outcome)
    ensures r == Meaning(s)
  {
    hide InAlphabet, AllInAlphabet, Value, Bytes, Symbol, Meaning;
    NoBytes();
    assert s[..0] == [];
    if s == [] {
      MeaningAt(s, 0);
      return Decoded([]);
    }
    if |s| == 1 {
      ShortMeaning(s);
      return Invalid(None, 0);
    }
    if |s| < 4 && s[|s| - 1] == PADDING_CHAR && s[|s| - 2] == PADDING_CHAR {
      ShortMeaning(s);
      return Invalid(None, 0);
    }
    r := DecodeGroups(s);
  }

  /** The loop over groups of four characters (226-282). */
  method DecodeGroups(s: seq<u8>) returns (r: Outcome)
    requires |s| >= 2 && !TooShort(s)
    ensures r == Meaning(s)
  {
    hide InAlphabet, AllInAlphabet, Value, Bytes, Symbol, Meaning, TooShort;
    NoBytes();
    assert s[..0] == [];
    var output := [];
    var i := 0;
    while i < |s|
      invariant i % 4 == 0 && i <= |s|
      invariant AllInAlphabet(s[..i]) && output == Bytes(s[..i])
      decreases |s| - i
    {
      var one := ReadIndex(s, i);
      if one.Missing? {
        return Invalid(Some(one.byte), one.at);
      }
      if i + 1 >= |s| {
        MeaningAt(s, i + 1);
        return Overrun;
      }
      var two := ReadIndex(s, i + 1);
      if two.Missing? {
        return Invalid(Some(two.byte), two.at);
      }
      // Byte 1
      OneMoreByte(s, i, 2);
      var outByte: u8 := one.index * 4 + two.index / 16;
      output := output + [outByte];
      if i + 2 >= |s| {
        MeaningAt(s, i + 2);
        return Decoded(output);
      }
      if s[i + 2] == PADDING_CHAR {
        r := AtPadding(s, i + 2, output);
        return r;
      }
      var three := ReadIndex(s, i + 2);
      if three.Missing? {
        return Invalid(Some(three.byte), three.at);
      }
      // Byte 2
      OneMoreByte(s, i, 3);
      outByte := two.index % 16 * 16 + three.index / 4;
      output := output + [outByte];
      if i + 3 >= |s| {
        MeaningAt(s, i + 3);
        return Decoded(output);
      }
      if s[i + 3] == PADDING_CHAR {
        r := AtPadding(s, i + 3, output);
        return r;
      }
      var four := ReadIndex(s, i + 3);
      if four.Missing? {
        return Invalid(Some(four.byte), four.at);
      }
      // Byte 3
      OneMoreByte(s, i, 4);
      outByte := three.index % 4 * 64 + four.index;
      output := output + [outByte];
      i := i + 4;
    }
    MeaningAt(s, i);
    return Decoded(output);
  }

  // ---------------------------------------------------------------- round trips

  lemma {:induction false} BytesOfSymbols(b: seq<u8>)
    ensures AllInAlphabet(Symbols(b)) && Bytes(Symbols(b)) == b
  {
    hide Symbol, Reverse, InAlphabet, Value;
    SymbolsInAlphabet(b);
    if |b| == 0 {
    } else if |b| <= 2 {
      BytesOfShort(b);
    } else {
      BytesOfSymbols(b[3..]);
      BytesOfShort(b[..3]);
      SymbolsInAlphabet(b[..3]);
      SymbolsInAlphabet(b[3..]);
      SymbolsAppend(b[..3], b[3..]);
      BytesAppend(Symbols(b[..3]), Symbols(b[3..]));
      assert b[..3] + b[3..] == b;
    }
  }

  lemma ValueOfSymbol(v: Sextet)
    ensures InAlphabet(Symbol(v)) && Value(Symbol(v)) == v
  {
  }

  lemma {:induction false} BytesOfShort(b: seq<u8>)
    requires 1 <= |b| <= 3
    ensures AllInAlphabet(Symbols(b)) && Bytes(Symbols(b)) == b
    ensures |b| == 3 ==> |Symbols(b)| == 4
  {
    hide Symbol, Reverse, InAlphabet, Value, Symbols;
    SymbolsOfGroup(b);
    SymbolsInAlphabet(b);
    ValueOfSymbol(b[0] / 4);
    ValueOfSymbol(b[0] % 4 * 16 + (if |b| > 1 then b[1] / 16 else 0));
    if |b| > 1 {
      ValueOfSymbol(b[1] % 16 * 4 + (if |b| > 2 then b[2] / 64 else 0));
    }
    if |b| > 2 {
      ValueOfSymbol(b[2] % 64);
      assert Symbols(b)[4..] == [];
      NoBytes();
    }
  }

  /**
   Base64 round trip: any bytes come back from their encoding, with all, some or none of its
   padding.
   */
  lemma {:induction false} RoundTrip(b: seq<u8>, p: nat)
    requires p <= PaddingLength(|b|)
    ensures Meaning(Symbols(b) + Padding(p)) == Decoded(b)
  {
    hide Symbol, Reverse, InAlphabet, Symbols, Bytes, PaddingLength;
    var s, k := Symbols(b) + Padding(p), |Symbols(b)|;
    BytesOfSymbols(b);
    SymbolsShape(b);
    PaddingIsBad();
    assert forall i :: 0 <= i < k ==> s[i] == Symbols(b)[i];
    assert p > 0 ==> s[k] == PADDING_CHAR;
    FirstBadIs(s, k);
    assert s[..k] == Symbols(b);
    assert p == 0 ==> s == Symbols(b);
  }

  lemma SymbolsShape(b: seq<u8>)
    ensures var k := |Symbols(b)|;
      && k % 4 == (if PaddingLength(|b|) == 0 then 0 else 4 - PaddingLength(|b|))
      && PaddingLength(|b|) <= 2 && k != 1
  {
    hide Symbols, EncodeCapacity;
    SymbolsLength(b);
    CapacityIs(|b|);
  }

  lemma {:induction false} BytesLength(s: seq<u8>)
    requires AllInAlphabet(s) && |s| % 4 != 1
    ensures |Bytes(s)| == |s| * 6 / 8
  {
    hide Reverse;
    if |s| > 3 {
      BytesLength(s[4..]);
    }
  }

  /**
   The decoded length is the announced one, but for a padding character that is alone or not where
   the last group ends.
   */
  lemma DecodedLength(s: seq<u8>)
    requires |s| >= 2 && Meaning(s).Decoded?
    ensures |Meaning(s).bytes| == DecodeCapacity(s)
      <==> (s[|s| - 2] == PADDING_CHAR ==> (s[|s| - 1] == PADDING_CHAR <==> |s| % 4 == 0))
  {
    hide InAlphabet, Bytes;
    PaddingIsBad();
    var k := FirstBad(s);
    BytesLength(s[..k]);
    SizeAt(k / 4, k % 4);
    if k == |s| {
      assert s[..k] == s;
    } else if k == |s| - 1 {
      assert s[|s| - 2] != PADDING_CHAR;
      SizeAt(k / 4, k % 4 + 1);
    } else {
      SizeAt(k / 4, k % 4 + 2);
    }
  }

  lemma SizeAt(q: nat, r: nat)
    ensures (4 * q + r) * 6 / 8 == 3 * q + r * 6 / 8
  {
    assert (4 * q + r) * 6 == 8 * (3 * q) + r * 6;
  }

  /** The padded, canonical form of section 3.5 of RFC 4648: discarded bits are zero. */
  ghost predicate Canonical(s: seq<u8>) {
    var k := FirstBad(s);
    && |s| % 4 == 0 && k + 2 >= |s|
    && (forall i :: k <= i < |s| ==> s[i] == PADDING_CHAR)
    && (|s| - k == 2 ==> Value(s[k - 1]) % 16 == 0)
    && (|s| - k == 1 ==> Value(s[k - 1]) % 4 == 0)
  }

  /** No bits are lost in the last group. */
  ghost predicate Exact(t: seq<u8>) {
    && AllInAlphabet(t) && |t| % 4 != 1
    && (|t| % 4 == 2 ==> Value(t[|t| - 1]) % 16 == 0)
    && (|t| % 4 == 3 ==> Value(t[|t| - 1]) % 4 == 0)
  }

  lemma {:induction false} SymbolsOfBytes(t: seq<u8>)
    requires Exact(t)
    ensures Symbols(Bytes(t)) == t
  {
    hide Symbol, Reverse, InAlphabet, Symbols, Bytes;
    if t == [] {
      NoBytes();
      NoSymbols();
    } else if |t| <= 4 {
      SymbolsOfShort(t);
    } else {
      assert t == t[..4] + t[4..];
      SymbolsOfBytes(t[4..]);
      SymbolsOfShort(t[..4]);
      BytesAppend(t[..4], t[4..]);
      SymbolsAppend(Bytes(t[..4]), Bytes(t[4..]));
    }
  }

  lemma SymbolOfValue(c: u8)
    requires InAlphabet(c)
    ensures Symbol(Value(c)) == c
  {
  }

  lemma {:induction false} SymbolsOfShort(t: seq<u8>)
    requires 2 <= |t| <= 4 && Exact(t)
    ensures Symbols(Bytes(t)) == t
    ensures |t| == 4 ==> |Bytes(t)| == 3
  {
    hide Symbol, Reverse, InAlphabet, Symbols, Bytes;
    assert t[..0] == [];
    NoBytes();
    BytesOfGroup(t, 0, |t|);
    assert t[..|t|] == t;
    SymbolsOfGroup(Bytes(t));
    SymbolOfValue(t[0]);
    SymbolOfValue(t[1]);
    if |t| > 2 {
      SymbolOfValue(t[2]);
    }
    if |t| > 3 {
      SymbolOfValue(t[3]);
    }
  }

  lemma {:induction false} SymbolsAreExact(b: seq<u8>)
    ensures Exact(Symbols(b))
  {
    hide Symbol, Reverse, InAlphabet, Symbols, Value;
    SymbolsInAlphabet(b);
    if b == [] {
      NoSymbols();
    } else if |b| <= 3 {
      SymbolsOfGroup(b);
      ValueOfSymbol(b[0] % 4 * 16 + (if |b| > 1 then b[1] / 16 else 0));
      if |b| > 1 {
        ValueOfSymbol(b[1] % 16 * 4 + (if |b| > 2 then b[2] / 64 else 0));
      }
    } else {
      assert b == b[..3] + b[3..];
      SymbolsAppend(b[..3], b[3..]);
      SymbolsOfGroup(b[..3]);
      SymbolsAreExact(b[3..]);
    }
  }

  lemma CanonicalComesBack(s: seq<u8>)
    requires Meaning(s).Decoded? && Canonical(s)
    ensures Encoded(Meaning(s).bytes) == s
  {
    hide InAlphabet, Symbols, Bytes, Value, PaddingLength;
    PaddingIsBad();
    var k := FirstBad(s);
    var t := s[..k];
    assert s == t + Padding(|s| - k);
    assert k == |s| ==> t == s;
    SymbolsOfBytes(t);
    SymbolsShape(Bytes(t));
  }

  lemma EncodedIsCanonical(b: seq<u8>)
    ensures Canonical(Encoded(b))
  {
    hide InAlphabet, Symbols, Value, PaddingLength;
    PaddingIsBad();
    var s := Encoded(b);
    SymbolsShape(b);
    SymbolsAreExact(b);
    assert forall i :: 0 <= i < |Symbols(b)| ==> s[i] == Symbols(b)[i];
    FirstBadIs(s, |Symbols(b)|);
  }

  /** Exactly the canonical strings are what their bytes encode to. */
  lemma CanonicalInverse(s: seq<u8>)
    requires Meaning(s).Decoded?
    ensures Encoded(Meaning(s).bytes) == s <==> Canonical(s)
  {
    hide Meaning, Encoded, Canonical;
    if Canonical(s) {
      CanonicalComesBack(s);
    }
    EncodedIsCanonical(Meaning(s).bytes);
  }

  /** Errors: the reported place is the first that is not in the alphabet, and the byte is the one there. */
  lemma DecodeErrors(s: seq<u8>, byte: u8, index: nat)
    requires Meaning(s) == Invalid(Some(byte), index)
    ensures index < |s| && byte == s[index] && !InAlphabet(byte)
    ensures forall i :: 0 <= i < index ==> InAlphabet(s[i])
    ensures byte == PADDING_CHAR ==> index % 4 < 2 || index + 2 < |s|
  {
    hide Reverse, Bytes;
  }

  /** Exactly the strings that run out of range: one character past the last group, and no error before it. */
  lemma OverrunsExactly(s: seq<u8>)
    ensures Meaning(s).Overrun? <==> |s| > 1 && |s| % 4 == 1 && AllInAlphabet(s)
  {
    hide Reverse, Bytes;
    if AllInAlphabet(s) {
      FirstBadIs(s, |s|);
    }
  }
}
