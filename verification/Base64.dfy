/**
 Base 64 (section 4 of RFC 4648) over ASCII text, with the forgiving decoder of
 the runtime: characters outside the alphabet are skipped, the URL-safe digits
 are accepted, and an incomplete last group yields the bytes it can.
 */
module Base64 {
  import opened Bytes

  type sextet = i: int | 0 <= i < 64

  const PAD: byte := 0x3D

  function Symbol(i: sextet): byte {
    if i < 26 then 0x41 + i
    else if i < 52 then 0x61 + i - 26
    else if i < 62 then 0x30 + i - 52
    else if i == 62 then 0x2B
    else 0x2F
  }

  predicate InAlphabet(c: byte) {
    0x41 <= c <= 0x5A || 0x61 <= c <= 0x7A || 0x30 <= c <= 0x39 || c == 0x2B || c == 0x2F
  }

  predicate UrlSafe(c: byte) {
    c == 0x2D || c == 0x5F
  }

  function Digit(c: byte): (i: sextet)
    requires InAlphabet(c) || UrlSafe(c)
    ensures InAlphabet(c) ==> Symbol(i) == c
  {
    if 0x41 <= c <= 0x5A then c - 0x41
    else if 0x61 <= c <= 0x7A then c - 0x61 + 26
    else if 0x30 <= c <= 0x39 then c - 0x30 + 52
    else if c == 0x2B || c == 0x2D then 62
    else 63
  }

  lemma SymbolDigit(i: sextet)
    ensures InAlphabet(Symbol(i)) && Digit(Symbol(i)) == i
  {
  }

  function Symbols(d: seq<sextet>): bytes {
    seq(|d|, i requires 0 <= i < |d| => Symbol(d[i]))
  }

  /** The four six-bit digits of three bytes. */
  function Split(b0: byte, b1: byte, b2: byte): (d: seq<sextet>)
    ensures |d| == 4
  {
    [b0 / 4, b0 % 4 * 16 + b1 / 16, b1 % 16 * 4 + b2 / 64, b2 % 64]
  }

  function Encode(b: bytes): bytes {
    if b == [] then []
    else if |b| == 1 then Symbols(Split(b[0], 0, 0)[..2]) + [PAD, PAD]
    else if |b| == 2 then Symbols(Split(b[0], b[1], 0)[..3]) + [PAD]
    else Symbols(Split(b[0], b[1], b[2])) + Encode(b[3..])
  }

  /** The digit a character stands for, if any. */
  function DigitOf(c: byte): seq<sextet> {
    if InAlphabet(c) || UrlSafe(c) then [Digit(c)] else []
  }

  function Digits(t: bytes): seq<sextet> {
    if t == [] then [] else DigitOf(t[0]) + Digits(t[1..])
  }

  function Byte0(w: int, x: int): byte
    requires 0 <= w < 64 && 0 <= x < 64
  {
    w * 4 + x / 16
  }

  function Byte1(x: int, y: int): byte
    requires 0 <= x < 64 && 0 <= y < 64
  {
    x % 16 * 16 + y / 4
  }

  function Byte2(y: int, z: int): byte
    requires 0 <= y < 64 && 0 <= z < 64
  {
    y % 4 * 64 + z
  }

  function Unpack(d: seq<sextet>): bytes {
    if |d| <= 1 then []
    else if |d| == 2 then [Byte0(d[0], d[1])]
    else if |d| == 3 then [Byte0(d[0], d[1]), Byte1(d[1], d[2])]
    else [Byte0(d[0], d[1]), Byte1(d[1], d[2]), Byte2(d[2], d[3])] + Unpack(d[4..])
  }

  function Decode(t: bytes): bytes {
    Unpack(Digits(t))
  }

  // ---- The alphabet and the order of bits ----------------------------------

  const CAPITALS: string := "ABCDEFGHIJKLMNOPQRSTUVWXYZ"
  const SMALL: string := "abcdefghijklmnopqrstuvwxyz"
  const DECIMALS: string := "0123456789"

  lemma CapitalsInOrder(i: nat)
    requires i < 26
    ensures |CAPITALS| == 26 && CAPITALS[i] as int == 0x41 + i
  {
  }

  lemma SmallInOrder(i: nat)
    requires i < 26
    ensures |SMALL| == 26 && SMALL[i] as int == 0x61 + i
  {
  }

  lemma DecimalsInOrder(i: nat)
    requires i < 10
    ensures |DECIMALS| == 10 && DECIMALS[i] as int == 0x30 + i
  {
  }

  /** The symbols are those of Table 1 of RFC 4648, in its order, and the pad is the equals sign. */
  lemma SymbolsAreTheAlphabet(i: sextet)
    ensures
      var alphabet := CAPITALS + SMALL + DECIMALS + "+/";
      |alphabet| == 64 && Symbol(i) as char == alphabet[i] && PAD as char == '='
  {
    if i < 26 {
      CapitalsInOrder(i);
    } else if i < 52 {
      SmallInOrder(i - 26);
    } else if i < 62 {
      DecimalsInOrder(i - 52);
    }
  }

  /** Four digits hold three bytes as one number of 24 bits, the first of each the most significant. */
  lemma SplitKeepsBits(b0: byte, b1: byte, b2: byte)
    ensures
      var d := Split(b0, b1, b2);
      var w: int, x: int, y: int, z: int := d[0], d[1], d[2], d[3];
      262144 * w + 4096 * x + 64 * y + z == 65536 * (b0 as int) + 256 * (b1 as int) + (b2 as int)
  {
  }

  lemma {:induction false} EncodeLength(b: bytes)
    ensures |Encode(b)| == (|b| + 2) / 3 * 4
  {
    if |b| > 2 {
      EncodeLength(b[3..]);
    }
  }

  /** How the last group is written: two symbols and two pads for one byte, three and one for two. */
  lemma LastGroups(b0: byte, b1: byte)
    ensures
      var d := Split(b0, 0, 0);
      Encode([b0]) == [Symbol(d[0]), Symbol(d[1]), PAD, PAD] && d[2] == d[3] == 0
    ensures
      var d := Split(b0, b1, 0);
      Encode([b0, b1]) == [Symbol(d[0]), Symbol(d[1]), Symbol(d[2]), PAD] && d[3] == 0
  {
  }

  // ---- The decoder inverts the encoder -------------------------------------

  lemma {:induction false} DigitsConcat(a: bytes, b: bytes)
    ensures Digits(a + b) == Digits(a) + Digits(b)
  {
    if a == [] {
      assert a + b == b;
    } else {
      assert (a + b)[1..] == a[1..] + b;
      DigitsConcat(a[1..], b);
      assert DigitOf(a[0]) + (Digits(a[1..]) + Digits(b)) == DigitOf(a[0]) + Digits(a[1..]) + Digits(b);
    }
  }

  lemma {:induction false} DigitsOfSymbols(d: seq<sextet>)
    ensures Digits(Symbols(d)) == d
  {
    if d != [] {
      SymbolDigit(d[0]);
      assert Symbols(d)[1..] == Symbols(d[1..]);
      DigitsOfSymbols(d[1..]);
    }
  }

  /** The text of a group: symbols, padded when the group is short. */
  lemma GroupDigits(d: seq<sextet>, rest: bytes)
    ensures Digits(Symbols(d) + rest) == d + Digits(rest)
    ensures Digits(Symbols(d) + [PAD]) == d
    ensures Digits(Symbols(d) + [PAD, PAD]) == d
  {
    DigitsOfSymbols(d);
    DigitsConcat(Symbols(d), rest);
    DigitsConcat(Symbols(d), [PAD]);
    DigitsConcat(Symbols(d), [PAD, PAD]);
    var one: bytes := [PAD];
    var two: bytes := [PAD, PAD];
    assert two[1..] == one;
    assert Digits(one) == Digits(one[1..]) == [];
  }

  /** The three bytes of four digits. */
  function Join(d: seq<sextet>): (b: bytes)
    requires |d| == 4
    ensures |b| == 3
  {
    [Byte0(d[0], d[1]), Byte1(d[1], d[2]), Byte2(d[2], d[3])]
  }

  lemma JoinSplit(b0: byte, b1: byte, b2: byte)
    ensures Join(Split(b0, b1, b2)) == [b0, b1, b2]
  {
  }

  lemma SplitJoin(d: seq<sextet>)
    requires |d| == 4
    ensures Split(Join(d)[0], Join(d)[1], Join(d)[2]) == d
  {
    var w: int, x: int, y: int, z: int := d[0], d[1], d[2], d[3];
    assert Byte0(w, x) / 4 == w && Byte2(y, z) % 64 == z;
    assert Byte0(w, x) % 4 * 16 + Byte1(x, y) / 16 == x;
    assert Byte1(x, y) % 16 * 4 + Byte2(y, z) / 64 == y;
  }

  lemma UnpackGroup(d: seq<sextet>, rest: seq<sextet>)
    requires |d| == 4
    ensures Unpack(d + rest) == Join(d) + Unpack(rest)
  {
    assert (d + rest)[4..] == rest;
  }

  lemma EncodeGroup(b: bytes, rest: bytes)
    requires |b| == 3
    ensures Encode(b + rest) == Symbols(Split(b[0], b[1], b[2])) + Encode(rest)
  {
    assert (b + rest)[3..] == rest;
  }

  lemma DecodeGroup(d: seq<sextet>, rest: bytes)
    requires |d| == 4
    ensures Decode(Symbols(d) + rest) == Join(d) + Decode(rest)
  {
    GroupDigits(d, rest);
    UnpackGroup(d, Digits(rest));
  }

  /** A short last group yields the leading bytes of the full group. */
  lemma DecodeShort(d: seq<sextet>)
    requires |d| == 4
    ensures Decode(Symbols(d[..2]) + [PAD, PAD]) == Join(d)[..1]
    ensures Decode(Symbols(d[..3]) + [PAD]) == Join(d)[..2]
  {
    GroupDigits(d[..2], []);
    GroupDigits(d[..3], []);
  }

  lemma {:induction false} RoundTrip(b: bytes)
    ensures Decode(Encode(b)) == b
  {
    if b == [] {
    } else if |b| == 1 {
      JoinSplit(b[0], 0, 0);
      DecodeShort(Split(b[0], 0, 0));
    } else if |b| == 2 {
      JoinSplit(b[0], b[1], 0);
      DecodeShort(Split(b[0], b[1], 0));
    } else {
      JoinSplit(b[0], b[1], b[2]);
      DecodeGroup(Split(b[0], b[1], b[2]), Encode(b[3..]));
      RoundTrip(b[3..]);
      assert b == [b[0], b[1], b[2]] + b[3..];
    }
  }

  // ---- Canonical text ------------------------------------------------------

  predicate FullGroup(t: bytes) {
    |t| == 4 && InAlphabet(t[0]) && InAlphabet(t[1]) && InAlphabet(t[2]) && InAlphabet(t[3])
  }

  /** One padded last group, its unused bits zero. */
  predicate PaddedGroup(t: bytes) {
    && |t| == 4 && InAlphabet(t[0]) && InAlphabet(t[1]) && t[3] == PAD
    && ((InAlphabet(t[2]) && Digit(t[2]) % 4 == 0) || (t[2] == PAD && Digit(t[1]) % 16 == 0))
  }

  /** Groups of four alphabet characters, the last possibly padded: the texts RFC 4648 calls canonical. */
  predicate Canonical(t: bytes) {
    || t == []
    || PaddedGroup(t)
    || (|t| >= 4 && FullGroup(t[..4]) && Canonical(t[4..]))
  }

  lemma SymbolsInAlphabet(d: seq<sextet>)
    ensures forall i | 0 <= i < |d| :: InAlphabet(Symbols(d)[i]) && Digit(Symbols(d)[i]) == d[i]
  {
    forall i | 0 <= i < |d|
      ensures InAlphabet(Symbols(d)[i]) && Digit(Symbols(d)[i]) == d[i]
    {
      SymbolDigit(d[i]);
    }
  }

  lemma {:induction false} EncodeIsCanonical(b: bytes)
    ensures Canonical(Encode(b))
  {
    if b == [] {
    } else if |b| == 1 {
      SymbolsInAlphabet(Split(b[0], 0, 0)[..2]);
      assert PaddedGroup(Encode(b));
    } else if |b| == 2 {
      SymbolsInAlphabet(Split(b[0], b[1], 0)[..3]);
      assert PaddedGroup(Encode(b));
    } else {
      SymbolsInAlphabet(Split(b[0], b[1], b[2]));
      EncodeIsCanonical(b[3..]);
      assert FullGroup(Encode(b)[..4]);
      assert Encode(b)[4..] == Encode(b[3..]);
    }
  }

  lemma TwoPadsAreEncoded(w: sextet, x: sextet)
    requires x % 16 == 0
    ensures Encode(Decode(Symbols([w, x]) + [PAD, PAD])) == Symbols([w, x]) + [PAD, PAD]
  {
    GroupDigits([w, x], []);
    SplitJoin([w, x, 0, 0]);
    assert Byte1(x, 0) == 0;
    assert Split(Byte0(w, x), 0, 0)[..2] == [w, x];
  }

  lemma OnePadIsEncoded(w: sextet, x: sextet, y: sextet)
    requires y % 4 == 0
    ensures Encode(Decode(Symbols([w, x, y]) + [PAD])) == Symbols([w, x, y]) + [PAD]
  {
    GroupDigits([w, x, y], []);
    SplitJoin([w, x, y, 0]);
    assert Byte2(y, 0) == 0;
    assert Split(Byte0(w, x), Byte1(x, y), 0)[..3] == [w, x, y];
  }

  lemma PaddedIsEncoded(t: bytes)
    requires PaddedGroup(t)
    ensures Encode(Decode(t)) == t
  {
    var w, x := Digit(t[0]), Digit(t[1]);
    if t[2] == PAD {
      assert t == Symbols([w, x]) + [PAD, PAD];
      TwoPadsAreEncoded(w, x);
    } else {
      var y := Digit(t[2]);
      assert t == Symbols([w, x, y]) + [PAD];
      OnePadIsEncoded(w, x, y);
    }
  }

  lemma {:induction false} CanonicalIsEncoded(t: bytes)
    requires Canonical(t)
    ensures Encode(Decode(t)) == t
  {
    if t == [] {
    } else if PaddedGroup(t) {
      PaddedIsEncoded(t);
    } else {
      FullGroupIsEncoded(t[..4], t[4..]);
      CanonicalIsEncoded(t[4..]);
      assert t == t[..4] + t[4..];
    }
  }

  lemma FullGroupIsEncoded(g: bytes, rest: bytes)
    requires FullGroup(g)
    ensures Encode(Decode(g + rest)) == g + Encode(Decode(rest))
  {
    var d := [Digit(g[0]), Digit(g[1]), Digit(g[2]), Digit(g[3])];
    assert g == Symbols(d);
    DecodeGroup(d, rest);
    EncodeGroup(Join(d), Decode(rest));
    SplitJoin(d);
  }

  /** The re-encoding test accepts exactly the canonical texts. */
  lemma ReencodingTest(t: bytes)
    ensures Encode(Decode(t)) == t <==> Canonical(t)
  {
    EncodeIsCanonical(Decode(t));
    if Canonical(t) {
      CanonicalIsEncoded(t);
    }
  }

  lemma {:induction false} CanonicalCharacters(t: bytes)
    requires Canonical(t)
    ensures |t| % 4 == 0
    ensures forall i | 0 <= i < |t| :: InAlphabet(t[i]) || t[i] == PAD
  {
    if t != [] && !PaddedGroup(t) {
      CanonicalCharacters(t[4..]);
      forall i | 0 <= i < |t|
        ensures InAlphabet(t[i]) || t[i] == PAD
      {
        if i < 4 {
          assert InAlphabet(t[..4][i]);
        } else {
          assert t[i] == t[4..][i - 4];
        }
      }
    }
  }
}
