/**
 UTF-8 from the side of the characters (section 3 of RFC 3629): each Unicode scalar
 value has one encoding, and the well-formed texts of `Utf8` are exactly the
 encodings of sequences of scalar values.
 */
module Unicode {
  import opened Bytes
  import opened Utf8

  predicate IsScalar(c: nat) {
    c <= 0x10FFFF && !(0xD800 <= c <= 0xDFFF)
  }

  type scalar = c: int | 0 <= c <= 0x10FFFF && !(0xD800 <= c <= 0xDFFF)

  /** The last six bits of `c`, as a continuation byte. */
  function Tail(c: nat): byte {
    0x80 + c % 64
  }

  function Encoded(c: scalar): (b: bytes)
    ensures 1 <= |b| <= 4
  {
    if c < 0x80 then [c]
    else if c < 0x800 then [0xC0 + c / 64, Tail(c)]
    else if c < 0x10000 then
      assert c / 64 < 0x400 && c / 64 / 64 < 0x10;
      [0xE0 + c / 64 / 64, Tail(c / 64), Tail(c)]
    else
      assert c / 64 < 0x4400 && c / 64 / 64 < 0x110 && c / 64 / 64 / 64 < 5;
      [0xF0 + c / 64 / 64 / 64, Tail(c / 64 / 64), Tail(c / 64), Tail(c)]
  }

  function EncodedEach(cs: seq<scalar>): (chunks: seq<bytes>)
    ensures |chunks| == |cs| && forall i | 0 <= i < |cs| :: chunks[i] == Encoded(cs[i])
  {
    seq(|cs|, i requires 0 <= i < |cs| => Encoded(cs[i]))
  }

  function EncodedText(cs: seq<scalar>): bytes {
    Flatten(EncodedEach(cs))
  }

  lemma TextStep(cs: seq<scalar>)
    requires cs != []
    ensures EncodedText(cs) == Encoded(cs[0]) + EncodedText(cs[1..])
  {
    assert EncodedEach(cs)[1..] == EncodedEach(cs[1..]);
  }

  lemma EmptyText(cs: seq<scalar>)
    ensures EncodedText(cs) == [] <==> cs == []
  {
    if cs != [] {
      TextStep(cs);
    } else {
      assert EncodedEach(cs) == [];
    }
  }

  lemma MarksAreCharacters()
    ensures BYTE_ORDER_MARK == Encoded(0xFEFF)
    ensures REPLACEMENT == Encoded(0xFFFD)
  {
  }

  // ---- Characters ----------------------------------------------------------

  /** Six more bits after those of `high`. */
  function Join(high: nat, low: nat): nat {
    64 * high + low
  }

  /** The scalar value of the character `b` starts with. */
  function Value(b: bytes): nat
    requires b != []
  {
    match CharLength(b)
    case 1 => b[0]
    case 2 => Join(b[0] - 0xC0, b[1] - 0x80)
    case 3 => Join(Join(b[0] - 0xE0, b[1] - 0x80), b[2] - 0x80)
    case 4 => Join(Join(Join(b[0] - 0xF0, b[1] - 0x80), b[2] - 0x80), b[3] - 0x80)
    case _ => 0
  }

  /** Six more bits at the end. */
  lemma SixBits(high: nat, low: nat)
    requires low < 64
    ensures Join(high, low) / 64 == high && Join(high, low) % 64 == low
  {
  }

  lemma CharIsEncoded(b: bytes)
    requires b != [] && CharLength(b) > 0
    ensures IsScalar(Value(b)) && Encoded(Value(b)) == b[..CharLength(b)]
  {
    match CharLength(b) {
      case 1 =>
      case 2 => SixBits(b[0] - 0xC0, b[1] - 0x80);
      case 3 => ThreeIsEncoded(b);
      case _ => FourIsEncoded(b);
    }
  }

  lemma ThreeIsEncoded(b: bytes)
    requires b != [] && CharLength(b) == 3
    ensures IsScalar(Value(b)) && Encoded(Value(b)) == b[..3]
  {
    var first := Join(b[0] - 0xE0, b[1] - 0x80);
    SixBits(b[0] - 0xE0, b[1] - 0x80);
    SixBits(first, b[2] - 0x80);
  }

  lemma FourIsEncoded(b: bytes)
    requires b != [] && CharLength(b) == 4
    ensures IsScalar(Value(b)) && Encoded(Value(b)) == b[..4]
  {
    var first := Join(b[0] - 0xF0, b[1] - 0x80);
    var second := Join(first, b[2] - 0x80);
    SixBits(b[0] - 0xF0, b[1] - 0x80);
    SixBits(first, b[2] - 0x80);
    SixBits(second, b[3] - 0x80);
  }

  lemma ThreeIsChar(c: scalar, b: bytes)
    requires 0x800 <= c < 0x10000 && Encoded(c) <= b
    ensures CharLength(b) == 3 && Value(b) == c
  {
    var high := c / 64;
    assert b[0] == 0xE0 + high / 64 && b[1] == Tail(high) && b[2] == Tail(c);
    assert high == 64 * (high / 64) + high % 64 && c == 64 * high + c % 64;
    assert 0x20 <= high < 0x400 && !(0x360 <= high <= 0x37F);
    assert OpensThree(b[0], b[1]);
  }

  lemma FourIsChar(c: scalar, b: bytes)
    requires 0x10000 <= c && Encoded(c) <= b
    ensures CharLength(b) == 4 && Value(b) == c
  {
    var high := c / 64;
    var top := high / 64;
    assert b[0] == 0xF0 + top / 64 && b[1] == Tail(top) && b[2] == Tail(high) && b[3] == Tail(c);
    assert top == 64 * (top / 64) + top % 64 && high == 64 * top + high % 64 && c == 64 * high + c % 64;
    assert 0x10 <= top < 0x110;
    assert OpensFour(b[0], b[1]);
  }

  /** The encoding of a scalar value is one character, whatever follows it, with that value. */
  lemma EncodedIsChar(c: scalar, rest: bytes)
    ensures CharLength(Encoded(c) + rest) == |Encoded(c)|
    ensures Value(Encoded(c) + rest) == c
  {
    var b := Encoded(c) + rest;
    if c >= 0x10000 {
      FourIsChar(c, b);
    } else if c >= 0x800 {
      ThreeIsChar(c, b);
    } else if c >= 0x80 {
      assert b[0] == 0xC0 + c / 64 && b[1] == Tail(c);
    }
  }

  lemma EncodedIsInjective(a: scalar, b: scalar)
    requires Encoded(a) == Encoded(b)
    ensures a == b
  {
    EncodedIsChar(a, []);
    EncodedIsChar(b, []);
  }

  // ---- Texts ---------------------------------------------------------------

  lemma {:induction false} EncodedIsWellFormed(cs: seq<scalar>)
    ensures WellFormed(EncodedText(cs))
  {
    if cs != [] {
      var rest := EncodedText(cs[1..]);
      TextStep(cs);
      EncodedIsChar(cs[0], rest);
      assert (Encoded(cs[0]) + rest)[|Encoded(cs[0])|..] == rest;
      EncodedIsWellFormed(cs[1..]);
    } else {
      EmptyText(cs);
    }
  }

  lemma TextCons(c: scalar, rest: seq<scalar>)
    ensures EncodedText([c] + rest) == Encoded(c) + EncodedText(rest)
  {
    TextStep([c] + rest);
    assert ([c] + rest)[1..] == rest;
  }

  lemma FirstOf(b: bytes) returns (c: scalar)
    requires b != [] && CharLength(b) > 0
    ensures b == Encoded(c) + b[CharLength(b)..]
  {
    CharIsEncoded(b);
    c := Value(b);
    assert b == b[..CharLength(b)] + b[CharLength(b)..];
  }

  lemma {:induction false} WellFormedIsEncoded(b: bytes) returns (cs: seq<scalar>)
    requires WellFormed(b)
    ensures EncodedText(cs) == b
    decreases |b|
  {
    if b == [] {
      cs := [];
      EmptyText(cs);
    } else {
      var c := FirstOf(b);
      var rest := WellFormedIsEncoded(b[CharLength(b)..]);
      TextCons(c, rest);
      cs := [c] + rest;
    }
  }

  /** A byte string is well-formed text exactly when it is the encoding of some scalar values. */
  lemma WellFormedExactly(b: bytes)
    ensures WellFormed(b) <==> exists cs :: EncodedText(cs) == b
  {
    if WellFormed(b) {
      var cs := WellFormedIsEncoded(b);
    }
    if cs :| EncodedText(cs) == b {
      EncodedIsWellFormed(cs);
    }
  }

  // ---- Ill-formed sequences ------------------------------------------------

  /** Some character begins with all of `p` and has more bytes. */
  ghost predicate BeginsChar(p: bytes) {
    p != [] && exists rest :: CharLength(p + rest) > |p|
  }

  lemma BeginsByThree(p: bytes)
    requires |p| == 2 && OpensThree(p[0], p[1])
    ensures BeginsChar(p)
  {
    assert CharLength(p + [0x80]) == 3;
  }

  lemma BeginsByFour(p: bytes)
    requires 2 <= |p| <= 3 && OpensFour(p[0], p[1]) && (|p| == 3 ==> Continues(p[2]))
    ensures BeginsChar(p)
  {
    if |p| == 2 {
      assert CharLength(p + [0x80, 0x80]) == 4;
    } else {
      assert CharLength(p + [0x80]) == 4;
    }
  }

  lemma NoCharBegins(p: bytes, rest: bytes)
    requires |p| >= 2 && CharLength(p + rest) > |p|
    ensures OpensThree(p[0], p[1]) || OpensFour(p[0], p[1])
    ensures |p| <= 3 && (|p| == 3 ==> OpensFour(p[0], p[1]) && Continues(p[2]))
  {
  }

  /**
   One replacement character stands for a maximal subpart: the longest start of the
   bytes that begins some character, or one byte when none does.
   */
  lemma MaximalSubpart(b: bytes)
    requires b != [] && CharLength(b) == 0
    ensures IllFormedLength(b) > 1 ==> BeginsChar(b[..IllFormedLength(b)])
    ensures forall k | IllFormedLength(b) < k <= |b| :: !BeginsChar(b[..k])
  {
    var n := IllFormedLength(b);
    if n == 3 || (n == 2 && OpensFour(b[0], b[1])) {
      BeginsByFour(b[..n]);
    } else if n == 2 {
      BeginsByThree(b[..n]);
    }
    forall k | n < k <= |b|
      ensures !BeginsChar(b[..k])
    {
      if rest :| CharLength(b[..k] + rest) > k {
        NoCharBegins(b[..k], rest);
      }
    }
  }

  /**
   A maximal subpart after well-formed text becomes one U+FFFD, and what follows is
   repaired in turn.
   */
  lemma {:induction false} RepairReplaces(text: bytes, bad: bytes, rest: bytes)
    requires WellFormed(text) && bad != [] && CharLength(bad + rest) == 0 && IllFormedLength(bad + rest) == |bad|
    ensures Repair(text + (bad + rest)) == text + (Encoded(0xFFFD) + Repair(rest))
  {
    RepairBad(bad, rest);
    RepairAfter(text, bad + rest);
  }

  lemma RepairBad(bad: bytes, rest: bytes)
    requires bad != [] && CharLength(bad + rest) == 0 && IllFormedLength(bad + rest) == |bad|
    ensures Repair(bad + rest) == Encoded(0xFFFD) + Repair(rest)
  {
    MarksAreCharacters();
    assert (bad + rest)[|bad|..] == rest;
  }

  /** Well-formed text in front is kept. */
  lemma {:induction false} RepairAfter(text: bytes, rest: bytes)
    requires WellFormed(text)
    ensures Repair(text + rest) == text + Repair(rest)
    decreases |text|
  {
    if text == [] {
      assert text + rest == rest;
    } else {
      var n := CharLength(text);
      SameChar(text, rest);
      var head, tail := text[..n], text[n..];
      assert text == head + tail && text + rest == head + (tail + rest);
      OneCharKept(text + rest, head, tail + rest);
      RepairAfter(tail, rest);
    }
  }

  lemma OneCharKept(s: bytes, head: bytes, tail: bytes)
    requires s == head + tail && head != [] && CharLength(s) == |head|
    ensures Repair(s) == head + Repair(tail)
  {
    assert s[..|head|] == head && s[|head|..] == tail;
  }

  /** The first character does not depend on what follows it. */
  lemma SameChar(b: bytes, rest: bytes)
    requires b != [] && CharLength(b) > 0
    ensures CharLength(b + rest) == CharLength(b)
  {
  }
}
