/**
 Text as UTF-8. A string is represented by its UTF-8 bytes, so encoding text is
 the identity; decoding bytes into text is the lossy operation of the WHATWG
 Encoding standard: a leading byte-order mark is removed and every maximal
 ill-formed subpart becomes U+FFFD.
 */
module Utf8 {
  import opened Bytes

  const BYTE_ORDER_MARK: bytes := [0xEF, 0xBB, 0xBF]
  const REPLACEMENT: bytes := [0xEF, 0xBF, 0xBD]

  predicate Continues(b: byte) {
    0x80 <= b <= 0xBF
  }

  /** Lead byte and second byte that may begin a three-byte character. */
  predicate OpensThree(lead: byte, second: byte) {
    || (lead == 0xE0 && 0xA0 <= second <= 0xBF)
    || (0xE1 <= lead <= 0xEF && lead != 0xED && Continues(second))
    || (lead == 0xED && 0x80 <= second <= 0x9F)
  }

  /** Lead byte and second byte that may begin a four-byte character. */
  predicate OpensFour(lead: byte, second: byte) {
    || (lead == 0xF0 && 0x90 <= second <= 0xBF)
    || (0xF1 <= lead <= 0xF3 && Continues(second))
    || (lead == 0xF4 && 0x80 <= second <= 0x8F)
  }

  /** Length of the character `b` starts with, or 0 when it starts with none. */
  function CharLength(b: bytes): (n: nat)
    requires b != []
    ensures n <= |b|
  {
    if b[0] < 0x80 then 1
    else if 0xC2 <= b[0] <= 0xDF && |b| >= 2 && Continues(b[1]) then 2
    else if |b| >= 3 && OpensThree(b[0], b[1]) && Continues(b[2]) then 3
    else if |b| >= 4 && OpensFour(b[0], b[1]) && Continues(b[2]) && Continues(b[3]) then 4
    else 0
  }

  /** How many bytes of an ill-formed start one replacement character stands for. */
  function IllFormedLength(b: bytes): (n: nat)
    requires b != [] && CharLength(b) == 0
    ensures 1 <= n <= |b|
  {
    if |b| >= 3 && OpensFour(b[0], b[1]) && Continues(b[2]) then 3
    else if |b| >= 2 && (OpensThree(b[0], b[1]) || OpensFour(b[0], b[1])) then 2
    else 1
  }

  predicate WellFormed(b: bytes) {
    b == [] || (CharLength(b) > 0 && WellFormed(b[CharLength(b)..]))
  }

  function Repair(b: bytes): bytes {
    if b == [] then []
    else if CharLength(b) > 0 then b[..CharLength(b)] + Repair(b[CharLength(b)..])
    else REPLACEMENT + Repair(b[IllFormedLength(b)..])
  }

  /** What `TextDecoder.decode` makes of `b`. */
  function Text(b: bytes): bytes {
    Repair(if BYTE_ORDER_MARK <= b then b[3..] else b)
  }

  lemma {:induction false} RepairKeepsWellFormed(b: bytes)
    requires WellFormed(b)
    ensures Repair(b) == b
  {
    if b != [] {
      RepairKeepsWellFormed(b[CharLength(b)..]);
    }
  }

  lemma {:induction false} RepairIsWellFormed(b: bytes)
    ensures WellFormed(Repair(b))
  {
    if b == [] {
    } else if CharLength(b) > 0 {
      var rest := Repair(b[CharLength(b)..]);
      RepairIsWellFormed(b[CharLength(b)..]);
      assert CharLength(b[..CharLength(b)] + rest) == CharLength(b);
      assert Repair(b)[CharLength(b)..] == rest;
    } else {
      var rest := Repair(b[IllFormedLength(b)..]);
      RepairIsWellFormed(b[IllFormedLength(b)..]);
      assert CharLength(REPLACEMENT + rest) == 3;
      assert (REPLACEMENT + rest)[3..] == rest;
    }
  }

  /** Decoding always yields text, whatever the bytes. */
  lemma TextIsWellFormed(b: bytes)
    ensures WellFormed(Text(b))
  {
    RepairIsWellFormed(if BYTE_ORDER_MARK <= b then b[3..] else b);
  }

  /** A text survives encoding and decoding exactly when it has no leading byte-order mark. */
  lemma TextRoundTrip(s: bytes)
    requires WellFormed(s)
    ensures Text(s) == (if BYTE_ORDER_MARK <= s then s[3..] else s)
    ensures Text(s) == s <==> !(BYTE_ORDER_MARK <= s)
  {
    if BYTE_ORDER_MARK <= s {
      assert CharLength(s) == 3;
      RepairKeepsWellFormed(s[3..]);
    } else {
      RepairKeepsWellFormed(s);
    }
  }
}
