/**
 What the producer's validation accepts, in terms of characters: trimming, the
 characters of a queue name, and which error a spec gets.
 */
module Validation {
  import opened Bytes
  import opened Utf8
  import opened Unicode
  import opened SqsProducer

  // ---- Trimming ------------------------------------------------------------

  /** White space and line terminators of ECMAScript, which `String.prototype.trim` removes. */
  predicate WhiteSpace(c: nat) {
    || 0x9 <= c <= 0xD || c == 0x20 || c == 0xA0 || c == 0x1680 || 0x2000 <= c <= 0x200A
    || c == 0x2028 || c == 0x2029 || c == 0x202F || c == 0x205F || c == 0x3000 || c == 0xFEFF
  }

  lemma SpaceIsEncoded(c: scalar)
    requires WhiteSpace(c)
    ensures IsSpace(Encoded(c))
  {
  }

  /** The white space that `w` encodes. */
  function SpaceValue(w: bytes): nat
    requires IsSpace(w)
  {
    if |w| == 1 then w[0]
    else if |w| == 2 then 0xA0
    else if w[0] == 0xE1 then 0x1680
    else if w[0] == 0xE2 && w[1] == 0x80 then Join(0x80, w[2] - 0x80)
    else if w[0] == 0xE2 then 0x205F
    else if w[0] == 0xE3 then 0x3000
    else 0xFEFF
  }

  lemma SpaceHasValue(w: bytes) returns (c: scalar)
    requires IsSpace(w)
    ensures WhiteSpace(c) && Encoded(c) == w
  {
    c := SpaceValue(w);
  }

  lemma EncodedBytes(c: scalar)
    ensures !Continues(Encoded(c)[0])
    ensures forall i | 1 <= i < |Encoded(c)| :: Continues(Encoded(c)[i])
  {
  }

  /** The encoding in front of `t` is its first character. */
  lemma StartShape(t: bytes, c: scalar)
    requires Encoded(c) <= t
    ensures Value(t) == c
  {
    EncodedIsChar(c, t[|Encoded(c)|..]);
    assert t == Encoded(c) + t[|Encoded(c)|..];
  }

  /** A text begins with a character's encoding only if that is its first character. */
  lemma FirstCharacter(t: bytes, cs: seq<scalar>, c: scalar)
    requires t == EncodedText(cs) && cs != [] && Encoded(c) <= t
    ensures c == cs[0]
  {
    TextStep(cs);
    StartShape(t, c);
    StartShape(t, cs[0]);
  }

  /** The encoding at the end of `t` starts at the last byte that is no continuation. */
  lemma EndShape(t: bytes, c: scalar)
    requires |Encoded(c)| <= |t| && t[|t| - |Encoded(c)|..] == Encoded(c)
    ensures !Continues(t[|t| - |Encoded(c)|])
    ensures forall i | |t| - |Encoded(c)| < i < |t| :: Continues(t[i])
  {
    var start := |t| - |Encoded(c)|;
    EncodedBytes(c);
    assert forall i | start <= i < |t| :: t[i] == t[start..][i - start];
  }

  /** Two encodings at the end of the same bytes are the same. */
  lemma SameEnd(t: bytes, a: scalar, b: scalar)
    requires |Encoded(a)| <= |t| && t[|t| - |Encoded(a)|..] == Encoded(a)
    requires |Encoded(b)| <= |t| && t[|t| - |Encoded(b)|..] == Encoded(b)
    ensures a == b
  {
    EndShape(t, a);
    EndShape(t, b);
    assert |Encoded(a)| == |Encoded(b)|;
    EncodedIsInjective(a, b);
  }

  lemma SplitLast(cs: seq<scalar>)
    requires cs != []
    ensures EncodedText(cs) == EncodedText(cs[..|cs| - 1]) + Encoded(cs[|cs| - 1])
  {
    var chunks, n := EncodedEach(cs), |cs| - 1;
    assert chunks == chunks[..n] + [chunks[n]];
    assert chunks[..n] == EncodedEach(cs[..n]);
    FlattenSnoc(chunks[..n], chunks[n]);
  }

  /** Likewise a text ends with a character's encoding only if that is its last character. */
  lemma LastCharacter(t: bytes, cs: seq<scalar>, c: scalar)
    requires t == EncodedText(cs) && cs != []
    requires |Encoded(c)| <= |t| && t[|t| - |Encoded(c)|..] == Encoded(c)
    ensures c == cs[|cs| - 1]
  {
    SplitLast(cs);
    SameEnd(t, cs[|cs| - 1], c);
  }

  lemma SpaceInFront(t: bytes, cs: seq<scalar>, w: bytes)
    requires t == EncodedText(cs) && w <= t && IsSpace(w)
    ensures cs != [] && WhiteSpace(cs[0])
  {
    var c := SpaceHasValue(w);
    FirstCharacter(t, cs, c);
  }

  lemma SpaceAtEnd(t: bytes, cs: seq<scalar>, w: bytes)
    requires t == EncodedText(cs) && |w| <= |t| && t[|t| - |w|..] == w && IsSpace(w)
    ensures cs != [] && WhiteSpace(cs[|cs| - 1])
  {
    var c := SpaceHasValue(w);
    LastCharacter(t, cs, c);
  }

  /** The white space that trimming would remove first. */
  lemma OuterSpaceOf(t: bytes) returns (w: bytes, inFront: bool)
    requires HasOuterSpace(t)
    ensures IsSpace(w) && |w| <= |t| && if inFront then w <= t else t[|t| - |w|..] == w
  {
    var n :| 1 <= n <= 3 && n <= |t| && (IsSpace(t[..n]) || IsSpace(t[|t| - n..]));
    inFront := IsSpace(t[..n]);
    w := if inFront then t[..n] else t[|t| - n..];
  }

  lemma OuterSpaceOnlyIf(t: bytes, cs: seq<scalar>)
    requires t == EncodedText(cs) && HasOuterSpace(t)
    ensures cs != [] && (WhiteSpace(cs[0]) || WhiteSpace(cs[|cs| - 1]))
  {
    var w, inFront := OuterSpaceOf(t);
    if inFront {
      SpaceInFront(t, cs, w);
    } else {
      SpaceAtEnd(t, cs, w);
    }
  }

  /** A space of one to three bytes, in front or at the end. */
  lemma SpaceIsOuter(t: bytes, w: bytes)
    requires IsSpace(w) && |w| <= |t| && (t[..|w|] == w || t[|t| - |w|..] == w)
    ensures HasOuterSpace(t)
  {
    var n := |w|;
    assert 1 <= n <= 3 && (IsSpace(t[..n]) || IsSpace(t[|t| - n..]));
  }

  lemma OuterSpaceIf(t: bytes, cs: seq<scalar>)
    requires t == EncodedText(cs) && cs != [] && (WhiteSpace(cs[0]) || WhiteSpace(cs[|cs| - 1]))
    ensures HasOuterSpace(t)
  {
    if WhiteSpace(cs[0]) {
      SpaceIsEncoded(cs[0]);
      SpaceIsOuter(t, Encoded(cs[0]));
    } else {
      SplitLast(cs);
      SpaceIsEncoded(cs[|cs| - 1]);
      SpaceIsOuter(t, Encoded(cs[|cs| - 1]));
    }
  }

  /** Trimming changes a text exactly when its first or its last character is white space. */
  lemma OuterSpaceExactly(cs: seq<scalar>)
    ensures HasOuterSpace(EncodedText(cs)) <==> cs != [] && (WhiteSpace(cs[0]) || WhiteSpace(cs[|cs| - 1]))
  {
    if HasOuterSpace(EncodedText(cs)) {
      OuterSpaceOnlyIf(EncodedText(cs), cs);
    }
    if cs != [] && (WhiteSpace(cs[0]) || WhiteSpace(cs[|cs| - 1])) {
      OuterSpaceIf(EncodedText(cs), cs);
    }
  }

  // ---- Specs ---------------------------------------------------------------

  predicate Trimmed(cs: seq<scalar>) {
    cs != [] && !WhiteSpace(cs[0]) && !WhiteSpace(cs[|cs| - 1])
  }

  /**
   Which spec is valid, and which error an invalid one gets: topic and action must not
   be empty and must not begin or end with white space, and the payload must not
   exceed 256 KiB; the first of these that fails, in the order of the error list, is
   reported.
   */
  lemma SpecErrorExactly(s: Spec, topic: seq<scalar>, action: seq<scalar>)
    requires s.topic == EncodedText(topic) && s.action == EncodedText(action)
    ensures SpecError(s).None? <==> Trimmed(topic) && Trimmed(action) && |s.payload| <= 262144
    ensures SpecError(s) == Some(EmptyTopic) <==> topic == []
    ensures SpecError(s) == Some(EmptyAction) <==> topic != [] && action == []
    ensures SpecError(s) == Some(TopicWhitespace) <==> topic != [] && action != [] && !Trimmed(topic)
    ensures SpecError(s) == Some(ActionWhitespace) <==> Trimmed(topic) && action != [] && !Trimmed(action)
    ensures SpecError(s) == Some(MessageTooLarge) <==> Trimmed(topic) && Trimmed(action) && |s.payload| > 262144
  {
    OuterSpaceExactly(topic);
    OuterSpaceExactly(action);
    EmptyText(topic);
    EmptyText(action);
  }

  // ---- Queue names ---------------------------------------------------------

  /** A letter, a digit, a hyphen, an underscore or a full stop. */
  predicate NameLetter(c: char) {
    'a' <= c <= 'z' || 'A' <= c <= 'Z' || '0' <= c <= '9' || c == '-' || c == '_' || c == '.'
  }

  lemma SpaceIsNoLetter(w: bytes)
    requires IsSpace(w)
    ensures !NameCharacter(w[0])
  {
  }

  lemma NameLettersAreNoSpace(name: bytes)
    requires forall c | c in name :: NameCharacter(c)
    ensures !HasOuterSpace(name)
  {
    forall n | 1 <= n <= 3 && n <= |name|
      ensures !IsSpace(name[..n]) && !IsSpace(name[|name| - n..])
    {
      assert name[..n][0] in name && name[|name| - n..][0] in name;
      if IsSpace(name[..n]) {
        SpaceIsNoLetter(name[..n]);
      }
      if IsSpace(name[|name| - n..]) {
        SpaceIsNoLetter(name[|name| - n..]);
      }
    }
  }

  /** A queue name is valid exactly when it is not empty and every byte of it is one of those characters. */
  lemma QueueNameExactly(name: bytes)
    ensures QueueNameError(name).None? <==> name != [] && forall c | c in name :: NameLetter(c as char)
    ensures QueueNameError(name) == Some(EmptyQueueName) <==> name == []
  {
    assert forall c: byte :: NameCharacter(c) <==> NameLetter(c as char);
    if forall c | c in name :: NameCharacter(c) {
      NameLettersAreNoSpace(name);
    }
  }

  /** And when it is not, the error is white space exactly when its first or last character is. */
  lemma QueueNameWhitespaceExactly(cs: seq<scalar>)
    ensures QueueNameError(EncodedText(cs)) == Some(QueueNameWhitespace)
            <==> cs != [] && (WhiteSpace(cs[0]) || WhiteSpace(cs[|cs| - 1]))
  {
    OuterSpaceExactly(cs);
    EmptyText(cs);
  }
}
