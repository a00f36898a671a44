/**
 The text body an envelope travels in: base 64 of its encoding, with a fallback
 that reads the body itself as an encoding. A body is held as its UTF-8 bytes.
 */
module SqsBody {
  import opened Bytes
  import Varint
  import opened Wire
  import opened Encoder
  import Base64
  import Codec

  function EncodeBody(m: Message, entries: Entries): bytes {
    Base64.Encode(Encoder.Encode(m, entries))
  }

  /** `decodeMessageBody`, over a base 64 decoder of the runtime. */
  function DecodeBodyWith(decoder: bytes -> bytes, body: bytes): Result<Message, Varint.DecodeError> {
    var raw := decoder(body);
    if (Base64.Encode(raw) == body || body == []) && Wire.Decode(raw).Ok? then Wire.Decode(raw)
    else Wire.Decode(body)
  }

  function DecodeBody(body: bytes): Result<Message, Varint.DecodeError> {
    DecodeBodyWith(Base64.Decode, body)
  }

  /** How forgiving the decoder is does not matter: any two that invert the encoder read every body alike. */
  lemma DecoderIrrelevant(decoder: bytes -> bytes, body: bytes)
    requires forall b :: decoder(Base64.Encode(b)) == b
    ensures DecodeBodyWith(decoder, body) == DecodeBody(body)
  {
    Base64.RoundTrip(decoder(body));
    assert decoder(Base64.Encode(Base64.Decode(body))) == Base64.Decode(body);
    assert decoder(Base64.Encode([])) == [];
  }

  /** Which path a body takes: base 64 exactly when it is canonical and holds an encoding. */
  lemma BodyPaths(body: bytes)
    ensures Base64.Canonical(body) && Wire.Decode(Base64.Decode(body)).Ok? ==>
              DecodeBody(body) == Wire.Decode(Base64.Decode(body))
    ensures !(Base64.Canonical(body) && Wire.Decode(Base64.Decode(body)).Ok?) ==>
              DecodeBody(body) == Wire.Decode(body)
  {
    Base64.ReencodingTest(body);
  }

  /** A body is canonical base 64 of the encoding, whatever the message holds. */
  lemma BodyIsBase64(m: Message, entries: Entries)
    ensures Base64.Canonical(EncodeBody(m, entries))
    ensures Base64.Decode(EncodeBody(m, entries)) == Encoder.Encode(m, entries)
  {
    Base64.EncodeIsCanonical(Encoder.Encode(m, entries));
    Base64.RoundTrip(Encoder.Encode(m, entries));
  }

  lemma BodyRoundTrip(m: Message, entries: Entries)
    requires Enumerates(entries, m.metadata) && Representable(m, entries) && Codec.Plain(m)
    ensures DecodeBody(EncodeBody(m, entries)) == Ok(Codec.Normal(m))
  {
    Base64.RoundTrip(Encoder.Encode(m, entries));
    Codec.RoundTrip(m, entries);
  }

  // ---- Legacy bodies: the raw encoding as text -----------------------------

  lemma TextPartStart(m: Message)
    requires TextPart(m) != []
    ensures !Base64.InAlphabet(TextPart(m)[0]) && TextPart(m)[0] != Base64.PAD
  {
    assert forall n, data: bytes | 1 <= n <= 5 && data != [] :: LengthDelimited(n, data)[0] == n * 8 + 2;
  }

  lemma {:induction false} EntryPartsStart(entries: Entries)
    requires Flatten(EntryParts(entries)) != []
    ensures Flatten(EntryParts(entries))[0] == 0x3A
  {
    assert entries != [];
    assert EntryParts(entries)[1..] == EntryParts(entries[1..]);
    if MapEntry(entries[0].0, entries[0].1) == [] {
      EntryPartsStart(entries[1..]);
    }
  }

  predicate Misfit(raw: bytes, i: nat) {
    i < |raw| && !Base64.InAlphabet(raw[i]) && raw[i] != Base64.PAD
  }

  ghost predicate Unfit(raw: bytes) {
    |raw| % 4 != 0 || exists i :: Misfit(raw, i)
  }

  lemma StartMisfits(raw: bytes)
    requires raw != [] && !Base64.InAlphabet(raw[0]) && raw[0] != Base64.PAD
    ensures Unfit(raw)
  {
    assert Misfit(raw, 0);
  }

  /** A timestamp at the front: a continuation byte, then nothing or a metadata tag. */
  lemma TimeMisfits(ms: nat, tail: bytes)
    requires tail == [] || tail[0] == 0x3A
    ensures Unfit([0x30] + Varint.Encode(ms) + tail)
  {
    var raw := [0x30] + Varint.Encode(ms) + tail;
    if ms > 0x7f {
      assert raw[1] == Varint.Encode(ms)[0] >= 0x80;
      assert Misfit(raw, 1);
    } else {
      assert Varint.Encode(ms) == [ms];
      if tail != [] {
        assert raw[2] == tail[0];
        assert Misfit(raw, 2);
      }
    }
  }

  /** Every encoding has a byte no base 64 text has, or a length none has. */
  lemma EncodingMisfits(m: Message, entries: Entries)
    requires Encoder.Encode(m, entries) != []
    ensures Unfit(Encoder.Encode(m, entries))
  {
    var raw, tail := Encoder.Encode(m, entries), Flatten(EntryParts(entries));
    EncodingLayout(m, entries);
    if tail != [] {
      EntryPartsStart(entries);
    }
    if TextPart(m) != [] {
      TextPartStart(m);
      assert raw[0] == TextPart(m)[0];
      StartMisfits(raw);
    } else if m.timestampMs == 0 {
      assert raw == tail;
      StartMisfits(raw);
    } else {
      assert Tag(6, 0) == [0x30];
      assert raw == [0x30] + Varint.Encode(m.timestampMs) + tail;
      TimeMisfits(m.timestampMs, tail);
    }
  }

  /** No encoding is canonical base 64, except the empty one. */
  lemma EncodingNotCanonical(m: Message, entries: Entries)
    requires Encoder.Encode(m, entries) != []
    ensures !Base64.Canonical(Encoder.Encode(m, entries))
  {
    EncodingMisfits(m, entries);
    if Base64.Canonical(Encoder.Encode(m, entries)) {
      Base64.CanonicalCharacters(Encoder.Encode(m, entries));
    }
  }

  /** A body that is the raw encoding of a message, as older producers sent it, is read as that message. */
  lemma LegacyBody(m: Message, entries: Entries)
    requires Enumerates(entries, m.metadata) && Representable(m, entries) && Codec.Plain(m)
    ensures DecodeBody(Encoder.Encode(m, entries)) == Ok(Codec.Normal(m))
  {
    var raw := Encoder.Encode(m, entries);
    Codec.RoundTrip(m, entries);
    if raw != [] {
      EncodingNotCanonical(m, entries);
      Base64.ReencodingTest(raw);
    }
  }
}
