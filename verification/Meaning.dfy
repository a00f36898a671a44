/**
 What the decoder makes of fields, stated on raw fields and without the decoder:
 each known number sets its own property, the last one winning; an entry is its last
 key and its last value; and every other number is ignored, at both levels.
 */
module Meaning {
  import opened Bytes
  import opened Utf8
  import Varint
  import W = Wire
  import Encoder
  import opened Format

  /** Numbers and lengths that a reader holds exactly. */
  predicate Small(r: Raw) {
    && 8 * r.number + 2 < TWO_53
    && match r
       case Number(_, value) => value < TWO_53
       case Data(_, data) => |data| < TWO_53
  }

  /** Keys and values are data. */
  predicate EntryTyped(es: seq<Raw>) {
    forall e | e in es :: Small(e) && (e.number == 1 || e.number == 2 ==> e.Data?)
  }

  /** The fields of an entry that was written field by field. */
  predicate HoldsEntry(data: bytes) {
    var es := Split(data);
    es.Some? && data == WrittenAll(es.value) && EntryTyped(es.value)
  }

  /** The timestamp is a number and the other known properties are data. */
  predicate Typed(r: Raw) {
    && Small(r)
    && (r.number == 6 ==> r.Number?)
    && (1 <= r.number <= 7 && r.number != 6 ==> r.Data?)
    && (r.number == 7 ==> HoldsEntry(r.data))
  }

  /** The key and the value an entry ends up with. */
  function EntryAfter(es: seq<Raw>, key: bytes, value: bytes): (bytes, bytes) {
    if es == [] then (key, value)
    else if es[0].number == 1 && es[0].Data? then EntryAfter(es[1..], Text(es[0].data), value)
    else if es[0].number == 2 && es[0].Data? then EntryAfter(es[1..], key, Text(es[0].data))
    else EntryAfter(es[1..], key, value)
  }

  /** What one field does to a message. */
  function Understood(m: W.Message, r: Raw): W.Message {
    match r
    case Number(6, value) => m.(timestampMs := value)
    case Number(_, _) => m
    case Data(number, data) =>
      if number == 1 then m.(originator := Text(data))
      else if number == 2 then m.(topic := Text(data))
      else if number == 3 then m.(action := Text(data))
      else if number == 4 then m.(payload := data)
      else if number == 5 then m.(messageId := Text(data))
      else if number == 7 && Split(data).Some? then
        var (k, v) := EntryAfter(Split(data).value, [], []);
        m.(metadata := m.metadata[k := v])
      else m
  }

  function AllUnderstood(m: W.Message, rs: seq<Raw>): W.Message
    decreases |rs|
  {
    if rs == [] then m else AllUnderstood(Understood(m, rs[0]), rs[1..])
  }

  // ---- Entries -------------------------------------------------------------

  lemma TagIsWritten(r: Raw)
    ensures r.Number? ==> Written(r) == Encoder.Tag(r.number, 0) + Varint.Encode(r.value)
    ensures r.Data? ==> Written(r) == Encoder.Tag(r.number, 2) + Encoder.Delimited(r.data)
  {
  }

  lemma EntryNumberRead(r: Raw, rest: bytes, key: bytes, value: bytes)
    requires r.Number? && Small(r) && r.number != 1 && r.number != 2
    ensures W.EntryField(Written(r) + rest, key, value) == Ok(Varint.Read((key, value), |Written(r)|))
  {
    var contents := Varint.Encode(r.value) + rest;
    TagIsWritten(r);
    Varint.RoundTrip(r.value, rest);
    assert Written(r) + rest == Encoder.Tag(r.number, 0) + contents;
    var kv := Varint.Read((key, value), |Varint.Encode(r.value)|);
    Encoder.TagThenEntry(Written(r) + rest, r.number, 0, contents, kv, key, value);
  }

  lemma EntryDataContents(r: Raw, rest: bytes, key: bytes, value: bytes)
    requires r.Data? && Small(r)
    ensures W.EntryContents(r.number, 2, Encoder.Delimited(r.data) + rest, key, value)
            == Ok(Varint.Read(EntryAfter([r], key, value), |Encoder.Delimited(r.data)|))
  {
    Encoder.DelimitedRead(r.data, rest);
    assert [r][1..] == [];
  }

  lemma EntryDataRead(r: Raw, rest: bytes, key: bytes, value: bytes)
    requires r.Data? && Small(r)
    ensures W.EntryField(Written(r) + rest, key, value)
            == Ok(Varint.Read(EntryAfter([r], key, value), |Written(r)|))
  {
    var contents := Encoder.Delimited(r.data) + rest;
    TagIsWritten(r);
    EntryDataContents(r, rest, key, value);
    assert Written(r) + rest == Encoder.Tag(r.number, 2) + contents;
    var kv := Varint.Read(EntryAfter([r], key, value), |Encoder.Delimited(r.data)|);
    Encoder.TagThenEntry(Written(r) + rest, r.number, 2, contents, kv, key, value);
  }

  lemma EntryFieldRead(r: Raw, rest: bytes, key: bytes, value: bytes)
    requires Small(r) && (r.number == 1 || r.number == 2 ==> r.Data?)
    ensures W.EntryField(Written(r) + rest, key, value)
            == Ok(Varint.Read(EntryAfter([r], key, value), |Written(r)|))
  {
    if r.Data? {
      EntryDataRead(r, rest, key, value);
    } else {
      EntryNumberRead(r, rest, key, value);
      assert [r][1..] == [];
    }
  }

  lemma EntryAfterStep(es: seq<Raw>, key: bytes, value: bytes)
    requires es != []
    ensures
      var (k, v) := EntryAfter([es[0]], key, value);
      EntryAfter(es, key, value) == EntryAfter(es[1..], k, v)
  {
    assert [es[0]][1..] == [];
  }

  lemma {:induction false} EntryMeant(es: seq<Raw>, key: bytes, value: bytes)
    requires EntryTyped(es)
    ensures
      var (k, v) := EntryAfter(es, key, value);
      W.EntryFrom(WrittenAll(es), key, value) == Ok(W.Entry(k, v))
    decreases |es|
  {
    if es != [] {
      var s, rest := WrittenAll(es), WrittenAll(es[1..]);
      var (k, v) := EntryAfter([es[0]], key, value);
      WrittenStep(es);
      EntryFieldRead(es[0], rest, key, value);
      assert s[|Written(es[0])|..] == rest;
      EntryAfterStep(es, key, value);
      EntryMeant(es[1..], k, v);
    } else {
      assert WrittenEach(es) == [];
    }
  }

  // ---- Fields --------------------------------------------------------------

  /** The field the decoder reads from `r`. */
  function FieldOf(r: Raw): W.Field {
    match r
    case Number(6, value) => W.Timestamp(value)
    case Number(_, _) => W.Unknown
    case Data(number, data) =>
      if number == 1 then W.Originator(Text(data))
      else if number == 2 then W.Topic(Text(data))
      else if number == 3 then W.Action(Text(data))
      else if number == 4 then W.Payload(data)
      else if number == 5 then W.MessageId(Text(data))
      else if number == 7 && Split(data).Some? then
        var (k, v) := EntryAfter(Split(data).value, [], []);
        W.Entry(k, v)
      else W.Unknown
  }

  lemma FieldIsUnderstood(m: W.Message, r: Raw)
    ensures W.Apply(m, FieldOf(r)) == Understood(m, r)
  {
  }

  lemma KnownDataRead(r: Raw)
    requires Typed(r) && r.Data? && 1 <= r.number <= 7
    ensures W.ReadField(Written(r)) == Ok(Varint.Read(FieldOf(r), |Written(r)|))
  {
    if r.number == 7 {
      EntryMeant(Split(r.data).value, [], []);
    }
    TagIsWritten(r);
    Encoder.DelimitedContents(r.number, r.data);
    Encoder.TagThenContents(Written(r), r.number, 2, Encoder.Delimited(r.data), FieldOf(r));
  }

  lemma FieldRead(r: Raw)
    requires Typed(r)
    ensures W.ReadField(Written(r)) == Ok(Varint.Read(FieldOf(r), |Written(r)|))
  {
    TagIsWritten(r);
    if r.Data? && 1 <= r.number <= 7 {
      KnownDataRead(r);
    } else if r.Data? {
      Encoder.UnknownBytesRead(r.number, r.data);
    } else if r.number == 6 {
      Encoder.TimestampRead(r.value);
    } else {
      Encoder.UnknownVarintRead(r.number, r.value);
    }
  }

  lemma {:induction false} FieldsAreUnderstood(m: W.Message, rs: seq<Raw>, fs: seq<W.Field>)
    requires |fs| == |rs| && forall i | 0 <= i < |rs| :: fs[i] == FieldOf(rs[i])
    ensures W.ApplyAll(m, fs) == AllUnderstood(m, rs)
    decreases |rs|
  {
    if rs != [] {
      FieldIsUnderstood(m, rs[0]);
      FieldsAreUnderstood(Understood(m, rs[0]), rs[1..], fs[1..]);
    }
  }

  /**
   What decoding means: fields written one after the other, known ones with the wire
   type of their property and any number of others in any place, decode to the
   message each of them in turn makes of the default message.
   */
  lemma DecodesAsMeant(rs: seq<Raw>)
    requires forall r | r in rs :: Typed(r)
    ensures W.Decode(WrittenAll(rs)) == Ok(AllUnderstood(W.DEFAULT, rs))
  {
    var cs := WrittenEach(rs);
    forall i | 0 <= i < |cs|
      ensures W.ReadField(cs[i]) == Ok(Varint.Read(FieldOf(rs[i]), |cs[i]|))
    {
      FieldRead(rs[i]);
    }
    assert forall c | c in cs :: Encoder.IsField(c);
    Encoder.ParseFields(cs);
    FieldsAreUnderstood(W.DEFAULT, rs, Encoder.FieldsOf(cs));
  }

  /** Under a number the envelope does not know, every other wire type is refused. */
  lemma OtherWireTypesRefused(number: nat, wireType: nat, rest: bytes)
    requires wireType < 8 && wireType != 0 && wireType != 2 && 8 * number + wireType < TWO_53
    requires !(1 <= number <= 7)
    ensures W.ReadField(Varint.Encode(8 * number + wireType) + rest) == Err(Varint.UnsupportedWireType(wireType))
  {
    TagSplits(number, wireType);
    Varint.RoundTrip(8 * number + wireType, rest);
  }

  /** So it is inside an entry, under a number that is neither the key's nor the value's. */
  lemma OtherWireTypesRefusedInEntry(number: nat, wireType: nat, rest: bytes, key: bytes, value: bytes)
    requires wireType < 8 && wireType != 0 && wireType != 2 && 8 * number + wireType < TWO_53
    requires number != 1 && number != 2
    ensures W.EntryField(Varint.Encode(8 * number + wireType) + rest, key, value)
            == Err(Varint.UnsupportedWireType(wireType))
  {
    TagSplits(number, wireType);
    Varint.RoundTrip(8 * number + wireType, rest);
  }

  /** Data that announces more bytes than are left is refused. */
  lemma MissingBytesRefused(length: nat, rest: bytes)
    requires |rest| < length < TWO_53
    ensures W.ReadBytes(Varint.Encode(length) + rest) == Err(Varint.UnexpectedEnd)
  {
    Varint.RoundTrip(length, rest);
  }

  // ---- Numbers -------------------------------------------------------------

  /** As long as it accepts a number and that is below 2^53, the decoder reads what the format says. */
  lemma {:induction false} NumberMeant(s: bytes, shift: nat, acc: nat)
    requires Varint.DecodeFrom(s, shift, acc).Ok? && ReadNumber(s).Some?
    requires acc + Varint.TimesPow2(ReadNumber(s).value.0, shift) < TWO_53
    ensures
      var (v, n) := ReadNumber(s).value;
      Varint.DecodeFrom(s, shift, acc) == Ok(Varint.Read(acc + Varint.TimesPow2(v, shift), n))
    decreases |s|
  {
    if s[0] >= 0x80 {
      var (v, n) := ReadNumber(s).value;
      var (high, _) := ReadNumber(s[1..]).value;
      assert v % 128 == s[0] % 128 && v / 128 == high;
      Varint.LowestGroup(v, shift);
      NumberMeant(s[1..], shift + 7, acc + Varint.TimesPow2(s[0] % 128, shift));
    }
  }

  /** The same for a number read from its start. */
  lemma DecodeIsExact(s: bytes)
    requires Varint.Decode(s).Ok? && ReadNumber(s).Some? && ReadNumber(s).value.0 < TWO_53
    ensures Varint.Decode(s) == Ok(Varint.Read(ReadNumber(s).value.0, ReadNumber(s).value.1))
  {
    NumberMeant(s, 0, 0);
  }
}
