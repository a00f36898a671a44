/**
 The wire format by itself (Protocol Buffers Encoding guide, "Message Structure"):
 a string is cut into fields by their wire types alone, without knowing which
 numbers mean what, and numbers have no limit. What the encoder emits and what the
 decoder understands are stated against it.
 */
module Format {
  import opened Bytes
  import opened Utf8
  import Varint
  import Wire
  import Encoder

  /** A field as its wire type gives it: 0 holds a number, 2 holds data. */
  datatype Raw =
    | Number(number: nat, value: nat)
    | Data(number: nat, data: bytes)

  /** A base 128 number, least significant group first, and the bytes it takes. */
  function ReadNumber(s: bytes): (r: Option<(nat, nat)>)
    ensures r.Some? ==> 1 <= r.value.1 <= |s|
  {
    if s == [] then None
    else if s[0] < 0x80 then Some((s[0], 1))
    else
      match ReadNumber(s[1..])
      case None => None
      case Some((v, n)) => Some((s[0] - 0x80 + 128 * v, n + 1))
  }

  function ReadRaw(s: bytes): (r: Option<(Raw, nat)>)
    ensures r.Some? ==> 1 <= r.value.1 <= |s|
  {
    match ReadNumber(s)
    case None => None
    case Some((tag, n)) => ReadContents(tag / 8, tag % 8, s, n)
  }

  /** The field `number` whose contents begin at `n`. */
  function ReadContents(number: nat, wireType: nat, s: bytes, n: nat): (r: Option<(Raw, nat)>)
    requires 1 <= n <= |s|
    ensures r.Some? ==> 1 <= r.value.1 <= |s|
  {
    match ReadNumber(s[n..])
    case None => None
    case Some((v, k)) =>
      if wireType == 0 then Some((Number(number, v), n + k))
      else if wireType == 2 && n + k + v <= |s| then Some((Data(number, s[n + k..n + k + v]), n + k + v))
      else None
  }

  /** All fields of `s`. */
  function Split(s: bytes): Option<seq<Raw>>
    decreases |s|
  {
    if s == [] then Some([])
    else
      match ReadRaw(s)
      case None => None
      case Some((r, n)) =>
        match Split(s[n..])
        case None => None
        case Some(rs) => Some([r] + rs)
  }

  // ---- Writing raw fields --------------------------------------------------

  function Written(r: Raw): bytes {
    match r
    case Number(number, value) => Varint.Encode(8 * number) + Varint.Encode(value)
    case Data(number, data) => Varint.Encode(8 * number + 2) + Varint.Encode(|data|) + data
  }

  function WrittenEach(rs: seq<Raw>): (cs: seq<bytes>)
    ensures |cs| == |rs| && forall i | 0 <= i < |rs| :: cs[i] == Written(rs[i])
  {
    seq(|rs|, i requires 0 <= i < |rs| => Written(rs[i]))
  }

  function WrittenAll(rs: seq<Raw>): bytes {
    Flatten(WrittenEach(rs))
  }

  /** The number written for `v` is read as `v`, whatever its size and whatever follows. */
  lemma {:induction false} NumberRead(v: nat, rest: bytes)
    ensures ReadNumber(Varint.Encode(v) + rest) == Some((v, |Varint.Encode(v)|))
    decreases v
  {
    var s := Varint.Encode(v) + rest;
    if v > 0x7f {
      assert s[0] == v % 128 + 0x80;
      assert s[1..] == Varint.Encode(v / 128) + rest;
      NumberRead(v / 128, rest);
    }
  }

  lemma TagSplits(number: nat, wireType: nat)
    requires wireType < 8
    ensures (8 * number + wireType) / 8 == number && (8 * number + wireType) % 8 == wireType
  {
  }

  lemma AfterTag(tag: nat, contents: bytes)
    ensures ReadNumber(Varint.Encode(tag) + contents) == Some((tag, |Varint.Encode(tag)|))
    ensures (Varint.Encode(tag) + contents)[|Varint.Encode(tag)|..] == contents
  {
    NumberRead(tag, contents);
  }

  /** A tag, and contents that are read after it. */
  lemma ReadInParts(s: bytes, tag: nat, contents: bytes)
    requires s == Varint.Encode(tag) + contents
    ensures |Varint.Encode(tag)| <= |s| && s[|Varint.Encode(tag)|..] == contents
    ensures ReadRaw(s) == ReadContents(tag / 8, tag % 8, s, |Varint.Encode(tag)|)
  {
    AfterTag(tag, contents);
  }

  lemma NumberContents(number: nat, s: bytes, n: nat, value: nat, rest: bytes)
    requires 1 <= n <= |s| && s[n..] == Varint.Encode(value) + rest
    ensures ReadContents(number, 0, s, n) == Some((Number(number, value), n + |Varint.Encode(value)|))
  {
    NumberRead(value, rest);
  }

  lemma DataContents(number: nat, s: bytes, n: nat, data: bytes, rest: bytes)
    requires 1 <= n <= |s| && s[n..] == Varint.Encode(|data|) + (data + rest)
    ensures ReadContents(number, 2, s, n) == Some((Data(number, data), n + |Varint.Encode(|data|)| + |data|))
  {
    NumberRead(|data|, data + rest);
    var k := n + |Varint.Encode(|data|)|;
    assert s[n..][k - n..k - n + |data|] == data;
    assert s[k..k + |data|] == s[n..][k - n..k - n + |data|];
  }

  lemma WrittenNumberRead(number: nat, value: nat, rest: bytes)
    ensures ReadRaw(Written(Number(number, value)) + rest)
            == Some((Number(number, value), |Written(Number(number, value))|))
  {
    var s, tag := Written(Number(number, value)) + rest, 8 * number;
    TagSplits(number, 0);
    assert s == Varint.Encode(tag) + (Varint.Encode(value) + rest);
    ReadInParts(s, tag, Varint.Encode(value) + rest);
    NumberContents(number, s, |Varint.Encode(tag)|, value, rest);
  }

  lemma WrittenDataRead(number: nat, data: bytes, rest: bytes)
    ensures ReadRaw(Written(Data(number, data)) + rest) == Some((Data(number, data), |Written(Data(number, data))|))
  {
    var s, tag := Written(Data(number, data)) + rest, 8 * number + 2;
    TagSplits(number, 2);
    assert s == Varint.Encode(tag) + (Varint.Encode(|data|) + (data + rest));
    ReadInParts(s, tag, Varint.Encode(|data|) + (data + rest));
    DataContents(number, s, |Varint.Encode(tag)|, data, rest);
  }

  lemma WrittenRead(r: Raw, rest: bytes)
    ensures ReadRaw(Written(r) + rest) == Some((r, |Written(r)|))
  {
    match r {
      case Number(number, value) => WrittenNumberRead(number, value, rest);
      case Data(number, data) => WrittenDataRead(number, data, rest);
    }
  }

  lemma WrittenStep(rs: seq<Raw>)
    requires rs != []
    ensures WrittenAll(rs) == Written(rs[0]) + WrittenAll(rs[1..])
  {
    assert WrittenEach(rs)[1..] == WrittenEach(rs[1..]);
  }

  /** Cutting what was written gives the fields written, whatever their numbers and contents. */
  lemma {:induction false} SplitWritten(rs: seq<Raw>)
    ensures Split(WrittenAll(rs)) == Some(rs)
  {
    if rs != [] {
      var s := WrittenAll(rs);
      WrittenStep(rs);
      WrittenRead(rs[0], WrittenAll(rs[1..]));
      assert s[|Written(rs[0])|..] == WrittenAll(rs[1..]);
      SplitWritten(rs[1..]);
      assert rs == [rs[0]] + rs[1..];
    } else {
      assert WrittenEach(rs) == [];
    }
  }

  // ---- What the encoder emits ----------------------------------------------

  /** A property written as data under `number`, unless it is empty. */
  function IfAny(number: nat, data: bytes): seq<Raw> {
    if data == [] then [] else [Data(number, data)]
  }

  /** The fields of the envelope other than its metadata. */
  function FixedRaws(m: Wire.Message): seq<Raw> {
    IfAny(1, m.originator) + IfAny(2, m.topic) + IfAny(3, m.action) + IfAny(4, m.payload) + IfAny(5, m.messageId)
    + (if m.timestampMs == 0 then [] else [Number(6, m.timestampMs)])
  }

  /** One metadata entry per field: data under 7 that splits into a key under 1 and a value under 2, unless empty. */
  predicate AreEntries(rs: seq<Raw>, entries: Encoder.Entries) {
    if entries == [] then rs == []
    else if entries[0].0 == [] && entries[0].1 == [] then AreEntries(rs, entries[1..])
    else
      && rs != [] && rs[0].Data? && rs[0].number == 7
      && Split(rs[0].data) == Some(IfAny(1, entries[0].0) + IfAny(2, entries[0].1))
      && AreEntries(rs[1..], entries[1..])
  }

  function EntryRaws(entries: Encoder.Entries): seq<Raw> {
    if entries == [] then []
    else IfAny(7, Encoder.EntryData(entries[0].0, entries[0].1)) + EntryRaws(entries[1..])
  }

  lemma PieceIsWritten(number: nat, data: bytes)
    ensures Encoder.LengthDelimited(number, data) == WrittenAll(IfAny(number, data))
  {
    if data != [] {
      WrittenStep([Data(number, data)]);
      assert number * 8 + 2 == 8 * number + 2;
      assert Encoder.LengthDelimited(number, data) == Written(Data(number, data));
      assert WrittenAll([]) == [];
    }
  }

  lemma TimestampIsWritten(ms: nat)
    ensures Encoder.TimestampField(ms) == WrittenAll([Number(6, ms)])
  {
    WrittenStep([Number(6, ms)]);
    assert WrittenAll([]) == [];
  }

  lemma WrittenConcat(a: seq<Raw>, b: seq<Raw>)
    ensures WrittenAll(a + b) == WrittenAll(a) + WrittenAll(b)
  {
    assert WrittenEach(a + b) == WrittenEach(a) + WrittenEach(b);
    FlattenConcat(WrittenEach(a), WrittenEach(b));
  }

  lemma EntryDataIsWritten(key: bytes, value: bytes)
    ensures Encoder.EntryData(key, value) == WrittenAll(IfAny(1, key) + IfAny(2, value))
    ensures Split(Encoder.EntryData(key, value)) == Some(IfAny(1, key) + IfAny(2, value))
  {
    PieceIsWritten(1, key);
    PieceIsWritten(2, value);
    WrittenConcat(IfAny(1, key), IfAny(2, value));
    SplitWritten(IfAny(1, key) + IfAny(2, value));
  }

  lemma {:induction false} EntriesAreWritten(entries: Encoder.Entries)
    ensures Flatten(Encoder.EntryParts(entries)) == WrittenAll(EntryRaws(entries))
  {
    if entries != [] {
      var (k, v) := entries[0];
      Encoder.EntryPartsStep(entries);
      EntriesAreWritten(entries[1..]);
      PieceIsWritten(7, Encoder.EntryData(k, v));
      WrittenConcat(IfAny(7, Encoder.EntryData(k, v)), EntryRaws(entries[1..]));
    } else {
      assert Encoder.EntryParts(entries) == [];
    }
  }

  lemma {:induction false} EntryRawsAreEntries(entries: Encoder.Entries)
    ensures AreEntries(EntryRaws(entries), entries)
  {
    if entries != [] {
      var (k, v) := entries[0];
      EntryRawsAreEntries(entries[1..]);
      EntryDataIsWritten(k, v);
      assert EntryRaws(entries) == IfAny(7, Encoder.EntryData(k, v)) + EntryRaws(entries[1..]);
      if Encoder.EntryData(k, v) != [] {
        assert EntryRaws(entries)[1..] == EntryRaws(entries[1..]);
      } else {
        assert EntryRaws(entries) == EntryRaws(entries[1..]);
      }
    }
  }

  lemma TextsAreWritten(m: Wire.Message)
    ensures
      Encoder.TextPart(m)
      == WrittenAll(IfAny(1, m.originator) + IfAny(2, m.topic) + IfAny(3, m.action) + IfAny(4, m.payload)
                    + IfAny(5, m.messageId))
  {
    var a, b, c := IfAny(1, m.originator), IfAny(2, m.topic), IfAny(3, m.action);
    var d, i := IfAny(4, m.payload), IfAny(5, m.messageId);
    PieceIsWritten(1, m.originator);
    PieceIsWritten(2, m.topic);
    PieceIsWritten(3, m.action);
    PieceIsWritten(4, m.payload);
    PieceIsWritten(5, m.messageId);
    WrittenConcat(a, b);
    WrittenConcat(a + b, c);
    WrittenConcat(a + b + c, d);
    WrittenConcat(a + b + c + d, i);
  }

  /** The encoding is the fields of the envelope, written one after the other. */
  lemma EncodingIsWritten(m: Wire.Message, entries: Encoder.Entries)
    ensures Encoder.Encode(m, entries) == WrittenAll(FixedRaws(m) + EntryRaws(entries))
  {
    var texts := IfAny(1, m.originator) + IfAny(2, m.topic) + IfAny(3, m.action) + IfAny(4, m.payload)
                 + IfAny(5, m.messageId);
    var time := if m.timestampMs == 0 then [] else [Number(6, m.timestampMs)];
    Encoder.EncodingLayout(m, entries);
    TextsAreWritten(m);
    TimestampIsWritten(m.timestampMs);
    assert WrittenAll([]) == [];
    EntriesAreWritten(entries);
    WrittenConcat(texts, time);
    WrittenConcat(texts + time, EntryRaws(entries));
  }

  /**
   What is on the wire, for every message: the texts under 1, 2, 3 and 5 and the
   payload under 4 as data, the timestamp under 6 as a number, each unless empty or
   zero, and then one field of data under 7 for each entry that is not empty.
   */
  lemma EncodingSplits(m: Wire.Message, entries: Encoder.Entries)
    ensures
      var fields := Split(Encoder.Encode(m, entries));
      && fields.Some?
      && FixedRaws(m) <= fields.value
      && AreEntries(fields.value[|FixedRaws(m)|..], entries)
  {
    EncodingIsWritten(m, entries);
    SplitWritten(FixedRaws(m) + EntryRaws(entries));
    EntryRawsAreEntries(entries);
    assert (FixedRaws(m) + EntryRaws(entries))[|FixedRaws(m)|..] == EntryRaws(entries);
  }
}
