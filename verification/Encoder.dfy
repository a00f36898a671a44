/**
 The encoder of the message envelope, and what decoding makes of its output:
 round trip, truncation, reordering and extension.
 */
module Encoder {
  import opened Bytes
  import opened Varint
  import opened Utf8
  import opened Wire

  // ---- The pieces ----------------------------------------------------------

  function Tag(number: nat, wireType: nat): bytes {
    Varint.Encode(number * 8 + wireType)
  }

  function Delimited(data: bytes): bytes {
    Varint.Encode(|data|) + data
  }

  /** `encodeLengthDelimited`: nothing at all for empty contents. */
  function LengthDelimited(number: nat, data: bytes): bytes {
    if data == [] then [] else Tag(number, 2) + Delimited(data)
  }

  /** `encodeMapEntry`: nothing at all when key and value are both empty. */
  function MapEntry(key: bytes, value: bytes): bytes {
    LengthDelimited(7, EntryData(key, value))
  }

  function EntryData(key: bytes, value: bytes): bytes {
    LengthDelimited(1, key) + LengthDelimited(2, value)
  }

  function TimestampField(ms: nat): bytes {
    Tag(6, 0) + Varint.Encode(ms)
  }

  /** The entries of a metadata record, in the order the runtime lists them. */
  type Entries = seq<(bytes, bytes)>

  ghost predicate Enumerates(entries: Entries, metadata: map<bytes, bytes>) {
    && (forall i, j | 0 <= i < j < |entries| :: entries[i].0 != entries[j].0)
    && (forall e | e in entries :: e.0 in metadata && metadata[e.0] == e.1)
    && (forall k | k in metadata :: (k, metadata[k]) in entries)
  }

  function EntryParts(entries: Entries): seq<bytes> {
    seq(|entries|, i requires 0 <= i < |entries| => MapEntry(entries[i].0, entries[i].1))
  }

  /** Everything but the metadata. */
  function FixedParts(m: Message): seq<bytes> {
    [LengthDelimited(1, m.originator), LengthDelimited(2, m.topic), LengthDelimited(3, m.action)]
    + (if |m.payload| > 0 then [LengthDelimited(4, m.payload)] else [])
    + [LengthDelimited(5, m.messageId)]
    + (if m.timestampMs != 0 then [TimestampField(m.timestampMs)] else [])
  }

  /** Everything `encodeMessage` pushes, empty pieces included. */
  function Parts(m: Message, entries: Entries): seq<bytes> {
    FixedParts(m) + EntryParts(entries)
  }

  function NonEmpty(parts: seq<bytes>): (r: seq<bytes>)
    ensures forall p :: p in r <==> p in parts && p != []
  {
    if parts == [] then []
    else
      assert parts == [parts[0]] + parts[1..];
      (if parts[0] != [] then [parts[0]] else []) + NonEmpty(parts[1..])
  }

  /** The top-level fields `encodeMessage` emits. */
  function Chunks(m: Message, entries: Entries): seq<bytes> {
    NonEmpty(Parts(m, entries))
  }

  function Encode(m: Message, entries: Entries): bytes {
    Flatten(Chunks(m, entries))
  }

  /** Every length and number in `m` is one an ECMAScript number holds exactly, as any real array length is. */
  predicate Representable(m: Message, entries: Entries) {
    && |m.originator| < TWO_53 && |m.topic| < TWO_53 && |m.action| < TWO_53
    && |m.payload| < TWO_53 && |m.messageId| < TWO_53 && m.timestampMs < TWO_53
    && (forall e | e in entries :: |EntryData(e.0, e.1)| < TWO_53)
  }

  // ---- Reading single pieces back ------------------------------------------

  lemma TagRead(number: nat, wireType: nat, rest: bytes)
    requires wireType < 8 && number * 8 + wireType < TWO_53
    ensures Varint.Decode(Tag(number, wireType) + rest) == Ok(Read(number * 8 + wireType, |Tag(number, wireType)|))
    ensures (number * 8 + wireType) / 8 == number && (number * 8 + wireType) % 8 == wireType
  {
    Varint.RoundTrip(number * 8 + wireType, rest);
  }

  lemma DelimitedRead(data: bytes, rest: bytes)
    requires |data| < TWO_53
    ensures ReadBytes(Delimited(data) + rest) == Ok(Read(data, |Delimited(data)|))
  {
    Varint.RoundTrip(|data|, data + rest);
    assert Delimited(data) + rest == Varint.Encode(|data|) + (data + rest);
  }

  /** Reading a field is reading its tag and then its contents. */
  lemma FieldInParts(tag: bytes, v: nat, contents: bytes, f: Field)
    requires Varint.Decode(tag + contents) == Ok(Read(v, |tag|))
    requires ReadContents(v / 8, v % 8, contents) == Ok(Read(f, |contents|))
    ensures ReadField(tag + contents) == Ok(Read(f, |tag + contents|))
  {
    assert (tag + contents)[|tag|..] == contents;
  }

  lemma TagThenContents(c: bytes, number: nat, wireType: nat, contents: bytes, f: Field)
    requires wireType < 8 && number * 8 + wireType < TWO_53 && c == Tag(number, wireType) + contents
    requires ReadContents(number, wireType, contents) == Ok(Read(f, |contents|))
    ensures ReadField(c) == Ok(Read(f, |c|))
  {
    TagRead(number, wireType, contents);
    FieldInParts(Tag(number, wireType), number * 8 + wireType, contents, f);
  }

  lemma DelimitedContents(number: nat, data: bytes)
    requires 1 <= number <= 7 && number != 6 && |data| < TWO_53
    requires FieldOf(number, data).Ok?
    ensures ReadContents(number, 2, Delimited(data)) == Ok(Read(FieldOf(number, data).value, |Delimited(data)|))
  {
    DelimitedRead(data, []);
    assert Delimited(data) + [] == Delimited(data);
  }

  lemma LengthDelimitedRead(number: nat, data: bytes)
    requires 1 <= number <= 7 && number != 6 && data != [] && |data| < TWO_53
    requires FieldOf(number, data).Ok?
    ensures ReadField(LengthDelimited(number, data))
            == Ok(Read(FieldOf(number, data).value, |LengthDelimited(number, data)|))
  {
    DelimitedContents(number, data);
    TagThenContents(LengthDelimited(number, data), number, 2, Delimited(data), FieldOf(number, data).value);
  }

  lemma VarintAlone(v: nat)
    requires v < TWO_53
    ensures Varint.Decode(Varint.Encode(v)) == Ok(Read(v, |Varint.Encode(v)|))
  {
    Varint.RoundTrip(v, []);
    assert Varint.Encode(v) + [] == Varint.Encode(v);
  }

  lemma TimestampRead(ms: nat)
    requires ms < TWO_53
    ensures ReadField(TimestampField(ms)) == Ok(Read(Timestamp(ms), |TimestampField(ms)|))
  {
    VarintAlone(ms);
    TagThenContents(TimestampField(ms), 6, 0, Varint.Encode(ms), Timestamp(ms));
  }

  /** The same for a field of an entry, with more to come after it. */
  lemma EntryFieldInParts(tag: bytes, v: nat, rest: bytes, kv: Read<(bytes, bytes)>, key: bytes, value: bytes)
    requires Varint.Decode(tag + rest) == Ok(Read(v, |tag|))
    requires EntryContents(v / 8, v % 8, rest, key, value) == Ok(kv)
    ensures EntryField(tag + rest, key, value) == Ok(Read(kv.value, |tag| + kv.used))
  {
    assert (tag + rest)[|tag|..] == rest;
  }

  /** What a key (number 1) or a value (number 2) leaves behind. */
  function EntryAfter(number: nat, data: bytes, key: bytes, value: bytes): (bytes, bytes) {
    if number == 1 then (Text(data), value) else (key, Text(data))
  }

  lemma EntryContentsRead(number: nat, data: bytes, tail: bytes, key: bytes, value: bytes)
    requires (number == 1 || number == 2) && |data| < TWO_53
    ensures EntryContents(number, 2, Delimited(data) + tail, key, value)
            == Ok(Read(EntryAfter(number, data, key, value), |Delimited(data)|))
  {
    DelimitedRead(data, tail);
  }

  /** A tag followed by contents that are read is read. */
  lemma TagThenEntry(
    s: bytes, number: nat, wireType: nat, rest: bytes, kv: Read<(bytes, bytes)>, key: bytes, value: bytes)
    requires s == Tag(number, wireType) + rest && wireType < 8 && number * 8 + wireType < TWO_53
    requires EntryContents(number, wireType, rest, key, value) == Ok(kv)
    ensures EntryField(s, key, value) == Ok(Read(kv.value, |Tag(number, wireType)| + kv.used))
  {
    TagRead(number, wireType, rest);
    EntryFieldInParts(Tag(number, wireType), number * 8 + wireType, rest, kv, key, value);
  }

  /** A written key or value is read back, whatever follows. */
  lemma EntryFieldRead(number: nat, data: bytes, tail: bytes, key: bytes, value: bytes)
    requires (number == 1 || number == 2) && data != [] && |data| < TWO_53
    ensures EntryField(LengthDelimited(number, data) + tail, key, value)
            == Ok(Read(EntryAfter(number, data, key, value), |LengthDelimited(number, data)|))
  {
    var kv := Read(EntryAfter(number, data, key, value), |Delimited(data)|);
    EntryContentsRead(number, data, tail, key, value);
    InParts(number, data, tail);
    TagThenEntry(LengthDelimited(number, data) + tail, number, 2, Delimited(data) + tail, kv, key, value);
  }

  lemma InParts(number: nat, data: bytes, tail: bytes)
    requires data != []
    ensures LengthDelimited(number, data) + tail == Tag(number, 2) + (Delimited(data) + tail)
    ensures |LengthDelimited(number, data)| == |Tag(number, 2)| + |Delimited(data)|
  {
  }

  lemma EntryValueRead(key: bytes, value: bytes)
    requires |value| < TWO_53
    ensures EntryFrom(LengthDelimited(2, value), key, []) == Ok(Entry(key, Text(value)))
  {
    if value != [] {
      var s := LengthDelimited(2, value);
      EntryFieldRead(2, value, [], key, []);
      assert s + [] == s && s[|s|..] == [];
    }
  }

  lemma EntryKeyRead(key: bytes, tail: bytes)
    requires key != [] && |key| < TWO_53
    ensures EntryFrom(LengthDelimited(1, key) + tail, [], []) == EntryFrom(tail, Text(key), [])
  {
    EntryFieldRead(1, key, tail, [], []);
    assert (LengthDelimited(1, key) + tail)[|LengthDelimited(1, key)|..] == tail;
  }

  lemma EntryDataRead(key: bytes, value: bytes)
    requires |EntryData(key, value)| < TWO_53
    ensures DecodeEntry(EntryData(key, value)) == Ok(Entry(Text(key), Text(value)))
  {
    if key == [] {
      assert EntryData(key, value) == LengthDelimited(2, value);
      assert Text(key) == key;
    } else {
      EntryKeyRead(key, LengthDelimited(2, value));
    }
    EntryValueRead(Text(key), value);
  }

  lemma DecodedEntryRead(data: bytes, f: Field)
    requires data != [] && |data| < TWO_53 && DecodeEntry(data) == Ok(f)
    ensures ReadField(LengthDelimited(7, data)) == Ok(Read(f, |LengthDelimited(7, data)|))
  {
    LengthDelimitedRead(7, data);
  }

  lemma MapEntryRead(key: bytes, value: bytes)
    requires MapEntry(key, value) != [] && |EntryData(key, value)| < TWO_53
    ensures ReadField(MapEntry(key, value)) == Ok(Read(Entry(Text(key), Text(value)), |MapEntry(key, value)|))
  {
    EntryDataRead(key, value);
    DecodedEntryRead(EntryData(key, value), Entry(Text(key), Text(value)));
  }

  lemma UnknownContents(number: nat, v: nat, data: bytes)
    requires !(1 <= number <= 7) && v < TWO_53 && |data| < TWO_53
    ensures ReadContents(number, 0, Varint.Encode(v)) == Ok(Read(Unknown, |Varint.Encode(v)|))
    ensures ReadContents(number, 2, Delimited(data)) == Ok(Read(Unknown, |Delimited(data)|))
  {
    VarintAlone(v);
    DelimitedRead(data, []);
    assert Delimited(data) + [] == Delimited(data);
  }

  /** A varint field under a number the envelope does not know. */
  lemma UnknownVarintRead(number: nat, v: nat)
    requires !(1 <= number <= 7) && number * 8 < TWO_53 && v < TWO_53
    ensures ReadField(Tag(number, 0) + Varint.Encode(v)) == Ok(Read(Unknown, |Tag(number, 0) + Varint.Encode(v)|))
  {
    UnknownContents(number, v, []);
    TagThenContents(Tag(number, 0) + Varint.Encode(v), number, 0, Varint.Encode(v), Unknown);
  }

  /** A length-delimited field, possibly empty, under a number the envelope does not know. */
  lemma UnknownBytesRead(number: nat, data: bytes)
    requires !(1 <= number <= 7) && number * 8 + 2 < TWO_53 && |data| < TWO_53
    ensures ReadField(Tag(number, 2) + Delimited(data)) == Ok(Read(Unknown, |Tag(number, 2) + Delimited(data)|))
  {
    UnknownContents(number, 0, data);
    TagThenContents(Tag(number, 2) + Delimited(data), number, 2, Delimited(data), Unknown);
  }

  // ---- Lists of whole fields -----------------------------------------------

  /** The bytes of exactly one top-level field. */
  predicate IsField(c: bytes) {
    ReadField(c).Ok? && ReadField(c).value.used == |c|
  }

  function TheField(c: bytes): Field
    requires IsField(c)
  {
    ReadField(c).value.value
  }

  function FieldsOf(cs: seq<bytes>): seq<Field>
    requires forall c | c in cs :: IsField(c)
  {
    seq(|cs|, i requires 0 <= i < |cs| && IsField(cs[i]) => TheField(cs[i]))
  }

  lemma FieldFirst(c: bytes, rest: bytes)
    requires IsField(c)
    ensures ReadField(c + rest) == ReadField(c)
    ensures (c + rest)[|c|..] == rest
  {
    assert c[..|c|] == (c + rest)[..|c|];
    ReadFieldIgnoresRest(c, c + rest);
  }

  lemma FieldsOfStep(cs: seq<bytes>)
    requires cs != [] && forall c | c in cs :: IsField(c)
    ensures FieldsOf(cs) == [TheField(cs[0])] + FieldsOf(cs[1..])
  {
  }

  lemma {:induction false} ParseFields(cs: seq<bytes>)
    requires forall c | c in cs :: IsField(c)
    ensures Parse(Flatten(cs)) == Ok(FieldsOf(cs))
  {
    if cs != [] {
      FieldFirst(cs[0], Flatten(cs[1..]));
      ParseFields(cs[1..]);
      FieldsOfStep(cs);
    } else {
      assert FieldsOf(cs) == [];
    }
  }

  /** `k` is the total length of some number of leading chunks. */
  ghost predicate EndsChunk(cs: seq<bytes>, k: nat) {
    exists j | 0 <= j <= |cs| :: k == |Flatten(cs[..j])|
  }

  lemma EndsChunkStep(cs: seq<bytes>, k: nat)
    requires cs != [] && k >= |cs[0]|
    requires EndsChunk(cs[1..], k - |cs[0]|)
    ensures EndsChunk(cs, k)
  {
    var j :| 0 <= j <= |cs[1..]| && k - |cs[0]| == |Flatten(cs[1..][..j])|;
    assert cs[..j + 1][1..] == cs[1..][..j];
    assert k == |Flatten(cs[..j + 1])|;
  }

  lemma EndsChunkRest(cs: seq<bytes>, k: nat)
    requires cs != [] && k > 0 && EndsChunk(cs, k)
    ensures k >= |cs[0]| && EndsChunk(cs[1..], k - |cs[0]|)
  {
    var j :| 0 <= j <= |cs| && k == |Flatten(cs[..j])|;
    assert cs[..j][1..] == cs[1..][..j - 1];
    assert k - |cs[0]| == |Flatten(cs[1..][..j - 1])|;
  }

  lemma EndsChunkAtZero(cs: seq<bytes>)
    ensures EndsChunk(cs, 0)
    ensures cs == [] ==> forall k | EndsChunk(cs, k) :: k == 0
  {
    assert Flatten(cs[..0]) == [];
  }

  lemma {:induction false} FieldBoundaries(cs: seq<bytes>, k: nat)
    requires forall c | c in cs :: IsField(c)
    ensures Boundary(Flatten(cs), k) <==> EndsChunk(cs, k)
    decreases |cs|
  {
    EndsChunkAtZero(cs);
    if cs != [] && k > 0 {
      FieldFirst(cs[0], Flatten(cs[1..]));
      if EndsChunk(cs, k) {
        EndsChunkRest(cs, k);
      }
      if k >= |cs[0]| {
        FieldBoundaries(cs[1..], k - |cs[0]|);
        if EndsChunk(cs[1..], k - |cs[0]|) {
          EndsChunkStep(cs, k);
        }
      }
    }
  }

  // ---- What the encoder emits ----------------------------------------------

  function OneIf(present: bool, f: Field): seq<Field> {
    if present then [f] else []
  }

  function EntryFields(entries: Entries): seq<Field> {
    if entries == [] then []
    else OneIf(MapEntry(entries[0].0, entries[0].1) != [], Entry(Text(entries[0].0), Text(entries[0].1)))
         + EntryFields(entries[1..])
  }

  function FixedFields(m: Message): seq<Field> {
    OneIf(m.originator != [], Originator(Text(m.originator)))
    + OneIf(m.topic != [], Topic(Text(m.topic)))
    + OneIf(m.action != [], Action(Text(m.action)))
    + OneIf(m.payload != [], Payload(m.payload))
    + OneIf(m.messageId != [], MessageId(Text(m.messageId)))
    + OneIf(m.timestampMs != 0, Timestamp(m.timestampMs))
  }

  /** The fields a receiver reads from `m`: one per non-empty property, in field order. */
  function Emitted(m: Message, entries: Entries): seq<Field> {
    FixedFields(m) + EntryFields(entries)
  }

  /** The parts are whole fields (or empty), and reading the non-empty ones gives `fs`. */
  ghost predicate Emits(parts: seq<bytes>, fs: seq<Field>) {
    && (forall c | c in NonEmpty(parts) :: IsField(c))
    && FieldsOf(NonEmpty(parts)) == fs
  }

  lemma {:induction false} NonEmptyConcat(a: seq<bytes>, b: seq<bytes>)
    ensures NonEmpty(a + b) == NonEmpty(a) + NonEmpty(b)
  {
    if a == [] {
      assert a + b == b;
    } else {
      assert (a + b)[1..] == a[1..] + b;
      NonEmptyConcat(a[1..], b);
    }
  }

  lemma FieldsOfConcat(a: seq<bytes>, b: seq<bytes>)
    requires forall c | c in a :: IsField(c)
    requires forall c | c in b :: IsField(c)
    ensures forall c | c in a + b :: IsField(c)
    ensures FieldsOf(a + b) == FieldsOf(a) + FieldsOf(b)
  {
    assert forall c | c in a + b :: c in a || c in b;
  }

  lemma EmitsConcat(a: seq<bytes>, fs: seq<Field>, b: seq<bytes>, gs: seq<Field>)
    requires Emits(a, fs) && Emits(b, gs)
    ensures Emits(a + b, fs + gs)
  {
    NonEmptyConcat(a, b);
    FieldsOfConcat(NonEmpty(a), NonEmpty(b));
  }

  lemma EmitsOne(part: bytes, f: Field)
    requires part != [] ==> ReadField(part) == Ok(Read(f, |part|))
    ensures Emits([part], OneIf(part != [], f))
  {
    assert NonEmpty([part]) == if part != [] then [part] else [];
  }

  lemma EmitsText(number: nat, text: bytes)
    requires 1 <= number <= 5 && |text| < TWO_53
    ensures LengthDelimited(number, text) != [] <==> text != []
    ensures Emits([LengthDelimited(number, text)], OneIf(text != [], FieldOf(number, text).value))
  {
    if text != [] {
      LengthDelimitedRead(number, text);
    }
    EmitsOne(LengthDelimited(number, text), FieldOf(number, text).value);
  }

  lemma EmitsEntry(key: bytes, value: bytes)
    requires |EntryData(key, value)| < TWO_53
    ensures Emits([MapEntry(key, value)], OneIf(MapEntry(key, value) != [], Entry(Text(key), Text(value))))
  {
    if MapEntry(key, value) != [] {
      MapEntryRead(key, value);
    }
    EmitsOne(MapEntry(key, value), Entry(Text(key), Text(value)));
  }

  lemma EntryPartsStep(entries: Entries)
    requires entries != []
    ensures EntryParts(entries) == [MapEntry(entries[0].0, entries[0].1)] + EntryParts(entries[1..])
  {
  }

  lemma {:induction false} EmitsEntries(entries: Entries)
    requires forall e | e in entries :: |EntryData(e.0, e.1)| < TWO_53
    ensures Emits(EntryParts(entries), EntryFields(entries))
  {
    if entries != [] {
      var (k, v) := entries[0];
      assert (k, v) in entries;
      EmitsEntry(k, v);
      EmitsEntries(entries[1..]);
      EmitsConcat([MapEntry(k, v)], OneIf(MapEntry(k, v) != [], Entry(Text(k), Text(v))),
                  EntryParts(entries[1..]), EntryFields(entries[1..]));
      EntryPartsStep(entries);
    } else {
      assert EntryParts(entries) == [];
    }
  }

  lemma EmitsHead(m: Message, entries: Entries)
    requires Representable(m, entries)
    ensures Emits([LengthDelimited(1, m.originator), LengthDelimited(2, m.topic), LengthDelimited(3, m.action)],
                  OneIf(m.originator != [], Originator(Text(m.originator)))
                  + OneIf(m.topic != [], Topic(Text(m.topic)))
                  + OneIf(m.action != [], Action(Text(m.action))))
  {
    var a, b, c := LengthDelimited(1, m.originator), LengthDelimited(2, m.topic), LengthDelimited(3, m.action);
    EmitsText(1, m.originator);
    EmitsText(2, m.topic);
    EmitsText(3, m.action);
    EmitsConcat([a], OneIf(m.originator != [], Originator(Text(m.originator))),
                [b], OneIf(m.topic != [], Topic(Text(m.topic))));
    EmitsConcat([a] + [b], OneIf(m.originator != [], Originator(Text(m.originator)))
                           + OneIf(m.topic != [], Topic(Text(m.topic))),
                [c], OneIf(m.action != [], Action(Text(m.action))));
    assert [a, b, c] == [a] + [b] + [c];
  }

  lemma EmitsPayload(m: Message)
    requires |m.payload| < TWO_53
    ensures Emits(if |m.payload| > 0 then [LengthDelimited(4, m.payload)] else [],
                  OneIf(m.payload != [], Payload(m.payload)))
  {
    EmitsText(4, m.payload);
  }

  lemma EmitsTime(m: Message)
    requires m.timestampMs < TWO_53
    ensures Emits(if m.timestampMs != 0 then [TimestampField(m.timestampMs)] else [],
                  OneIf(m.timestampMs != 0, Timestamp(m.timestampMs)))
  {
    TimestampRead(m.timestampMs);
    EmitsOne(TimestampField(m.timestampMs), Timestamp(m.timestampMs));
  }

  lemma EmitsFixed(m: Message, entries: Entries)
    requires Representable(m, entries)
    ensures Emits(FixedParts(m), FixedFields(m))
  {
    var head := [LengthDelimited(1, m.originator), LengthDelimited(2, m.topic), LengthDelimited(3, m.action)];
    var heads := OneIf(m.originator != [], Originator(Text(m.originator)))
                 + OneIf(m.topic != [], Topic(Text(m.topic)))
                 + OneIf(m.action != [], Action(Text(m.action)));
    var payload := if |m.payload| > 0 then [LengthDelimited(4, m.payload)] else [];
    var payloads := OneIf(m.payload != [], Payload(m.payload));
    var id, ids := [LengthDelimited(5, m.messageId)], OneIf(m.messageId != [], MessageId(Text(m.messageId)));
    var time := if m.timestampMs != 0 then [TimestampField(m.timestampMs)] else [];
    EmitsHead(m, entries);
    EmitsPayload(m);
    EmitsText(5, m.messageId);
    EmitsTime(m);
    EmitsConcat(head, heads, payload, payloads);
    EmitsConcat(head + payload, heads + payloads, id, ids);
    EmitsConcat(head + payload + id, heads + payloads + ids, time, OneIf(m.timestampMs != 0, Timestamp(m.timestampMs)));
  }

  lemma EmitsMessage(m: Message, entries: Entries)
    requires Representable(m, entries)
    ensures Emits(Parts(m, entries), Emitted(m, entries))
  {
    EmitsFixed(m, entries);
    EmitsEntries(entries);
    EmitsConcat(FixedParts(m), FixedFields(m), EntryParts(entries), EntryFields(entries));
  }

  /** The decoder reads from an encoding exactly the fields that were written. */
  lemma EncodingParses(m: Message, entries: Entries)
    requires Representable(m, entries)
    ensures forall c | c in Chunks(m, entries) :: IsField(c)
    ensures FieldsOf(Chunks(m, entries)) == Emitted(m, entries)
    ensures Parse(Encode(m, entries)) == Ok(Emitted(m, entries))
  {
    EmitsMessage(m, entries);
    ParseFields(Chunks(m, entries));
  }

  // ---- Where each piece is --------------------------------------------------

  lemma {:induction false} FlattenNonEmpty(parts: seq<bytes>)
    ensures Flatten(NonEmpty(parts)) == Flatten(parts)
  {
    if parts != [] {
      FlattenNonEmpty(parts[1..]);
      FlattenConcat(if parts[0] != [] then [parts[0]] else [], NonEmpty(parts[1..]));
      assert Flatten([parts[0]]) == parts[0] + Flatten([]);
    }
  }

  /** The five text and payload fields of an encoding. */
  function TextPart(m: Message): bytes {
    LengthDelimited(1, m.originator) + LengthDelimited(2, m.topic) + LengthDelimited(3, m.action)
    + LengthDelimited(4, m.payload) + LengthDelimited(5, m.messageId)
  }

  function TimePart(m: Message): bytes {
    if m.timestampMs != 0 then TimestampField(m.timestampMs) else []
  }

  lemma FlattenOne(present: bool, c: bytes)
    ensures Flatten(if present then [c] else []) == if present then c else []
  {
    assert Flatten([c]) == c + Flatten([]);
  }

  lemma EncodingLayout(m: Message, entries: Entries)
    ensures Encode(m, entries) == TextPart(m) + TimePart(m) + Flatten(EntryParts(entries))
  {
    var a, b, c := LengthDelimited(1, m.originator), LengthDelimited(2, m.topic), LengthDelimited(3, m.action);
    var p := if |m.payload| > 0 then [LengthDelimited(4, m.payload)] else [];
    var i := [LengthDelimited(5, m.messageId)];
    var t := if m.timestampMs != 0 then [TimestampField(m.timestampMs)] else [];
    FlattenNonEmpty(Parts(m, entries));
    FlattenConcat([a, b, c] + p + i + t, EntryParts(entries));
    FlattenConcat([a, b, c] + p + i, t);
    FlattenConcat([a, b, c] + p, i);
    FlattenConcat([a, b, c], p);
    FlattenThree(a, b, c);
    FlattenOne(|m.payload| > 0, LengthDelimited(4, m.payload));
    FlattenOne(true, LengthDelimited(5, m.messageId));
    FlattenOne(m.timestampMs != 0, TimestampField(m.timestampMs));
  }

  lemma FlattenThree(a: bytes, b: bytes, c: bytes)
    ensures Flatten([a, b, c]) == a + b + c
  {
    FlattenSnoc([a, b], c);
    FlattenSnoc([a], b);
    FlattenOne(true, a);
    assert [a, b, c] == [a, b] + [c] && [a, b] == [a] + [b];
  }
}
