/** The laws of the envelope codec as a whole: `decodeMessage` against `encodeMessage`. */
module Codec {
  import opened Bytes
  import opened Utf8
  import opened Wire
  import opened Encoder

  /** Text that decoding leaves alone: no leading byte-order mark. */
  predicate PlainText(t: bytes) {
    WellFormed(t) && !(BYTE_ORDER_MARK <= t)
  }

  /** Every string of the message is text, as every ECMAScript string without lone surrogates is. */
  predicate IsText(m: Message) {
    && WellFormed(m.originator) && WellFormed(m.topic) && WellFormed(m.action) && WellFormed(m.messageId)
    && (forall k | k in m.metadata :: WellFormed(k) && WellFormed(m.metadata[k]))
  }

  /** No string of the message begins with a byte-order mark. */
  predicate Plain(m: Message) {
    && PlainText(m.originator) && PlainText(m.topic) && PlainText(m.action) && PlainText(m.messageId)
    && (forall k | k in m.metadata :: PlainText(k) && PlainText(m.metadata[k]))
  }

  /** `m` without the metadata entry whose key and value are both empty. */
  function Normal(m: Message): Message {
    if [] in m.metadata && m.metadata[[]] == [] then m.(metadata := m.metadata - {[]}) else m
  }

  // ---- Members of an encoding ----------------------------------------------

  lemma {:induction false} EntryFieldsMembers(entries: Entries, f: Field)
    ensures f in EntryFields(entries) <==>
            exists e :: e in entries && (e.0 != [] || e.1 != []) && f == Entry(Text(e.0), Text(e.1))
  {
    if entries != [] {
      var e := entries[0];
      assert entries == [e] + entries[1..];
      assert MapEntry(e.0, e.1) != [] <==> e.0 != [] || e.1 != [];
      EntryFieldsMembers(entries[1..], f);
    }
  }

  lemma InConcat(f: Field, a: seq<Field>, b: seq<Field>)
    ensures f in a + b <==> f in a || f in b
  {
  }

  lemma InOneIf(f: Field, present: bool, g: Field)
    ensures f in OneIf(present, g) <==> present && f == g
  {
  }

  lemma HeadMembers(m: Message, f: Field)
    ensures f in OneIf(m.originator != [], Originator(Text(m.originator)))
                 + OneIf(m.topic != [], Topic(Text(m.topic)))
                 + OneIf(m.action != [], Action(Text(m.action)))
            <==>
            || (m.originator != [] && f == Originator(Text(m.originator)))
            || (m.topic != [] && f == Topic(Text(m.topic)))
            || (m.action != [] && f == Action(Text(m.action)))
  {
    var a := OneIf(m.originator != [], Originator(Text(m.originator)));
    var b := OneIf(m.topic != [], Topic(Text(m.topic)));
    var c := OneIf(m.action != [], Action(Text(m.action)));
    InConcat(f, a, b);
    InConcat(f, a + b, c);
  }

  /** `f` is one of the fields written for the properties other than the metadata. */
  predicate IsFixed(m: Message, f: Field) {
    || (m.originator != [] && f == Originator(Text(m.originator)))
    || (m.topic != [] && f == Topic(Text(m.topic)))
    || (m.action != [] && f == Action(Text(m.action)))
    || (m.payload != [] && f == Payload(m.payload))
    || (m.messageId != [] && f == MessageId(Text(m.messageId)))
    || (m.timestampMs != 0 && f == Timestamp(m.timestampMs))
  }

  lemma FixedMembers(m: Message, f: Field)
    ensures f in FixedFields(m) <==> IsFixed(m, f)
  {
    HeadMembers(m, f);
    var head := OneIf(m.originator != [], Originator(Text(m.originator)))
                + OneIf(m.topic != [], Topic(Text(m.topic)))
                + OneIf(m.action != [], Action(Text(m.action)));
    var d := OneIf(m.payload != [], Payload(m.payload));
    var i := OneIf(m.messageId != [], MessageId(Text(m.messageId)));
    var t := OneIf(m.timestampMs != 0, Timestamp(m.timestampMs));
    InConcat(f, head, d);
    InConcat(f, head + d, i);
    InConcat(f, head + d + i, t);
    InOneIf(f, m.payload != [], Payload(m.payload));
    InOneIf(f, m.messageId != [], MessageId(Text(m.messageId)));
    InOneIf(f, m.timestampMs != 0, Timestamp(m.timestampMs));
  }

  lemma EmittedMembers(m: Message, entries: Entries, f: Field)
    ensures f in Emitted(m, entries) <==>
            match f
            case Originator(t) => m.originator != [] && t == Text(m.originator)
            case Topic(t) => m.topic != [] && t == Text(m.topic)
            case Action(t) => m.action != [] && t == Text(m.action)
            case Payload(d) => m.payload != [] && d == m.payload
            case MessageId(t) => m.messageId != [] && t == Text(m.messageId)
            case Timestamp(ms) => m.timestampMs != 0 && ms == m.timestampMs
            case Entry(k, v) =>
              exists e :: e in entries && (e.0 != [] || e.1 != []) && k == Text(e.0) && v == Text(e.1)
            case Unknown => false
  {
    EntryFieldsMembers(entries, f);
    FixedMembers(m, f);
    InConcat(f, FixedFields(m), EntryFields(entries));
  }

  /** The keys of `entries` stay apart when they are decoded. */
  ghost predicate KeysPlain(entries: Entries) {
    forall e | e in entries :: Text(e.0) == e.0
  }

  lemma EmittedConsistent(m: Message, entries: Entries)
    requires Enumerates(entries, m.metadata) && KeysPlain(entries)
    ensures Consistent(Emitted(m, entries))
  {
    forall f, g | f in Emitted(m, entries) && g in Emitted(m, entries) && Competing(f, g)
      ensures f == g
    {
      EmittedMembers(m, entries, f);
      EmittedMembers(m, entries, g);
    }
  }

  lemma PlainTexts(m: Message, entries: Entries)
    requires Enumerates(entries, m.metadata) && Plain(m)
    ensures Text(m.originator) == m.originator && Text(m.topic) == m.topic
    ensures Text(m.action) == m.action && Text(m.messageId) == m.messageId
    ensures forall e | e in entries :: Text(e.0) == e.0 && Text(e.1) == e.1
  {
    TextRoundTrip(m.originator);
    TextRoundTrip(m.topic);
    TextRoundTrip(m.action);
    TextRoundTrip(m.messageId);
    forall e | e in entries
      ensures Text(e.0) == e.0 && Text(e.1) == e.1
    {
      TextRoundTrip(e.0);
      TextRoundTrip(e.1);
    }
  }

  // ---- Round trip ----------------------------------------------------------

  lemma NormalHolds(m: Message, entries: Entries, f: Field)
    requires Enumerates(entries, m.metadata) && Plain(m) && f in Emitted(m, entries)
    ensures Holds(Normal(m), f)
  {
    PlainTexts(m, entries);
    EmittedMembers(m, entries, f);
  }

  lemma NormalAccounts(m: Message, entries: Entries)
    requires Enumerates(entries, m.metadata) && Plain(m)
    ensures Accounts(Normal(m), Emitted(m, entries))
  {
    forall f | f in Emitted(m, entries)
      ensures Holds(Normal(m), f)
    {
      NormalHolds(m, entries, f);
    }
    NormalCovered(m, entries);
  }

  lemma FixedIsEmitted(m: Message, entries: Entries, f: Field)
    requires IsFixed(m, f)
    ensures f in Emitted(m, entries)
  {
    FixedMembers(m, f);
    InConcat(f, FixedFields(m), EntryFields(entries));
  }

  lemma EntryIsEmitted(m: Message, entries: Entries, k: bytes)
    requires Enumerates(entries, m.metadata) && Plain(m) && k in Normal(m).metadata
    ensures Entry(k, Normal(m).metadata[k]) in Emitted(m, entries)
  {
    PlainTexts(m, entries);
    assert (k, m.metadata[k]) in entries;
    EmittedMembers(m, entries, Entry(k, m.metadata[k]));
  }

  lemma CoveredByFields(m: Message, n: Message, fs: seq<Field>)
    requires Text(m.originator) == m.originator && Text(m.topic) == m.topic
    requires Text(m.action) == m.action && Text(m.messageId) == m.messageId
    requires forall f | IsFixed(m, f) :: f in fs
    requires n == m.(metadata := n.metadata) && forall k | k in n.metadata :: Entry(k, n.metadata[k]) in fs
    ensures Covered(n, fs)
  {
    assert m.originator == [] || IsFixed(m, Originator(m.originator));
    assert m.topic == [] || IsFixed(m, Topic(m.topic));
    assert m.action == [] || IsFixed(m, Action(m.action));
    assert m.payload == [] || IsFixed(m, Payload(m.payload));
    assert m.messageId == [] || IsFixed(m, MessageId(m.messageId));
    assert m.timestampMs == 0 || IsFixed(m, Timestamp(m.timestampMs));
  }

  lemma NormalCovered(m: Message, entries: Entries)
    requires Enumerates(entries, m.metadata) && Plain(m)
    ensures Covered(Normal(m), Emitted(m, entries))
  {
    PlainTexts(m, entries);
    forall f | IsFixed(m, f)
      ensures f in Emitted(m, entries)
    {
      FixedIsEmitted(m, entries, f);
    }
    forall k | k in Normal(m).metadata
      ensures Entry(k, Normal(m).metadata[k]) in Emitted(m, entries)
    {
      EntryIsEmitted(m, entries, k);
    }
    CoveredByFields(m, Normal(m), Emitted(m, entries));
  }

  /** Whatever order the metadata is listed in, decoding an encoding restores the message but for the empty entry. */
  lemma RoundTrip(m: Message, entries: Entries)
    requires Enumerates(entries, m.metadata) && Representable(m, entries) && Plain(m)
    ensures Decode(Encode(m, entries)) == Ok(Normal(m))
  {
    var fs := Emitted(m, entries);
    EncodingParses(m, entries);
    PlainTexts(m, entries);
    EmittedConsistent(m, entries);
    ConsistentAccounts(fs);
    NormalAccounts(m, entries);
    AccountsUnique(ApplyAll(DEFAULT, fs), Normal(m), fs, fs);
  }

  // ---- Byte-order marks: exactly when the round trip holds ------------------

  lemma {:induction false} MetadataKeysComeFromFields(m: Message, fs: seq<Field>, k: bytes)
    requires k in ApplyAll(m, fs).metadata && k !in m.metadata
    ensures exists f :: f in fs && f.Entry? && f.key == k
    decreases |fs|
  {
    if fs != [] {
      assert fs == [fs[0]] + fs[1..];
      if k !in Apply(m, fs[0]).metadata {
        MetadataKeysComeFromFields(Apply(m, fs[0]), fs[1..], k);
      }
    }
  }

  function LongestKey(entries: Entries): nat {
    if entries == [] then 0
    else var n := LongestKey(entries[1..]); if |entries[0].0| > n then |entries[0].0| else n
  }

  lemma {:induction false} LongestKeyBounds(entries: Entries, e: (bytes, bytes))
    requires e in entries
    ensures |e.0| <= LongestKey(entries)
  {
    if e != entries[0] {
      assert entries == [entries[0]] + entries[1..];
      LongestKeyBounds(entries[1..], e);
    }
  }

  /** A key that comes back is what decoding made of a key that was sent. */
  lemma KeyOrigin(m: Message, entries: Entries, k: bytes) returns (e: (bytes, bytes))
    requires Representable(m, entries) && k in m.metadata && k != []
    requires Decode(Encode(m, entries)) == Ok(Normal(m))
    ensures e in entries && k == Text(e.0)
  {
    EncodingParses(m, entries);
    var fs := Emitted(m, entries);
    assert k in Normal(m).metadata;
    MetadataKeysComeFromFields(DEFAULT, fs, k);
    var f :| f in fs && f.Entry? && f.key == k;
    EmittedMembers(m, entries, f);
    e :| e in entries && k == Text(e.0);
  }

  /** A marked key can only come back as the remainder of a longer marked key; the longest cannot come back. */
  lemma {:induction false} MarkedKeyLost(m: Message, entries: Entries, k: bytes)
    requires Enumerates(entries, m.metadata) && Representable(m, entries) && IsText(m)
    requires Decode(Encode(m, entries)) == Ok(Normal(m))
    requires k in m.metadata
    ensures Text(k) == k
    decreases LongestKey(entries) - |k|
  {
    LongestKeyBounds(entries, (k, m.metadata[k]));
    TextRoundTrip(k);
    if Text(k) != k {
      var e := KeyOrigin(m, entries, k);
      LongestKeyBounds(entries, e);
      TextRoundTrip(e.0);
      MarkedKeyLost(m, entries, e.0);
    }
  }

  /**
   The round trip is exact for precisely the messages none of whose strings
   begins with a byte-order mark.
   */
  lemma RoundTripExactly(m: Message, entries: Entries)
    requires Enumerates(entries, m.metadata) && Representable(m, entries) && IsText(m)
    ensures Decode(Encode(m, entries)) == Ok(Normal(m)) <==> Plain(m)
  {
    if Plain(m) {
      RoundTrip(m, entries);
    }
    if Decode(Encode(m, entries)) == Ok(Normal(m)) {
      forall e | e in entries
        ensures Text(e.0) == e.0
      {
        MarkedKeyLost(m, entries, e.0);
      }
      EncodingParses(m, entries);
      EmittedConsistent(m, entries);
      ConsistentAccounts(Emitted(m, entries));
      HeldIsPlain(m, entries);
    }
  }

  lemma HeldIsPlain(m: Message, entries: Entries)
    requires Enumerates(entries, m.metadata) && IsText(m) && KeysPlain(entries)
    requires Accounts(Normal(m), Emitted(m, entries))
    ensures Plain(m)
  {
    EmittedMembers(m, entries, Originator(Text(m.originator)));
    EmittedMembers(m, entries, Topic(Text(m.topic)));
    EmittedMembers(m, entries, Action(Text(m.action)));
    EmittedMembers(m, entries, MessageId(Text(m.messageId)));
    TextRoundTrip(m.originator);
    TextRoundTrip(m.topic);
    TextRoundTrip(m.action);
    TextRoundTrip(m.messageId);
    forall k | k in m.metadata
      ensures PlainText(k) && PlainText(m.metadata[k])
    {
      var v := m.metadata[k];
      assert (k, v) in entries;
      EmittedMembers(m, entries, Entry(Text(k), Text(v)));
      TextRoundTrip(k);
      TextRoundTrip(v);
      assert k != [] || v != [] ==> Holds(Normal(m), Entry(k, Text(v)));
    }
  }

  /** A topic that begins with a byte-order mark arrives without it. */
  lemma ByteOrderMarkIsDropped()
    ensures
      var m := DEFAULT.(topic := BYTE_ORDER_MARK + [0x61]);
      IsText(m) && Decode(Encode(m, [])) != Ok(m)
  {
    var m := DEFAULT.(topic := BYTE_ORDER_MARK + [0x61]);
    assert m.topic[CharLength(m.topic)..] == [0x61];
    assert WellFormed([0x61]);
    RoundTripExactly(m, []);
  }

  // ---- Truncation ----------------------------------------------------------

  /** Cutting an encoding short leaves something decodable exactly when the cut falls between two emitted fields. */
  lemma TruncatedEncoding(m: Message, entries: Entries, k: nat)
    requires Representable(m, entries) && k <= |Encode(m, entries)|
    ensures Decode(Encode(m, entries)[..k]).Ok? <==> EndsChunk(Chunks(m, entries), k)
  {
    EncodingParses(m, entries);
    Truncation(Encode(m, entries), k);
    FieldBoundaries(Chunks(m, entries), k);
  }

  // ---- Order and extension independence ------------------------------------

  /** An entry the encoder does not leave out. */
  predicate Sent(e: (bytes, bytes)) {
    e.0 != [] || e.1 != []
  }

  /** No two entries sent have keys that decode alike and values that do not. */
  ghost predicate KeysApart(entries: Entries) {
    forall e, f | e in entries && f in entries && Sent(e) && Sent(f) && Text(e.0) == Text(f.0) :: Text(e.1) == Text(f.1)
  }

  lemma ApartMeansConsistent(m: Message, entries: Entries)
    requires KeysApart(entries)
    ensures Consistent(Emitted(m, entries))
  {
    forall f, g | f in Emitted(m, entries) && g in Emitted(m, entries) && Competing(f, g)
      ensures f == g
    {
      EmittedMembers(m, entries, f);
      EmittedMembers(m, entries, g);
      if f.Entry? {
        var d :| d in entries && Sent(d) && f.key == Text(d.0) && f.value == Text(d.1);
        var e :| e in entries && Sent(e) && g.key == Text(e.0) && g.value == Text(e.1);
      }
    }
  }

  /** Keys without byte-order marks are apart. */
  lemma PlainKeysApart(m: Message, entries: Entries)
    requires Enumerates(entries, m.metadata) && Plain(m)
    ensures KeysApart(entries)
  {
    PlainTexts(m, entries);
  }

  /**
   The emitted fields in any order, repeated or not, with any well-formed
   unknown fields between them, decode to the same message.
   */
  lemma Reordered(m: Message, entries: Entries, cs: seq<bytes>)
    requires Representable(m, entries) && KeysApart(entries)
    requires forall c | c in Chunks(m, entries) :: c in cs
    requires forall c | c in cs :: c in Chunks(m, entries) || (IsField(c) && ReadField(c).value.value == Unknown)
    ensures Decode(Flatten(cs)) == Decode(Encode(m, entries))
    ensures Enumerates(entries, m.metadata) && Plain(m) ==> Decode(Flatten(cs)) == Ok(Normal(m))
  {
    EncodingParses(m, entries);
    ApartMeansConsistent(m, entries);
    SameChunksDecodeAlike(Chunks(m, entries), cs);
    if Enumerates(entries, m.metadata) && Plain(m) {
      RoundTrip(m, entries);
    }
  }

  function MoveLast(cs: seq<bytes>, i: nat): seq<bytes>
    requires i < |cs|
  {
    cs[..i] + cs[i + 1..] + [cs[i]]
  }

  lemma MoveLastPermutes(cs: seq<bytes>, i: nat)
    requires i < |cs|
    ensures multiset(MoveLast(cs, i)) == multiset(cs)
  {
    assert cs == cs[..i] + [cs[i]] + cs[i + 1..];
  }

  /** The entry that comes last decides what its key maps to. */
  lemma LastEntryWins(cs: seq<bytes>, i: nat, k: bytes, v: bytes)
    requires i < |cs| && (forall c | c in cs :: IsField(c)) && TheField(cs[i]) == Entry(k, v)
    ensures
      var r := Decode(Flatten(MoveLast(cs, i)));
      r.Ok? && k in r.value.metadata && r.value.metadata[k] == v
  {
    var others := cs[..i] + cs[i + 1..];
    assert forall c | c in others :: c in cs;
    ParseFields(MoveLast(cs, i));
    FieldsOfConcat(others, [cs[i]]);
    assert FieldsOf([cs[i]]) == [Entry(k, v)];
    LastFieldWins(FieldsOf(others), k, v);
  }

  lemma LastFieldWins(fs: seq<Field>, k: bytes, v: bytes)
    ensures
      var metadata := ApplyAll(DEFAULT, fs + [Entry(k, v)]).metadata;
      k in metadata && metadata[k] == v
  {
    var before := ApplyAll(DEFAULT, fs);
    ApplyAllConcat(DEFAULT, fs, [Entry(k, v)]);
    assert ApplyAll(before, [Entry(k, v)]) == ApplyAll(Apply(before, Entry(k, v)), []);
  }

  /** Where an entry is sent. */
  lemma ChunkOf(m: Message, entries: Entries, e: (bytes, bytes)) returns (i: nat)
    requires Representable(m, entries) && e in entries && Sent(e)
    ensures i < |Chunks(m, entries)| && forall c | c in Chunks(m, entries) :: IsField(c)
    ensures TheField(Chunks(m, entries)[i]) == Entry(Text(e.0), Text(e.1))
  {
    EncodingParses(m, entries);
    var f := Entry(Text(e.0), Text(e.1));
    EmittedMembers(m, entries, f);
    i :| 0 <= i < |Emitted(m, entries)| && Emitted(m, entries)[i] == f;
    assert FieldsOf(Chunks(m, entries))[i] == f;
  }

  /** Entries that compete for a key make the order matter. */
  lemma OrderMatters(m: Message, entries: Entries) returns (cs: seq<bytes>, ds: seq<bytes>)
    requires Representable(m, entries) && !KeysApart(entries)
    ensures multiset(cs) == multiset(ds) == multiset(Chunks(m, entries))
    ensures Decode(Flatten(cs)).Ok? && Decode(Flatten(ds)).Ok? && Decode(Flatten(cs)) != Decode(Flatten(ds))
  {
    var e, f :| e in entries && f in entries && Sent(e) && Sent(f) && Text(e.0) == Text(f.0) && Text(e.1) != Text(f.1);
    var chunks := Chunks(m, entries);
    var i := ChunkOf(m, entries, e);
    var j := ChunkOf(m, entries, f);
    cs, ds := MoveLast(chunks, i), MoveLast(chunks, j);
    MoveLastPermutes(chunks, i);
    MoveLastPermutes(chunks, j);
    LastEntryWins(chunks, i, Text(e.0), Text(e.1));
    LastEntryWins(chunks, j, Text(f.0), Text(f.1));
  }

  ghost predicate AnyOrder(m: Message, entries: Entries) {
    forall cs | multiset(cs) == multiset(Chunks(m, entries)) :: Decode(Flatten(cs)) == Decode(Encode(m, entries))
  }

  /** Every order of the emitted fields decodes alike if and only if the keys are apart. */
  lemma ReorderedExactly(m: Message, entries: Entries)
    requires Representable(m, entries)
    ensures AnyOrder(m, entries) <==> KeysApart(entries)
  {
    if KeysApart(entries) {
      forall cs | multiset(cs) == multiset(Chunks(m, entries))
        ensures Decode(Flatten(cs)) == Decode(Encode(m, entries))
      {
        assert forall c :: c in cs <==> c in multiset(cs);
        assert forall c :: c in Chunks(m, entries) <==> c in multiset(Chunks(m, entries));
        Reordered(m, entries, cs);
      }
    } else {
      var cs, ds := OrderMatters(m, entries);
    }
  }

  /** Two keys that differ only by a leading mark. */
  const MARKED_KEYS: Entries := [(BYTE_ORDER_MARK + [0x61], [0x78]), ([0x61], [0x79])]

  lemma MarkedKeysCompete()
    ensures !KeysApart(MARKED_KEYS)
  {
    var e, f := MARKED_KEYS[0], MARKED_KEYS[1];
    assert e in MARKED_KEYS && f in MARKED_KEYS;
    AsciiIsText(0x61);
    AsciiIsText(0x78);
    AsciiIsText(0x79);
    assert e.0[CharLength(e.0)..] == f.0;
    TextRoundTrip(e.0);
    assert e.0[3..] == f.0;
    assert Text(e.0) == Text(f.0) && Text(e.1) != Text(f.1);
  }

  lemma AsciiIsText(b: byte)
    requires b < 0x80
    ensures WellFormed([b]) && Text([b]) == [b]
  {
    assert [b][1..] == [];
    TextRoundTrip([b]);
  }

  function MarkedKeysMessage(): Message {
    DEFAULT.(metadata := map[BYTE_ORDER_MARK + [0x61] := [0x78], [0x61] := [0x79]])
  }

  lemma MarkedKeysListed()
    ensures Enumerates(MARKED_KEYS, MarkedKeysMessage().metadata)
  {
    assert |MARKED_KEYS[0].0| != |MARKED_KEYS[1].0|;
    assert MARKED_KEYS == [MARKED_KEYS[0], MARKED_KEYS[1]];
  }

  lemma MarkedKeysAreShort()
    ensures Representable(MarkedKeysMessage(), MARKED_KEYS)
  {
    forall e | e in MARKED_KEYS
      ensures |EntryData(e.0, e.1)| < TWO_53
    {
      ShortField(1, e.0);
      ShortField(2, e.1);
    }
  }

  /** A message whose emitted fields decode to different messages in two orders. */
  lemma MarkedKeysReordered() returns (cs: seq<bytes>, ds: seq<bytes>)
    ensures Enumerates(MARKED_KEYS, MarkedKeysMessage().metadata)
    ensures multiset(cs) == multiset(ds) == multiset(Chunks(MarkedKeysMessage(), MARKED_KEYS))
    ensures Decode(Flatten(cs)).Ok? && Decode(Flatten(ds)).Ok? && Decode(Flatten(cs)) != Decode(Flatten(ds))
  {
    MarkedKeysListed();
    MarkedKeysAreShort();
    MarkedKeysCompete();
    cs, ds := OrderMatters(MarkedKeysMessage(), MARKED_KEYS);
  }

  lemma ShortField(number: nat, data: bytes)
    requires number <= 2 && |data| < 128
    ensures |LengthDelimited(number, data)| <= 2 + |data|
  {
  }

  lemma SameChunksDecodeAlike(chunks: seq<bytes>, cs: seq<bytes>)
    requires forall c | c in chunks :: IsField(c) && c in cs
    requires forall c | c in cs :: c in chunks || (IsField(c) && ReadField(c).value.value == Unknown)
    requires Consistent(FieldsOf(chunks))
    ensures Decode(Flatten(cs)) == Decode(Flatten(chunks))
  {
    ParseFields(chunks);
    ParseFields(cs);
    SameChunksSameFields(chunks, cs);
    OrderIrrelevant(FieldsOf(chunks), FieldsOf(cs));
  }

  lemma SameChunksSameFields(chunks: seq<bytes>, cs: seq<bytes>)
    requires forall c | c in chunks :: IsField(c) && c in cs
    requires forall c | c in cs :: IsField(c) && (c in chunks || TheField(c) == Unknown)
    ensures SameKnown(FieldsOf(chunks), FieldsOf(cs))
  {
    forall f | f != Unknown
      ensures f in FieldsOf(chunks) <==> f in FieldsOf(cs)
    {
      if f in FieldsOf(chunks) {
        var i :| 0 <= i < |chunks| && FieldsOf(chunks)[i] == f;
        assert chunks[i] in cs;
        var j :| 0 <= j < |cs| && cs[j] == chunks[i];
        assert FieldsOf(cs)[j] == f;
      }
      if f in FieldsOf(cs) {
        var j :| 0 <= j < |cs| && FieldsOf(cs)[j] == f;
        assert TheField(cs[j]) == f;
        assert cs[j] in chunks;
        var i :| 0 <= i < |chunks| && chunks[i] == cs[j];
        assert FieldsOf(chunks)[i] == f;
      }
    }
  }
}
