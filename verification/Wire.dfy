/**
 The decoder of the message envelope. `Parse` cuts a byte string into top-level
 fields; `Decode` applies them, in order, to the default message.
 */
module Wire {
  import opened Bytes
  import opened Varint
  import opened Utf8

  /** The message envelope; text is held as UTF-8. */
  datatype Message = Message(
    originator: bytes,
    topic: bytes,
    action: bytes,
    payload: bytes,
    messageId: bytes,
    timestampMs: nat,
    metadata: map<bytes, bytes>)

  const DEFAULT := Message([], [], [], [], [], 0, map[])

  /** One top-level field as the decoder understands it. */
  datatype Field =
    | Originator(text: bytes)
    | Topic(text: bytes)
    | Action(text: bytes)
    | Payload(data: bytes)
    | MessageId(text: bytes)
    | Timestamp(ms: nat)
    | Entry(key: bytes, value: bytes)
    | Unknown

  type Parsed<T> = Result<Read<T>, DecodeError>

  // ---- Field contents ------------------------------------------------------

  function ReadBytes(s: bytes): (r: Parsed<bytes>)
    ensures r.Ok? ==> 1 <= r.value.used <= |s|
  {
    var length :- Varint.Decode(s);
    if length.used + length.value > |s| then Err(UnexpectedEnd)
    else
      var end := length.used + length.value;
      Ok(Read(s[length.used..end], end))
  }

  /** Step over a field of unknown number. */
  function Skip(wireType: nat, s: bytes): (r: Result<nat, DecodeError>)
    ensures r.Ok? ==> r.value <= |s|
  {
    if wireType == 0 then
      var v :- Varint.Decode(s);
      Ok(v.used)
    else if wireType == 2 then
      var b :- ReadBytes(s);
      Ok(b.used)
    else
      Err(UnsupportedWireType(wireType))
  }

  /** The part of an entry's field after its tag: the key and value it leaves behind. */
  function EntryContents(number: nat, wireType: nat, s: bytes, key: bytes, value: bytes): (r: Parsed<(bytes, bytes)>)
    ensures r.Ok? ==> r.value.used <= |s|
  {
    if number == 1 then
      var b :- ReadBytes(s);
      Ok(Read((Text(b.value), value), b.used))
    else if number == 2 then
      var b :- ReadBytes(s);
      Ok(Read((key, Text(b.value)), b.used))
    else
      var n :- Skip(wireType, s);
      Ok(Read((key, value), n))
  }

  /** One field of an entry: the key and value it leaves behind. */
  function EntryField(s: bytes, key: bytes, value: bytes): (r: Parsed<(bytes, bytes)>)
    ensures r.Ok? ==> 1 <= r.value.used <= |s|
  {
    var tag :- Varint.Decode(s);
    var kv :- EntryContents(tag.value / 8, tag.value % 8, s[tag.used..], key, value);
    Ok(Read(kv.value, tag.used + kv.used))
  }

  function EntryFrom(s: bytes, key: bytes, value: bytes): Result<Field, DecodeError>
    decreases |s|
  {
    if s == [] then Ok(Entry(key, value))
    else
      var kv :- EntryField(s, key, value);
      EntryFrom(s[kv.used..], kv.value.0, kv.value.1)
  }

  /** `decodeMapEntry`. */
  function DecodeEntry(s: bytes): Result<Field, DecodeError> {
    EntryFrom(s, [], [])
  }

  /** The length-delimited field `number` with contents `data`. */
  function FieldOf(number: nat, data: bytes): Result<Field, DecodeError>
    requires 1 <= number <= 7 && number != 6
  {
    match number
    case 1 => Ok(Originator(Text(data)))
    case 2 => Ok(Topic(Text(data)))
    case 3 => Ok(Action(Text(data)))
    case 4 => Ok(Payload(data))
    case 5 => Ok(MessageId(Text(data)))
    case _ => DecodeEntry(data)
  }

  /** The part of a field after its tag. A known number is read as its own kind, whatever the wire type. */
  function ReadContents(number: nat, wireType: nat, s: bytes): (r: Parsed<Field>)
    ensures r.Ok? ==> r.value.used <= |s|
  {
    if number == 6 then
      var v :- Varint.Decode(s);
      Ok(Read(Timestamp(v.value), v.used))
    else if 1 <= number <= 7 then
      var b :- ReadBytes(s);
      var f :- FieldOf(number, b.value);
      Ok(Read(f, b.used))
    else
      var n :- Skip(wireType, s);
      Ok(Read(Unknown, n))
  }

  function ReadField(s: bytes): (r: Parsed<Field>)
    ensures r.Ok? ==> 1 <= r.value.used <= |s|
  {
    var tag :- Varint.Decode(s);
    var f :- ReadContents(tag.value / 8, tag.value % 8, s[tag.used..]);
    Ok(Read(f.value, tag.used + f.used))
  }

  // ---- Whole messages ------------------------------------------------------

  function Parse(s: bytes): Result<seq<Field>, DecodeError>
    decreases |s|
  {
    if s == [] then Ok([])
    else
      var f :- ReadField(s);
      Then([f.value], Parse(s[f.used..]))
  }

  /** The fields `fs` followed by the outcome of parsing the rest. */
  function Then(fs: seq<Field>, rest: Result<seq<Field>, DecodeError>): Result<seq<Field>, DecodeError> {
    var gs :- rest;
    Ok(fs + gs)
  }

  function Apply(m: Message, f: Field): Message {
    match f
    case Originator(t) => m.(originator := t)
    case Topic(t) => m.(topic := t)
    case Action(t) => m.(action := t)
    case Payload(d) => m.(payload := d)
    case MessageId(t) => m.(messageId := t)
    case Timestamp(ms) => m.(timestampMs := ms)
    case Entry(k, v) => m.(metadata := m.metadata[k := v])
    case Unknown => m
  }

  function ApplyAll(m: Message, fs: seq<Field>): Message
    decreases |fs|
  {
    if fs == [] then m else ApplyAll(Apply(m, fs[0]), fs[1..])
  }

  function Decode(s: bytes): Result<Message, DecodeError> {
    var fs :- Parse(s);
    Ok(ApplyAll(DEFAULT, fs))
  }

  lemma {:induction false} ApplyAllConcat(m: Message, fs: seq<Field>, gs: seq<Field>)
    ensures ApplyAll(m, fs + gs) == ApplyAll(ApplyAll(m, fs), gs)
    decreases |fs|
  {
    if fs == [] {
      assert fs + gs == gs;
    } else {
      assert (fs + gs)[1..] == fs[1..] + gs;
      ApplyAllConcat(Apply(m, fs[0]), fs[1..], gs);
    }
  }

  // ---- Locality: a successful read depends only on the bytes it uses -------

  /** Strings that agree up to `b` agree up to `a`, and from there up to `b`. */
  lemma AgreeInParts(s: bytes, t: bytes, a: nat, b: nat)
    requires a <= b <= |s| && b <= |t| && s[..b] == t[..b]
    ensures s[..a] == t[..a] && s[a..b] == t[a..b] && s[a..][..b - a] == t[a..][..b - a]
  {
    assert s[..a] == s[..b][..a] && t[..a] == t[..b][..a];
    assert s[a..b] == s[..b][a..] && t[a..b] == t[..b][a..];
    assert s[a..][..b - a] == s[a..b] && t[a..][..b - a] == t[a..b];
  }

  lemma ReadBytesIgnoresRest(s: bytes, t: bytes)
    requires ReadBytes(s).Ok? && ReadBytes(s).value.used <= |t|
    requires s[..ReadBytes(s).value.used] == t[..ReadBytes(s).value.used]
    ensures ReadBytes(t) == ReadBytes(s)
  {
    var end, start := ReadBytes(s).value.used, Varint.Decode(s).value.used;
    AgreeInParts(s, t, start, end);
    DecodeIgnoresRest(s, t);
  }

  lemma ReadContentsIgnoresRest(number: nat, wireType: nat, s: bytes, t: bytes)
    requires ReadContents(number, wireType, s).Ok? && ReadContents(number, wireType, s).value.used <= |t|
    requires s[..ReadContents(number, wireType, s).value.used] == t[..ReadContents(number, wireType, s).value.used]
    ensures ReadContents(number, wireType, t) == ReadContents(number, wireType, s)
  {
    if number == 6 || (!(1 <= number <= 7) && wireType == 0) {
      DecodeIgnoresRest(s, t);
    } else {
      ReadBytesIgnoresRest(s, t);
    }
  }

  lemma ReadFieldIgnoresRest(s: bytes, t: bytes)
    requires ReadField(s).Ok? && ReadField(s).value.used <= |t|
    requires s[..ReadField(s).value.used] == t[..ReadField(s).value.used]
    ensures ReadField(t) == ReadField(s)
  {
    var end, start := ReadField(s).value.used, Varint.Decode(s).value.used;
    AgreeInParts(s, t, start, end);
    DecodeIgnoresRest(s, t);
    var tag := Varint.Decode(s).value.value;
    ReadContentsIgnoresRest(tag / 8, tag % 8, s[start..], t[start..]);
  }

  // ---- Concatenation is merge ----------------------------------------------

  lemma ThenThen(fs: seq<Field>, gs: seq<Field>, rest: Result<seq<Field>, DecodeError>)
    ensures Then(fs, Then(gs, rest)) == Then(fs + gs, rest)
    ensures Then([], rest) == rest
  {
    if rest.Ok? {
      assert fs + (gs + rest.value) == fs + gs + rest.value;
      assert [] + rest.value == rest.value;
    }
  }

  lemma {:induction false} ParseConcat(a: bytes, b: bytes)
    requires Parse(a).Ok?
    ensures Parse(a + b) == Then(Parse(a).value, Parse(b))
    decreases |a|
  {
    if a == [] {
      assert a + b == b;
      ThenThen([], [], Parse(b));
    } else {
      var f := ReadField(a).value;
      assert a[..f.used] == (a + b)[..f.used];
      ReadFieldIgnoresRest(a, a + b);
      assert (a + b)[f.used..] == a[f.used..] + b;
      ParseConcat(a[f.used..], b);
      ThenThen([f.value], Parse(a[f.used..]).value, Parse(b));
    }
  }

  function Number(f: Field): nat {
    match f
    case Originator(_) => 1
    case Topic(_) => 2
    case Action(_) => 3
    case Payload(_) => 4
    case MessageId(_) => 5
    case Timestamp(_) => 6
    case Entry(_, _) => 7
    case Unknown => 0
  }

  /** The numbers of the known fields in a parse. */
  function Numbers(fs: seq<Field>): set<nat> {
    set f | f in fs :: Number(f)
  }

  /** `a` with every field whose number is in `present` taken from `b`, and the metadata of `b` over that of `a`. */
  function Merge(a: Message, b: Message, present: set<nat>): Message {
    Message(
      if 1 in present then b.originator else a.originator,
      if 2 in present then b.topic else a.topic,
      if 3 in present then b.action else a.action,
      if 4 in present then b.payload else a.payload,
      if 5 in present then b.messageId else a.messageId,
      if 6 in present then b.timestampMs else a.timestampMs,
      a.metadata + b.metadata)
  }

  lemma MergeStep(m: Message, f: Field, tail: Message, present: set<nat>)
    ensures Merge(Apply(m, f), tail, present)
            == Merge(m, Merge(Apply(DEFAULT, f), tail, present), {Number(f)} + present)
  {
    assert Apply(m, f).metadata + tail.metadata == m.metadata + (Apply(DEFAULT, f).metadata + tail.metadata);
    match f {
      case Originator(_) =>
      case Topic(_) =>
      case Action(_) =>
      case Payload(_) =>
      case MessageId(_) =>
      case Timestamp(_) =>
      case Entry(_, _) =>
      case Unknown =>
    }
  }

  lemma NumbersStep(fs: seq<Field>)
    requires fs != []
    ensures Numbers(fs) == {Number(fs[0])} + Numbers(fs[1..])
  {
    assert fs == [fs[0]] + fs[1..];
  }

  lemma {:induction false} ApplyAllIsMerge(m: Message, fs: seq<Field>)
    ensures ApplyAll(m, fs) == Merge(m, ApplyAll(DEFAULT, fs), Numbers(fs))
    decreases |fs|
  {
    if fs == [] {
      assert m.metadata + DEFAULT.metadata == m.metadata;
    } else {
      ApplyAllIsMerge(Apply(m, fs[0]), fs[1..]);
      ApplyAllIsMerge(Apply(DEFAULT, fs[0]), fs[1..]);
      NumbersStep(fs);
      MergeStep(m, fs[0], ApplyAll(DEFAULT, fs[1..]), Numbers(fs[1..]));
    }
  }

  /**
   Last One Wins: decoding a concatenation is decoding the parts and letting the
   second overwrite the first; it fails exactly when the second part fails, with
   the same error.
   */
  lemma ConcatenationIsMerge(a: bytes, b: bytes)
    requires Decode(a).Ok?
    ensures Decode(a + b).Ok? <==> Decode(b).Ok?
    ensures Decode(b).Err? ==> Decode(a + b) == Decode(b)
    ensures Decode(b).Ok? ==>
              Decode(a + b).value == Merge(Decode(a).value, Decode(b).value, Numbers(Parse(b).value))
  {
    ParseConcat(a, b);
    if Decode(b).Ok? {
      ApplyAllConcat(DEFAULT, Parse(a).value, Parse(b).value);
      ApplyAllIsMerge(Decode(a).value, Parse(b).value);
    }
  }

  // ---- Truncation ----------------------------------------------------------

  /** Position `k` is between two top-level fields of `s`, or at one of its ends. */
  predicate Boundary(s: bytes, k: nat)
    decreases |s|
  {
    || k == 0
    || (ReadField(s).Ok? && ReadField(s).value.used <= k
        && Boundary(s[ReadField(s).value.used..], k - ReadField(s).value.used))
  }

  /** A prefix of a decodable byte string decodes exactly when it ends between two fields. */
  lemma {:induction false} Truncation(s: bytes, k: nat)
    requires Decode(s).Ok? && k <= |s|
    ensures Decode(s[..k]).Ok? <==> Boundary(s, k)
    decreases |s|
  {
    if k > 0 {
      var n := ReadField(s).value.used;
      var p := s[..k];
      if n <= k {
        assert s[..n] == p[..n];
        ReadFieldIgnoresRest(s, p);
        assert p[n..] == s[n..][..k - n];
        Truncation(s[n..], k - n);
      } else if ReadField(p).Ok? {
        var used := ReadField(p).value.used;
        assert p[..used] == s[..used];
        ReadFieldIgnoresRest(p, s);
        assert false;
      }
    }
  }

  // ---- The order of fields -------------------------------------------------

  /** Two fields that write the same place of a message. */
  predicate Competing(f: Field, g: Field) {
    Number(f) == Number(g) && (f.Entry? && g.Entry? ==> f.key == g.key)
  }

  /** No place is written twice with different values. */
  ghost predicate Consistent(fs: seq<Field>) {
    forall f, g | f in fs && g in fs && Competing(f, g) :: f == g
  }

  /** The same known fields, in any order and any number of times. */
  ghost predicate SameKnown(fs: seq<Field>, gs: seq<Field>) {
    forall f | f != Unknown :: f in fs <==> f in gs
  }

  predicate Holds(m: Message, f: Field) {
    match f
    case Originator(t) => m.originator == t
    case Topic(t) => m.topic == t
    case Action(t) => m.action == t
    case Payload(d) => m.payload == d
    case MessageId(t) => m.messageId == t
    case Timestamp(ms) => m.timestampMs == ms
    case Entry(k, v) => k in m.metadata && m.metadata[k] == v
    case Unknown => true
  }

  /** Every value of `m` that is not a default comes from `fs`. */
  ghost predicate Covered(m: Message, fs: seq<Field>) {
    && (m.originator == [] || Originator(m.originator) in fs)
    && (m.topic == [] || Topic(m.topic) in fs)
    && (m.action == [] || Action(m.action) in fs)
    && (m.payload == [] || Payload(m.payload) in fs)
    && (m.messageId == [] || MessageId(m.messageId) in fs)
    && (m.timestampMs == 0 || Timestamp(m.timestampMs) in fs)
    && (forall k | k in m.metadata :: Entry(k, m.metadata[k]) in fs)
  }

  /** `m` holds every field of `fs` and nothing else. */
  ghost predicate Accounts(m: Message, fs: seq<Field>) {
    (forall f | f in fs :: Holds(m, f)) && Covered(m, fs)
  }

  lemma HoldsStep(m: Message, f: Field, g: Field)
    requires Holds(m, g) && (Competing(g, f) ==> g == f)
    ensures Holds(Apply(m, f), g) && Holds(Apply(m, f), f)
  {
  }

  lemma CoveredMore(m: Message, fs: seq<Field>, f: Field)
    requires Covered(m, fs)
    ensures Covered(m, fs + [f])
  {
    assert forall g | g in fs :: g in fs + [f];
  }

  lemma CoveredApply(m: Message, fs: seq<Field>, f: Field)
    requires Covered(m, fs) && f in fs
    ensures Covered(Apply(m, f), fs)
  {
    if f.Entry? {
      forall k | k in Apply(m, f).metadata
        ensures Entry(k, Apply(m, f).metadata[k]) in fs
      {
      }
    }
  }

  lemma AccountsStep(m: Message, fs: seq<Field>, f: Field)
    requires Accounts(m, fs)
    requires forall g | g in fs && Competing(g, f) :: g == f
    ensures Accounts(Apply(m, f), fs + [f])
  {
    CoveredMore(m, fs, f);
    CoveredApply(m, fs + [f], f);
    HoldsStep(m, f, Unknown);
    forall g | g in fs
      ensures Holds(Apply(m, f), g)
    {
      HoldsStep(m, f, g);
    }
  }

  lemma {:induction false} ConsistentAccounts(fs: seq<Field>)
    requires Consistent(fs)
    ensures Accounts(ApplyAll(DEFAULT, fs), fs)
    decreases |fs|
  {
    if fs != [] {
      var init, last := fs[..|fs| - 1], fs[|fs| - 1];
      assert fs == init + [last];
      ConsistentAccounts(init);
      var m := ApplyAll(DEFAULT, init);
      ApplyAllConcat(DEFAULT, init, [last]);
      assert ApplyAll(m, [last]) == ApplyAll(Apply(m, last), []);
      AccountsStep(m, init, last);
    }
  }

  /**
   Order and extension independence on field lists: what a consistent list of
   fields decodes to depends only on which known fields occur in it.
   */
  lemma OrderIrrelevant(fs: seq<Field>, gs: seq<Field>)
    requires Consistent(fs) && SameKnown(fs, gs)
    ensures ApplyAll(DEFAULT, fs) == ApplyAll(DEFAULT, gs)
  {
    assert Consistent(gs) by {
      forall f, g | f in gs && g in gs && Competing(f, g)
        ensures f == g
      {
        assert f != Unknown ==> f in fs && g in fs;
      }
    }
    ConsistentAccounts(fs);
    ConsistentAccounts(gs);
    AccountsUnique(ApplyAll(DEFAULT, fs), ApplyAll(DEFAULT, gs), fs, gs);
  }

  lemma AccountsUnique(m: Message, n: Message, fs: seq<Field>, gs: seq<Field>)
    requires Accounts(m, fs) && Accounts(n, gs) && SameKnown(fs, gs)
    ensures m == n
  {
    HeldEverywhere(m, n, fs, gs);
    HeldEverywhere(n, m, gs, fs);
    assert m.metadata == n.metadata;
  }

  lemma HeldEverywhere(m: Message, n: Message, fs: seq<Field>, gs: seq<Field>)
    requires Accounts(m, fs) && Accounts(n, gs) && SameKnown(fs, gs)
    ensures m.originator == [] || m.originator == n.originator
    ensures m.topic == [] || m.topic == n.topic
    ensures m.action == [] || m.action == n.action
    ensures m.payload == [] || m.payload == n.payload
    ensures m.messageId == [] || m.messageId == n.messageId
    ensures m.timestampMs == 0 || m.timestampMs == n.timestampMs
    ensures forall k | k in m.metadata :: k in n.metadata && n.metadata[k] == m.metadata[k]
  {
    assert forall f | f in fs && f != Unknown :: f in gs;
    assert m.originator == [] || Holds(n, Originator(m.originator));
    assert m.topic == [] || Holds(n, Topic(m.topic));
    assert m.action == [] || Holds(n, Action(m.action));
    assert m.payload == [] || Holds(n, Payload(m.payload));
    assert m.messageId == [] || Holds(n, MessageId(m.messageId));
    assert m.timestampMs == 0 || Holds(n, Timestamp(m.timestampMs));
    forall k | k in m.metadata
      ensures k in n.metadata && n.metadata[k] == m.metadata[k]
    {
      assert Holds(n, Entry(k, m.metadata[k]));
    }
  }
}
