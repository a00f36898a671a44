/**
 The codec as the source runs it: a reader that advances a position, decoding
 loops that update the message as they go, and an encoder that pushes pieces and
 copies them into one buffer. Each method computes the function of the same
 purpose in `Wire` or `Encoder`.
 */
module ProtoReader {
  import opened Bytes
  import Varint
  import opened Utf8
  import opened Wire
  import Encoder

  type DecodeError = Varint.DecodeError

  /** Outcome of a read that began `n` bytes earlier. */
  function Later<T>(r: Parsed<T>, n: nat): Parsed<T> {
    match r
    case Ok(v) => Ok(Varint.Read(v.value, v.used + n))
    case Err(e) => Err(e)
  }

  /** A reader over `data` moved from `before` to `after` and returned `r`, as `spec` prescribes. */
  ghost predicate Reads<T>(spec: Parsed<T>, before: nat, after: nat, r: Result<T, DecodeError>) {
    match spec
    case Ok(v) => r == Ok(v.value) && after == before + v.used
    case Err(e) => r == Err(e)
  }

  /** The varint loop, begun at `start`, has come to `pos`: what is left decides the outcome. */
  ghost predicate Underway(data: bytes, start: nat, pos: nat, shift: nat, acc: nat) {
    && start <= pos <= |data|
    && Varint.Decode(data[start..]) == Later(Varint.DecodeFrom(data[pos..], shift, acc), pos - start)
  }

  /** One turn of the varint loop. */
  lemma VarintTurn(data: bytes, start: nat, pos: nat, shift: nat, acc: nat)
    requires Underway(data, start, pos, shift, acc) && pos < |data|
    ensures
      var sum := Varint.AsDouble(acc + Varint.TimesPow2(data[pos] % 128, shift));
      if data[pos] < 0x80 then Varint.Decode(data[start..]) == Ok(Varint.Read(sum, pos + 1 - start))
      else if shift + 7 > 49 then Varint.Decode(data[start..]) == Err(Varint.VarintTooLong)
      else Underway(data, start, pos + 1, shift + 7, sum)
  {
    assert data[pos..][0] == data[pos] && data[pos..][1..] == data[pos + 1..];
  }

  class Reader {
    const data: bytes
    var pos: nat

    ghost predicate Valid()
      reads this
    {
      pos <= |data|
    }

    ghost function Rest(): bytes
      requires Valid()
      reads this
    {
      data[pos..]
    }

    constructor (data: bytes)
      ensures Valid() && this.data == data && pos == 0
    {
      this.data := data;
      pos := 0;
    }

    method ReadVarint() returns (r: Result<nat, DecodeError>)
      requires Valid()
      modifies this`pos
      ensures Valid() && old(pos) <= pos
      ensures Reads(Varint.Decode(old(Rest())), old(pos), pos, r)
    {
      var result: nat, shift: nat := 0, 0;
      while pos < |data|
        invariant Valid() && shift <= 49
        invariant Underway(data, old(pos), pos, shift, result)
      {
        var b := data[pos];
        VarintTurn(data, old(pos), pos, shift, result);
        pos := pos + 1;
        result := Varint.AsDouble(result + Varint.TimesPow2(b % 128, shift));
        if b < 0x80 {
          return Ok(result);
        }
        shift := shift + 7;
        if shift > 49 {
          return Err(Varint.VarintTooLong);
        }
      }
      return Err(Varint.UnexpectedEnd);
    }

    method ReadBytes() returns (r: Result<bytes, DecodeError>)
      requires Valid()
      modifies this`pos
      ensures Valid() && old(pos) <= pos
      ensures Reads(Wire.ReadBytes(old(Rest())), old(pos), pos, r)
    {
      var length := ReadVarint();
      if length.Err? {
        return Err(length.error);
      }
      if pos + length.value > |data| {
        return Err(Varint.UnexpectedEnd);
      }
      r := Ok(data[pos..pos + length.value]);
      assert r.value == old(Rest())[pos - old(pos)..pos - old(pos) + length.value];
      pos := pos + length.value;
    }

    method SkipField(wireType: nat) returns (r: Result<(), DecodeError>)
      requires Valid()
      modifies this`pos
      ensures Valid() && old(pos) <= pos
      ensures wireType != 0 && wireType != 2 ==> r == Err(Varint.UnsupportedWireType(wireType)) && pos == old(pos)
      ensures match Skip(wireType, old(Rest()))
              case Ok(n) => r.Ok? && pos == old(pos) + n
              case Err(e) => r == Err(e)
    {
      if wireType == 0 {
        var v := ReadVarint();
        r := if v.Ok? then Ok(()) else Err(v.error);
      } else if wireType == 2 {
        var b := ReadBytes();
        r := if b.Ok? then Ok(()) else Err(b.error);
      } else {
        r := Err(Varint.UnsupportedWireType(wireType));
      }
    }
  }

  /** The switch of `decodeMapEntry`, for one tag. */
  method DecodeEntryContents(reader: Reader, number: nat, wireType: nat, key: bytes, value: bytes)
    returns (r: Result<(bytes, bytes), DecodeError>)
    requires reader.Valid()
    modifies reader`pos
    ensures reader.Valid() && old(reader.pos) <= reader.pos
    ensures Reads(EntryContents(number, wireType, old(reader.Rest()), key, value), old(reader.pos), reader.pos, r)
  {
    if number == 1 {
      var b := reader.ReadBytes();
      r := if b.Ok? then Ok((Text(b.value), value)) else Err(b.error);
    } else if number == 2 {
      var b := reader.ReadBytes();
      r := if b.Ok? then Ok((key, Text(b.value))) else Err(b.error);
    } else {
      var skipped := reader.SkipField(wireType);
      r := if skipped.Ok? then Ok((key, value)) else Err(skipped.error);
    }
  }

  /** One turn of the loop of `decodeMapEntry`. */
  method DecodeEntryField(reader: Reader, key: bytes, value: bytes) returns (r: Result<(bytes, bytes), DecodeError>)
    requires reader.Valid()
    modifies reader`pos
    ensures reader.Valid() && old(reader.pos) <= reader.pos
    ensures Reads(EntryField(old(reader.Rest()), key, value), old(reader.pos), reader.pos, r)
  {
    ghost var s := reader.Rest();
    var tag := reader.ReadVarint();
    if tag.Err? {
      return Err(tag.error);
    }
    assert reader.Rest() == s[Varint.Decode(s).value.used..];
    r := DecodeEntryContents(reader, tag.value / 8, tag.value % 8, key, value);
  }

  /** `decodeMapEntry`, for a key and a value. */
  method DecodeMapEntry(data: bytes) returns (r: Result<(bytes, bytes), DecodeError>)
    ensures match DecodeEntry(data)
            case Ok(f) => f.Entry? && r == Ok((f.key, f.value))
            case Err(e) => r == Err(e)
  {
    var reader := new Reader(data);
    var key, value := [], [];
    while reader.pos < |data|
      invariant reader.Valid() && reader.data == data
      invariant DecodeEntry(data) == EntryFrom(reader.Rest(), key, value)
      decreases |data| - reader.pos
    {
      ghost var s := reader.Rest();
      var next := DecodeEntryField(reader, key, value);
      if next.Err? {
        return Err(next.error);
      }
      assert reader.Rest() == s[EntryField(s, key, value).value.used..];
      key, value := next.value.0, next.value.1;
    }
    r := Ok((key, value));
  }

  /** The length-delimited cases of the decoding switch. */
  method ApplyDelimited(number: nat, data: bytes, msg: Message) returns (r: Result<Message, DecodeError>)
    requires 1 <= number <= 7 && number != 6
    ensures match FieldOf(number, data)
            case Ok(f) => r == Ok(Apply(msg, f))
            case Err(e) => r == Err(e)
  {
    match number {
      case 1 => r := Ok(msg.(originator := Text(data)));
      case 2 => r := Ok(msg.(topic := Text(data)));
      case 3 => r := Ok(msg.(action := Text(data)));
      case 4 => r := Ok(msg.(payload := data));
      case 5 => r := Ok(msg.(messageId := Text(data)));
      case _ =>
        var entry := DecodeMapEntry(data);
        r := if entry.Ok? then Ok(msg.(metadata := msg.metadata[entry.value.0 := entry.value.1]))
             else Err(entry.error);
    }
  }

  /** The body of one turn of the decoding loop, after the tag. */
  method DecodeContents(reader: Reader, number: nat, wireType: nat, msg: Message)
    returns (r: Result<Message, DecodeError>)
    requires reader.Valid()
    modifies reader`pos
    ensures reader.Valid() && old(reader.pos) <= reader.pos
    ensures match ReadContents(number, wireType, old(reader.Rest()))
            case Ok(f) => r == Ok(Apply(msg, f.value)) && reader.pos == old(reader.pos) + f.used
            case Err(e) => r == Err(e)
  {
    if number == 6 {
      var v := reader.ReadVarint();
      r := if v.Ok? then Ok(msg.(timestampMs := v.value)) else Err(v.error);
    } else if 1 <= number <= 7 {
      var b := reader.ReadBytes();
      if b.Err? {
        return Err(b.error);
      }
      r := ApplyDelimited(number, b.value, msg);
    } else {
      var skipped := reader.SkipField(wireType);
      r := if skipped.Ok? then Ok(msg) else Err(skipped.error);
    }
  }

  /** What is left to do when `msg` has been built and `s` is still to be read. */
  ghost function Outcome(msg: Message, s: bytes): Result<Message, DecodeError> {
    var fs :- Parse(s);
    Ok(ApplyAll(msg, fs))
  }

  lemma OutcomeStep(msg: Message, s: bytes)
    requires s != []
    ensures Outcome(msg, s) == match ReadField(s)
                               case Ok(f) => Outcome(Apply(msg, f.value), s[f.used..])
                               case Err(e) => Err(e)
  {
    if ReadField(s).Ok? {
      var f := ReadField(s).value;
      if Parse(s[f.used..]).Ok? {
        var fs := [f.value] + Parse(s[f.used..]).value;
        assert fs[1..] == Parse(s[f.used..]).value;
      }
    }
  }

  /** One turn of the decoding loop. */
  method DecodeField(reader: Reader, msg: Message) returns (r: Result<Message, DecodeError>)
    requires reader.Valid()
    modifies reader`pos
    ensures reader.Valid() && old(reader.pos) <= reader.pos
    ensures match ReadField(old(reader.Rest()))
            case Ok(f) => r == Ok(Apply(msg, f.value)) && reader.pos == old(reader.pos) + f.used
            case Err(e) => r == Err(e)
  {
    ghost var s := reader.Rest();
    var tag := reader.ReadVarint();
    if tag.Err? {
      return Err(tag.error);
    }
    assert reader.Rest() == s[Varint.Decode(s).value.used..];
    r := DecodeContents(reader, tag.value / 8, tag.value % 8, msg);
  }

  /** `decodeMessage`: terminates on every byte string, and computes `Decode`. */
  method DecodeMessage(data: bytes) returns (r: Result<Message, DecodeError>)
    ensures r == Decode(data)
  {
    var msg := DEFAULT;
    var reader := new Reader(data);
    while reader.pos < |data|
      invariant reader.Valid() && reader.data == data
      invariant Decode(data) == Outcome(msg, reader.Rest())
      decreases |data| - reader.pos
    {
      ghost var s := reader.Rest();
      OutcomeStep(msg, s);
      var next := DecodeField(reader, msg);
      if next.Err? {
        return Err(next.error);
      }
      assert reader.Rest() == s[ReadField(s).value.used..];
      msg := next.value;
    }
    r := Ok(msg);
  }

  // ---- Encoding ------------------------------------------------------------

  lemma {:induction false} FlattenPrefixLength(chunks: seq<bytes>, i: nat)
    requires i < |chunks|
    ensures Flatten(chunks[..i + 1]) == Flatten(chunks[..i]) + chunks[i]
    ensures |Flatten(chunks[..i + 1])| <= |Flatten(chunks)|
  {
    assert chunks[..i + 1] == chunks[..i] + [chunks[i]];
    FlattenSnoc(chunks[..i], chunks[i]);
    assert chunks == chunks[..i + 1] + chunks[i + 1..];
    FlattenConcat(chunks[..i + 1], chunks[i + 1..]);
  }

  /** `concat`: measure, allocate, then copy each chunk to its offset. */
  method Concat(chunks: seq<bytes>) returns (result: array<byte>)
    ensures fresh(result)
    ensures result[..] == Flatten(chunks)
  {
    var total := 0;
    for i := 0 to |chunks|
      invariant total == |Flatten(chunks[..i])|
    {
      FlattenPrefixLength(chunks, i);
      total := total + |chunks[i]|;
    }
    assert chunks[..|chunks|] == chunks;
    result := new byte[total];
    var offset := 0;
    for i := 0 to |chunks|
      invariant offset == |Flatten(chunks[..i])| <= result.Length == |Flatten(chunks)|
      invariant result[..offset] == Flatten(chunks[..i])
    {
      FlattenPrefixLength(chunks, i);
      forall k | 0 <= k < |chunks[i]| {
        result[offset + k] := chunks[i][k];
      }
      assert result[..offset + |chunks[i]|] == result[..offset] + chunks[i];
      offset := offset + |chunks[i]|;
    }
  }

  /** `encodeMessage`: push every piece, drop the empty ones, concatenate. */
  method EncodeMessage(msg: Message, entries: Encoder.Entries) returns (r: array<byte>)
    ensures fresh(r)
    ensures r[..] == Encoder.Encode(msg, entries)
  {
    var parts := [Encoder.LengthDelimited(1, msg.originator),
                  Encoder.LengthDelimited(2, msg.topic),
                  Encoder.LengthDelimited(3, msg.action)];
    if |msg.payload| > 0 {
      parts := parts + [Encoder.LengthDelimited(4, msg.payload)];
    }
    parts := parts + [Encoder.LengthDelimited(5, msg.messageId)];
    if msg.timestampMs != 0 {
      parts := parts + [Encoder.TimestampField(msg.timestampMs)];
    }
    ghost var fixed := parts;
    for i := 0 to |entries|
      invariant parts == fixed + Encoder.EntryParts(entries[..i])
    {
      assert Encoder.EntryParts(entries[..i + 1])
          == Encoder.EntryParts(entries[..i]) + [Encoder.MapEntry(entries[i].0, entries[i].1)];
      parts := parts + [Encoder.MapEntry(entries[i].0, entries[i].1)];
    }
    assert entries[..|entries|] == entries;
    assert parts == Encoder.Parts(msg, entries);
    r := Concat(Encoder.NonEmpty(parts));
  }
}
