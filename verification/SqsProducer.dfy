/**
 Sending a batch: the producer checks every spec and builds the envelopes, the
 SQS adapter cuts them into batches of ten and hands each to the client. The
 identifiers, the clock and the client's replies are inputs.
 */
module SqsProducer {
  import opened Bytes
  import opened Utf8
  import opened Wire
  import opened Encoder
  import Base64
  import Codec
  import SqsBody

  const MAX_BATCH_SIZE: nat := 10
  const MAX_MESSAGE_SIZE: nat := 256 * 1024

  datatype SendError =
    | EmptyQueueName | QueueNameWhitespace | InvalidQueueNameCharacter
    | EmptyTopic | EmptyAction | TopicWhitespace | ActionWhitespace | MessageTooLarge
    | QueueNotConfigured | ClientRejected | EntriesFailed(count: nat)

  // ---- Validation ----------------------------------------------------------

  /** A character `String.prototype.trim` removes, the byte-order mark among them. */
  predicate IsSpace(w: bytes) {
    || (|w| == 1 && (0x09 <= w[0] <= 0x0D || w[0] == 0x20))
    || (|w| == 2 && w[0] == 0xC2 && w[1] == 0xA0)
    || (|w| == 3 && w[0] == 0xE1 && w[1] == 0x9A && w[2] == 0x80)
    || (|w| == 3 && w[0] == 0xE2 && w[1] == 0x80
        && (0x80 <= w[2] <= 0x8A || w[2] == 0xA8 || w[2] == 0xA9 || w[2] == 0xAF))
    || (|w| == 3 && w[0] == 0xE2 && w[1] == 0x81 && w[2] == 0x9F)
    || (|w| == 3 && w[0] == 0xE3 && w[1] == 0x80 && w[2] == 0x80)
    || (|w| == 3 && w[0] == 0xEF && w[1] == 0xBB && w[2] == 0xBF)
  }

  /** Trimming would change the text. */
  predicate HasOuterSpace(t: bytes) {
    exists n | 1 <= n <= 3 && n <= |t| :: IsSpace(t[..n]) || IsSpace(t[|t| - n..])
  }

  predicate NameCharacter(c: byte) {
    0x61 <= c <= 0x7A || 0x41 <= c <= 0x5A || 0x30 <= c <= 0x39 || c == 0x2D || c == 0x5F || c == 0x2E
  }

  function QueueNameError(name: bytes): Option<SendError> {
    if name == [] then Some(EmptyQueueName)
    else if HasOuterSpace(name) then Some(QueueNameWhitespace)
    else if exists c | c in name :: !NameCharacter(c) then Some(InvalidQueueNameCharacter)
    else None
  }

  /** What a caller asks to send, with the order in which the runtime lists its metadata. */
  datatype Spec = Spec(topic: bytes, action: bytes, payload: bytes, metadata: map<bytes, bytes>, listing: Entries)

  function SpecError(s: Spec): Option<SendError> {
    if s.topic == [] then Some(EmptyTopic)
    else if s.action == [] then Some(EmptyAction)
    else if HasOuterSpace(s.topic) then Some(TopicWhitespace)
    else if HasOuterSpace(s.action) then Some(ActionWhitespace)
    else if |s.payload| > MAX_MESSAGE_SIZE then Some(MessageTooLarge)
    else None
  }

  function FirstSpecError(specs: seq<Spec>): Option<SendError> {
    if specs == [] then None
    else if SpecError(specs[0]).Some? then SpecError(specs[0])
    else FirstSpecError(specs[1..])
  }

  lemma {:induction false} FirstSpecErrorMeaning(specs: seq<Spec>)
    ensures FirstSpecError(specs).None? <==> forall s | s in specs :: SpecError(s).None?
  {
    if specs != [] {
      assert specs == [specs[0]] + specs[1..];
      FirstSpecErrorMeaning(specs[1..]);
    }
  }

  lemma {:induction false} FirstSpecErrorAt(specs: seq<Spec>, i: nat)
    requires i < |specs| && SpecError(specs[i]).Some?
    requires forall j | 0 <= j < i :: SpecError(specs[j]).None?
    ensures FirstSpecError(specs) == SpecError(specs[i])
  {
    if i > 0 {
      FirstSpecErrorAt(specs[1..], i - 1);
    }
  }

  // ---- Envelopes and batches -----------------------------------------------

  datatype Outgoing = Outgoing(message: Message, listing: Entries)

  datatype BatchEntry = BatchEntry(id: bytes, body: bytes, topic: bytes, action: bytes, originator: bytes)

  datatype Batch = Batch(url: bytes, entries: seq<BatchEntry>)

  /** The client's answer to one call: an exception, or the number of entries it could not take. */
  datatype Reply = Rejected | Answered(failed: nat)

  /** What `sendBatch` of the adapter makes of the answer. */
  function Outcome(reply: Reply): Result<(), SendError> {
    match reply
    case Rejected => Err(ClientRejected)
    case Answered(failed) => if failed > 0 then Err(EntriesFailed(failed)) else Ok(())
  }

  function Envelope(originator: bytes, s: Spec, id: bytes, time: nat): Outgoing {
    Outgoing(Message(originator, s.topic, s.action, s.payload, id, time, s.metadata), s.listing)
  }

  function EntryOf(o: Outgoing): BatchEntry {
    var m := o.message;
    BatchEntry(m.messageId, SqsBody.EncodeBody(m, o.listing), m.topic, m.action, m.originator)
  }

  function EntriesOf(os: seq<Outgoing>): (r: seq<BatchEntry>)
    ensures |r| == |os|
  {
    seq(|os|, i requires 0 <= i < |os| => EntryOf(os[i]))
  }

  function FirstChunk(n: nat): nat {
    if n < MAX_BATCH_SIZE then n else MAX_BATCH_SIZE
  }

  function Batches(url: bytes, os: seq<Outgoing>): seq<Batch> {
    if os == [] then []
    else [Batch(url, EntriesOf(os[..FirstChunk(|os|)]))] + Batches(url, os[FirstChunk(|os|)..])
  }

  function AllEntries(batches: seq<Batch>): seq<BatchEntry> {
    if batches == [] then [] else batches[0].entries + AllEntries(batches[1..])
  }

  lemma EntriesSplit(os: seq<Outgoing>, n: nat)
    requires n <= |os|
    ensures EntriesOf(os) == EntriesOf(os[..n]) + EntriesOf(os[n..])
  {
  }

  lemma {:induction false} BatchSizes(url: bytes, os: seq<Outgoing>, b: Batch)
    requires b in Batches(url, os)
    ensures b.url == url && 1 <= |b.entries| <= MAX_BATCH_SIZE
  {
    var n := FirstChunk(|os|);
    if b != Batch(url, EntriesOf(os[..n])) {
      BatchSizes(url, os[n..], b);
    }
  }

  lemma {:induction false} FullBatches(url: bytes, os: seq<Outgoing>, i: nat)
    requires i + 1 < |Batches(url, os)|
    ensures |Batches(url, os)[i].entries| == 10
    decreases i
  {
    var n := FirstChunk(|os|);
    assert Batches(url, os)[1..] == Batches(url, os[n..]);
    if i == 0 {
      assert os[n..] != [];
    } else {
      FullBatches(url, os[n..], i - 1);
    }
  }

  lemma {:induction false} BatchOrder(url: bytes, os: seq<Outgoing>)
    ensures AllEntries(Batches(url, os)) == EntriesOf(os)
  {
    if os != [] {
      var n := FirstChunk(|os|);
      var first, rest := Batch(url, EntriesOf(os[..n])), Batches(url, os[n..]);
      BatchOrder(url, os[n..]);
      EntriesSplit(os, n);
      assert ([first] + rest)[1..] == rest;
    }
  }

  /**
   Batches hold one to ten entries, all but the last exactly ten, and together hold
   every envelope once, in order.
   */
  lemma BatchesPartition(url: bytes, os: seq<Outgoing>)
    ensures forall b | b in Batches(url, os) :: b.url == url && 1 <= |b.entries| <= 10
    ensures forall i | 0 <= i < |Batches(url, os)| - 1 :: |Batches(url, os)[i].entries| == 10
    ensures AllEntries(Batches(url, os)) == EntriesOf(os)
  {
    BatchOrder(url, os);
    forall b | b in Batches(url, os)
      ensures b.url == url && 1 <= |b.entries| <= 10
    {
      BatchSizes(url, os, b);
    }
    forall i | 0 <= i < |Batches(url, os)| - 1
      ensures |Batches(url, os)[i].entries| == 10
    {
      FullBatches(url, os, i);
    }
  }

  // ---- The SQS adapter -----------------------------------------------------

  class SqsAdapter {
    const queueUrls: map<bytes, bytes>
    const replies: nat -> Reply  // what the client answers to its n-th call
    var sent: seq<Batch>         // the calls made so far

    constructor (queueUrls: map<bytes, bytes>, replies: nat -> Reply)
      ensures this.queueUrls == queueUrls && this.replies == replies && sent == []
    {
      this.queueUrls := queueUrls;
      this.replies := replies;
      sent := [];
    }

    /** The call with number `n` is answered without a failed entry. */
    predicate Clean(n: nat) {
      replies(n) == Answered(0)
    }

    predicate Configured(queueName: bytes) {
      queueName in queueUrls && queueUrls[queueName] != []
    }

    /** Where messages for `queueName` go. */
    function Url(queueName: bytes): bytes {
      if Configured(queueName) then queueUrls[queueName] else []
    }

    method SendBatch(url: bytes, messages: seq<Outgoing>) returns (r: Result<(), SendError>)
      modifies this`sent
      ensures sent == old(sent) + [Batch(url, EntriesOf(messages))]
      ensures r == Outcome(replies(old(|sent|)))
    {
      var reply := replies(|sent|);
      sent := sent + [Batch(url, EntriesOf(messages))];
      r := Outcome(reply);
    }

    /** `publish`: stops at the first call that is not clean, having made exactly the calls up to it. */
    method Publish(queueName: bytes, messages: seq<Outgoing>) returns (r: Result<(), SendError>)
      modifies this`sent
      ensures r.Ok? ==> messages == [] || Configured(queueName)
      ensures r.Ok? ==>
                sent == old(sent) + Batches(Url(queueName), messages)
                && forall n | old(|sent|) <= n < |sent| :: Clean(n)
      ensures r == Err(QueueNotConfigured)
              <==> messages != [] && (queueName !in queueUrls || queueUrls[queueName] == [])
      ensures forall n | old(|sent|) <= n < |sent| :: queueName in queueUrls && sent[n].url == queueUrls[queueName]
      ensures r == Err(QueueNotConfigured) ==> sent == old(sent)
      ensures r.Err? && r != Err(QueueNotConfigured) ==>
                old(sent) < sent <= old(sent) + Batches(Url(queueName), messages)
                && r == Outcome(replies(|sent| - 1)) && forall n | old(|sent|) <= n < |sent| - 1 :: Clean(n)
    {
      if |messages| == 0 {
        return Ok(());
      }
      if !Configured(queueName) {
        return Err(QueueNotConfigured);
      }
      var url := queueUrls[queueName];
      var i := 0;
      while i < |messages|
        invariant 0 <= i <= |messages|
        invariant sent + Batches(url, messages[i..]) == old(sent) + Batches(url, messages)
        invariant old(sent) <= sent
        invariant forall n | old(|sent|) <= n < |sent| :: Clean(n) && sent[n].url == url
      {
        var next := if i + MAX_BATCH_SIZE < |messages| then i + MAX_BATCH_SIZE else |messages|;
        ghost var rest := messages[i..];
        assert rest[..FirstChunk(|rest|)] == messages[i..next] && rest[FirstChunk(|rest|)..] == messages[next..];
        ghost var before := sent;
        var outcome := SendBatch(url, messages[i..next]);
        assert before + Batches(url, rest) == sent + Batches(url, messages[next..]);
        if outcome.Err? {
          assert sent <= sent + Batches(url, messages[next..]);
          return outcome;
        }
        i := next;
      }
      assert Batches(url, messages[|messages|..]) == [];
      r := Ok(());
    }
  }

  // ---- The producer --------------------------------------------------------

  function Envelopes(originator: bytes, specs: seq<Spec>, ids: seq<bytes>, times: seq<nat>): (os: seq<Outgoing>)
    requires |ids| == |times| == |specs|
    ensures |os| == |specs|
  {
    seq(|specs|, i requires 0 <= i < |specs| => Envelope(originator, specs[i], ids[i], times[i]))
  }

  /** The checks and pushes of `sendBatch`, before anything is published. */
  method BuildEnvelopes(originator: bytes, specs: seq<Spec>, ids: seq<bytes>, times: seq<nat>)
    returns (r: Result<seq<Outgoing>, SendError>)
    requires |ids| == |times| == |specs|
    ensures r == match FirstSpecError(specs)
                 case Some(e) => Err(e)
                 case None => Ok(Envelopes(originator, specs, ids, times))
  {
    var messages: seq<Outgoing> := [];
    for i := 0 to |specs|
      invariant forall j | 0 <= j < i :: SpecError(specs[j]).None?
      invariant |messages| == i
      invariant forall j | 0 <= j < i :: messages[j] == Envelope(originator, specs[j], ids[j], times[j])
    {
      var error := SpecError(specs[i]);
      if error.Some? {
        FirstSpecErrorAt(specs, i);
        return Err(error.value);
      }
      messages := messages + [Envelope(originator, specs[i], ids[i], times[i])];
    }
    FirstSpecErrorMeaning(specs);
    assert messages == Envelopes(originator, specs, ids, times);
    r := Ok(messages);
  }

  /** `sendBatch`: nothing is sent unless every spec is valid; otherwise the envelopes are published together. */
  method SendBatch(adapter: SqsAdapter, originator: bytes, queueName: bytes, specs: seq<Spec>,
                   ids: seq<bytes>, times: seq<nat>)
    returns (r: Result<(), SendError>)
    requires |ids| == |times| == |specs|
    modifies adapter`sent
    ensures QueueNameError(queueName).Some? ==>
              r == Err(QueueNameError(queueName).value) && adapter.sent == old(adapter.sent)
    ensures QueueNameError(queueName).None? && FirstSpecError(specs).Some? ==>
              r == Err(FirstSpecError(specs).value) && adapter.sent == old(adapter.sent)
    ensures r.Ok? ==>
              && QueueNameError(queueName).None? && FirstSpecError(specs).None?
              && adapter.sent
                 == old(adapter.sent) + Batches(adapter.Url(queueName), Envelopes(originator, specs, ids, times))
    ensures old(adapter.sent) <= adapter.sent
            <= old(adapter.sent) + Batches(adapter.Url(queueName), Envelopes(originator, specs, ids, times))
  {
    var nameError := QueueNameError(queueName);
    if nameError.Some? {
      return Err(nameError.value);
    }
    var messages := BuildEnvelopes(originator, specs, ids, times);
    if messages.Err? {
      return Err(messages.error);
    }
    r := adapter.Publish(queueName, messages.value);
  }

  // ---- What the receiver gets ----------------------------------------------

  /** The inputs the runtime supplies, and the strings a caller may pass and see again unchanged. */
  ghost predicate Faithful(originator: bytes, s: Spec, id: bytes, time: nat) {
    && Enumerates(s.listing, s.metadata)
    && WellFormed(s.topic) && WellFormed(s.action)
    && Codec.PlainText(originator) && Codec.PlainText(id)
    && (forall k | k in s.metadata :: Codec.PlainText(k) && Codec.PlainText(s.metadata[k]))
    && Representable(Envelope(originator, s, id, time).message, s.listing)
  }

  /** A validated topic or action has no leading byte-order mark, because trimming would remove it. */
  lemma ValidTextIsPlain(s: Spec)
    requires SpecError(s).None? && WellFormed(s.topic) && WellFormed(s.action)
    ensures Codec.PlainText(s.topic) && Codec.PlainText(s.action)
  {
    assert BYTE_ORDER_MARK <= s.topic ==> IsSpace(s.topic[..3]);
    assert BYTE_ORDER_MARK <= s.action ==> IsSpace(s.action[..3]);
  }

  /** The message a receiver decodes for spec `s`: everything the caller gave, less the empty metadata entry. */
  function Delivered(originator: bytes, s: Spec, id: bytes, time: nat): Message {
    Codec.Normal(Message(originator, s.topic, s.action, s.payload, id, time, s.metadata))
  }

  /**
   The batch pipeline: decoding the bodies of the batches for a list of valid
   specs gives one envelope per spec, in the order of the specs.
   */
  lemma BatchPipeline(url: bytes, originator: bytes, specs: seq<Spec>, ids: seq<bytes>, times: seq<nat>)
    requires |ids| == |times| == |specs| && FirstSpecError(specs).None?
    requires forall i | 0 <= i < |specs| :: Faithful(originator, specs[i], ids[i], times[i])
    ensures
      var batches := Batches(url, Envelopes(originator, specs, ids, times));
      var entries := AllEntries(batches);
      && (forall b | b in batches :: b.url == url && 1 <= |b.entries| <= 10)
      && (forall i | 0 <= i < |batches| - 1 :: |batches[i].entries| == 10)
      && |entries| == |specs|
      && forall i | 0 <= i < |specs| ::
           && entries[i].id == ids[i] && entries[i].originator == originator
           && entries[i].topic == specs[i].topic && entries[i].action == specs[i].action
           && Base64.Canonical(entries[i].body)
           && SqsBody.DecodeBody(entries[i].body) == Ok(Delivered(originator, specs[i], ids[i], times[i]))
  {
    var os := Envelopes(originator, specs, ids, times);
    BatchesPartition(url, os);
    FirstSpecErrorMeaning(specs);
    forall i | 0 <= i < |specs|
      ensures EntriesOf(os)[i].id == ids[i]
      ensures SqsBody.DecodeBody(EntriesOf(os)[i].body) == Ok(Delivered(originator, specs[i], ids[i], times[i]))
      ensures Base64.Canonical(EntriesOf(os)[i].body)
    {
      SqsBody.BodyIsBase64(os[i].message, os[i].listing);
      assert Faithful(originator, specs[i], ids[i], times[i]);
      ValidTextIsPlain(specs[i]);
      SqsBody.BodyRoundTrip(os[i].message, os[i].listing);
    }
  }
}
