# grpcq: codec, queues and workers

grpcq carries gRPC-style calls over queues. This project is a Dafny model of the
four parts of it that are hard to get right, with proofs of what they promise.

1. **The envelope codec** of the TypeScript package and the SQS body around it.
   `Varint`, `Wire` (decoder), `Encoder` and `Codec` define the format on values
   and hold its laws; `Format` and `Meaning` pin both ends to the wire format, without
   reference to each other; `ProtoReader` is the code as it runs, a reader that advances
   a position and loops that fill a message, proved to compute those functions.
   `Base64`, `SqsBody` and `SqsProducer` carry the laws through a batch of
   messages sent to SQS; `Validation` says what a valid batch is in terms of
   characters. `Utf8` is the text decoder of the runtime, and `Unicode` ties it to the
   encoding of scalar values.
2. **The workers**: poll, take a slot, dispatch, settle, drain, stop. `GoWorker`
   with `GoPool`, put together in `GoPoolWorkers`; `TsWorker` with `TsPool`, and with
   `TsFates` for what becomes of each message and why; and `RustWorker`. `TsLoop` and
   `RustLoop` say what the loop waits for, how soon it ends and what start reports.
3. **The one-shot broadcast signal** of the Rust crate: `RustSignal`.
4. **The bounded in-memory queues** with ack/nack receipts: `RustMemory`,
   `TsMemory` and `GoQueue`. `TsWorker` runs against `TsMemory`, so that every
   message can be followed from publish to its end.

Concurrent code is a step system (`Runs`): a state, and events with a guard and an
effect. A theorem about it is a statement about every finite run, that is, about
every interleaving of any number of callers, handlers and messages. Code that runs
between two awaits, inside one critical section, or as one channel or atomic
operation is one event. Code that updates an object in place is a class whose
methods are proved to take exactly the step the system takes.

## How things are represented

- Strings are their UTF-8 bytes. Decoding text strips a leading byte-order mark and
  replaces ill-formed sequences, as the WHATWG Encoding standard says.
- Numbers are naturals; where a sum can exceed 2^53 the rounding to a double is
  written out. `Representable` says that lengths and the timestamp are below 2^53.
- The order in which a runtime lists a metadata record is an input (`Entries`).
- Random identifiers, the clock, the SQS client's replies, handler results, timers
  and cancellations are inputs or free events.
- Deliveries are numbered in the order they are created. In `TsMemory` messages are
  numbered too, so that two with equal contents can be told apart; what was accepted
  under each number is kept beside the object now stored under it, and a delivery
  carries the object that handler and receipt share. `GoQueue` is about room and
  needs numbers only.

## Where the code does less than it says

- A string with a leading byte-order mark loses it on the way
  (`Codec.RoundTripExactly` gives the exact condition, `Codec.ByteOrderMarkIsDropped`
  an instance). Two metadata keys that differ only by such a mark become one key, and
  then the order of the fields matters (`Codec.ReorderedExactly`,
  `Codec.MarkedKeysReordered`).
- The Rust worker leaves its loop by `?` when it is cancelled and does not drain:
  `RustWorker.TornExactly` says exactly when deliveries are left unsettled,
  `RustWorker.CancellationTears` gives a run. Only the stop and consume-error exits
  drain; `RustWorker.StopShieldsExactly` says how far a stop protects against a
  cancellation that follows it.
- The Go pool can return nil although a worker failed: `GoPool.MissedExactly` gives
  the exact condition, `GoPoolWorkers.ErrorCanBeMissed` a run.
- The comment that a Go `Publish` never blocks after its capacity check does not
  hold when a Nack requeues in between: `GoQueue.SendBlocksExactly` gives the exact
  condition, `GoQueue.RequeueCanBlockPublish` a run.
- The TypeScript memory adapter clones a message when it is published and when it is
  put back, but hands the handler and the receipt one object: a handler that changes
  its message and fails makes the queue hold a message nobody published.
  `TsFates.AlteredExactly` says exactly when, `TsFates.FailedHandlerAlters` gives a
  run, and `TsFates.PristineWithoutWrites` says that nothing else does it.
- A TypeScript `start` whose caller aborts it resolves in most places as if it had been
  stopped: it rejects as cancelled only if the abort is noticed after a wait for a
  slot, or after a poll delay that a stop cut short. `TsLoop.StartSettles` gives the
  exact condition.
- All three workers abandon the items of a batch they have not dispatched when they
  stop. `GoWorker.AbandonedExactly`, `RustWorker.AbandonedExactly` and
  `TsFates.AbandonedExactly` say exactly when an item is lost this way, and
  `StopAbandons` in each of the three modules gives a run.

## Model

| member | source | states |
|---|---|---|
| `Utf8.TextIsWellFormed` | typescript/src/message.ts:160-162 | whatever the bytes, reading a string yields well-formed text |
| `Utf8.TextRoundTrip` | typescript/src/message.ts:64-65 | a text survives encoding and decoding if and only if it has no leading byte-order mark, and otherwise loses exactly that |
| `Unicode.WellFormedExactly` | typescript/src/message.ts:64-65 | the texts of the model are exactly the UTF-8 encodings of sequences of Unicode scalar values |
| `Unicode.EncodedIsChar` | typescript/src/message.ts:64 | the encoding of a scalar value is one character with that value, whatever follows |
| `Unicode.MarksAreCharacters` | typescript/src/message.ts:65 | the byte-order mark is U+FEFF, and the replacement character U+FFFD |
| `Unicode.MaximalSubpart` | typescript/src/message.ts:160-162 | one replacement character stands for the longest start of the remaining bytes that begins some character, or for one byte when none does |
| `Unicode.RepairReplaces` | typescript/src/message.ts:160-162 | such a part after well-formed text is decoded as one U+FFFD, and what follows it is decoded in turn |
| `Varint.EncodeVarint` | typescript/src/message.ts:35-44 | the writing loop produces the base 128 encoding of its argument |
| `Varint.RoundTrip` | typescript/src/message.ts:131-142 | every number below 2^53 is read back exactly, whatever follows it, and reading stops where the number ends |
| `Varint.DecodeIgnoresRest` | typescript/src/message.ts:131-142 | a successful read depends only on the bytes it used |
| `Varint.PrefixFree` | typescript/src/message.ts:35-44 | no encoding is a prefix of the encoding of another number |
| `Varint.EncodeLength` | typescript/src/message.ts:35-44 | m bytes suffice exactly for the numbers of at most 7m bits |
| `Varint.Minimal` | typescript/src/message.ts:35-44 | no byte string that reads as v is shorter than the one written for v |
| `Varint.RoomForNextGroup` | typescript/src/message.ts:138-139 | the eight-byte limit is never met while reading a number below 2^53 |
| `Varint.AcceptedExactly` | typescript/src/message.ts:131-142 | a number is accepted if and only if one of its first eight bytes ends it, and takes the bytes up to that one; it is too long if and only if eight bytes do not end it, and cut short otherwise |
| `Varint.AsDoubleIsNearest` | typescript/src/message.ts:136 | a sum beyond 2^53 is rounded to the nearest double, halfway to the even one |
| `Wire.ReadField` | typescript/src/message.ts:144-148 | a field that is read takes at least one byte and never reaches past the end |
| `Wire.ReadFieldIgnoresRest` | typescript/src/message.ts:203-236 | a field that is read depends only on the bytes it used |
| `Wire.ParseConcat` | typescript/src/message.ts:203-236 | a parsable string followed by anything gives its fields followed by the outcome of the rest |
| `Wire.ConcatenationIsMerge` | typescript/src/message.ts:199-239 | Last One Wins: decoding a ++ b succeeds exactly when decoding b does, fails with its error, and overwrites a's message with the fields present in b, metadata united with b winning |
| `Wire.Truncation` | typescript/src/message.ts:131-158 | a prefix of any decodable string decodes if and only if it ends between two top-level fields |
| `Wire.ConsistentAccounts` | typescript/src/message.ts:199-239 | when no place is written twice with different values, the decoded message holds every field read and nothing else |
| `Wire.OrderIrrelevant` | typescript/src/message.ts:203-236 | then only the set of known fields matters, not their order or repetition, nor unknown fields |
| `Encoder.LengthDelimitedRead` | typescript/src/message.ts:50-62 | a written length-delimited field is read back as that field, using all of its bytes |
| `Encoder.TimestampRead` | typescript/src/message.ts:106-113 | a written timestamp field is read back exactly |
| `Encoder.EntryDataRead` | typescript/src/message.ts:178-197 | the nested reader gives back key and value, also when either is empty |
| `Encoder.MapEntryRead` | typescript/src/message.ts:72-79 | a written map entry is read back as one metadata field |
| `Encoder.UnknownVarintRead` | typescript/src/message.ts:164-168 | a varint under a number the envelope does not know is skipped whole |
| `Encoder.UnknownBytesRead` | typescript/src/message.ts:169-171 | a length-delimited field under such a number is skipped whole |
| `Encoder.ParseFields` | typescript/src/message.ts:203-236 | a concatenation of whole fields parses into exactly those fields |
| `Encoder.FieldBoundaries` | typescript/src/message.ts:203-236 | in such a concatenation the field boundaries are exactly the ends of the pieces |
| `Encoder.EncodingParses` | typescript/src/message.ts:93-120 | every piece the encoder emits is one whole field, and decoding reads one field per non-empty property, in order |
| `Format.NumberRead` | typescript/src/message.ts:35-44 | the number written is base 128, least significant group first, for every natural number and whatever follows |
| `Format.SplitWritten` | typescript/src/message.ts:46-62 | fields written by number and wire type are cut apart again by wire type alone |
| `Format.EncodingSplits` | typescript/src/message.ts:93-120 | what is on the wire, for every message: 1, 2, 3, 5 (texts) and 4 (payload) as data, 6 (timestamp) as a number, each unless empty or zero, then for each entry data under 7 that itself holds the key under 1 and the value under 2 |
| `Meaning.DecodesAsMeant` | typescript/src/message.ts:199-239 | fields written one after the other, known ones with the wire type of their property and any number of others anywhere, decode to what each in turn makes of the default message |
| `Meaning.EntryMeant` | typescript/src/message.ts:178-197 | an entry is its last key and its last value, whatever else it holds |
| `Meaning.OtherWireTypesRefused` | typescript/src/message.ts:172-173 | under an unknown number every wire type but 0 and 2 is refused |
| `Meaning.OtherWireTypesRefusedInEntry` | typescript/src/message.ts:192-193 | also inside an entry |
| `Meaning.MissingBytesRefused` | typescript/src/message.ts:152-154 | data that announces more bytes than are left is refused |
| `Meaning.DecodeIsExact` | typescript/src/message.ts:131-142 | a number that is accepted and below 2^53 is read as the format says, however many bytes it takes |
| `Codec.RoundTrip` | typescript/src/message.ts:93-120 | decoding an encoding restores the message, in any metadata order, less only the entry whose key and value are both empty |
| `Codec.RoundTripExactly` | typescript/src/message.ts:178-239 | for text messages that holds if and only if no string begins with a byte-order mark |
| `Codec.ByteOrderMarkIsDropped` | typescript/src/message.ts:160-162 | a message for which it does not hold |
| `Codec.TruncatedEncoding` | typescript/src/message.ts:93-120 | a prefix of an encoding decodes if and only if it ends where one of the emitted fields ends |
| `Codec.Reordered` | typescript/src/message.ts:203-236 | when no two entries compete for a decoded key, the emitted fields in any order, repeated or not, with unknown fields anywhere between, decode as the encoding does |
| `Codec.OrderMatters` | typescript/src/message.ts:226-231 | when two entries do compete, two orders of the emitted fields decode to different messages |
| `Codec.ReorderedExactly` | typescript/src/message.ts:203-236 | so every order decodes alike if and only if no two entries sent have keys that decode alike and values that do not |
| `Codec.PlainKeysApart` | typescript/src/message.ts:160-162 | keys without a leading byte-order mark never compete |
| `Codec.MarkedKeysReordered` | typescript/src/message.ts:160-162 | a message with two keys that differ only by a mark, and two orders of its fields that decode differently |
| `ProtoReader.Reader.constructor` | typescript/src/message.ts:122-125 | a reader starts at the first byte |
| `ProtoReader.Reader.ReadVarint` | typescript/src/message.ts:131-142 | the loop computes `Varint.Decode` of the unread bytes and advances by the bytes used; the position never passes the end |
| `ProtoReader.Reader.ReadBytes` | typescript/src/message.ts:150-158 | the same for a length and its bytes, failing when fewer are left |
| `ProtoReader.Reader.SkipField` | typescript/src/message.ts:164-175 | skips a varint or a length-delimited field, and refuses every other wire type |
| `ProtoReader.DecodeEntryContents` | typescript/src/message.ts:185-194 | one turn of the entry's switch yields the key and value left behind and advances by the bytes used, or fails with the error |
| `ProtoReader.DecodeEntryField` | typescript/src/message.ts:182-195 | a tag and the contents it announces, as one turn of the entry's loop reads them |
| `ProtoReader.DecodeMapEntry` | typescript/src/message.ts:178-197 | the loop terminates on every input and computes the entry `Wire.DecodeEntry` describes, or its error |
| `ProtoReader.ApplyDelimited` | typescript/src/message.ts:208-232 | each length-delimited case writes its own property of the message and no other, or fails with the entry's error |
| `ProtoReader.DecodeContents` | typescript/src/message.ts:207-235 | one turn of the switch applies exactly the field read, or fails with its error |
| `ProtoReader.DecodeField` | typescript/src/message.ts:203-236 | tag and contents together consume exactly the bytes of one field |
| `ProtoReader.DecodeMessage` | typescript/src/message.ts:199-239 | the loop terminates on every byte string with the message or the error of `Wire.Decode` |
| `ProtoReader.Concat` | typescript/src/message.ts:81-91 | the new buffer holds all chunks, one after the other |
| `ProtoReader.EncodeMessage` | typescript/src/message.ts:93-120 | pushing, filtering and concatenating computes `Encoder.Encode` |
| `Base64.RoundTrip` | typescript/src/adapters/sqs.ts:86-89 | decoding inverts encoding on every byte string |
| `Base64.EncodeIsCanonical` | typescript/src/adapters/sqs.ts:86-89 | every encoding is canonical text: full groups of four, the last padded with zero bits |
| `Base64.CanonicalIsEncoded` | typescript/src/adapters/sqs.ts:94-96 | every canonical text survives decoding and re-encoding |
| `Base64.ReencodingTest` | typescript/src/adapters/sqs.ts:95-96 | the re-encoding test accepts exactly the canonical texts |
| `Base64.SymbolsAreTheAlphabet` | typescript/src/adapters/sqs.ts:88 | the symbols are those of Table 1 of RFC 4648, in its order, and the pad is the equals sign |
| `Base64.SplitKeepsBits` | typescript/src/adapters/sqs.ts:88 | four digits hold three bytes as one number of 24 bits, most significant first |
| `Base64.EncodeGroup` | typescript/src/adapters/sqs.ts:88 | each three bytes are written as the symbols of their four digits, in order |
| `Base64.LastGroups` | typescript/src/adapters/sqs.ts:88 | one byte left is written as two symbols and two pads, two bytes as three and one |
| `SqsBody.DecoderIrrelevant` | typescript/src/adapters/sqs.ts:91-109 | any two base 64 decoders that invert the encoder, however lenient, read every body alike |
| `SqsBody.BodyPaths` | typescript/src/adapters/sqs.ts:91-109 | a body is read as base 64 exactly when it is canonical and holds a decodable message, and as a raw encoding otherwise |
| `SqsBody.BodyIsBase64` | typescript/src/adapters/sqs.ts:86-89 | a body is canonical base 64 and holds exactly the encoding, whatever the message holds |
| `SqsBody.BodyRoundTrip` | typescript/src/adapters/sqs.ts:86-109 | a message body is read back as the message in its round-trip normal form |
| `SqsBody.EncodingNotCanonical` | typescript/src/adapters/sqs.ts:94-98 | no non-empty raw encoding is canonical base 64, whichever field it begins with |
| `SqsBody.LegacyBody` | typescript/src/adapters/sqs.ts:103-109 | so a body that is the raw encoding of a message is read as that message |
| `SqsProducer.FirstSpecErrorMeaning` | typescript/src/producer.ts:57-67 | no error is found if and only if every spec is valid |
| `SqsProducer.FirstSpecErrorAt` | typescript/src/producer.ts:57-67 | the error reported is that of the first invalid spec |
| `Validation.OuterSpaceExactly` | typescript/src/error.ts:179-184 | trimming changes a text if and only if its first or last character is white space of ECMAScript |
| `Validation.SpecErrorExactly` | typescript/src/error.ts:172-185 | a spec is valid if and only if topic and action are non-empty and trimmed and the payload has at most 262144 bytes; which error an invalid one gets, each by an equivalence |
| `Validation.QueueNameExactly` | typescript/src/error.ts:155-170 | a queue name is valid if and only if it is non-empty and made of ASCII letters, digits, hyphen, underscore and full stop |
| `Validation.QueueNameWhitespaceExactly` | typescript/src/error.ts:161-163 | the white space error is given if and only if the first or last character is white space |
| `SqsProducer.ValidTextIsPlain` | typescript/src/error.ts:172-185 | a topic or action that passes validation has no leading byte-order mark, since trimming would remove it |
| `SqsProducer.BatchesPartition` | typescript/src/adapters/sqs.ts:144-154 | the batches hold one to ten entries each, all but the last exactly ten, and together every message once, in order |
| `SqsProducer.SqsAdapter.SendBatch` | typescript/src/adapters/sqs.ts:189-217 | one call with one entry per message; its result is the client's answer, an error when any entry failed |
| `SqsProducer.SqsAdapter.Publish` | typescript/src/adapters/sqs.ts:144-154 | on success exactly the batches were sent and every answer was clean; otherwise the calls up to and including the first bad answer were made, and its error is returned; all to the URL configured for the queue, and messages are refused, with nothing sent, if and only if there is none |
| `SqsProducer.BuildEnvelopes` | typescript/src/producer.ts:56-78 | the loop yields one envelope per spec in order, or the error of the first invalid spec |
| `SqsProducer.SendBatch` | typescript/src/producer.ts:53-81 | nothing is sent when the queue name or any spec is invalid; on success exactly the batches of the envelopes are; in no case anything else |
| `SqsProducer.BatchPipeline` | typescript/src/adapters/sqs.ts:193-201 | each body sent is canonical base 64, and decoding them in order gives exactly one envelope per spec, in spec order, with its topic, action, payload and metadata less the empty entry |
| `RustSignal.StepKeepsInv` | rust/src/signal.rs:28-45 | every step keeps: a parked wait is notified, or is registered while the flag is clear or its setter has yet to notify |
| `RustSignal.NoLostWakeup` | rust/src/signal.rs:28-45 | in every run, once the flag is set and the setter that flipped it has notified, no wait is parked un-notified; one setter at most flips it; no wait returns before |
| `RustSignal.WaitsReturnAlone` | rust/src/signal.rs:34-45 | from then on every wait can return by steps of its own only |
| `RustMemory.EveryStepBalances` | rust/src/adapters/memory.rs:55-121 | each critical section changes the messages held by exactly what it publishes, drops or clears |
| `RustMemory.MessagesConserved` | rust/src/adapters/memory.rs:147-188 | over every run, published = queued + pending + nacked and not yet put back + acknowledged + dropped + cleared, as multisets, over any number of queues |
| `RustMemory.QueuesBounded` | rust/src/adapters/memory.rs:72-76 | no queue ever exceeds the buffer size, publishes and requeues together |
| `RustMemory.SettlesOnce` | rust/src/adapters/memory.rs:150-172 | no receipt is acknowledged or nacked twice in a run |
| `RustMemory.DeliveredMeans` | rust/src/adapters/memory.rs:97-116 | a consume hands out, with its receipts, the front of the queue: at most maxBatch messages, or one; fewer only if it leaves the queue empty; at least one if there is one; no other step hands out any |
| `RustMemory.PublishDecides` | rust/src/adapters/memory.rs:72-78 | a batch is appended if and only if all of it fits |
| `RustMemory.RequeueDecides` | rust/src/adapters/memory.rs:181-183 | a nacked message goes to the back if and only if there is room |
| `RustMemory.QueueIsFifo` | rust/src/adapters/memory.rs:97-105 | on a queue never cleared, the messages of the receipts handed out followed by the messages queued equal the log of appends: whole batches, and nacked messages when there was room |
| `RustMemory.Adapter.constructor` | rust/src/adapters/memory.rs:24-31 | an empty adapter, with a buffer size of 1000 for zero |
| `RustMemory.Adapter.PublishBatch` | rust/src/adapters/memory.rs:60-80 | succeeds if and only if the whole batch fits, and then appends it; otherwise an error, and the queue as it was |
| `RustMemory.PopFront` | rust/src/adapters/memory.rs:97-105 | the popping loop splits the queue after at most the limit |
| `RustMemory.Adapter.ConsumeBatch` | rust/src/adapters/memory.rs:89-119 | returns the front of the queue with fresh receipts: at most maxBatch messages, or one; fewer only if the queue is left empty; at least one if there was one |
| `RustMemory.Adapter.ClearAll` | rust/src/adapters/memory.rs:42-51 | empties every queue, keeps every name and receipt |
| `RustMemory.Adapter.AckReceipt` | rust/src/adapters/memory.rs:147-160 | settles a pending receipt; otherwise changes nothing and says which way it was settled |
| `RustMemory.Adapter.MarkNacked` | rust/src/adapters/memory.rs:164-173 | the first critical section of nack, with the same errors |
| `RustMemory.Adapter.PutBack` | rust/src/adapters/memory.rs:175-183 | the second one: the message goes to the back, or is dropped when the queue is full |
| `RustWorker.StepKeepsInv` | rust/src/core.rs:390-474 | every step of the loop, each branch of each poll, the handlers, start, stop and cancellation keep the invariant on deliveries, limit, life cycle and stop calls |
| `RustWorker.AbandonedExactly` | rust/src/core.rs:443-460 | in every run a delivery is abandoned if and only if the loop held it undispatched and found stop or cancellation set before a push, or took a cancellation branch while waiting for a slot |
| `RustWorker.StopAbandons` | rust/src/core.rs:454-456 | a run in which stop abandons a received item |
| `RustWorker.DrainsUnlessCancelled` | rust/src/core.rs:393-473 | in-flight futures never exceed the limit; when start has returned nothing is in flight and every delivery was settled, abandoned or torn, torn only if start reports cancellation |
| `RustWorker.SettledAsHandled` | rust/src/core.rs:654-661 | a delivery is acknowledged only if its handler returned success in the run and nacked only if it failed; a handler's return decides for good unless its future is dropped |
| `RustWorker.TornExactly` | rust/src/core.rs:395-447 | a delivery is left unsettled if and only if some select took its cancellation branch while a dispatched delivery had not settled |
| `RustWorker.StopShieldsExactly` | rust/src/core.rs:490-494 | what the bias is worth: once stop is set, a delivery can still be torn if and only if one is torn already, or is unsettled while a select is between polling stop and polling cancellation |
| `RustWorker.CancellationTears` | rust/src/core.rs:395-397 | a run in which that happens |
| `RustWorker.OneStartRuns` | rust/src/core.rs:358-370 | in every run at most one start wins the exchange |
| `RustWorker.NeverStuck` | rust/src/core.rs:390-474 | from start to the end, the loop or a dispatched delivery can move |
| `RustWorker.DrainEnds` | rust/src/core.rs:472 | once the loop drains, in every continuation each step of a delivery takes one off a fixed number of steps left; while some are left a delivery can move, and at zero `run` returns |
| `RustWorker.StopIsFinal` | rust/src/core.rs:358-410 | after any stop call has returned, also one before start, nothing is consumed, dispatched, handled or settled in any continuation |
| `RustLoop.StartReturns` | rust/src/core.rs:404-426 | what start returns: success, cancellation or an error of consume, each if and only if the loop ended in the branch that says so |
| `RustLoop.TokensExactly` | rust/src/core.rs:379-380 | the stop token is cancelled if and only if some stop was called, the other if and only if the caller cancelled it |
| `RustLoop.WaitsOnlyWhenFull` | rust/src/core.rs:394-402 | while the loop waits for a slot exactly as many deliveries are in flight as the limit allows |
| `RustLoop.PollsOnlyWithRoom` | rust/src/core.rs:394-419 | the queue is polled only while fewer deliveries are in flight than the limit allows |
| `RustLoop.DispatchedInOrder` | rust/src/core.rs:443-468 | deliveries are dispatched in the order they were received |
| `RustLoop.LoopEnds` | rust/src/core.rs:390-474 | once stop or cancellation is set, the loop ends within sixteen steps in every continuation |
| `RustLoop.StopReturnsExactly` | rust/src/core.rs:379-388 | a stop returns if and only if it found the worker idle or saw that start has ended; once it has, every waiting stop can return |
| `GoWorker.StepKeepsInv` | go/core/worker.go:60-119 | every step of the loop, the goroutines and the Stop callers keeps the invariant on tokens, WaitGroup, deliveries, settlements and the returned error |
| `GoWorker.ConcurrencyBound` | go/core/worker.go:101-117 | in every interleaving, items inside processMessage <= tokens held <= Concurrency, and the WaitGroup counts goroutines not yet done plus an Add whose goroutine is about to start |
| `GoWorker.NeverStuck` | go/core/worker.go:61-65 | releasing a token never blocks, the WaitGroup never goes negative, and a loop that waits for a token or for the drain has a goroutine that can move |
| `GoWorker.DrainedWhenClosed` | go/core/worker.go:121-127 | when done is closed every dispatched item was asked to settle exactly once, by Ack exactly when Handle returned nil, every other item was abandoned, and every Stop that returned has Start's error |
| `GoWorker.StartReturns` | go/core/worker.go:70-97 | what Start returns, and so every Stop: the context's error, the adapter's error or nil, each if and only if the loop left in the case that says so |
| `GoWorker.SignalsExactly` | go/core/worker.go:123-124 | the context has ended if and only if it was cancelled, and stopCh is closed if and only if some Stop closed it |
| `GoWorker.ReturnsHaveReasons` | go/core/worker.go:60-97 | Start returns nil only after a Stop, and the context's error only after the context was cancelled |
| `GoWorker.LoopEnds` | go/core/worker.go:70-118 | once the context has ended or a Stop was called, no poll begins, and the loop comes to its wg.Wait within the steps left, three for each item a poll under way may bring |
| `GoWorker.WaitsOnlyWhenFull` | go/core/worker.go:102-103 | the loop waits for a token only while exactly Concurrency goroutines hold one |
| `GoWorker.DispatchedInOrder` | go/core/worker.go:101-117 | no item is dispatched before one received earlier |
| `GoWorker.OutcomeIsTheHandlers` | go/core/worker.go:148-179 | the outcome used for settling is recorded if and only if the handler of that delivery returned it in the run |
| `GoWorker.AbandonedExactly` | go/core/worker.go:101-109 | in every run an item is abandoned if and only if the select for an item took the stop or the context case with this one not yet dispatched |
| `GoWorker.StopAbandons` | go/core/worker.go:107-108 | a run in which stop abandons a received item |
| `GoWorker.WorkerCanMove` | go/core/worker.go:60-119 | until done is closed, the loop or a goroutine can move |
| `GoWorker.DrainEnds` | go/core/worker.go:61-65 | once Start waits, in every continuation each step of a goroutine takes one off a fixed number of steps left; while some are left a goroutine can move, and at zero done can be closed |
| `GoWorker.QuietAfterStop` | go/core/worker.go:121-127 | after done closes or any Stop returns, nothing is polled, dispatched, handled or settled |
| `GoWorker.AddBeforeWait` | go/core/worker.go:61-67 | wg.Add never happens once wg.Wait has begun |
| `GoPool.RoomToReport` | go/core/worker.go:211-226 | a worker that reports an error always finds room in the channel |
| `GoPool.PoolReturns` | go/core/worker.go:205-254 | Start returns only after every goroutine has left, no error is turned away, an error returned is the parent context's or a worker's, and nil leaves every worker error unread in the channel |
| `GoPool.MissedExactly` | go/core/worker.go:243-253 | in every run, Start has returned nil although a worker failed if and only if its select took the done channel while an error was waiting |
| `GoPool.StartReturns` | go/core/worker.go:243-253 | what the pool's Start returns: the parent context's error, a worker's error or nil, each if and only if the select took that case |
| `GoPool.ContextEndsExactly` | go/core/worker.go:208-235 | the pool's context ends if and only if the parent was cancelled, the listener saw Stop, the select took the parent case, or a failed worker's goroutine cancelled it |
| `GoPool.FailuresEndContext` | go/core/worker.go:218-224 | once a failed worker's goroutine has reported, the pool's context has ended |
| `GoPoolWorkers.PoolRun` | go/core/worker.go:214-226 | the pool running real workers is a run of the pool, so every law of the pool holds of it |
| `GoPoolWorkers.PoolDrains` | go/core/worker.go:205-254 | when the pool's Start has returned, every worker has closed done, left no goroutine, and asked each delivery it dispatched to settle exactly once; a worker error returned is the one that worker's Start returned |
| `GoPoolWorkers.FailureReachesOthers` | go/core/worker.go:218-224 | from then on the context of every other worker that was spawned can end |
| `GoPoolWorkers.CancelledWorkerEnds` | go/core/worker.go:216-225 | a worker whose context has ended begins no further poll in any continuation of the pool's run, and its loop ends within the steps left |
| `GoPoolWorkers.NeverStuck` | go/core/worker.go:205-254 | until the pool's Start has returned, a goroutine of the pool or of a worker can move |
| `GoPoolWorkers.ErrorCanBeMissed` | go/core/worker.go:248-252 | a run in which a worker's Start fails on its adapter, the failure is reported, and the pool's Start returns nil |
| `GoQueue.SendBlocksExactly` | go/adapters/memory/adapter.go:93-115 | the channel never exceeds its capacity, and a send of a checked publish goes through if and only if fewer requeues landed since the check than room remains; without any requeue it always does |
| `GoQueue.RequeueCanBlockPublish` | go/adapters/memory/adapter.go:137-144 | a run in which a requeue makes a checked publish block |
| `GoQueue.PublishDecides` | go/adapters/memory/adapter.go:104-106 | with the lock free, a batch is begun if and only if all of it fits, and refused if and only if it does not |
| `GoQueue.QueueIsFifo` | go/adapters/memory/adapter.go:110-144 | the batches begun are the messages sent and those still to be sent, in order; on a queue never cleared, the messages received and then the channel are the messages sent and requeued, in order |
| `TsMemory.PublishKeepsInv` | typescript/src/adapters/memory.ts:26-35 | publishing keeps every queue within bounds and every message in one place |
| `TsMemory.ConsumeKeepsInv` | typescript/src/adapters/memory.ts:37-48 | so does consuming |
| `TsMemory.NackKeepsInv` | typescript/src/adapters/memory.ts:79-89 | so does a nack, with room or without |
| `TsMemory.ClearKeepsInv` | typescript/src/adapters/memory.ts:54-58 | so does clearing, which keeps every delivery that is out |
| `TsMemory.ExactlyOnePlace` | typescript/src/adapters/memory.ts:26-91 | a published message is in exactly one of queued, fetched, in flight, acknowledged, abandoned, dropped, cleared; no two queue positions and no two deliveries hold it |
| `TsMemory.ConsumeHands` | typescript/src/adapters/memory.ts:39-45 | a consume hands out the front of its queue, in order: at most maxBatch messages, or one; fewer only if it leaves the queue empty; at least one if there is one |
| `TsMemory.PublishDecides` | typescript/src/adapters/memory.ts:30-34 | a batch is appended if and only if all of it fits |
| `TsMemory.NackDecides` | typescript/src/adapters/memory.ts:85-88 | a nacked message goes to the back, as the handler left it, if and only if there is room |
| `TsMemory.QueuesAreKnown` | typescript/src/adapters/memory.ts:37-48 | a queue holds only numbers under which an object is stored |
| `TsMemory.MemoryAdapter.constructor` | typescript/src/adapters/memory.ts:22-24 | an empty adapter, with a buffer size of 1000 unless a positive one is given |
| `TsMemory.MemoryAdapter.PublishAll` | typescript/src/adapters/memory.ts:26-35 | succeeds if and only if the whole batch fits, and then appends it, cloned; otherwise an error, and the queue as it was |
| `TsMemory.MemoryAdapter.ConsumeBatch` | typescript/src/adapters/memory.ts:37-48 | returns the front of the queue, in order, with fresh receipts that share the objects: at most maxBatch, or one; fewer only if the queue is left empty; at least one if there was one |
| `TsMemory.MemoryAdapter.ChangeMessage` | typescript/src/adapters/memory.ts:42-45 | what a handler writes to its message is written to the object of the receipt, and nowhere else |
| `TsMemory.MemoryAdapter.ClearAll` | typescript/src/adapters/memory.ts:54-58 | empties every queue, keeps every delivery that is out, and keeps the invariant |
| `TsMemory.MemoryAdapter.AckDelivery` | typescript/src/adapters/memory.ts:73-78 | settles an unsettled receipt, keeping the invariant; otherwise changes nothing and says which way it was settled |
| `TsMemory.MemoryAdapter.NackDelivery` | typescript/src/adapters/memory.ts:79-89 | takes the nack step, putting back the shared object as it is now or dropping it, and keeps the invariant; or changes nothing and says which way it was settled |
| `TsPool.WaitForOneWillWake` | typescript/src/worker.ts:71-76 | a new waiter is resolved already, or stored while something runs |
| `TsPool.StillWillWake` | typescript/src/worker.ts:59-69 | a delivery that joins or leaves the pool never strands the waiter |
| `TsPool.InFlightPool.constructor` | typescript/src/worker.ts:51-53 | an empty pool without waiter, within the invariant |
| `TsPool.InFlightPool.Track` | typescript/src/worker.ts:68 | adds one delivery and strands no waiter that would wake |
| `TsPool.InFlightPool.Finally` | typescript/src/worker.ts:60-67 | removes the delivery, resolves and forgets the stored waiter, and strands no waiter that would wake |
| `TsPool.InFlightPool.Wait` | typescript/src/worker.ts:71-76 | returns a waiter that is resolved or will be |
| `TsWorker.StepKeepsInv` | typescript/src/worker.ts:133-207 | every step of the loop, the handlers, publishers, clear, start, stop and the abort signal keeps the invariant on store, pool, phases, outcomes and control |
| `TsWorker.EndToEndAccounting` | typescript/src/worker.ts:133-207 | in every reachable state each published message is in exactly one of the seven places, once; a delivery is acknowledged exactly when its handler succeeded and nacked exactly when it failed; once start has settled every delivery is settled or abandoned; queues stay within bounds |
| `TsWorker.OutcomeIsTheHandlers` | typescript/src/worker.ts:20-30 | an outcome is recorded if and only if the handler of that delivery returned it in the run |
| `TsWorker.NoLostWakeup` | typescript/src/worker.ts:140-197 | whenever the loop is parked on an unresolved waiter, that waiter is the stored one, something is running and can move; the pool never exceeds the limit, and the drain ends only with the pool empty |
| `TsWorker.OneStartRuns` | typescript/src/worker.ts:109-113 | in every run at most one start enters the loop |
| `TsWorker.StopIsFinal` | typescript/src/worker.ts:109-127 | after any stop call has returned, also one before start, nothing is polled, dispatched, handled or settled in any continuation |
| `TsWorker.QueueIsFifo` | typescript/src/adapters/memory.ts:26-48 | on a queue never cleared, the messages of the deliveries created followed by the messages queued equal the log of appends |
| `TsWorker.DrainEnds` | typescript/src/worker.ts:78-82 | once the loop drains, in every continuation each step of a delivery takes one off a fixed number of steps left; while some are left a delivery can move, and at zero the loop's next step settles start |
| `TsLoop.StartSettles` | typescript/src/worker.ts:145-161 | start rejects as cancelled if and only if the loop noticed the caller's abort after a wait for a slot or after a poll delay cut short, and with the error of consume if and only if consume failed |
| `TsLoop.SignalsExactly` | typescript/src/worker.ts:123-131 | the stop signal is aborted if and only if some stop was called, the caller's if and only if the caller aborted it |
| `TsLoop.WaitsOnlyWhenFull` | typescript/src/worker.ts:140-143 | while the loop waits for a slot nobody has freed, exactly as many deliveries run as the limit allows |
| `TsLoop.PollTakesBatch` | typescript/src/worker.ts:154 | a poll takes from the front of the worker's own queue at most the batch size, or one; fewer only if it leaves the queue empty; at least one if there is one |
| `TsLoop.PollsOnlyWithRoom` | typescript/src/worker.ts:138-149 | the queue is polled only with a free slot, and only while nobody has told the worker to stop |
| `TsLoop.DispatchedInOrder` | typescript/src/worker.ts:188-197 | deliveries are dispatched in the order they were fetched |
| `TsLoop.LoopEnds` | typescript/src/worker.ts:137-201 | once stop was called or the caller's signal aborted, the queue is not polled again and the loop comes to its drain within three steps, in every continuation |
| `TsLoop.StopReturnsExactly` | typescript/src/worker.ts:123-127 | a stop returns if and only if it found the worker idle or saw that start has settled; once it has, every waiting stop can return |
| `TsFates.AbandonedExactly` | typescript/src/worker.ts:188-197 | in every run a delivery is abandoned if and only if the loop held it undispatched when, about to dispatch, it found that it is to stop |
| `TsFates.StopAbandons` | typescript/src/worker.ts:194 | a run in which stop abandons a received message |
| `TsFates.DroppedExactly` | typescript/src/adapters/memory.ts:85-88 | in every run a message is dropped if and only if a failed delivery of it was nacked while its queue was full |
| `TsFates.ClearedExactly` | typescript/src/adapters/memory.ts:54-58 | in every run a message is cleared if and only if clear was called while it was queued |
| `TsFates.AcceptedInOrder` | typescript/src/adapters/memory.ts:26-35 | the numbers stand for the messages accepted, in order: whole batches, a refused batch not at all |
| `TsFates.AlteredExactly` | typescript/src/adapters/memory.ts:42-45 | at some time of a run a message is queued with another content than the one accepted if and only if some nack with room put back a delivery whose object differed from it |
| `TsFates.FailedHandlerAlters` | typescript/src/adapters/memory.ts:85-88 | a run in which a handler changes its message and fails, and the queue holds the change |
| `TsFates.PristineWithoutWrites` | typescript/src/adapters/memory.ts:42-45 | as long as no handler writes to its message, everything stored and everything delivered is as accepted |

## Left out

- AWS SDK calls, long polling, visibility timeouts, SQS receipts and the HTTP adapter: behaviour of services outside the repository.
- Code generators, generated code, registries, client and server wrappers, loggers: they would only add easy members; a handler lookup is part of a handler's success or failure.
- The pools of the TypeScript and Rust packages: the first waits for all its workers before it reacts to a failure, the second does not poll its workers while it stops them, so neither adds a law beyond the single worker.
- The Go and Rust codecs: they are generated.
- Negative timestamps (outside the encoder's domain), strings with lone surrogates and a metadata key named `__proto__`.
- The workers are step systems over values and not objects, because what matters is how their steps interleave with callers and handlers; of aliasing, the object that a TypeScript handler shares with its receipt is modelled, and the message pointers of the Go queue are not.
- Fairness: progress is stated as "somebody can move" in every reachable state and, for the drains, by counting the steps left; that the runtime does schedule those who can move is not.
- Weak memory ordering, handler panics, poisoned locks, and a Rust `start` future that its caller drops before it completes.
- A second call of Go's `Start` on one worker, which would close a closed channel.
- In the Go queue: items received by a Consume whose context is then cancelled are gone, and a Nack after Clear requeues into a channel nobody reads; the model follows one channel.
- SqsProducer.SqsAdapter.constructor: does not refuse an empty table of queue URLs.
- SqsProducer.BatchPipeline: asks of the originator, the identifier and the metadata that they carry no leading byte-order mark, for the reason `Codec.RoundTripExactly` gives.
