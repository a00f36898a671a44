/**
 The TypeScript memory adapter, with the history needed to say where every
 published message is. Messages are numbered in the order they were published,
 deliveries (receipts) in the order they were created. A queue holds numbers;
 `contents` has the object stored under each, `accepted` what was published. A
 delivery shares one object between the handler and the receipt, so what the
 handler writes to its message is what a nack puts back.
 */
module TsMemory {
  import opened Bytes
  import opened Runs
  import Wire

  type Message = Wire.Message
  type MessageId = nat
  type DeliveryId = nat

  datatype Phase =
    | Fetched            // consumed, not dispatched
    | Handling           // the handler is running
    | Returned(ok: bool) // the handler's promise has settled
    | Acked
    | Nacked
    | Abandoned          // left behind when the worker stopped

  datatype Delivery = Delivery(queue: string, message: MessageId, content: Message, phase: Phase)

  /** Where a message is now: in a queue, with its latest delivery, or gone. */
  datatype Place = Queued(queue: string) | With(delivery: DeliveryId) | Dropped | Cleared

  datatype Store = Store(
    bufferSize: nat,
    queues: map<string, seq<MessageId>>,
    deliveries: seq<Delivery>,
    places: seq<Place>,      // one per message published
    contents: seq<Message>,  // the object stored under each number
    accepted: seq<Message>)  // the message published under each number

  /** A buffer size that is not positive means 1000. */
  function Empty(bufferSize: int): Store {
    Store(if bufferSize > 0 then bufferSize else 1000, map[], [], [], [], [])
  }

  function Queue(st: Store, name: string): seq<MessageId> {
    if name in st.queues then st.queues[name] else []
  }

  function Fits(st: Store, name: string, extra: nat): bool {
    |Queue(st, name)| + extra <= st.bufferSize
  }

  // ---- Operations ----------------------------------------------------------

  /** `publish`: all of the messages, under new numbers, or none. */
  function Publish(st: Store, name: string, messages: seq<Message>): Store {
    if messages == [] then st
    else if Fits(st, name, |messages|) then
      st.(queues := st.queues[name := Queue(st, name) + Numbers(|st.contents|, |messages|)],
          places := st.places + seq(|messages|, i => Queued(name)),
          contents := st.contents + messages,
          accepted := st.accepted + messages)
    else st.(queues := st.queues[name := Queue(st, name)])
  }

  function Taken(st: Store, name: string, maxBatch: nat): (n: nat)
    ensures n <= |Queue(st, name)|
  {
    var limit := if maxBatch > 1 then maxBatch else 1;
    if limit < |Queue(st, name)| then limit else |Queue(st, name)|
  }

  /** `consume`: splice off the front, one receipt each. */
  function Consume(st: Store, name: string, maxBatch: nat): Store {
    var q, n := Queue(st, name), Taken(st, name, maxBatch);
    st.(queues := st.queues[name := q[n..]],
        deliveries := st.deliveries + Deliveries(name, q[..n], st.contents),
        places := seq(|st.places|, m requires 0 <= m < |st.places| => PlaceAfterTake(st, q[..n], m)))
  }

  /** The object stored under number `m`; every queued number has one. */
  function Stored(contents: seq<Message>, m: MessageId): Message {
    if m < |contents| then contents[m] else Wire.DEFAULT
  }

  function Deliveries(name: string, taken: seq<MessageId>, contents: seq<Message>): (ds: seq<Delivery>)
    ensures |ds| == |taken|
    ensures forall i | 0 <= i < |ds| :: ds[i] == Delivery(name, taken[i], Stored(contents, taken[i]), Fetched)
  {
    seq(|taken|, i requires 0 <= i < |taken| => Delivery(name, taken[i], Stored(contents, taken[i]), Fetched))
  }

  function PlaceAfterTake(st: Store, taken: seq<MessageId>, m: MessageId): Place
    requires m < |st.places|
  {
    if m in taken then With(|st.deliveries| + IndexOf(taken, m)) else st.places[m]
  }

  function IndexOf(s: seq<nat>, x: nat): (i: nat)
    requires x in s
    ensures i < |s| && s[i] == x
  {
    if s[0] == x then 0 else 1 + IndexOf(s[1..], x)
  }

  /** The delivery moves on without its message changing hands. */
  function Advance(st: Store, d: DeliveryId, phase: Phase): Store
    requires d < |st.deliveries|
  {
    st.(deliveries := st.deliveries[d := st.deliveries[d].(phase := phase)])
  }

  function AbandonAll(st: Store, ds: seq<DeliveryId>): Store {
    st.(deliveries := seq(|st.deliveries|, d requires 0 <= d < |st.deliveries| =>
          if d in ds then st.deliveries[d].(phase := Abandoned) else st.deliveries[d]))
  }

  /** The handler writes to the message it was given, which the receipt shares. */
  function Write(st: Store, d: DeliveryId, content: Message): Store
    requires d < |st.deliveries|
  {
    st.(deliveries := st.deliveries[d := st.deliveries[d].(content := content)])
  }

  /** `nack`: a clone of the message goes to the back of its queue, or it is dropped when the queue is full. */
  function Nack(st: Store, d: DeliveryId): Store
    requires d < |st.deliveries|
    requires st.deliveries[d].message < |st.places| && st.deliveries[d].message < |st.contents|
  {
    var Delivery(name, m, content, _) := st.deliveries[d];
    var marked := Advance(st, d, Nacked);
    if |Queue(st, name)| < st.bufferSize then
      marked.(queues := st.queues[name := Queue(st, name) + [m]],
              places := st.places[m := Queued(name)],
              contents := st.contents[m := content])
    else
      marked.(queues := st.queues[name := Queue(st, name)], places := st.places[m := Dropped])
  }

  function Clear(st: Store): Store {
    st.(queues := map name | name in st.queues :: [],
        places := seq(|st.places|, m requires 0 <= m < |st.places| =>
          if st.places[m].Queued? then Cleared else st.places[m]))
  }

  // ---- Invariant -----------------------------------------------------------

  ghost predicate QueuesInv(st: Store) {
    && (forall name | name in st.queues :: |st.queues[name]| <= st.bufferSize)
    && (forall name, i | name in st.queues && 0 <= i < |st.queues[name]| ::
          st.queues[name][i] < |st.places| && st.places[st.queues[name][i]] == Queued(name))
    && (forall name, i, j | name in st.queues && 0 <= i < j < |st.queues[name]| ::
          st.queues[name][i] != st.queues[name][j])
    && (forall m | 0 <= m < |st.places| && st.places[m].Queued? :: m in Queue(st, st.places[m].queue))
  }

  ghost predicate DeliveriesInv(st: Store) {
    && (forall d | 0 <= d < |st.deliveries| :: st.deliveries[d].message < |st.places|)
    && (forall d | 0 <= d < |st.deliveries| && st.deliveries[d].phase != Nacked ::
          st.places[st.deliveries[d].message] == With(d))
    && (forall m | 0 <= m < |st.places| && st.places[m].With? ::
          var d := st.places[m].delivery;
          d < |st.deliveries| && st.deliveries[d].message == m && st.deliveries[d].phase != Nacked)
  }

  ghost predicate Inv(st: Store) {
    |st.contents| == |st.accepted| == |st.places| && QueuesInv(st) && DeliveriesInv(st)
  }

  /** The numbers a publish hands out are new, so they are in no queue yet. */
  lemma PublishKeepsNumbers(st: Store, name: string, messages: seq<Message>)
    requires |st.contents| == |st.places| && QueuesInv(st) && Fits(st, name, |messages|)
    ensures
      var q := Queue(st, name) + Numbers(|st.contents|, |messages|);
      var places := st.places + seq(|messages|, i => Queued(name));
      && |q| <= st.bufferSize
      && (forall i | 0 <= i < |q| :: q[i] < |places| && places[q[i]] == Queued(name))
      && (forall i, j | 0 <= i < j < |q| :: q[i] != q[j])
  {
  }

  lemma PublishKeepsQueues(st: Store, name: string, messages: seq<Message>)
    requires |st.contents| == |st.places| && QueuesInv(st) && messages != [] && Fits(st, name, |messages|)
    ensures QueuesInv(Publish(st, name, messages))
  {
    var n := Publish(st, name, messages);
    PublishKeepsNumbers(st, name, messages);
    forall m | 0 <= m < |n.places| && n.places[m].Queued?
      ensures m in Queue(n, n.places[m].queue)
    {
      if m >= |st.places| {
        assert n.queues[name][|Queue(st, name)| + (m - |st.places|)] == m;
      } else {
        assert m in Queue(st, st.places[m].queue);
      }
    }
  }

  lemma PublishKeepsDeliveries(st: Store, name: string, messages: seq<Message>)
    requires DeliveriesInv(st)
    ensures DeliveriesInv(Publish(st, name, messages))
  {
  }

  lemma PublishKeepsInv(st: Store, name: string, messages: seq<Message>)
    requires Inv(st)
    ensures Inv(Publish(st, name, messages))
  {
    PublishKeepsDeliveries(st, name, messages);
    if messages != [] && Fits(st, name, |messages|) {
      PublishKeepsQueues(st, name, messages);
    }
  }

  lemma RemainingNotTaken(st: Store, name: string, k: nat, i: nat)
    requires QueuesInv(st) && k <= i < |Queue(st, name)|
    ensures Queue(st, name)[i] !in Queue(st, name)[..k]
  {
    var q := Queue(st, name);
    assert forall j | 0 <= j < k :: q[..k][j] == q[j] && q[j] != q[i];
  }

  lemma OthersNotTaken(st: Store, name: string, k: nat, m: MessageId)
    requires QueuesInv(st) && k <= |Queue(st, name)| && m < |st.places| && st.places[m] != Queued(name)
    ensures m !in Queue(st, name)[..k]
  {
    var q := Queue(st, name);
    assert forall j | 0 <= j < k :: q[..k][j] == q[j] && st.places[q[j]] == Queued(name);
  }

  /** What is still queued after a take is where it was. */
  lemma QueuedStays(st: Store, name: string, k: nat, other: string, m: MessageId)
    requires QueuesInv(st) && k <= |Queue(st, name)| && m < |st.places| && st.places[m] == Queued(other)
    requires m in if other == name then Queue(st, name)[k..] else Queue(st, other)
    ensures PlaceAfterTake(st, Queue(st, name)[..k], m) == Queued(other)
  {
    if other == name {
      var i :| 0 <= i < |Queue(st, name)[k..]| && Queue(st, name)[k..][i] == m;
      RemainingNotTaken(st, name, k, i + k);
    } else {
      OthersNotTaken(st, name, k, m);
    }
  }

  /** A message not taken from a queue is still in it. */
  lemma NotTakenStays(st: Store, name: string, k: nat, m: MessageId)
    requires QueuesInv(st) && k <= |Queue(st, name)| && m < |st.places|
    requires st.places[m].Queued? && m !in Queue(st, name)[..k]
    ensures m in if st.places[m].queue == name then Queue(st, name)[k..] else Queue(st, st.places[m].queue)
  {
    var q := Queue(st, name);
    assert m in Queue(st, st.places[m].queue);
    assert q == q[..k] + q[k..];
  }

  lemma QueueAfterConsume(st: Store, name: string, maxBatch: nat, other: string)
    ensures Queue(Consume(st, name, maxBatch), other)
            == if other == name then Queue(st, name)[Taken(st, name, maxBatch)..] else Queue(st, other)
  {
  }

  /** Queue `name` is in order: within bounds, its messages placed there, each once. */
  ghost predicate QueueInv(st: Store, name: string) {
    && |Queue(st, name)| <= st.bufferSize
    && (forall m | m in Queue(st, name) :: m < |st.places| && st.places[m] == Queued(name))
    && (forall i, j | 0 <= i < j < |Queue(st, name)| :: Queue(st, name)[i] != Queue(st, name)[j])
  }

  lemma ConsumeKeepsQueue(st: Store, name: string, maxBatch: nat, other: string)
    requires QueuesInv(st)
    ensures QueueInv(Consume(st, name, maxBatch), other)
  {
    var k, n := Taken(st, name, maxBatch), Consume(st, name, maxBatch);
    QueueAfterConsume(st, name, maxBatch, other);
    forall m | m in Queue(n, other)
      ensures m < |n.places| && n.places[m] == Queued(other)
    {
      assert m in Queue(st, other);
      QueuedStays(st, name, k, other, m);
    }
  }

  lemma QueueByQueue(st: Store)
    requires forall name | name in st.queues :: QueueInv(st, name)
    requires forall m | 0 <= m < |st.places| && st.places[m].Queued? :: m in Queue(st, st.places[m].queue)
    ensures QueuesInv(st)
  {
    forall name | name in st.queues
      ensures QueueInv(st, name) && Queue(st, name) == st.queues[name]
    {
    }
  }

  lemma ConsumeKeepsQueues(st: Store, name: string, maxBatch: nat)
    requires QueuesInv(st)
    ensures QueuesInv(Consume(st, name, maxBatch))
  {
    var k, n := Taken(st, name, maxBatch), Consume(st, name, maxBatch);
    forall other | other in n.queues
      ensures QueueInv(n, other)
    {
      ConsumeKeepsQueue(st, name, maxBatch, other);
    }
    forall m | 0 <= m < |n.places| && n.places[m].Queued?
      ensures m in Queue(n, n.places[m].queue)
    {
      NotTakenStays(st, name, k, m);
      QueueAfterConsume(st, name, maxBatch, st.places[m].queue);
    }
    QueueByQueue(n);
  }

  /** A message that is taken goes to the delivery created for it. */
  lemma TakenGoesWith(st: Store, name: string, k: nat, i: nat)
    requires QueuesInv(st) && i < k <= |Queue(st, name)|
    ensures
      var q := Queue(st, name);
      q[i] < |st.places| && PlaceAfterTake(st, q[..k], q[i]) == With(|st.deliveries| + i)
  {
    var q := Queue(st, name);
    assert q[..k][i] == q[i];
    var j := IndexOf(q[..k], q[i]);
    assert q[j] == q[i];
  }

  /** A delivery that is out keeps its message. */
  lemma HeldStaysWith(st: Store, name: string, k: nat, d: DeliveryId)
    requires Inv(st) && k <= |Queue(st, name)| && d < |st.deliveries| && st.deliveries[d].phase != Nacked
    ensures PlaceAfterTake(st, Queue(st, name)[..k], st.deliveries[d].message) == With(d)
  {
    OthersNotTaken(st, name, k, st.deliveries[d].message);
  }

  lemma ConsumeKeepsHolders(st: Store, name: string, maxBatch: nat, d: DeliveryId)
    requires Inv(st) && d < |Consume(st, name, maxBatch).deliveries|
    ensures
      var n := Consume(st, name, maxBatch);
      && n.deliveries[d].message < |n.places|
      && (n.deliveries[d].phase != Nacked ==> n.places[n.deliveries[d].message] == With(d))
  {
    var k := Taken(st, name, maxBatch);
    if d >= |st.deliveries| {
      TakenGoesWith(st, name, k, d - |st.deliveries|);
    } else if st.deliveries[d].phase != Nacked {
      HeldStaysWith(st, name, k, d);
    }
  }

  lemma ConsumeKeepsHeld(st: Store, name: string, maxBatch: nat, m: MessageId)
    requires Inv(st) && m < |st.places| && Consume(st, name, maxBatch).places[m].With?
    ensures
      var n := Consume(st, name, maxBatch);
      var d := n.places[m].delivery;
      d < |n.deliveries| && n.deliveries[d].message == m && n.deliveries[d].phase != Nacked
  {
  }

  lemma ConsumeKeepsDeliveries(st: Store, name: string, maxBatch: nat)
    requires Inv(st)
    ensures DeliveriesInv(Consume(st, name, maxBatch))
  {
    var n := Consume(st, name, maxBatch);
    forall d | 0 <= d < |n.deliveries|
      ensures n.deliveries[d].message < |n.places|
      ensures n.deliveries[d].phase != Nacked ==> n.places[n.deliveries[d].message] == With(d)
    {
      ConsumeKeepsHolders(st, name, maxBatch, d);
    }
    forall m | 0 <= m < |n.places| && n.places[m].With?
      ensures
        var d := n.places[m].delivery;
        d < |n.deliveries| && n.deliveries[d].message == m && n.deliveries[d].phase != Nacked
    {
      ConsumeKeepsHeld(st, name, maxBatch, m);
    }
  }

  lemma ConsumeKeepsInv(st: Store, name: string, maxBatch: nat)
    requires Inv(st)
    ensures Inv(Consume(st, name, maxBatch))
  {
    ConsumeKeepsQueues(st, name, maxBatch);
    ConsumeKeepsDeliveries(st, name, maxBatch);
  }

  lemma AdvanceKeepsInv(st: Store, d: DeliveryId, phase: Phase)
    requires Inv(st) && d < |st.deliveries| && st.deliveries[d].phase != Nacked && phase != Nacked
    ensures Inv(Advance(st, d, phase))
  {
  }

  lemma AbandonKeepsInv(st: Store, ds: seq<DeliveryId>)
    requires Inv(st)
    requires forall d | d in ds :: d < |st.deliveries| && st.deliveries[d].phase != Nacked
    ensures Inv(AbandonAll(st, ds))
  {
  }

  lemma NackKeepsQueues(st: Store, d: DeliveryId)
    requires Inv(st) && d < |st.deliveries| && st.deliveries[d].phase != Nacked
    ensures QueuesInv(Nack(st, d))
  {
    var Delivery(name, m, _, _) := st.deliveries[d];
    var n := Nack(st, d);
    assert st.places[m] == With(d);
    forall x | 0 <= x < |n.places| && n.places[x].Queued?
      ensures x in Queue(n, n.places[x].queue)
    {
      if x != m {
        assert x in Queue(st, st.places[x].queue);
      } else {
        assert n.queues[name][|Queue(st, name)|] == m;
      }
    }
  }

  lemma NackKeepsDeliveries(st: Store, d: DeliveryId)
    requires DeliveriesInv(st) && |st.contents| == |st.places|
    requires d < |st.deliveries| && st.deliveries[d].phase != Nacked
    ensures DeliveriesInv(Nack(st, d))
  {
    assert st.places[st.deliveries[d].message] == With(d);
  }

  lemma NackKeepsInv(st: Store, d: DeliveryId)
    requires Inv(st) && d < |st.deliveries| && st.deliveries[d].phase != Nacked
    ensures Inv(Nack(st, d))
  {
    NackKeepsQueues(st, d);
    NackKeepsDeliveries(st, d);
  }

  lemma WriteKeepsInv(st: Store, d: DeliveryId, content: Message)
    requires Inv(st) && d < |st.deliveries|
    ensures Inv(Write(st, d, content))
  {
  }

  lemma ClearKeepsInv(st: Store)
    requires Inv(st)
    ensures Inv(Clear(st))
  {
  }

  // ---- What room decides ---------------------------------------------------

  /** A publish appends its batch exactly when there is room for all of it. */
  lemma PublishDecides(st: Store, name: string, messages: seq<Message>)
    ensures
      var n := Publish(st, name, messages);
      var fits := |Queue(st, name)| + |messages| <= st.bufferSize;
      && Queue(n, name) == Queue(st, name) + (if fits then Numbers(|st.contents|, |messages|) else [])
      && n.contents == st.contents + (if fits then messages else [])
  {
    assert Queue(st, name) + [] == Queue(st, name) && st.contents + [] == st.contents;
    if messages == [] {
      assert Numbers(|st.contents|, |messages|) == [] && st.contents + messages == st.contents;
    }
  }

  /** A nacked message goes to the back of its queue, as the handler left it, exactly when there is room for it. */
  lemma NackDecides(st: Store, d: DeliveryId)
    requires d < |st.deliveries|
    requires st.deliveries[d].message < |st.places| && st.deliveries[d].message < |st.contents|
    ensures
      var dl, n := st.deliveries[d], Nack(st, d);
      var before := Queue(st, dl.queue);
      && Queue(n, dl.queue) == before + (if |before| < st.bufferSize then [dl.message] else [])
      && n.contents == (if |before| < st.bufferSize then st.contents[dl.message := dl.content] else st.contents)
      && n.deliveries[d].phase == Nacked
  {
    var before := Queue(st, st.deliveries[d].queue);
    assert before + [] == before;
  }

  // ---- What a consume hands out --------------------------------------------

  /** The messages handed out for queue `name` with the deliveries `ds`. */
  function Handed(ds: seq<Delivery>, name: string): seq<MessageId> {
    if ds == [] then []
    else (if ds[0].queue == name then [ds[0].message] else []) + Handed(ds[1..], name)
  }

  lemma {:induction false} HandedFresh(ds: seq<Delivery>, q: string, taken: seq<MessageId>, name: string)
    requires |ds| == |taken| && forall i | 0 <= i < |ds| :: ds[i].queue == q && ds[i].message == taken[i]
    ensures Handed(ds, name) == if q == name then taken else []
  {
    if ds != [] {
      HandedFresh(ds[1..], q, taken[1..], name);
      assert taken == [taken[0]] + taken[1..];
    }
  }

  /**
   A consume hands out the front of its queue, in order: at most `maxBatch` messages,
   or one; fewer only when the queue is left empty; and at least one when there is one.
   */
  lemma ConsumeHands(st: Store, q: string, maxBatch: nat)
    ensures
      var n := Consume(st, q, maxBatch);
      && |st.deliveries| <= |n.deliveries|
      && var d, left := Handed(n.deliveries[|st.deliveries|..], q), Queue(n, q);
         && Queue(st, q) == d + left
         && (|d| <= maxBatch || |d| <= 1)
         && (|d| < maxBatch ==> left == [])
         && (Queue(st, q) != [] ==> d != [])
  {
    ConsumeHandsPrefix(st, q, maxBatch, q);
    var before, k := Queue(st, q), Taken(st, q, maxBatch);
    assert before == before[..k] + before[k..];
  }

  /** One delivery is created for each message at the front of the queue, and none for another queue. */
  lemma ConsumeHandsPrefix(st: Store, q: string, maxBatch: nat, name: string)
    ensures |st.deliveries| <= |Consume(st, q, maxBatch).deliveries|
    ensures Handed(Consume(st, q, maxBatch).deliveries[|st.deliveries|..], name)
            == if q == name then Queue(st, q)[..Taken(st, q, maxBatch)] else []
  {
    var created := Consume(st, q, maxBatch).deliveries[|st.deliveries|..];
    HandedFresh(created, q, Queue(st, q)[..Taken(st, q, maxBatch)], name);
  }

  // ---- The seven places a message can be -----------------------------------

  ghost predicate InQueue(st: Store, m: MessageId) {
    exists name | name in st.queues :: m in st.queues[name]
  }

  predicate HasPhase(st: Store, m: MessageId, d: DeliveryId, inFlight: bool, phase: Phase) {
    && d < |st.deliveries| && st.deliveries[d].message == m
    && if inFlight then st.deliveries[d].phase.Handling? || st.deliveries[d].phase.Returned?
       else st.deliveries[d].phase == phase
  }

  ghost predicate InPhase(st: Store, m: MessageId, phase: Phase) {
    exists d :: HasPhase(st, m, d, false, phase)
  }

  ghost predicate InFlight(st: Store, m: MessageId) {
    exists d :: HasPhase(st, m, d, true, Handling)
  }

  /** How many of the seven descriptions fit message `m`. */
  ghost function Descriptions(st: Store, m: MessageId): nat
    requires m < |st.places|
  {
    Count(InQueue(st, m)) + Count(InPhase(st, m, Fetched)) + Count(InFlight(st, m))
    + Count(InPhase(st, m, Acked)) + Count(InPhase(st, m, Abandoned))
    + Count(st.places[m] == Dropped) + Count(st.places[m] == Cleared)
  }

  /** A message is queued exactly when its place says so. */
  lemma QueuedMeans(st: Store, m: MessageId)
    requires Inv(st) && m < |st.places|
    ensures InQueue(st, m) <==> st.places[m].Queued?
  {
    if InQueue(st, m) {
      var name :| name in st.queues && m in st.queues[name];
      var i :| 0 <= i < |st.queues[name]| && st.queues[name][i] == m;
    }
    if st.places[m].Queued? {
      assert m in Queue(st, st.places[m].queue);
    }
  }

  lemma DeliveredMeans(st: Store, m: MessageId, d: DeliveryId, inFlight: bool, phase: Phase)
    requires Inv(st) && m < |st.places| && phase != Nacked
    ensures HasPhase(st, m, d, inFlight, phase) ==> st.places[m] == With(d)
  {
  }

  predicate QueuedAt(st: Store, m: MessageId, name: string, i: nat) {
    name in st.queues && i < |st.queues[name]| && st.queues[name][i] == m
  }

  /** No two positions of the queues hold message `m`. */
  ghost predicate QueuedOnce(st: Store, m: MessageId) {
    forall name, i: nat, other, j: nat | QueuedAt(st, m, name, i) && QueuedAt(st, m, other, j) ::
      name == other && i == j
  }

  predicate HeldBy(st: Store, m: MessageId, d: DeliveryId) {
    d < |st.deliveries| && st.deliveries[d].message == m && st.deliveries[d].phase != Nacked
  }

  /** No two deliveries hold message `m`; those that were nacked have let go of it. */
  ghost predicate HeldOnce(st: Store, m: MessageId) {
    forall d, other | HeldBy(st, m, d) && HeldBy(st, m, other) :: d == other
  }

  /** Message `m` is in one of the seven places, and there is one copy of it there. */
  ghost predicate AccountedOnce(st: Store, m: MessageId)
    requires m < |st.places|
  {
    Descriptions(st, m) == 1 && QueuedOnce(st, m) && HeldOnce(st, m)
  }

  lemma NoTwoCopies(st: Store, m: MessageId)
    requires Inv(st)
    ensures QueuedOnce(st, m) && HeldOnce(st, m)
  {
    forall name, i: nat, other, j: nat | QueuedAt(st, m, name, i) && QueuedAt(st, m, other, j)
      ensures name == other && i == j
    {
      assert st.places[st.queues[name][i]] == Queued(name);
      assert st.places[st.queues[other][j]] == Queued(other);
    }
  }

  /** Every published message is in exactly one of the seven places, once. */
  lemma ExactlyOnePlace(st: Store, m: MessageId)
    requires Inv(st) && m < |st.places|
    ensures AccountedOnce(st, m)
  {
    NoTwoCopies(st, m);
    OneDescription(st, m);
  }

  lemma OneDescription(st: Store, m: MessageId)
    requires Inv(st) && m < |st.places|
    ensures Descriptions(st, m) == 1
  {
    QueuedMeans(st, m);
    forall d, inFlight, phase | phase != Nacked
      ensures HasPhase(st, m, d, inFlight, phase) ==> st.places[m] == With(d)
    {
      DeliveredMeans(st, m, d, inFlight, phase);
    }
    if st.places[m].With? {
      var d := st.places[m].delivery;
      var phase := st.deliveries[d].phase;
      assert HasPhase(st, m, d, phase.Handling? || phase.Returned?, phase);
      assert phase == Fetched ==> HasPhase(st, m, d, false, Fetched);
      assert phase == Acked ==> HasPhase(st, m, d, false, Acked);
      assert phase == Abandoned ==> HasPhase(st, m, d, false, Abandoned);
      assert phase.Handling? || phase.Returned? ==> HasPhase(st, m, d, true, Handling);
      assert InPhase(st, m, Fetched) ==> phase == Fetched;
      assert InPhase(st, m, Acked) ==> phase == Acked;
      assert InPhase(st, m, Abandoned) ==> phase == Abandoned;
      assert InFlight(st, m) ==> phase.Handling? || phase.Returned?;
    }
  }

  // ---- The adapter as an object --------------------------------------------

  datatype AdapterError = QueueFull | AlreadyAcknowledged | AlreadyNacked

  datatype Item = Item(message: Message, delivery: DeliveryId)

  /** A queue holds only numbers under which an object is stored. */
  lemma QueuesAreKnown(st: Store, name: string)
    requires Inv(st)
    ensures forall m | m in Queue(st, name) :: m < |st.contents| && Stored(st.contents, m) == st.contents[m]
  {
  }

  /** The deliveries from number `first` on, as a consumer gets them. */
  function Items(ds: seq<Delivery>, first: DeliveryId): (items: seq<Item>)
    ensures |items| == |ds|
    ensures forall i | 0 <= i < |ds| :: items[i] == Item(ds[i].content, first + i)
  {
    seq(|ds|, i requires 0 <= i < |ds| => Item(ds[i].content, first + i))
  }

  class MemoryAdapter {
    const bufferSize: nat
    var queues: map<string, seq<MessageId>>
    var contents: seq<Message>
    var deliveries: seq<Delivery>
    ghost var places: seq<Place>
    ghost var accepted: seq<Message>

    ghost function View(): Store
      reads this
    {
      Store(bufferSize, queues, deliveries, places, contents, accepted)
    }

    constructor (bufferSize: int)
      ensures View() == Empty(bufferSize) && Inv(View())
      ensures this.bufferSize == if bufferSize > 0 then bufferSize else 1000
    {
      this.bufferSize := if bufferSize > 0 then bufferSize else 1000;
      queues, contents, deliveries, places, accepted := map[], [], [], [], [];
    }

    /** All of the messages or none of them. */
    method PublishAll(name: string, messages: seq<Message>) returns (r: Result<(), AdapterError>)
      modifies this
      ensures View() == Publish(old(View()), name, messages)
      ensures r.Ok? <==> messages == [] || |Queue(old(View()), name)| + |messages| <= bufferSize
      ensures Queue(View(), name)
              == Queue(old(View()), name) + (if r.Ok? then Numbers(old(|contents|), |messages|) else [])
      ensures contents == old(contents) + (if r.Ok? then messages else [])
      ensures r.Err? ==> r == Err(QueueFull)
    {
      if |messages| == 0 {
        return Ok(());
      }
      var queue := if name in queues then queues[name] else [];
      queues := queues[name := queue];
      if |queue| + |messages| > bufferSize {
        return Err(QueueFull);
      }
      queues := queues[name := queue + Numbers(|contents|, |messages|)];
      contents, accepted := contents + messages, accepted + messages;
      places := places + seq(|messages|, i => Queued(name));
      r := Ok(());
    }

    /** Splice off the front: each message goes out with a fresh receipt that shares it. */
    method ConsumeBatch(name: string, maxBatch: nat) returns (items: seq<Item>)
      modifies this
      ensures View() == Consume(old(View()), name, maxBatch)
      ensures |items| == |deliveries| - old(|deliveries|)
      ensures old(|deliveries|) <= |deliveries|
      ensures items == Items(deliveries[old(|deliveries|)..], old(|deliveries|))
      ensures |items| <= maxBatch || |items| <= 1
      ensures |items| < maxBatch ==> Queue(View(), name) == []
      ensures Queue(old(View()), name) != [] ==> items != []
    {
      ghost var after := Consume(View(), name, maxBatch);
      var queue := if name in queues then queues[name] else [];
      var limit := if maxBatch > 1 then maxBatch else 1;
      var n := if limit < |queue| then limit else |queue|;
      var handed := Deliveries(name, queue[..n], contents);
      assert after.queues == queues[name := queue[n..]] && after.deliveries == deliveries + handed;
      queues := queues[name := queue[n..]];
      items := Items(handed, |deliveries|);
      assert (deliveries + handed)[|deliveries|..] == handed;
      deliveries := deliveries + handed;
      places := after.places;
    }

    /** A handler changes the message it was given. */
    method ChangeMessage(d: DeliveryId, content: Message)
      requires Inv(View()) && d < |deliveries|
      modifies this`deliveries
      ensures Inv(View()) && View() == Write(old(View()), d, content)
    {
      WriteKeepsInv(View(), d, content);
      deliveries := deliveries[d := deliveries[d].(content := content)];
    }

    method ClearAll()
      requires Inv(View())
      modifies this
      ensures Inv(View()) && View() == Clear(old(View()))
    {
      ghost var before := View();
      ClearKeepsInv(before);
      var names := queues.Keys;
      while names != {}
        invariant names <= queues.Keys == before.queues.Keys
        invariant forall name | name in queues && name !in names :: queues[name] == []
        invariant View() == before.(queues := queues)
        decreases names
      {
        var name :| name in names;
        queues := queues[name := []];
        names := names - {name};
      }
      assert queues == Clear(before).queues;
      places := Clear(before).places;
    }

    method AckDelivery(d: DeliveryId) returns (r: Result<(), AdapterError>)
      requires Inv(View()) && d < |deliveries|
      modifies this`deliveries
      ensures Inv(View())
      ensures old(deliveries[d].phase == Acked) ==> r == Err(AlreadyAcknowledged) && View() == old(View())
      ensures old(deliveries[d].phase == Nacked) ==> r == Err(AlreadyNacked) && View() == old(View())
      ensures old(deliveries[d].phase != Acked && deliveries[d].phase != Nacked) ==>
                r == Ok(()) && View() == Advance(old(View()), d, Acked)
    {
      if deliveries[d].phase == Acked {
        return Err(AlreadyAcknowledged);
      }
      if deliveries[d].phase == Nacked {
        return Err(AlreadyNacked);
      }
      AdvanceKeepsInv(View(), d, Acked);
      deliveries := deliveries[d := deliveries[d].(phase := Acked)];
      r := Ok(());
    }

    method NackDelivery(d: DeliveryId) returns (r: Result<(), AdapterError>)
      requires Inv(View()) && d < |deliveries|
      modifies this
      ensures Inv(View())
      ensures old(deliveries[d].phase == Acked) ==> r == Err(AlreadyAcknowledged) && View() == old(View())
      ensures old(deliveries[d].phase == Nacked) ==> r == Err(AlreadyNacked) && View() == old(View())
      ensures old(deliveries[d].phase != Acked && deliveries[d].phase != Nacked) ==>
                r == Ok(()) && View() == Nack(old(View()), d)
    {
      if deliveries[d].phase == Acked {
        return Err(AlreadyAcknowledged);
      }
      if deliveries[d].phase == Nacked {
        return Err(AlreadyNacked);
      }
      NackKeepsInv(View(), d);
      ghost var after := Nack(View(), d);
      var Delivery(name, m, content, _) := deliveries[d];
      deliveries := deliveries[d := deliveries[d].(phase := Nacked)];
      var queue := if name in queues then queues[name] else [];
      if |queue| < bufferSize {
        queues := queues[name := queue + [m]];
        contents := contents[m := content];
      } else {
        queues := queues[name := queue];
      }
      places := after.places;
      r := Ok(());
    }
  }
}
