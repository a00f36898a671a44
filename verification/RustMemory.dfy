/**
 The Rust memory adapter: a lock-guarded map of bounded queues, and receipts that
 settle once. Each critical section is one step; `nack` has two, so other steps
 may come between the receipt turning nacked and its message being put back.
 */
module RustMemory {
  import opened Bytes
  import opened Runs
  import opened Wire

  datatype Phase =
    | Pending
    | Acked
    | Nacked    // marked, its message not yet put back
    | Requeued  // its message put back or dropped

  datatype Receipt = Receipt(queue: string, message: Message, phase: Phase)

  datatype State = State(bufferSize: nat, queues: map<string, seq<Message>>, receipts: seq<Receipt>)

  /** A buffer size of zero means 1000. */
  function Initial(bufferSize: nat): State {
    State(if bufferSize == 0 then 1000 else bufferSize, map[], [])
  }

  /** Critical sections; the failing calls of a receipt that is already settled change nothing. */
  datatype Event =
    | Publish(queue: string, messages: seq<Message>)
    | Consume(queue: string, maxBatch: nat)
    | Ack(receipt: nat)
    | Nack(receipt: nat)
    | Requeue(receipt: nat)
    | SettleAgain(receipt: nat)
    | Clear

  function Queue(queues: map<string, seq<Message>>, name: string): seq<Message> {
    if name in queues then queues[name] else []
  }

  predicate ReceiptAt(s: State, r: nat, phase: Phase) {
    r < |s.receipts| && s.receipts[r].phase == phase
  }

  predicate Enabled(s: State, e: Event) {
    match e
    case Publish(_, _) => true
    case Consume(_, _) => true
    case Ack(r) => ReceiptAt(s, r, Pending)
    case Nack(r) => ReceiptAt(s, r, Pending)
    case Requeue(r) => ReceiptAt(s, r, Nacked)
    case SettleAgain(r) => r < |s.receipts| && s.receipts[r].phase != Pending
    case Clear => true
  }

  predicate Fits(s: State, name: string, extra: nat) {
    |Queue(s.queues, name)| + extra <= s.bufferSize
  }

  /** How many messages one consume takes. */
  function Taken(s: State, name: string, maxBatch: nat): (n: nat)
    ensures n <= |Queue(s.queues, name)|
  {
    var limit := if maxBatch > 1 then maxBatch else 1;
    if limit < |Queue(s.queues, name)| then limit else |Queue(s.queues, name)|
  }

  function Receipts(name: string, messages: seq<Message>): (rs: seq<Receipt>)
    ensures |rs| == |messages|
  {
    seq(|messages|, i requires 0 <= i < |messages| => Receipt(name, messages[i], Pending))
  }

  function Mark(s: State, r: nat, phase: Phase): State
    requires r < |s.receipts|
  {
    s.(receipts := s.receipts[r := s.receipts[r].(phase := phase)])
  }

  function Step(s: State, e: Event): State
    requires Enabled(s, e)
  {
    match e
    case Publish(name, messages) =>
      if messages == [] then s
      else if Fits(s, name, |messages|) then s.(queues := s.queues[name := Queue(s.queues, name) + messages])
      else s.(queues := s.queues[name := Queue(s.queues, name)])
    case Consume(name, maxBatch) =>
      var q, n := Queue(s.queues, name), Taken(s, name, maxBatch);
      s.(queues := s.queues[name := q[n..]], receipts := s.receipts + Receipts(name, q[..n]))
    case Ack(r) => Mark(s, r, Acked)
    case Nack(r) => Mark(s, r, Nacked)
    case Requeue(r) =>
      var name := s.receipts[r].queue;
      var q := Queue(s.queues, name);
      Mark(s, r, Requeued)
        .(queues := s.queues[name := if Fits(s, name, 1) then q + [s.receipts[r].message] else q])
    case SettleAgain(_) => s
    case Clear => s.(queues := map name | name in s.queues :: [])
  }

  function StepOrStay(s: State, e: Event): State {
    if Enabled(s, e) then Step(s, e) else s
  }

  const SYSTEM: System<State, Event> := System(Enabled, StepOrStay)

  // ---- Multisets of messages -----------------------------------------------

  /** All messages in all queues. */
  ghost function Stock(queues: map<string, seq<Message>>): multiset<Message>
    decreases |queues|
  {
    if queues == map[] then multiset{}
    else
      var name :| name in queues;
      SmallerWithout(queues, name);
      multiset(queues[name]) + Stock(queues - {name})
  }

  lemma SmallerWithout(queues: map<string, seq<Message>>, name: string)
    requires name in queues
    ensures |queues - {name}| < |queues|
  {
    assert (queues - {name}).Keys == queues.Keys - {name};
  }

  /** The order in which the queues are counted does not matter. */
  lemma {:induction false} StockAt(queues: map<string, seq<Message>>, name: string)
    requires name in queues
    ensures Stock(queues) == multiset(queues[name]) + Stock(queues - {name})
    decreases |queues|
  {
    var first :| first in queues && Stock(queues) == multiset(queues[first]) + Stock(queues - {first});
    if first != name {
      SmallerWithout(queues, first);
      StockAt(queues - {first}, name);
      assert queues - {first} - {name} == queues - {name} - {first};
      SmallerWithout(queues, name);
      StockAt(queues - {name}, first);
    }
  }

  lemma Cancel(a: multiset<Message>, b: multiset<Message>, c: multiset<Message>)
    requires a + c == b + c
    ensures a == b
  {
    forall x
      ensures a[x] == b[x]
    {
      assert (a + c)[x] == (b + c)[x];
    }
  }

  lemma StockSet(queues: map<string, seq<Message>>, name: string, q: seq<Message>)
    ensures Stock(queues[name := q]) + multiset(Queue(queues, name)) == Stock(queues) + multiset(q)
  {
    var updated := queues[name := q];
    StockAt(updated, name);
    assert updated - {name} == queues - {name};
    if name in queues {
      StockAt(queues, name);
    } else {
      assert queues - {name} == queues;
    }
  }

  lemma StockPut(queues: map<string, seq<Message>>, name: string, more: seq<Message>)
    ensures Stock(queues[name := Queue(queues, name) + more]) == Stock(queues) + multiset(more)
  {
    var q := Queue(queues, name);
    StockSet(queues, name, q + more);
    assert multiset(q + more) == multiset(q) + multiset(more);
    Cancel(Stock(queues[name := q + more]), Stock(queues) + multiset(more), multiset(q));
  }

  lemma StockTake(queues: map<string, seq<Message>>, name: string, n: nat)
    requires n <= |Queue(queues, name)|
    ensures Stock(queues) == Stock(queues[name := Queue(queues, name)[n..]]) + multiset(Queue(queues, name)[..n])
  {
    var q := Queue(queues, name);
    StockSet(queues, name, q[n..]);
    assert q == q[..n] + q[n..];
    assert multiset(q) == multiset(q[..n]) + multiset(q[n..]);
    Cancel(Stock(queues), Stock(queues[name := q[n..]]) + multiset(q[..n]), multiset(q[n..]));
  }

  lemma {:induction false} StockEmpty(queues: map<string, seq<Message>>)
    requires forall name | name in queues :: queues[name] == []
    ensures Stock(queues) == multiset{}
    decreases |queues|
  {
    if queues != map[] {
      var name :| name in queues;
      StockAt(queues, name);
      SmallerWithout(queues, name);
      StockEmpty(queues - {name});
    }
  }

  ghost function One(r: Receipt, phase: Phase): multiset<Message> {
    if r.phase == phase then multiset{r.message} else multiset{}
  }

  /** The messages of the receipts in one phase. */
  ghost function Held(rs: seq<Receipt>, phase: Phase): multiset<Message> {
    if rs == [] then multiset{} else One(rs[0], phase) + Held(rs[1..], phase)
  }

  lemma {:induction false} HeldConcat(a: seq<Receipt>, b: seq<Receipt>, phase: Phase)
    ensures Held(a + b, phase) == Held(a, phase) + Held(b, phase)
  {
    if a == [] {
      assert a + b == b;
    } else {
      assert (a + b)[1..] == a[1..] + b;
      HeldConcat(a[1..], b, phase);
    }
  }

  function Without(rs: seq<Receipt>, r: nat): seq<Receipt>
    requires r < |rs|
  {
    rs[..r] + rs[r + 1..]
  }

  lemma HeldAt(rs: seq<Receipt>, r: nat, phase: Phase)
    requires r < |rs|
    ensures Held(rs, phase) == Held(Without(rs, r), phase) + One(rs[r], phase)
  {
    var a, x, b := rs[..r], [rs[r]], rs[r + 1..];
    assert rs == a + (x + b);
    HeldConcat(a, x + b, phase);
    HeldConcat(x, b, phase);
    HeldConcat(a, b, phase);
    assert Held(x, phase) == One(rs[r], phase) + Held(x[1..], phase);
  }

  lemma FirstAndRest(messages: seq<Message>)
    requires messages != []
    ensures multiset(messages) == multiset{messages[0]} + multiset(messages[1..])
  {
    assert messages == [messages[0]] + messages[1..];
  }

  lemma {:induction false} HeldFresh(name: string, messages: seq<Message>, phase: Phase)
    ensures Held(Receipts(name, messages), phase) == if phase == Pending then multiset(messages) else multiset{}
  {
    if messages != [] {
      HeldFresh(name, messages[1..], phase);
      assert Receipts(name, messages)[1..] == Receipts(name, messages[1..]);
      FirstAndRest(messages);
    }
  }

  // ---- Conservation --------------------------------------------------------

  /** Queued, delivered and not settled, nacked but not yet put back, and acknowledged. */
  ghost function Total(s: State): multiset<Message> {
    Stock(s.queues) + Held(s.receipts, Pending) + Held(s.receipts, Nacked) + Held(s.receipts, Acked)
  }

  ghost function Published(s: State, e: Event): multiset<Message> {
    if e.Publish? && Fits(s, e.queue, |e.messages|) then multiset(e.messages) else multiset{}
  }

  /** Put back on a full queue. */
  ghost function Dropped(s: State, e: Event): multiset<Message> {
    if e.Requeue? && ReceiptAt(s, e.receipt, Nacked) && !Fits(s, s.receipts[e.receipt].queue, 1)
    then multiset{s.receipts[e.receipt].message} else multiset{}
  }

  ghost function Cleared(s: State, e: Event): multiset<Message> {
    if e.Clear? then Stock(s.queues) else multiset{}
  }

  ghost function Lost(s: State, e: Event): multiset<Message> {
    Dropped(s, e) + Cleared(s, e)
  }

  ghost predicate Balance(s: State, e: Event)
    requires Enabled(s, e)
  {
    Total(s) + Published(s, e) == Total(Step(s, e)) + Lost(s, e)
  }

  type Bag = multiset<Message>

  /** The total when only the stock changes. */
  lemma StockMoves(stock: Bag, stock': Bag, p: Bag, n: Bag, a: Bag, come: Bag, go: Bag)
    requires stock' + go == stock + come
    ensures stock + p + n + a + come == stock' + p + n + a + go
  {
    assert stock + p + n + a + come == (stock + come) + (p + n + a);
    assert stock' + p + n + a + go == (stock' + go) + (p + n + a);
  }

  lemma NothingLost(s: State, e: Event)
    requires !e.Requeue? && !e.Clear?
    ensures Lost(s, e) == multiset{}
  {
  }

  lemma PublishStock(s: State, e: Event)
    requires e.Publish?
    ensures Stock(Step(s, e).queues) == Stock(s.queues) + Published(s, e)
  {
    if e.messages != [] {
      StockPut(s.queues, e.queue, e.messages);
      StockPut(s.queues, e.queue, []);
      assert Queue(s.queues, e.queue) + [] == Queue(s.queues, e.queue);
    }
  }

  lemma PublishBalances(s: State, e: Event)
    requires e.Publish?
    ensures Balance(s, e)
  {
    PublishStock(s, e);
    NothingLost(s, e);
    var stock := Stock(Step(s, e).queues);
    var none: Bag := multiset{};
    assert stock + none == stock;
    StockMoves(Stock(s.queues), stock, Held(s.receipts, Pending), Held(s.receipts, Nacked), Held(s.receipts, Acked),
               Published(s, e), none);
  }

  lemma ConsumeMoves(st: Bag, st': Bag, p: Bag, n: Bag, a: Bag, x: Bag)
    requires st == st' + x
    ensures st + p + n + a == st' + (p + x) + n + a
  {
  }

  lemma ConsumeHolds(rs: seq<Receipt>, name: string, messages: seq<Message>)
    ensures Held(rs + Receipts(name, messages), Pending) == Held(rs, Pending) + multiset(messages)
    ensures Held(rs + Receipts(name, messages), Nacked) == Held(rs, Nacked)
    ensures Held(rs + Receipts(name, messages), Acked) == Held(rs, Acked)
  {
    var added := Receipts(name, messages);
    HeldConcat(rs, added, Pending);
    HeldConcat(rs, added, Nacked);
    HeldConcat(rs, added, Acked);
    HeldFresh(name, messages, Pending);
    HeldFresh(name, messages, Nacked);
    HeldFresh(name, messages, Acked);
  }

  lemma ConsumeBalances(s: State, e: Event)
    requires e.Consume?
    ensures Balance(s, e)
  {
    var q, n := Queue(s.queues, e.queue), Taken(s, e.queue, e.maxBatch);
    StockTake(s.queues, e.queue, n);
    ConsumeHolds(s.receipts, e.queue, q[..n]);
    NothingLost(s, e);
    ConsumeMoves(Stock(s.queues), Stock(Step(s, e).queues), Held(s.receipts, Pending), Held(s.receipts, Nacked),
                 Held(s.receipts, Acked), multiset(q[..n]));
  }

  /** The tallies of the receipts other than `r`, which a change of phase leaves alone. */
  lemma MarkMoves(s: State, r: nat, phase: Phase, p: Phase) returns (others: Bag)
    requires r < |s.receipts|
    ensures Held(s.receipts, p) == others + One(s.receipts[r], p)
    ensures Held(Mark(s, r, phase).receipts, p) == others + One(s.receipts[r].(phase := phase), p)
  {
    var marked := Mark(s, r, phase).receipts;
    HeldAt(s.receipts, r, p);
    HeldAt(marked, r, p);
    assert Without(marked, r) == Without(s.receipts, r);
    others := Held(Without(s.receipts, r), p);
  }

  lemma SettleMoves(st: Bag, p: Bag, n: Bag, a: Bag, m: Bag)
    ensures st + (p + m) + n + a == st + p + (n + m) + a == st + p + n + (a + m)
    ensures st + p + (n + m) + a == (st + m) + p + n + a == st + p + n + a + m
  {
  }

  lemma SettleBalances(s: State, r: nat, phase: Phase)
    requires ReceiptAt(s, r, Pending) && (phase == Acked || phase == Nacked)
    ensures Total(s) == Total(Mark(s, r, phase))
  {
    var p := MarkMoves(s, r, phase, Pending);
    var n := MarkMoves(s, r, phase, Nacked);
    var a := MarkMoves(s, r, phase, Acked);
    var none: Bag := multiset{};
    assert p + none == p && n + none == n && a + none == a;
    SettleMoves(Stock(s.queues), p, n, a, multiset{s.receipts[r].message});
  }

  lemma RequeueMarks(s: State, r: nat) returns (others: Bag)
    requires ReceiptAt(s, r, Nacked)
    ensures
      var rs := Mark(s, r, Requeued).receipts;
      && Held(s.receipts, Nacked) == others + multiset{s.receipts[r].message}
      && Held(rs, Nacked) == others
      && Held(rs, Pending) == Held(s.receipts, Pending)
      && Held(rs, Acked) == Held(s.receipts, Acked)
  {
    var none: Bag := multiset{};
    var p := MarkMoves(s, r, Requeued, Pending);
    others := MarkMoves(s, r, Requeued, Nacked);
    var a := MarkMoves(s, r, Requeued, Acked);
    assert p + none == p && others + none == others && a + none == a;
  }

  lemma RequeueStock(s: State, e: Event)
    requires Enabled(s, e) && e.Requeue?
    ensures Stock(Step(s, e).queues) + Lost(s, e) == Stock(s.queues) + multiset{s.receipts[e.receipt].message}
  {
    var r := s.receipts[e.receipt];
    var none: Bag := multiset{};
    if Fits(s, r.queue, 1) {
      StockPut(s.queues, r.queue, [r.message]);
      assert multiset([r.message]) == multiset{r.message};
      assert Lost(s, e) == none;
    } else {
      StockPut(s.queues, r.queue, []);
      assert Queue(s.queues, r.queue) + [] == Queue(s.queues, r.queue);
      assert Lost(s, e) == multiset{r.message} + none;
    }
  }

  lemma RequeueTotals(s: State, e: Event) returns (p: Bag, n: Bag, a: Bag)
    requires Enabled(s, e) && e.Requeue?
    ensures Total(s) == Stock(s.queues) + p + n + a + multiset{s.receipts[e.receipt].message}
    ensures Total(Step(s, e)) == Stock(Step(s, e).queues) + p + n + a
  {
    p, a := Held(s.receipts, Pending), Held(s.receipts, Acked);
    n := RequeueMarks(s, e.receipt);
    SettleMoves(Stock(s.queues), p, n, a, multiset{s.receipts[e.receipt].message});
  }

  lemma RequeueBalances(s: State, e: Event)
    requires Enabled(s, e) && e.Requeue?
    ensures Balance(s, e)
  {
    var p, n, a := RequeueTotals(s, e);
    RequeueStock(s, e);
    StockMoves(Stock(s.queues), Stock(Step(s, e).queues), p, n, a,
               multiset{s.receipts[e.receipt].message}, Lost(s, e));
  }

  lemma ClearBalances(s: State)
    ensures Balance(s, Clear)
  {
    StockEmpty(Step(s, Clear).queues);
  }

  lemma EveryStepBalances(s: State, e: Event)
    requires Enabled(s, e)
    ensures Balance(s, e)
  {
    match e {
      case Publish(_, _) => PublishBalances(s, e);
      case Consume(_, _) => ConsumeBalances(s, e);
      case Ack(r) => SettleBalances(s, r, Acked);
      case Nack(r) => SettleBalances(s, r, Nacked);
      case Requeue(_) => RequeueBalances(s, e);
      case SettleAgain(_) =>
      case Clear => ClearBalances(s);
    }
  }

  /**
   Conservation: over any interleaving on any number of queues, the messages
   published are those queued, pending, nacked and on their way back, and
   acknowledged, plus those dropped on a full queue and those cleared.
   */
  lemma MessagesConserved(bufferSize: nat, es: seq<Event>)
    requires IsRun(SYSTEM, Initial(bufferSize), es)
    ensures
      var s := After(SYSTEM, Initial(bufferSize), es);
      Sum(SYSTEM, Published, Initial(bufferSize), es)
      == Stock(s.queues) + Held(s.receipts, Pending) + Held(s.receipts, Nacked) + Held(s.receipts, Acked)
         + Sum(SYSTEM, Lost, Initial(bufferSize), es)
  {
    forall s, e | Enabled(s, e)
      ensures Total(s) + Published(s, e) == Total(StepOrStay(s, e)) + Lost(s, e)
    {
      EveryStepBalances(s, e);
    }
    Conservation(SYSTEM, Total, Published, Lost, Initial(bufferSize), es);
    assert Total(Initial(bufferSize)) == multiset{};
  }

  // ---- Capacity and receipts -----------------------------------------------

  ghost predicate Bounded(s: State, limit: nat) {
    s.bufferSize == limit && forall name | name in s.queues :: |s.queues[name]| <= limit
  }

  /** No queue ever holds more than the buffer size. */
  lemma QueuesBounded(bufferSize: nat, es: seq<Event>)
    requires IsRun(SYSTEM, Initial(bufferSize), es)
    ensures Bounded(After(SYSTEM, Initial(bufferSize), es), if bufferSize == 0 then 1000 else bufferSize)
  {
    var limit := Initial(bufferSize).bufferSize;
    var inv := (s: State) => Bounded(s, limit);
    Invariant(SYSTEM, inv, Initial(bufferSize), es);
  }

  predicate Settles(e: Event, r: nat) {
    e == Ack(r) || e == Nack(r)
  }

  lemma SettledStays(s: State, e: Event, r: nat)
    requires Enabled(s, e) && r < |s.receipts| && s.receipts[r].phase != Pending
    ensures !Settles(e, r) && r < |Step(s, e).receipts| && Step(s, e).receipts[r].phase != Pending
  {
  }

  /** A receipt is acknowledged or nacked at most once, whoever calls it and however often. */
  lemma SettlesOnce(bufferSize: nat, es: seq<Event>, i: nat, j: nat, r: nat)
    requires IsRun(SYSTEM, Initial(bufferSize), es) && i < j < |es|
    requires Settles(es[i], r)
    ensures !Settles(es[j], r)
  {
    var quiet := (s: State) => r < |s.receipts| && s.receipts[r].phase != Pending;
    var bad := (e: Event) => Settles(e, r);
    StateAt(SYSTEM, Initial(bufferSize), es, i);
    StateAfter(SYSTEM, Initial(bufferSize), es, i);
    forall s, e | quiet(s) && Enabled(s, e)
      ensures !bad(e) && quiet(StepOrStay(s, e))
    {
      SettledStays(s, e, r);
    }
    NoneAfterQuiet(SYSTEM, quiet, bad, Initial(bufferSize), es, i + 1, j);
  }

  // ---- First in, first out -------------------------------------------------

  /** What an event appends to queue `name`. */
  function Appended(s: State, e: Event, name: string): seq<Message> {
    match e
    case Publish(q, messages) => if q == name && Fits(s, name, |messages|) then messages else []
    case Requeue(r) =>
      if ReceiptAt(s, r, Nacked) && s.receipts[r].queue == name && Fits(s, name, 1)
      then [s.receipts[r].message] else []
    case _ => []
  }

  /** The messages handed out for queue `name` with the receipts `rs`. */
  function Handed(rs: seq<Receipt>, name: string): seq<Message> {
    if rs == [] then []
    else (if rs[0].queue == name then [rs[0].message] else []) + Handed(rs[1..], name)
  }

  /** The receipts an event creates. */
  function Created(s: State, e: Event): seq<Receipt> {
    var rs := StepOrStay(s, e).receipts;
    if |s.receipts| <= |rs| then rs[|s.receipts|..] else []
  }

  /** What an event hands to a consumer of queue `name`. */
  function Delivered(s: State, e: Event, name: string): seq<Message> {
    Handed(Created(s, e), name)
  }

  lemma {:induction false} HandedFresh(q: string, messages: seq<Message>, name: string)
    ensures Handed(Receipts(q, messages), name) == if q == name then messages else []
  {
    if messages != [] {
      HandedFresh(q, messages[1..], name);
      assert Receipts(q, messages)[1..] == Receipts(q, messages[1..]);
      assert messages == [messages[0]] + messages[1..];
    }
  }

  lemma DeliveredIsPrefix(s: State, e: Event, name: string)
    requires Enabled(s, e)
    ensures Delivered(s, e, name)
            == if e.Consume? && e.queue == name then Queue(s.queues, name)[..Taken(s, name, e.maxBatch)] else []
  {
    if e.Consume? {
      var taken := Queue(s.queues, e.queue)[..Taken(s, e.queue, e.maxBatch)];
      assert Created(s, e) == Receipts(e.queue, taken);
      HandedFresh(e.queue, taken, name);
    } else {
      assert Created(s, e) == [];
    }
  }

  /**
   Only a consume creates receipts. It hands out the front of its queue: at most
   `maxBatch` messages, or one; fewer only when the queue is left empty; and at least
   one when there is one.
   */
  lemma DeliveredMeans(s: State, e: Event, name: string)
    requires Enabled(s, e)
    ensures !(e.Consume? && e.queue == name) ==> Delivered(s, e, name) == []
    ensures e.Consume? && e.queue == name ==>
              var d, left := Delivered(s, e, name), Queue(StepOrStay(s, e).queues, name);
              && Queue(s.queues, name) == d + left
              && (|d| <= e.maxBatch || |d| <= 1)
              && (|d| < e.maxBatch ==> left == [])
              && (Queue(s.queues, name) != [] ==> d != [])
  {
    DeliveredIsPrefix(s, e, name);
    if e.Consume? {
      var q, n := Queue(s.queues, name), Taken(s, name, e.maxBatch);
      assert q == q[..n] + q[n..];
    }
  }

  /** A publish appends its batch exactly when there is room for all of it, and otherwise leaves the queue alone. */
  lemma PublishDecides(s: State, name: string, messages: seq<Message>)
    ensures
      var before, after := Queue(s.queues, name), Queue(StepOrStay(s, Publish(name, messages)).queues, name);
      after == before + (if |before| + |messages| <= s.bufferSize then messages else [])
  {
    assert Queue(s.queues, name) + [] == Queue(s.queues, name);
  }

  /** A nacked message goes to the back of its queue exactly when there is room for it. */
  lemma RequeueDecides(s: State, r: nat)
    requires ReceiptAt(s, r, Nacked)
    ensures
      var name := s.receipts[r].queue;
      var before, after := Queue(s.queues, name), Queue(StepOrStay(s, Requeue(r)).queues, name);
      after == before + (if |before| < s.bufferSize then [s.receipts[r].message] else [])
  {
    assert Queue(s.queues, s.receipts[r].queue) + [] == Queue(s.queues, s.receipts[r].queue);
  }

  lemma QueueStep(s: State, e: Event, name: string)
    requires Enabled(s, e) && !e.Clear?
    ensures Queue(s.queues, name) + Appended(s, e, name) == Delivered(s, e, name) + Queue(Step(s, e).queues, name)
  {
    DeliveredMeans(s, e, name);
    assert Queue(s.queues, name) + [] == Queue(s.queues, name);
  }

  /**
   Order: on a queue that is never cleared, what consumers received followed by
   what is still queued is exactly what was appended, in order: each successful
   publish its whole batch, each failed one nothing, each nack with room one copy.
   */
  lemma QueueIsFifo(bufferSize: nat, es: seq<Event>, name: string)
    requires IsRun(SYSTEM, Initial(bufferSize), es) && Clear !in es
    ensures
      var put := (s: State, e: Event) => Appended(s, e, name);
      var take := (s: State, e: Event) => Delivered(s, e, name);
      Log(SYSTEM, put, Initial(bufferSize), es)
      == Log(SYSTEM, take, Initial(bufferSize), es)
         + Queue(After(SYSTEM, Initial(bufferSize), es).queues, name)
  {
    var queue := (s: State) => Queue(s.queues, name);
    var put := (s: State, e: Event) => Appended(s, e, name);
    var take := (s: State, e: Event) => Delivered(s, e, name);
    var allowed := (e: Event) => !e.Clear?;
    forall s, e | Enabled(s, e) && allowed(e)
      ensures queue(s) + put(s, e) == take(s, e) + queue(StepOrStay(s, e))
    {
      QueueStep(s, e, name);
    }
    QueueOrder(SYSTEM, queue, put, take, allowed, Initial(bufferSize), es);
    assert queue(Initial(bufferSize)) == [];
  }

  // ---- The adapter as an object --------------------------------------------

  datatype AdapterError = QueueFull | AlreadyAcknowledged | AlreadyNacked

  /** Pop from the front up to `limit` times. */
  method PopFront(q: seq<Message>, limit: nat) returns (drained: seq<Message>, queue: seq<Message>)
    ensures drained + queue == q
    ensures |drained| == if limit < |q| then limit else |q|
  {
    drained, queue := [], q;
    var i := 0;
    while i < limit && queue != []
      invariant i == |drained| <= limit && drained + queue == q
    {
      drained, queue := drained + [queue[0]], queue[1..];
      i := i + 1;
    }
  }

  /** Messages with their receipts, numbered from `first` on. */
  function Numbered(messages: seq<Message>, first: nat): (items: seq<(Message, nat)>)
    ensures |items| == |messages| && forall i | 0 <= i < |items| :: items[i] == (messages[i], first + i)
  {
    seq(|messages|, i requires 0 <= i < |messages| => (messages[i], first + i))
  }

  function Contents(items: seq<(Message, nat)>): (messages: seq<Message>)
    ensures |messages| == |items| && forall i | 0 <= i < |items| :: messages[i] == items[i].0
  {
    seq(|items|, i requires 0 <= i < |items| => items[i].0)
  }

  class Adapter {
    const bufferSize: nat
    var queues: map<string, seq<Message>>
    var receipts: seq<Receipt>

    ghost function View(): State
      reads this
    {
      State(bufferSize, queues, receipts)
    }

    constructor (bufferSize: nat)
      ensures View() == Initial(bufferSize)
    {
      this.bufferSize := if bufferSize == 0 then 1000 else bufferSize;
      queues := map[];
      receipts := [];
    }

    /** All of the batch or none of it. */
    method PublishBatch(name: string, messages: seq<Message>) returns (r: Result<(), AdapterError>)
      modifies this
      ensures View() == Step(old(View()), Publish(name, messages))
      ensures r.Ok? <==> messages == [] || |Queue(old(queues), name)| + |messages| <= bufferSize
      ensures Queue(queues, name) == Queue(old(queues), name) + (if r.Ok? then messages else [])
      ensures r.Err? ==> r == Err(QueueFull)
    {
      if messages == [] {
        return Ok(());
      }
      var queue := if name in queues then queues[name] else [];
      queues := queues[name := queue];
      if |queue| + |messages| > bufferSize {
        return Err(QueueFull);
      }
      queues := queues[name := queue + messages];
      r := Ok(());
    }

    /** Pop up to `maxBatch` messages, at least one if there is one, each with a fresh receipt. */
    method ConsumeBatch(name: string, maxBatch: nat) returns (items: seq<(Message, nat)>)
      modifies this
      ensures View() == Step(old(View()), Consume(name, maxBatch))
      ensures items == Numbered(Contents(items), old(|receipts|))
      ensures receipts == old(receipts) + Receipts(name, Contents(items))
      ensures Queue(old(queues), name) == Contents(items) + Queue(queues, name)
      ensures |items| <= maxBatch || |items| <= 1
      ensures |items| < maxBatch ==> Queue(queues, name) == []
      ensures Queue(old(queues), name) != [] ==> items != []
    {
      ghost var q, n := Queue(queues, name), Taken(View(), name, maxBatch);
      var drained, queue := PopFront(if name in queues then queues[name] else [], if maxBatch > 1 then maxBatch else 1);
      assert drained == q[..n] && queue == q[n..];
      queues := queues[name := queue];
      items := Numbered(drained, |receipts|);
      assert Contents(items) == drained;
      receipts := receipts + Receipts(name, drained);
    }

    method ClearAll()
      modifies this
      ensures View() == Step(old(View()), Clear)
    {
      var names := queues.Keys;
      while names != {}
        invariant names <= queues.Keys == old(queues.Keys)
        invariant forall name | name in queues && name !in names :: queues[name] == []
        invariant receipts == old(receipts)
        decreases names
      {
        var name :| name in names;
        queues := queues[name := []];
        names := names - {name};
      }
      assert queues == map name | name in old(queues) :: [];
    }

    method AckReceipt(r: nat) returns (result: Result<(), AdapterError>)
      requires r < |receipts|
      modifies this`receipts
      ensures old(receipts[r].phase == Pending) ==> View() == Step(old(View()), Ack(r)) && result == Ok(())
      ensures old(receipts[r].phase == Acked) ==> View() == old(View()) && result == Err(AlreadyAcknowledged)
      ensures old(receipts[r].phase.Nacked? || receipts[r].phase.Requeued?) ==>
                View() == old(View()) && result == Err(AlreadyNacked)
    {
      match receipts[r].phase {
        case Pending =>
          receipts := receipts[r := receipts[r].(phase := Acked)];
          result := Ok(());
        case Acked => result := Err(AlreadyAcknowledged);
        case _ => result := Err(AlreadyNacked);
      }
    }

    /** First critical section of `nack`: mark the receipt. */
    method MarkNacked(r: nat) returns (result: Result<(), AdapterError>)
      requires r < |receipts|
      modifies this`receipts
      ensures old(receipts[r].phase == Pending) ==> View() == Step(old(View()), Nack(r)) && result == Ok(())
      ensures old(receipts[r].phase == Acked) ==> View() == old(View()) && result == Err(AlreadyAcknowledged)
      ensures old(receipts[r].phase.Nacked? || receipts[r].phase.Requeued?) ==>
                View() == old(View()) && result == Err(AlreadyNacked)
    {
      match receipts[r].phase {
        case Pending =>
          receipts := receipts[r := receipts[r].(phase := Nacked)];
          result := Ok(());
        case Acked => result := Err(AlreadyAcknowledged);
        case _ => result := Err(AlreadyNacked);
      }
    }

    /** Second critical section of `nack`: put the message back if there is room. */
    method PutBack(r: nat)
      requires ReceiptAt(View(), r, Nacked)
      modifies this
      ensures View() == Step(old(View()), Requeue(r))
      ensures
        var name := old(receipts)[r].queue;
        var before := Queue(old(queues), name);
        Queue(queues, name) == before + (if |before| < bufferSize then [old(receipts)[r].message] else [])
    {
      var name := receipts[r].queue;
      var queue := if name in queues then queues[name] else [];
      queues := queues[name := if |queue| < bufferSize then queue + [receipts[r].message] else queue];
      receipts := receipts[r := receipts[r].(phase := Requeued)];
    }
  }
}
