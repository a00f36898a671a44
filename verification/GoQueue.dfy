/**
 The Go memory queue at channel-operation granularity: a publisher that holds the
 adapter's lock checks the capacity once and then sends its batch, while
 consumers receive and Nacks requeue without the lock.
 */
module GoQueue {
  import opened Bytes
  import opened Runs

  type Message = nat

  /** A publish between its capacity check and its last send. */
  datatype Publish = Publish(
    rest: seq<Message>,  // still to be sent
    slack: nat,          // free room at the check beyond the batch
    requeued: nat,       // Nack requeues that landed since the check
    received: nat)       // receives since the check

  datatype State = State(capacity: nat, channel: seq<Message>, publish: Option<Publish>, dropped: nat)

  function Initial(capacity: nat): State {
    State(capacity, [], None, 0)
  }

  datatype Event =
    | Begin(batch: seq<Message>)  // lock taken, capacity check passed
    | Refuse(batch: seq<Message>) // lock taken, capacity check failed, lock released
    | Send
    | Finish                      // lock released
    | Receive
    | Requeue(m: Message)
    | Clear

  predicate Enabled(s: State, e: Event) {
    match e
    case Begin(batch) => s.publish.None? && batch != [] && |batch| + |s.channel| <= s.capacity
    case Refuse(batch) => s.publish.None? && |batch| + |s.channel| > s.capacity
    case Send => s.publish.Some? && s.publish.value.rest != [] && |s.channel| < s.capacity
    case Finish => s.publish.Some? && s.publish.value.rest == []
    case Receive => s.channel != []
    case Requeue(_) => true
    case Clear => s.publish.None?
  }

  function Step(s: State, e: Event): State
    requires Enabled(s, e)
  {
    match e
    case Begin(batch) => s.(publish := Some(Publish(batch, s.capacity - |s.channel| - |batch|, 0, 0)))
    case Refuse(_) => s
    case Send =>
      s.(channel := s.channel + [s.publish.value.rest[0]],
         publish := Some(s.publish.value.(rest := s.publish.value.rest[1..])))
    case Finish => s.(publish := None)
    case Receive =>
      s.(channel := s.channel[1..],
         publish := if s.publish.None? then None
                    else Some(s.publish.value.(received := s.publish.value.received + 1)))
    case Requeue(m) =>
      if |s.channel| < s.capacity then
        s.(channel := s.channel + [m],
           publish := if s.publish.None? then None
                      else Some(s.publish.value.(requeued := s.publish.value.requeued + 1)))
      else
        s.(dropped := s.dropped + 1)
    case Clear => s.(channel := [])
  }

  function StepOrStay(s: State, e: Event): State {
    if Enabled(s, e) then Step(s, e) else s
  }

  const SYSTEM: System<State, Event> := System(Enabled, StepOrStay)

  ghost predicate Inv(s: State) {
    && |s.channel| <= s.capacity
    && (s.publish.Some? ==>
          var p := s.publish.value;
          |s.channel| + |p.rest| + p.slack + p.received == s.capacity + p.requeued)
  }

  lemma Reachable(capacity: nat, es: seq<Event>)
    requires IsRun(SYSTEM, Initial(capacity), es)
    ensures Inv(After(SYSTEM, Initial(capacity), es))
  {
    Invariant(SYSTEM, Inv, Initial(capacity), es);
  }

  /**
   Exactly when a publisher's send goes through: as long as fewer requeues have
   landed since its capacity check than there is room left for, counting the room
   it has yet to use, the room it did not need and the room consumers made.
   */
  lemma SendBlocksExactly(capacity: nat, es: seq<Event>)
    requires IsRun(SYSTEM, Initial(capacity), es)
    ensures
      var s := After(SYSTEM, Initial(capacity), es);
      && |s.channel| <= s.capacity
      && (s.publish.Some? && s.publish.value.rest != [] ==>
            var p := s.publish.value;
            && (Enabled(s, Send) <==> p.requeued < |p.rest| + p.slack + p.received)
            && (p.requeued == 0 ==> Enabled(s, Send)))
  {
    Reachable(capacity, es);
  }

  /** The promise that a checked publish never blocks does not survive a Nack: here is a run where it blocks. */
  lemma RequeueCanBlockPublish() returns (es: seq<Event>)
    ensures IsRun(SYSTEM, Initial(1), es)
    ensures
      var s := After(SYSTEM, Initial(1), es);
      s.publish.Some? && s.publish.value.rest != [] && !Enabled(s, Send)
  {
    var s0 := Initial(1);
    var s1 := Step(s0, Begin([5]));
    var s2 := Step(s1, Send);
    var s3 := Step(s2, Finish);
    var s4 := Step(s3, Receive);
    var s5 := Step(s4, Begin([6]));
    var s6 := Step(s5, Requeue(5));
    es := [];
    es := Prepend(SYSTEM, s5, Requeue(5), es);
    es := Prepend(SYSTEM, s4, Begin([6]), es);
    es := Prepend(SYSTEM, s3, Receive, es);
    es := Prepend(SYSTEM, s2, Finish, es);
    es := Prepend(SYSTEM, s1, Send, es);
    es := Prepend(SYSTEM, s0, Begin([5]), es);
  }

  // ---- Order ---------------------------------------------------------------

  /** With the lock free, a batch is begun when there is room for all of it and refused when there is not. */
  lemma PublishDecides(capacity: nat, es: seq<Event>, batch: seq<Message>)
    requires IsRun(SYSTEM, Initial(capacity), es) && batch != []
    ensures
      var s := After(SYSTEM, Initial(capacity), es);
      && s.capacity == capacity
      && (s.publish.None? ==>
            && (Enabled(s, Begin(batch)) <==> |batch| <= capacity - |s.channel|)
            && (Enabled(s, Refuse(batch)) <==> |batch| > capacity - |s.channel|))
  {
    Reachable(capacity, es);
    var inv := (s: State) => s.capacity == capacity;
    Invariant(SYSTEM, inv, Initial(capacity), es);
  }

  /** What a publish under way has still to send. */
  function Unsent(s: State): seq<Message> {
    if s.publish.None? then [] else s.publish.value.rest
  }

  function Begun(s: State, e: Event): seq<Message> {
    if e.Begin? then e.batch else []
  }

  function Sent(s: State, e: Event): seq<Message> {
    if e.Send? && Unsent(s) != [] then [Unsent(s)[0]] else []
  }

  /** What an event puts into the channel: the next message of a batch, or a nacked one when there is room. */
  function Appended(s: State, e: Event): seq<Message> {
    match e
    case Send => Sent(s, e)
    case Requeue(m) => if |s.channel| < s.capacity then [m] else []
    case _ => []
  }

  function Received(s: State, e: Event): seq<Message> {
    if e.Receive? && s.channel != [] then [s.channel[0]] else []
  }

  predicate KeepsQueue(e: Event) {
    !e.Clear?
  }

  predicate AnyEvent(e: Event) {
    true
  }

  function ChannelOf(s: State): seq<Message> {
    s.channel
  }

  lemma OrderStep(s: State, e: Event)
    requires Enabled(s, e)
    ensures Unsent(s) + Begun(s, e) == Sent(s, e) + Unsent(StepOrStay(s, e))
    ensures !e.Clear? ==> s.channel + Appended(s, e) == Received(s, e) + StepOrStay(s, e).channel
  {
    assert s.channel + [] == s.channel && Unsent(s) + [] == Unsent(s);
  }

  /**
   Order: the batches begun, one after the other, are the messages sent followed by
   those still to be sent; and on a queue never cleared, the messages received
   followed by the channel are the messages sent and requeued, in order.
   */
  lemma QueueIsFifo(capacity: nat, es: seq<Event>)
    requires IsRun(SYSTEM, Initial(capacity), es)
    ensures Log(SYSTEM, Begun, Initial(capacity), es)
            == Log(SYSTEM, Sent, Initial(capacity), es) + Unsent(After(SYSTEM, Initial(capacity), es))
    ensures Clear !in es ==>
              Log(SYSTEM, Appended, Initial(capacity), es)
              == Log(SYSTEM, Received, Initial(capacity), es) + After(SYSTEM, Initial(capacity), es).channel
  {
    forall s, e | Enabled(s, e)
      ensures Unsent(s) + Begun(s, e) == Sent(s, e) + Unsent(StepOrStay(s, e))
      ensures !e.Clear? ==> s.channel + Appended(s, e) == Received(s, e) + StepOrStay(s, e).channel
    {
      OrderStep(s, e);
    }
    var s0 := Initial(capacity);
    QueueOrder(SYSTEM, Unsent, Begun, Sent, AnyEvent, s0, es);
    assert Unsent(s0) == [] && ChannelOf(s0) == [];
    if Clear !in es {
      QueueOrder(SYSTEM, ChannelOf, Appended, Received, KeepsQueue, s0, es);
    }
  }
}
