/**
 What becomes of messages and deliveries in the TypeScript worker, and by which
 event: abandoned, dropped, cleared, and put back with another content than the
 one that was published.
 */
module TsFates {
  import opened Bytes
  import opened Runs
  import Wire
  import M = TsMemory
  import P = TsPool
  import opened TsWorker

  // ---- Abandoned deliveries ------------------------------------------------

  ghost function IsAbandoned(d: DeliveryId): State -> bool {
    (s: State) => PhaseIs(s, d, M.Abandoned)
  }

  /** The loop, with items left to dispatch, finds that it is to stop. */
  predicate GivesUp(s: State, e: Event) {
    Stopping(s) && ((e == Proceed && s.pc.Dispatching?) || (e == Resume && s.pc.DispatchWait?))
  }

  ghost function GivingUp(d: DeliveryId): (State, Event) -> bool {
    (s: State, e: Event) => GivesUp(s, e) && d in Pending(s.pc)
  }

  /** An event in which the loop runs. */
  predicate OfLoop(e: Event) {
    e.Proceed? || e.Resume? || e.DelayEnds?
  }

  /**
   What the loop does to the deliveries: it may dispatch one, create new ones and,
   when it gives up, abandon those it holds.
   */
  predicate LoopEffect(s: State, n: State, givesUp: bool) {
    var ds, ns := s.store.deliveries, n.store.deliveries;
    && |ds| <= |ns|
    && (forall d | 0 <= d < |ds| ::
          || ns[d] == ds[d]
          || (d in Pending(s.pc) && ns[d] == ds[d].(phase := M.Handling))
          || (givesUp && d in Pending(s.pc) && ns[d] == ds[d].(phase := M.Abandoned)))
    && (forall d | |ds| <= d < |ns| :: ns[d].phase == M.Fetched)
  }

  lemma TopMoves(c: Config, s: State)
    ensures LoopEffect(s, SlotStep(c, s), false) && LoopEffect(s, TopStep(c, s), false)
  {
  }

  lemma DispatchMoves(c: Config, s: State, rest: seq<DeliveryId>)
    requires Dispatchable(s, rest) && Pending(s.pc) == rest
    ensures LoopEffect(s, DispatchStep(c, s, rest), Stopping(s))
  {
  }

  lemma ProceedMoves(c: Config, s: State)
    requires Runnable(s)
    ensures LoopEffect(s, ProceedStep(c, s), GivesUp(s, Proceed))
  {
    if s.pc.Dispatching? {
      DispatchMoves(c, s, s.pc.rest);
    } else {
      TopMoves(c, s);
    }
  }

  lemma ResumeMoves(c: Config, s: State)
    requires Awake(s)
    ensures LoopEffect(s, ResumeStep(c, s), GivesUp(s, Resume))
  {
    if s.pc.DispatchWait? {
      DispatchMoves(c, s, s.pc.rest);
    } else {
      TopMoves(c, s);
    }
  }

  lemma LoopMoves(c: Config, s: State, e: Event)
    requires Enabled(s, e) && OfLoop(e)
    ensures LoopEffect(s, Step(c, s, e), GivesUp(s, e))
  {
    match e {
      case Proceed => ProceedMoves(c, s);
      case Resume => ResumeMoves(c, s);
      case _ => TopMoves(c, s);
    }
  }

  /** What the other events may do to a delivery `a`: they neither abandon it nor take it back from there. */
  predicate OtherEffect(a: M.Delivery, b: M.Delivery, write: bool) {
    && b.message == a.message && (b.content == a.content || write)
    && (b.phase == M.Abandoned <==> a.phase == M.Abandoned)
  }

  lemma OthersMove(c: Config, s: State, e: Event, d: DeliveryId)
    requires Enabled(s, e) && !OfLoop(e)
    ensures |Step(c, s, e).store.deliveries| == |s.store.deliveries|
    ensures d < |s.store.deliveries| ==>
              OtherEffect(s.store.deliveries[d], Step(c, s, e).store.deliveries[d], e.Write?)
  {
    match e {
      case HandlerReturns(_, _) =>
      case Settle(_) =>
      case Write(_, _) =>
      case _ =>
    }
  }

  lemma AbandonedStays(c: Config, s: State, e: Event, d: DeliveryId)
    requires PhaseInv(s) && Enabled(s, e) && PhaseIs(s, d, M.Abandoned)
    ensures PhaseIs(Step(c, s, e), d, M.Abandoned)
  {
    assert d !in Pending(s.pc);
    if OfLoop(e) {
      LoopMoves(c, s, e);
    } else {
      OthersMove(c, s, e, d);
    }
  }

  lemma GivingUpAbandons(c: Config, s: State, e: Event, d: DeliveryId)
    requires PhaseInv(s) && Enabled(s, e) && GivesUp(s, e) && d in Pending(s.pc)
    ensures PhaseIs(Step(c, s, e), d, M.Abandoned)
  {
  }

  lemma OnlyGivingUpAbandons(c: Config, s: State, e: Event, d: DeliveryId)
    requires Enabled(s, e) && PhaseIs(Step(c, s, e), d, M.Abandoned) && !PhaseIs(s, d, M.Abandoned)
    ensures GivesUp(s, e) && d in Pending(s.pc)
  {
    if OfLoop(e) {
      LoopMoves(c, s, e);
    } else {
      OthersMove(c, s, e, d);
    }
  }

  lemma AbandonStep(c: Config, s: State, e: Event, d: DeliveryId)
    requires PhaseInv(s) && Enabled(s, e)
    ensures PhaseIs(StepOrStay(c, s, e), d, M.Abandoned)
            <==> PhaseIs(s, d, M.Abandoned) || (GivesUp(s, e) && d in Pending(s.pc))
  {
    if PhaseIs(s, d, M.Abandoned) {
      AbandonedStays(c, s, e, d);
    } else if GivesUp(s, e) && d in Pending(s.pc) {
      GivingUpAbandons(c, s, e, d);
    } else if PhaseIs(Step(c, s, e), d, M.Abandoned) {
      OnlyGivingUpAbandons(c, s, e, d);
    }
  }

  lemma AbandonsExactly(c: Config, d: DeliveryId)
    ensures ExactlyBy(TheSystem(c), InvOf(c), IsAbandoned(d), GivingUp(d))
  {
    forall s, e | Inv(c, s) && Enabled(s, e)
      ensures PhaseIs(StepOrStay(c, s, e), d, M.Abandoned)
              <==> PhaseIs(s, d, M.Abandoned) || (GivesUp(s, e) && d in Pending(s.pc))
    {
      AbandonStep(c, s, e, d);
    }
  }

  /** Exactly when a delivery is abandoned: the loop held it undispatched when it found that it is to stop. */
  lemma AbandonedExactly(c: Config, bufferSize: int, es: seq<Event>, d: DeliveryId)
    requires IsRun(TheSystem(c), Initial(bufferSize), es)
    ensures PhaseIs(After(TheSystem(c), Initial(bufferSize), es), d, M.Abandoned)
            <==> exists k :: Happens(TheSystem(c), GivingUp(d), Initial(bufferSize), es, k)
  {
    InitialInv(c, bufferSize);
    InvIsInductive(c);
    AbandonsExactly(c, d);
    HoldsExactly(TheSystem(c), InvOf(c), IsAbandoned(d), GivingUp(d), Initial(bufferSize), es);
  }

  // ---- How the store moves -------------------------------------------------

  /** The delivery of message `m` that `e` puts back or drops, if it is a nack. */
  predicate Nacks(s: State, e: Event, m: M.MessageId) {
    && e.Settle? && Enabled(s, e)
    && s.store.deliveries[e.d].message == m && s.store.deliveries[e.d].phase == M.Returned(false)
  }

  predicate HasRoom(s: State, e: Event)
    requires e.Settle? && e.d < |s.store.deliveries|
  {
    M.Fits(s.store, s.store.deliveries[e.d].queue, 1)
  }

  /** Apart from publish, settle and clear, a step moves no message or polls. */
  lemma StoreMoves(c: Config, s: State, e: Event)
    requires Enabled(s, e) && !e.Publish? && !e.Settle? && !e.Clear?
    ensures SameGoods(s.store, Step(c, s, e).store)
            || Step(c, s, e).store == M.Consume(s.store, c.queueName, c.maxBatch)
  {
    OtherSteps(c, s, e);
  }

  // ---- Dropped messages ----------------------------------------------------

  predicate IsDropped(st: M.Store, m: M.MessageId) {
    m < |st.places| && st.places[m] == M.Dropped
  }

  /** A failed delivery of `m` is nacked, and its queue is full. */
  predicate Drops(s: State, e: Event, m: M.MessageId) {
    Nacks(s, e, m) && !HasRoom(s, e)
  }

  lemma ConsumeDropsNothing(st: M.Store, name: string, maxBatch: nat, m: M.MessageId)
    requires M.Inv(st)
    ensures IsDropped(M.Consume(st, name, maxBatch), m) <==> IsDropped(st, m)
  {
    if IsDropped(st, m) {
      M.OthersNotTaken(st, name, M.Taken(st, name, maxBatch), m);
    }
  }

  lemma SettleDrops(s: State, e: Event, m: M.MessageId)
    requires M.Inv(s.store) && e.Settle? && Enabled(s, e)
    ensures IsDropped(SettleStep(s, e.d).store, m) <==> IsDropped(s.store, m) || Drops(s, e, m)
  {
    assert s.store.places[s.store.deliveries[e.d].message] == M.With(e.d);
  }

  lemma DropStep(c: Config, s: State, e: Event, m: M.MessageId)
    requires M.Inv(s.store) && Enabled(s, e)
    ensures IsDropped(StepOrStay(c, s, e).store, m) <==> IsDropped(s.store, m) || Drops(s, e, m)
  {
    if e.Settle? {
      SettleDrops(s, e, m);
    } else if !e.Publish? && !e.Clear? {
      StoreMoves(c, s, e);
      ConsumeDropsNothing(s.store, c.queueName, c.maxBatch, m);
    }
  }

  ghost function DroppedIn(m: M.MessageId): State -> bool {
    (s: State) => IsDropped(s.store, m)
  }

  ghost function Dropping(m: M.MessageId): (State, Event) -> bool {
    (s: State, e: Event) => Drops(s, e, m)
  }

  lemma DropsExactly(c: Config, m: M.MessageId)
    ensures ExactlyBy(TheSystem(c), InvOf(c), DroppedIn(m), Dropping(m))
  {
    forall s, e | Inv(c, s) && Enabled(s, e)
      ensures IsDropped(StepOrStay(c, s, e).store, m) <==> IsDropped(s.store, m) || Drops(s, e, m)
    {
      DropStep(c, s, e, m);
    }
  }

  /** Exactly when a message is dropped: a failed delivery of it was nacked while its queue was full. */
  lemma DroppedExactly(c: Config, bufferSize: int, es: seq<Event>, m: M.MessageId)
    requires IsRun(TheSystem(c), Initial(bufferSize), es)
    ensures IsDropped(After(TheSystem(c), Initial(bufferSize), es).store, m)
            <==> exists k :: Happens(TheSystem(c), Dropping(m), Initial(bufferSize), es, k)
  {
    InitialInv(c, bufferSize);
    InvIsInductive(c);
    DropsExactly(c, m);
    HoldsExactly(TheSystem(c), InvOf(c), DroppedIn(m), Dropping(m), Initial(bufferSize), es);
  }

  // ---- Cleared messages ----------------------------------------------------

  predicate IsCleared(st: M.Store, m: M.MessageId) {
    m < |st.places| && st.places[m] == M.Cleared
  }

  /** `clear` finds `m` in a queue. */
  ghost predicate Clears(s: State, e: Event, m: M.MessageId) {
    e.Clear? && M.InQueue(s.store, m)
  }

  lemma ConsumeClearsNothing(st: M.Store, name: string, maxBatch: nat, m: M.MessageId)
    requires M.Inv(st)
    ensures IsCleared(M.Consume(st, name, maxBatch), m) <==> IsCleared(st, m)
  {
    if IsCleared(st, m) {
      M.OthersNotTaken(st, name, M.Taken(st, name, maxBatch), m);
    }
  }

  lemma SettleClearsNothing(s: State, e: Event, m: M.MessageId)
    requires M.Inv(s.store) && e.Settle? && Enabled(s, e)
    ensures IsCleared(SettleStep(s, e.d).store, m) <==> IsCleared(s.store, m)
  {
    assert s.store.places[s.store.deliveries[e.d].message] == M.With(e.d);
  }

  lemma ClearClears(st: M.Store, m: M.MessageId)
    requires M.Inv(st)
    ensures IsCleared(M.Clear(st), m) <==> IsCleared(st, m) || M.InQueue(st, m)
  {
    if m < |st.places| {
      M.QueuedMeans(st, m);
    } else if M.InQueue(st, m) {
      assert false;
    }
  }

  lemma ClearStep(c: Config, s: State, e: Event, m: M.MessageId)
    requires M.Inv(s.store) && Enabled(s, e)
    ensures IsCleared(StepOrStay(c, s, e).store, m) <==> IsCleared(s.store, m) || Clears(s, e, m)
  {
    if e.Settle? {
      SettleClearsNothing(s, e, m);
    } else if e.Clear? {
      ClearClears(s.store, m);
    } else if !e.Publish? {
      StoreMoves(c, s, e);
      ConsumeClearsNothing(s.store, c.queueName, c.maxBatch, m);
    }
  }

  ghost function ClearedIn(m: M.MessageId): State -> bool {
    (s: State) => IsCleared(s.store, m)
  }

  ghost function Clearing(m: M.MessageId): (State, Event) -> bool {
    (s: State, e: Event) => Clears(s, e, m)
  }

  lemma ClearsExactly(c: Config, m: M.MessageId)
    ensures ExactlyBy(TheSystem(c), InvOf(c), ClearedIn(m), Clearing(m))
  {
    forall s, e | Inv(c, s) && Enabled(s, e)
      ensures IsCleared(StepOrStay(c, s, e).store, m) <==> IsCleared(s.store, m) || Clears(s, e, m)
    {
      ClearStep(c, s, e, m);
    }
  }

  /** Exactly when a message is cleared: `clear` was called while it was queued. */
  lemma ClearedExactly(c: Config, bufferSize: int, es: seq<Event>, m: M.MessageId)
    requires IsRun(TheSystem(c), Initial(bufferSize), es)
    ensures IsCleared(After(TheSystem(c), Initial(bufferSize), es).store, m)
            <==> exists k :: Happens(TheSystem(c), Clearing(m), Initial(bufferSize), es, k)
  {
    InitialInv(c, bufferSize);
    InvIsInductive(c);
    ClearsExactly(c, m);
    HoldsExactly(TheSystem(c), InvOf(c), ClearedIn(m), Clearing(m), Initial(bufferSize), es);
  }

  // ---- Contents ------------------------------------------------------------

  /** What an event adds to the messages published. */
  function Accepted(s: State, e: Event): seq<M.Message> {
    match e
    case Publish(q, messages) => if M.Fits(s.store, q, |messages|) then messages else []
    case _ => []
  }

  lemma AcceptStep(c: Config, s: State, e: Event)
    requires Enabled(s, e)
    ensures StepOrStay(c, s, e).store.accepted == s.store.accepted + Accepted(s, e)
  {
    assert s.store.accepted + [] == s.store.accepted;
    if !e.Publish? && !e.Settle? && !e.Clear? {
      StoreMoves(c, s, e);
    }
  }

  /** The numbers stand for the messages accepted, in order. */
  lemma AcceptedInOrder(c: Config, bufferSize: int, es: seq<Event>)
    requires IsRun(TheSystem(c), Initial(bufferSize), es)
    ensures After(TheSystem(c), Initial(bufferSize), es).store.accepted
            == Log(TheSystem(c), Accepted, Initial(bufferSize), es)
  {
    var queue := (s: State) => s.store.accepted;
    var take := (s: State, e: Event) => [];
    var allowed := (e: Event) => true;
    forall s, e | Enabled(s, e) && allowed(e)
      ensures queue(s) + Accepted(s, e) == take(s, e) + queue(StepOrStay(c, s, e))
    {
      AcceptStep(c, s, e);
    }
    QueueOrder(TheSystem(c), queue, Accepted, take, allowed, Initial(bufferSize), es);
    NothingLogged(TheSystem(c), take, Initial(bufferSize), es);
    var end := After(TheSystem(c), Initial(bufferSize), es);
    assert queue(Initial(bufferSize)) == [];
    assert [] + end.store.accepted == end.store.accepted;
  }

  /** What is stored under `m` is not what was accepted under it. */
  predicate Differs(st: M.Store, m: M.MessageId) {
    m < |st.contents| && m < |st.accepted| && st.contents[m] != st.accepted[m]
  }

  /** Message `m` is queued with another content than the one accepted. */
  ghost predicate Altered(st: M.Store, m: M.MessageId) {
    M.InQueue(st, m) && Differs(st, m)
  }

  /** A failed delivery of `m` is put back, and its content is not the one accepted. */
  predicate PutsBackChanged(s: State, e: Event, m: M.MessageId) {
    && Nacks(s, e, m) && HasRoom(s, e)
    && m < |s.store.accepted| && s.store.deliveries[e.d].content != s.store.accepted[m]
  }

  predicate QueuedChanged(st: M.Store, m: M.MessageId) {
    m < |st.places| && st.places[m].Queued? && Differs(st, m)
  }

  lemma AlteredMeans(st: M.Store, m: M.MessageId)
    requires M.Inv(st)
    ensures Altered(st, m) <==> QueuedChanged(st, m)
  {
    if m < |st.places| {
      M.QueuedMeans(st, m);
    }
  }

  lemma PublishChangesNothing(st: M.Store, name: string, messages: seq<M.Message>, m: M.MessageId)
    requires M.Inv(st)
    ensures QueuedChanged(M.Publish(st, name, messages), m) <==> QueuedChanged(st, m)
  {
  }

  lemma ConsumeChangesNothing(st: M.Store, name: string, maxBatch: nat, m: M.MessageId)
    ensures QueuedChanged(M.Consume(st, name, maxBatch), m) ==> QueuedChanged(st, m)
  {
  }

  lemma NackChanges(st: M.Store, d: DeliveryId, m: M.MessageId)
    requires M.Inv(st) && d < |st.deliveries| && st.deliveries[d].phase != M.Nacked
    ensures
      var dl := st.deliveries[d];
      QueuedChanged(M.Nack(st, d), m)
      <==> QueuedChanged(st, m)
           || (dl.message == m && M.Fits(st, dl.queue, 1) && dl.content != st.accepted[m])
  {
    assert st.places[st.deliveries[d].message] == M.With(d);
  }

  lemma SettleChanges(s: State, e: Event, m: M.MessageId)
    requires M.Inv(s.store) && e.Settle? && Enabled(s, e)
    ensures QueuedChanged(SettleStep(s, e.d).store, m) <==> QueuedChanged(s.store, m) || PutsBackChanged(s, e, m)
  {
    if !s.store.deliveries[e.d].phase.ok {
      NackChanges(s.store, e.d, m);
    }
  }

  lemma ChangeStep(c: Config, s: State, e: Event, m: M.MessageId)
    requires M.Inv(s.store) && Enabled(s, e)
    ensures PutsBackChanged(s, e, m) ==> QueuedChanged(StepOrStay(c, s, e).store, m)
    ensures QueuedChanged(StepOrStay(c, s, e).store, m) ==> QueuedChanged(s.store, m) || PutsBackChanged(s, e, m)
  {
    if e.Settle? {
      SettleChanges(s, e, m);
    } else if e.Publish? {
      PublishChangesNothing(s.store, e.queue, e.messages, m);
    } else if !e.Clear? {
      StoreMoves(c, s, e);
      ConsumeChangesNothing(s.store, c.queueName, c.maxBatch, m);
    }
  }

  lemma AlteredStep(c: Config, s: State, e: Event, m: M.MessageId)
    requires Inv(c, s) && Enabled(s, e)
    ensures PutsBackChanged(s, e, m) ==> Altered(StepOrStay(c, s, e).store, m)
    ensures Altered(StepOrStay(c, s, e).store, m) ==> Altered(s.store, m) || PutsBackChanged(s, e, m)
  {
    StepKeepsInv(c, s, e);
    ChangeStep(c, s, e, m);
    AlteredMeans(s.store, m);
    AlteredMeans(StepOrStay(c, s, e).store, m);
  }

  ghost function AlteredIn(m: M.MessageId): State -> bool {
    (s: State) => Altered(s.store, m)
  }

  ghost function PuttingBackChanged(m: M.MessageId): (State, Event) -> bool {
    (s: State, e: Event) => PutsBackChanged(s, e, m)
  }

  lemma AlteredByNacks(c: Config, m: M.MessageId)
    ensures RaisedBy(TheSystem(c), InvOf(c), AlteredIn(m), PuttingBackChanged(m))
  {
    forall s, e | Inv(c, s) && Enabled(s, e)
      ensures PutsBackChanged(s, e, m) ==> Altered(StepOrStay(c, s, e).store, m)
      ensures Altered(StepOrStay(c, s, e).store, m) ==> Altered(s.store, m) || PutsBackChanged(s, e, m)
    {
      AlteredStep(c, s, e, m);
    }
  }

  /**
   Exactly when a queue comes to hold a message nobody published: at some time of a
   run message `m` is queued with another content than the one accepted, if and
   only if some nack with room put back a delivery of it that had been changed.
   */
  lemma AlteredExactly(c: Config, bufferSize: int, es: seq<Event>, m: M.MessageId)
    requires IsRun(TheSystem(c), Initial(bufferSize), es)
    ensures (exists j :: HeldAt(TheSystem(c), AlteredIn(m), Initial(bufferSize), es, j))
            <==> exists k :: Happens(TheSystem(c), PuttingBackChanged(m), Initial(bufferSize), es, k)
  {
    InitialInv(c, bufferSize);
    InvIsInductive(c);
    AlteredByNacks(c, m);
    HeldExactly(TheSystem(c), InvOf(c), AlteredIn(m), PuttingBackChanged(m), Initial(bufferSize), es);
  }

  /** Every message stored, and every message out, is as it was accepted. */
  predicate Pristine(st: M.Store) {
    && st.contents == st.accepted
    && forall d | 0 <= d < |st.deliveries| ::
         st.deliveries[d].message < |st.accepted|
         && st.deliveries[d].content == st.accepted[st.deliveries[d].message]
  }

  lemma ConsumeKeepsPristine(st: M.Store, name: string, maxBatch: nat)
    requires M.Inv(st) && Pristine(st)
    ensures Pristine(M.Consume(st, name, maxBatch))
  {
    M.QueuesAreKnown(st, name);
    var taken := M.Queue(st, name)[..M.Taken(st, name, maxBatch)];
    assert forall i | 0 <= i < |taken| :: taken[i] in M.Queue(st, name);
  }

  lemma AdvanceKeepsPristine(st: M.Store, d: DeliveryId, phase: M.Phase)
    requires Pristine(st) && d < |st.deliveries|
    ensures Pristine(M.Advance(st, d, phase))
  {
  }

  lemma NackKeepsPristine(st: M.Store, d: DeliveryId)
    requires Pristine(st) && d < |st.deliveries| && st.deliveries[d].message < |st.places|
    ensures Pristine(M.Nack(st, d))
  {
    AdvanceKeepsPristine(st, d, M.Nacked);
    var dl := st.deliveries[d];
    assert st.contents[dl.message := dl.content] == st.contents;
    assert M.Nack(st, d).contents == st.contents && M.Nack(st, d).deliveries == M.Advance(st, d, M.Nacked).deliveries;
  }

  lemma SettleKeepsPristine(s: State, e: Event)
    requires e.Settle? && Enabled(s, e) && Pristine(s.store)
    ensures Pristine(SettleStep(s, e.d).store)
  {
    if s.store.deliveries[e.d].phase.ok {
      AdvanceKeepsPristine(s.store, e.d, M.Acked);
    } else {
      NackKeepsPristine(s.store, e.d);
    }
  }

  /** No step but a handler's write touches the content of a delivery that is out. */
  lemma ContentsStay(c: Config, s: State, e: Event, d: DeliveryId)
    requires Enabled(s, e) && !e.Write? && d < |s.store.deliveries| && d < |Step(c, s, e).store.deliveries|
    ensures Step(c, s, e).store.deliveries[d].content == s.store.deliveries[d].content
    ensures Step(c, s, e).store.deliveries[d].message == s.store.deliveries[d].message
  {
    if OfLoop(e) {
      LoopMoves(c, s, e);
    } else {
      OthersMove(c, s, e, d);
    }
  }

  lemma QuietKeepsPristine(c: Config, s: State, e: Event)
    requires Enabled(s, e) && !e.Write? && Pristine(s.store) && SameGoods(s.store, Step(c, s, e).store)
    ensures Pristine(Step(c, s, e).store)
  {
    forall d | 0 <= d < |s.store.deliveries|
      ensures Step(c, s, e).store.deliveries[d].content == s.store.deliveries[d].content
      ensures Step(c, s, e).store.deliveries[d].message == s.store.deliveries[d].message
    {
      ContentsStay(c, s, e, d);
    }
  }

  lemma PristineStep(c: Config, s: State, e: Event)
    requires M.Inv(s.store) && Pristine(s.store) && Enabled(s, e) && !e.Write?
    ensures Pristine(StepOrStay(c, s, e).store)
  {
    if e.Settle? {
      SettleKeepsPristine(s, e);
    } else if !e.Publish? && !e.Clear? {
      StoreMoves(c, s, e);
      if SameGoods(s.store, Step(c, s, e).store) {
        QuietKeepsPristine(c, s, e);
      } else {
        ConsumeKeepsPristine(s.store, c.queueName, c.maxBatch);
      }
    }
  }

  ghost function Spoiled(c: Config): State -> bool {
    (s: State) => !(Inv(c, s) && Pristine(s.store))
  }

  predicate IsWrite(e: Event) {
    e.Write?
  }

  lemma OnlyWritesSpoil(c: Config)
    ensures OnlyBy(TheSystem(c), Spoiled(c), IsWrite)
  {
    forall s, e | Enabled(s, e) && Inv(c, s) && Pristine(s.store) && !IsWrite(e)
      ensures Inv(c, StepOrStay(c, s, e)) && Pristine(StepOrStay(c, s, e).store)
    {
      StepKeepsInv(c, s, e);
      PristineStep(c, s, e);
    }
  }

  /** As long as no handler writes to its message, everything stored and everything delivered is as published. */
  lemma PristineWithoutWrites(c: Config, bufferSize: int, es: seq<Event>)
    requires IsRun(TheSystem(c), Initial(bufferSize), es) && forall e | e in es :: !e.Write?
    ensures Pristine(After(TheSystem(c), Initial(bufferSize), es).store)
  {
    InitialInv(c, bufferSize);
    OnlyWritesSpoil(c);
    assert !Spoiled(c)(Initial(bufferSize));
    if Spoiled(c)(After(TheSystem(c), Initial(bufferSize), es)) {
      Caused(TheSystem(c), Spoiled(c), IsWrite, Initial(bufferSize), es);
      assert false;
    }
  }

  // ---- Two runs ------------------------------------------------------------

  const ONE := Config("q", 1, 1)

  const CHANGED := Wire.DEFAULT.(topic := [0x78])

  /** One message has been received and is about to be dispatched. */
  function DispatchingOne(): State {
    State(M.Store(1, map["q" := []], [M.Delivery("q", 0, Wire.DEFAULT, M.Fetched)], [M.With(0)],
                  [Wire.DEFAULT], [Wire.DEFAULT]),
          P.EMPTY, Dispatching([0]), false, false, None, map[], 1, 1, map[])
  }

  /** The message has been published, and the worker started. */
  function Started(): State {
    State(M.Store(1, map["q" := [0]], [], [M.Queued("q")], [Wire.DEFAULT], [Wire.DEFAULT]),
          P.EMPTY, Top, false, false, None, map[], 1, 0, map[])
  }

  lemma PublishAndStart(rest: seq<Event>) returns (es: seq<Event>)
    requires IsRun(TheSystem(ONE), Started(), rest)
    ensures IsRun(TheSystem(ONE), Initial(1), es)
    ensures After(TheSystem(ONE), Initial(1), es) == After(TheSystem(ONE), Started(), rest)
  {
    var s0 := Initial(1);
    var s1 := Step(ONE, s0, Publish("q", [Wire.DEFAULT]));
    assert s1.store.queues["q"] == [0] && s1.store.queues == map["q" := [0]];
    assert s1.store.places == [M.Queued("q")];
    assert Step(ONE, s1, CallStart) == Started();
    es := Prepend(TheSystem(ONE), s1, CallStart, rest);
    es := Prepend(TheSystem(ONE), s0, Publish("q", [Wire.DEFAULT]), es);
  }

  lemma FetchOne()
    ensures
      var n := M.Consume(Started().store, "q", 1);
      n == DispatchingOne().store && M.Taken(Started().store, "q", 1) == 1
  {
    var st := Started().store;
    var n := M.Consume(st, "q", 1);
    assert M.Queue(st, "q")[..1] == [0] && M.Queue(st, "q")[1..] == [];
    assert n.queues == map["q" := []];
    assert n.deliveries == [M.Delivery("q", 0, Wire.DEFAULT, M.Fetched)];
    assert n.places == [M.With(0)];
  }

  lemma Fetch(rest: seq<Event>) returns (es: seq<Event>)
    requires IsRun(TheSystem(ONE), DispatchingOne(), rest)
    ensures IsRun(TheSystem(ONE), Started(), es)
    ensures After(TheSystem(ONE), Started(), es) == After(TheSystem(ONE), DispatchingOne(), rest)
  {
    FetchOne();
    var s1 := Step(ONE, Started(), Proceed);
    assert s1.pc == Consuming([0]);
    assert Step(ONE, s1, Proceed) == DispatchingOne();
    es := Prepend(TheSystem(ONE), s1, Proceed, rest);
    es := Prepend(TheSystem(ONE), Started(), Proceed, es);
  }

  /** Stop after a message was received and before it is dispatched: it is neither handled nor put back. */
  lemma StopAbandons() returns (es: seq<Event>)
    ensures IsRun(TheSystem(ONE), Initial(1), es)
    ensures
      var s := After(TheSystem(ONE), Initial(1), es);
      s.pc.Finished? && |s.store.deliveries| == 1 && s.store.deliveries[0].phase == M.Abandoned
      && s.store.queues == map["q" := []]
  {
    var s0 := DispatchingOne();
    var s1 := Step(ONE, s0, CallStop(0));
    var s2 := Step(ONE, s1, Proceed);
    var s3 := Step(ONE, s2, Proceed);
    es := Prepend(TheSystem(ONE), s3, Proceed, []);
    es := Prepend(TheSystem(ONE), s2, Proceed, es);
    es := Prepend(TheSystem(ONE), s1, Proceed, es);
    es := Prepend(TheSystem(ONE), s0, CallStop(0), es);
    es := Fetch(es);
    es := PublishAndStart(es);
  }

  /** A handler changes its message and fails: the queue then holds a message nobody published. */
  lemma FailedHandlerAlters() returns (es: seq<Event>)
    ensures IsRun(TheSystem(ONE), Initial(1), es)
    ensures
      var s := After(TheSystem(ONE), Initial(1), es);
      && s.store.queues == map["q" := [0]]
      && s.store.accepted == [Wire.DEFAULT] && s.store.contents == [CHANGED]
  {
    es := HandleOne();
    es := Fetch(es);
    es := PublishAndStart(es);
  }

  lemma HandleOne() returns (es: seq<Event>)
    ensures IsRun(TheSystem(ONE), DispatchingOne(), es)
    ensures
      var n := After(TheSystem(ONE), DispatchingOne(), es).store;
      n.queues == map["q" := [0]] && n.accepted == [Wire.DEFAULT] && n.contents == [CHANGED]
  {
    var s := Step(ONE, DispatchingOne(), Proceed);
    assert s.store.deliveries == [M.Delivery("q", 0, Wire.DEFAULT, M.Handling)];
    es := ChangeAndFail(s);
    es := Prepend(TheSystem(ONE), DispatchingOne(), Proceed, es);
  }

  lemma ChangeAndFail(s: State) returns (es: seq<Event>)
    requires s.store == DispatchingOne().store.(deliveries := [M.Delivery("q", 0, Wire.DEFAULT, M.Handling)])
    ensures IsRun(TheSystem(ONE), s, es)
    ensures
      var n := After(TheSystem(ONE), s, es).store;
      n.queues == map["q" := [0]] && n.accepted == [Wire.DEFAULT] && n.contents == [CHANGED]
  {
    var s1 := Step(ONE, s, Write(0, CHANGED));
    var s2 := Step(ONE, s1, HandlerReturns(0, false));
    assert s2.store.deliveries == [M.Delivery("q", 0, CHANGED, M.Returned(false))];
    es := PutBackOne(s2);
    es := Prepend(TheSystem(ONE), s1, HandlerReturns(0, false), es);
    es := Prepend(TheSystem(ONE), s, Write(0, CHANGED), es);
  }

  lemma PutBackOne(s: State) returns (es: seq<Event>)
    requires s.store == DispatchingOne().store.(deliveries := [M.Delivery("q", 0, CHANGED, M.Returned(false))])
    ensures IsRun(TheSystem(ONE), s, es)
    ensures
      var n := After(TheSystem(ONE), s, es).store;
      n.queues == map["q" := [0]] && n.accepted == [Wire.DEFAULT] && n.contents == [CHANGED]
  {
    var n := M.Nack(s.store, 0);
    assert M.Queue(s.store, "q") + [0] == [0];
    assert n.queues == map["q" := [0]] && n.contents == [CHANGED];
    es := Prepend(TheSystem(ONE), s, Settle(0), []);
  }
}
