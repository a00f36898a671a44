/**
 The loop of the TypeScript worker: what it waits for, what a poll takes, in which
 order it dispatches, how soon it ends once it is told to, and how start then settles.
 */
module TsLoop {
  import opened Bytes
  import opened Runs
  import M = TsMemory
  import P = TsPool
  import opened TsWorker
  import F = TsFates

  // ---- The signals ---------------------------------------------------------

  predicate StopAborted(s: State) {
    s.stopAborted
  }

  predicate ExternalAborted(s: State) {
    s.externalAborted
  }

  predicate AbortsStop(s: State, e: Event) {
    e.CallStop?
  }

  predicate AbortsExternal(s: State, e: Event) {
    e == AbortExternally
  }

  /** The loop leaves both signals and the reported error alone, except where it reports cancellation. */
  lemma LoopKeepsSignals(c: Config, s: State, e: Event)
    requires Enabled(s, e) && F.OfLoop(e)
    ensures
      var n := Step(c, s, e);
      && n.stopAborted == s.stopAborted && n.externalAborted == s.externalAborted
      && n.error == if ReportsCancelled(s, e) then Some(Cancelled) else s.error
  {
    match e {
      case Proceed =>
      case Resume =>
      case DelayEnds(_) =>
    }
  }

  lemma SignalStep(c: Config, s: State, e: Event)
    requires Enabled(s, e)
    ensures StepOrStay(c, s, e).stopAborted <==> s.stopAborted || AbortsStop(s, e)
    ensures StepOrStay(c, s, e).externalAborted <==> s.externalAborted || AbortsExternal(s, e)
  {
    if F.OfLoop(e) {
      LoopKeepsSignals(c, s, e);
    }
  }

  /** The stop signal is aborted exactly when some stop was called, the caller's exactly when the caller aborted it. */
  lemma SignalsExactly(c: Config, bufferSize: int, es: seq<Event>)
    requires IsRun(TheSystem(c), Initial(bufferSize), es)
    ensures
      var s := After(TheSystem(c), Initial(bufferSize), es);
      && (s.stopAborted <==> exists k :: Happens(TheSystem(c), AbortsStop, Initial(bufferSize), es, k))
      && (s.externalAborted <==> AbortExternally in es)
  {
    var s0 := Initial(bufferSize);
    InitialInv(c, bufferSize);
    InvIsInductive(c);
    forall s, e | Enabled(s, e)
      ensures StepOrStay(c, s, e).stopAborted <==> s.stopAborted || AbortsStop(s, e)
      ensures StepOrStay(c, s, e).externalAborted <==> s.externalAborted || AbortsExternal(s, e)
    {
      SignalStep(c, s, e);
    }
    HoldsExactly(TheSystem(c), InvOf(c), StopAborted, AbortsStop, s0, es);
    HoldsExactly(TheSystem(c), InvOf(c), ExternalAborted, AbortsExternal, s0, es);
    HappensInRun(TheSystem(c), s0, es, AbortExternally, AbortsExternal);
  }

  // ---- How start settles ---------------------------------------------------

  /**
   The loop notices the caller's abort where it reports it: after a wait for a slot,
   when stop was not called, or after a poll delay with nothing running that was cut
   short by stop.
   */
  predicate ReportsCancelled(s: State, e: Event) {
    && s.externalAborted
    && ((e == Resume && s.pc.SlotWait? && !s.stopAborted) || (e == DelayEnds(true) && s.pc.DelayWait?))
  }

  predicate ReportsFailure(s: State, e: Event) {
    e == ConsumeFails
  }

  predicate RejectsCancelled(s: State) {
    s.error == Some(Cancelled)
  }

  predicate RejectsFailed(s: State) {
    s.error == Some(ConsumeFailed)
  }

  lemma ErrorStep(c: Config, s: State, e: Event)
    requires Enabled(s, e)
    ensures
      var n := StepOrStay(c, s, e);
      n.error == if ReportsCancelled(s, e) then Some(Cancelled)
                 else if e == ConsumeFails then Some(ConsumeFailed)
                 else s.error
  {
    if F.OfLoop(e) {
      LoopKeepsSignals(c, s, e);
    }
  }

  /** An error is reported only on the way into the drain. */
  ghost function ErrorInv(c: Config): State -> bool {
    (s: State) => Inv(c, s) && (s.error.Some? ==> DrainBegun(s.pc))
  }

  lemma ReportLeadsToDrain(c: Config, s: State, e: Event)
    requires Enabled(s, e) && (ReportsCancelled(s, e) || e == ConsumeFails)
    ensures DrainBegun(Step(c, s, e).pc) && !DrainBegun(s.pc)
  {
  }

  lemma ErrorIsInductive(c: Config)
    ensures Inductive(TheSystem(c), ErrorInv(c))
  {
    forall s, e | Inv(c, s) && (s.error.Some? ==> DrainBegun(s.pc)) && Enabled(s, e)
      ensures Inv(c, StepOrStay(c, s, e))
      ensures StepOrStay(c, s, e).error.Some? ==> DrainBegun(StepOrStay(c, s, e).pc)
    {
      StepKeepsInv(c, s, e);
      ErrorStep(c, s, e);
      if ReportsCancelled(s, e) || e == ConsumeFails {
        ReportLeadsToDrain(c, s, e);
      } else if DrainBegun(s.pc) {
        DrainGoesOn(c, s, e);
      }
    }
  }

  lemma ErrorsExactly(c: Config)
    ensures ExactlyBy(TheSystem(c), ErrorInv(c), RejectsCancelled, ReportsCancelled)
    ensures ExactlyBy(TheSystem(c), ErrorInv(c), RejectsFailed, ReportsFailure)
  {
    forall s, e | ErrorInv(c)(s) && Enabled(s, e)
      ensures RejectsCancelled(StepOrStay(c, s, e)) <==> RejectsCancelled(s) || ReportsCancelled(s, e)
      ensures RejectsFailed(StepOrStay(c, s, e)) <==> RejectsFailed(s) || ReportsFailure(s, e)
    {
      ErrorStep(c, s, e);
      if ReportsCancelled(s, e) || e == ConsumeFails {
        ReportLeadsToDrain(c, s, e);
      }
    }
  }

  /**
   How start settles once it has drained: it rejects as cancelled exactly when the
   loop reported the caller's abort, and with the error of consume exactly when
   consume failed; otherwise it resolves, also when the abort was seen elsewhere.
   */
  lemma StartSettles(c: Config, bufferSize: int, es: seq<Event>)
    requires IsRun(TheSystem(c), Initial(bufferSize), es)
    ensures
      var s := After(TheSystem(c), Initial(bufferSize), es);
      && (s.error == Some(Cancelled)
          <==> exists k :: Happens(TheSystem(c), ReportsCancelled, Initial(bufferSize), es, k))
      && (s.error == Some(ConsumeFailed) <==> ConsumeFails in es)
  {
    var s0 := Initial(bufferSize);
    InitialInv(c, bufferSize);
    ErrorIsInductive(c);
    ErrorsExactly(c);
    HoldsExactly(TheSystem(c), ErrorInv(c), RejectsCancelled, ReportsCancelled, s0, es);
    HoldsExactly(TheSystem(c), ErrorInv(c), RejectsFailed, ReportsFailure, s0, es);
    HappensInRun(TheSystem(c), s0, es, ConsumeFails, ReportsFailure);
  }

  // ---- What the loop waits for ---------------------------------------------

  predicate WaitsForSlot(pc: Pc) {
    pc.SlotWait? || pc.DispatchWait?
  }

  /** The loop waits for a slot, and nobody has freed one yet. */
  predicate StillWaiting(s: State) {
    WaitsForSlot(s.pc) && ParkedOn(s.pc).value !in s.pool.resolved
  }

  ghost function FullWhileWaiting(c: Config): State -> bool {
    (s: State) => Inv(c, s) && (StillWaiting(s) ==> Full(c, s))
  }

  /** If the loop now waits for a slot, the pool is full. */
  predicate WaitsFull(c: Config, s: State) {
    WaitsForSlot(s.pc) ==> Full(c, s)
  }

  lemma TopWaits(c: Config, s: State)
    ensures WaitsFull(c, SlotStep(c, s)) && WaitsFull(c, TopStep(c, s))
  {
  }

  lemma DispatchWaits(c: Config, s: State, rest: seq<DeliveryId>)
    requires Dispatchable(s, rest)
    ensures WaitsFull(c, DispatchStep(c, s, rest))
  {
  }

  lemma ProceedWaits(c: Config, s: State)
    requires Runnable(s)
    ensures WaitsFull(c, ProceedStep(c, s))
  {
    TopWaits(c, s);
    if s.pc.Dispatching? {
      DispatchWaits(c, s, s.pc.rest);
    }
  }

  lemma ResumeWaits(c: Config, s: State)
    requires Awake(s)
    ensures WaitsFull(c, ResumeStep(c, s))
  {
    TopWaits(c, s);
    if s.pc.DispatchWait? {
      DispatchWaits(c, s, s.pc.rest);
    }
  }

  /** A wait for a slot begins only when the pool is full. */
  lemma WaitsBeginFull(c: Config, s: State, e: Event)
    requires Enabled(s, e) && F.OfLoop(e)
    ensures WaitsFull(c, Step(c, s, e))
  {
    match e {
      case Proceed => ProceedWaits(c, s);
      case Resume => ResumeWaits(c, s);
      case DelayEnds(_) => TopWaits(c, s);
    }
  }

  lemma FinishFreesSlot(s: State, d: DeliveryId)
    requires PoolInvOf(s) && StillWaiting(s)
    ensures ParkedOn(s.pc).value in P.Settled(s.pool, d).resolved
  {
  }

  predicate PoolInvOf(s: State) {
    ParkedOn(s.pc).Some? && ParkedOn(s.pc).value !in s.pool.resolved ==> s.pool.waiter == ParkedOn(s.pc)
  }

  lemma OthersKeepPool(c: Config, s: State, e: Event)
    requires Enabled(s, e) && !F.OfLoop(e) && !e.Finish?
    ensures Step(c, s, e).pool == s.pool
    ensures Step(c, s, e).pc == s.pc || !WaitsForSlot(Step(c, s, e).pc)
  {
  }

  lemma FullStep(c: Config, s: State, e: Event)
    requires FullWhileWaiting(c)(s) && Enabled(s, e)
    ensures FullWhileWaiting(c)(StepOrStay(c, s, e))
  {
    StepKeepsInv(c, s, e);
    if F.OfLoop(e) {
      WaitsBeginFull(c, s, e);
    } else if e.Finish? {
      if StillWaiting(s) {
        FinishFreesSlot(s, e.d);
      }
    } else {
      OthersKeepPool(c, s, e);
    }
  }

  /** While the loop waits for a slot nobody has freed, exactly as many deliveries run as the limit allows. */
  lemma WaitsOnlyWhenFull(c: Config, bufferSize: int, es: seq<Event>)
    requires IsRun(TheSystem(c), Initial(bufferSize), es)
    ensures
      var s := After(TheSystem(c), Initial(bufferSize), es);
      WaitsForSlot(s.pc) && ParkedOn(s.pc).value !in s.pool.resolved ==> |s.pool.active| == c.concurrency
  {
    forall s, e | FullWhileWaiting(c)(s) && Enabled(s, e)
      ensures FullWhileWaiting(c)(StepOrStay(c, s, e))
    {
      FullStep(c, s, e);
    }
    InitialInv(c, bufferSize);
    Invariant(TheSystem(c), FullWhileWaiting(c), Initial(bufferSize), es);
  }

  // ---- What a poll takes, and the order of dispatch ------------------------

  /**
   From `s` to `n` the front of the worker's own queue was taken: at most the batch
   size, or one; fewer only when that left the queue empty; and one at least when there
   was one.
   */
  predicate BatchTaken(c: Config, s: State, n: State) {
    var before, left := M.Queue(s.store, c.queueName), M.Queue(n.store, c.queueName);
    var taken := M.Handed(NewDeliveries(s, n), c.queueName);
    && before == taken + left
    && (|taken| <= c.maxBatch || |taken| <= 1)
    && (|taken| < c.maxBatch ==> left == [])
    && (before != [] ==> taken != [])
    && forall d | |s.store.deliveries| <= d < |n.store.deliveries| :: n.store.deliveries[d].queue == c.queueName
  }

  lemma ConsumeTakesBatch(c: Config, s: State, n: State)
    requires n.store == M.Consume(s.store, c.queueName, c.maxBatch)
    ensures BatchTaken(c, s, n)
  {
    M.ConsumeHands(s.store, c.queueName, c.maxBatch);
  }

  /** Every step that polls takes a batch. */
  lemma PollTakesBatch(c: Config, s: State, e: Event)
    requires Enabled(s, e) && Step(c, s, e).polls > s.polls
    ensures BatchTaken(c, s, Step(c, s, e))
  {
    PollIsConsume(c, s, e);
    ConsumeTakesBatch(c, s, Step(c, s, e));
  }

  lemma SlotPolls(c: Config, s: State)
    ensures SlotStep(c, s).polls > s.polls ==> !Full(c, s) && !Stopping(s)
    ensures TopStep(c, s).polls > s.polls ==> !Full(c, s) && !Stopping(s)
  {
  }

  /** The queue is polled only with a free slot, and only while nobody has told the worker to stop. */
  lemma PollsOnlyWithRoom(c: Config, s: State, e: Event)
    requires Enabled(s, e) && Step(c, s, e).polls > s.polls
    ensures |s.pool.active| < c.concurrency && !s.stopAborted && !s.externalAborted
  {
    SlotPolls(c, s);
    match e {
      case Proceed =>
      case Resume =>
      case DelayEnds(_) =>
      case _ =>
    }
  }

  lemma PollIsConsume(c: Config, s: State, e: Event)
    requires Enabled(s, e) && Step(c, s, e).polls > s.polls
    ensures Step(c, s, e).store == M.Consume(s.store, c.queueName, c.maxBatch)
  {
    if F.OfLoop(e) {
      LoopPolls(c, s, e);
    }
  }

  /** What the loop holds are the latest deliveries, in order. */
  predicate InOrder(s: State) {
    var pending := Pending(s.pc);
    |pending| <= |s.store.deliveries| && pending == Numbers(|s.store.deliveries| - |pending|, |pending|)
  }

  /** What a step of the loop does to what it holds: nothing, drop it, take the first off, or fill it by a poll. */
  predicate HeldMoves(s: State, n: State) {
    var held, holds := Pending(s.pc), Pending(n.pc);
    var count := |n.store.deliveries|;
    || (count == |s.store.deliveries| && (holds == held || holds == [] || (held != [] && holds == held[1..])))
    || (|s.store.deliveries| <= count && holds == Numbers(|s.store.deliveries|, count - |s.store.deliveries|))
  }

  lemma TopHolds(c: Config, s: State)
    requires Pending(s.pc) == []
    ensures HeldMoves(s, SlotStep(c, s)) && HeldMoves(s, TopStep(c, s))
  {
  }

  lemma DispatchHolds(c: Config, s: State, rest: seq<DeliveryId>)
    requires Dispatchable(s, rest) && Pending(s.pc) == rest
    ensures HeldMoves(s, DispatchStep(c, s, rest))
  {
    assert |rest| == 1 ==> rest[1..] == [];
  }

  lemma ProceedHolds(c: Config, s: State)
    requires Runnable(s)
    ensures HeldMoves(s, ProceedStep(c, s))
  {
    if s.pc.Top? {
      TopHolds(c, s);
    } else if s.pc.Dispatching? {
      DispatchHolds(c, s, s.pc.rest);
    }
  }

  lemma ResumeHolds(c: Config, s: State)
    requires Awake(s)
    ensures HeldMoves(s, ResumeStep(c, s))
  {
    if s.pc.DispatchWait? {
      DispatchHolds(c, s, s.pc.rest);
    } else {
      TopHolds(c, s);
    }
  }

  lemma LoopHolds(c: Config, s: State, e: Event)
    requires Enabled(s, e) && F.OfLoop(e)
    ensures HeldMoves(s, Step(c, s, e))
  {
    match e {
      case Proceed => ProceedHolds(c, s);
      case Resume => ResumeHolds(c, s);
      case DelayEnds(_) => TopHolds(c, s);
    }
  }

  lemma OthersHold(c: Config, s: State, e: Event)
    requires Enabled(s, e) && !F.OfLoop(e) && ControlInv(s)
    ensures HeldMoves(s, Step(c, s, e))
  {
  }

  lemma OrderKept(c: Config, s: State, e: Event)
    requires InOrder(s) && ControlInv(s) && Enabled(s, e)
    ensures InOrder(StepOrStay(c, s, e))
  {
    if F.OfLoop(e) {
      LoopHolds(c, s, e);
    } else {
      OthersHold(c, s, e);
    }
    HeldStaysInOrder(s, Step(c, s, e));
  }

  lemma HeldStaysInOrder(s: State, n: State)
    requires InOrder(s) && HeldMoves(s, n)
    ensures InOrder(n)
  {
  }

  ghost function OrderedInv(c: Config): State -> bool {
    (s: State) => Inv(c, s) && InOrder(s)
  }

  /** Deliveries are dispatched in the order they were fetched: what follows an undispatched one is undispatched. */
  lemma DispatchedInOrder(c: Config, bufferSize: int, es: seq<Event>, d: DeliveryId, later: DeliveryId)
    requires IsRun(TheSystem(c), Initial(bufferSize), es)
    requires
      var s := After(TheSystem(c), Initial(bufferSize), es);
      d < later < |s.store.deliveries| && s.store.deliveries[d].phase == M.Fetched
    ensures After(TheSystem(c), Initial(bufferSize), es).store.deliveries[later].phase == M.Fetched
  {
    forall s, e | Inv(c, s) && InOrder(s) && Enabled(s, e)
      ensures Inv(c, StepOrStay(c, s, e)) && InOrder(StepOrStay(c, s, e))
    {
      StepKeepsInv(c, s, e);
      OrderKept(c, s, e);
    }
    InitialInv(c, bufferSize);
    Invariant(TheSystem(c), OrderedInv(c), Initial(bufferSize), es);
    LaterIsHeld(After(TheSystem(c), Initial(bufferSize), es), d, later);
  }

  lemma LaterIsHeld(s: State, d: DeliveryId, later: DeliveryId)
    requires PhaseInv(s) && InOrder(s) && d < later < |s.store.deliveries| && s.store.deliveries[d].phase == M.Fetched
    ensures s.store.deliveries[later].phase == M.Fetched
  {
    var pending := Pending(s.pc);
    assert d in pending;
    assert pending[later - (|s.store.deliveries| - |pending|)] == later;
  }

  // ---- The loop ends -------------------------------------------------------

  /** The most steps the loop takes from here once it is to stop. */
  function StepsToEnd(pc: Pc): nat {
    match pc
    case Consuming(_) => 3
    case Dispatching(_) => 2
    case DispatchWait(_, _) => 2
    case Draining => 0
    case DrainWait(_) => 0
    case Finished => 0
    case _ => 1
  }

  function LoopRank(s: State): int {
    StepsToEnd(s.pc)
  }

  predicate LoopDone(s: State) {
    DrainBegun(s.pc)
  }

  predicate OfLoop(e: Event) {
    F.OfLoop(e) || e.ConsumeFails?
  }

  lemma EndingStep(c: Config, s: State, e: Event)
    requires Stopping(s) && Enabled(s, e)
    ensures
      var n := StepOrStay(c, s, e);
      && Stopping(n) && n.polls == s.polls
      && (DrainBegun(n.pc) || (!DrainBegun(s.pc) && StepsToEnd(n.pc) + Count(OfLoop(e)) <= StepsToEnd(s.pc)))
  {
    SignalStep(c, s, e);
    match e {
      case Proceed =>
      case Resume =>
      case DelayEnds(_) =>
      case _ =>
    }
  }

  ghost function StoppingSince(polls: nat): State -> bool {
    (s: State) => Stopping(s) && s.polls == polls
  }

  /**
   The loop ends: once stop was called or the caller's signal aborted, in every
   continuation the queue is not polled again, and the loop comes to its drain within
   three steps.
   */
  lemma LoopEnds(c: Config, s: State, more: seq<Event>)
    requires Stopping(s) && IsRun(TheSystem(c), s, more)
    ensures
      var n := After(TheSystem(c), s, more);
      n.polls == s.polls && (DrainBegun(n.pc) || Tally(OfLoop, more) <= 3)
  {
    forall t, e | StoppingSince(s.polls)(t) && Enabled(t, e)
      ensures StoppingSince(s.polls)(StepOrStay(c, t, e))
      ensures DrainBegun(StepOrStay(c, t, e).pc)
              || (!DrainBegun(t.pc) && LoopRank(StepOrStay(c, t, e)) + Count(OfLoop(e)) <= LoopRank(t))
    {
      EndingStep(c, t, e);
    }
    Invariant(TheSystem(c), StoppingSince(s.polls), s, more);
    BoundedUntil(TheSystem(c), StoppingSince(s.polls), LoopDone, LoopRank, OfLoop, s, more);
  }

  // ---- When stop returns ---------------------------------------------------

  predicate StopHasReturned(s: State, k: nat) {
    k in s.stops && s.stops[k] == Returned
  }

  /** Stop number `k` finds the worker idle, or sees that start has settled. */
  predicate ReturnsStop(s: State, e: Event, k: nat) {
    (e == CallStop(k) && s.pc.NotStarted?) || e == StopReturns(k)
  }

  ghost function StopReturned(k: nat): State -> bool {
    (s: State) => StopHasReturned(s, k)
  }

  ghost function ReturningStop(k: nat): (State, Event) -> bool {
    (s: State, e: Event) => ReturnsStop(s, e, k)
  }

  lemma LoopKeepsStops(c: Config, s: State, e: Event)
    requires Enabled(s, e) && F.OfLoop(e)
    ensures Step(c, s, e).stops == s.stops
  {
    match e {
      case Proceed =>
      case Resume =>
      case DelayEnds(_) =>
    }
  }

  lemma StopStepsExactly(c: Config, s: State, e: Event, k: nat)
    requires Enabled(s, e)
    ensures StopHasReturned(StepOrStay(c, s, e), k) <==> StopHasReturned(s, k) || ReturnsStop(s, e, k)
  {
    if F.OfLoop(e) {
      LoopKeepsStops(c, s, e);
    }
  }

  /**
   A stop returns exactly when it found the worker idle, or saw that start has settled;
   and once start has settled every stop that is waiting can return.
   */
  lemma StopReturnsExactly(c: Config, bufferSize: int, es: seq<Event>, k: nat)
    requires IsRun(TheSystem(c), Initial(bufferSize), es)
    ensures
      var s := After(TheSystem(c), Initial(bufferSize), es);
      && (StopHasReturned(s, k)
          <==> exists i :: Happens(TheSystem(c), ReturningStop(k), Initial(bufferSize), es, i))
      && (s.pc.Finished? && k in s.stops && s.stops[k] == Waiting ==> Enabled(s, StopReturns(k)))
  {
    InitialInv(c, bufferSize);
    InvIsInductive(c);
    forall s, e | Enabled(s, e)
      ensures StopHasReturned(StepOrStay(c, s, e), k) <==> StopHasReturned(s, k) || ReturnsStop(s, e, k)
    {
      StopStepsExactly(c, s, e, k);
    }
    HoldsExactly(TheSystem(c), InvOf(c), StopReturned(k), ReturningStop(k), Initial(bufferSize), es);
  }
}
