/**
 The loop of the Rust worker: what it waits for, in which order it dispatches, how
 soon it ends once it is told to, and what start then returns.
 */
module RustLoop {
  import opened Bytes
  import opened Runs
  import opened RustWorker

  // ---- The tokens ----------------------------------------------------------

  predicate StopSet(s: State) {
    s.stop
  }

  predicate CancelSet(s: State) {
    s.cancelled
  }

  predicate SetsStop(s: State, e: Event) {
    e.CallStop?
  }

  predicate SetsCancel(s: State, e: Event) {
    e == CancelExternally
  }

  lemma TokenStep(limit: nat, s: State, e: Event)
    requires Enabled(s, e)
    ensures StepOrStay(limit, s, e).stop <==> s.stop || SetsStop(s, e)
    ensures StepOrStay(limit, s, e).cancelled <==> s.cancelled || SetsCancel(s, e)
  {
  }

  /** The stop token is cancelled exactly when some stop was called, the other exactly when the caller cancelled it. */
  lemma TokensExactly(limit: nat, es: seq<Event>)
    requires limit > 0 && IsRun(TheSystem(limit), INITIAL, es)
    ensures
      var s := After(TheSystem(limit), INITIAL, es);
      && (s.stop <==> exists k :: Happens(TheSystem(limit), SetsStop, INITIAL, es, k))
      && (s.cancelled <==> CancelExternally in es)
  {
    InitialInv(limit);
    InvIsInductive(limit);
    forall s, e | Enabled(s, e)
      ensures StepOrStay(limit, s, e).stop <==> s.stop || SetsStop(s, e)
      ensures StepOrStay(limit, s, e).cancelled <==> s.cancelled || SetsCancel(s, e)
    {
      TokenStep(limit, s, e);
    }
    HoldsExactly(TheSystem(limit), InvOf(limit), StopSet, SetsStop, INITIAL, es);
    HoldsExactly(TheSystem(limit), InvOf(limit), CancelSet, SetsCancel, INITIAL, es);
    HappensInRun(TheSystem(limit), INITIAL, es, CancelExternally, SetsCancel);
  }

  // ---- What start returns --------------------------------------------------

  /** The loop has ended with this outcome, which start returns after the drain. */
  predicate HasOutcome(s: State, outcome: Option<Error>) {
    DrainBegun(s.pc) && s.pc.outcome == outcome
  }

  /** The loop ends with this outcome in this event. */
  predicate EndsWith(s: State, e: Event, outcome: Option<Error>) {
    match outcome
    case None =>
      s.stop
      && ((e == PollStop && (s.pc.ConsumeWait? || s.pc.PollWait? || s.pc.InflightWait?))
          || (e == Proceed && s.pc.CheckStop?))
    case Some(Cancelled) => s.cancelled && (e == PollCancel || (e == Proceed && s.pc.CheckCancel?))
    case Some(ConsumeError(code)) => e == ConsumeFails(code)
  }

  ghost function OutcomeIs(outcome: Option<Error>): State -> bool {
    (s: State) => HasOutcome(s, outcome)
  }

  ghost function EndingWith(outcome: Option<Error>): (State, Event) -> bool {
    (s: State, e: Event) => EndsWith(s, e, outcome)
  }

  lemma OutcomeStays(limit: nat, s: State, e: Event)
    requires LifeInv(s) && Enabled(s, e) && DrainBegun(s.pc)
    ensures DrainBegun(Step(limit, s, e).pc) && Step(limit, s, e).pc.outcome == s.pc.outcome
  {
  }

  lemma OutcomeComes(limit: nat, s: State, e: Event, outcome: Option<Error>)
    requires LifeInv(s) && Enabled(s, e) && !DrainBegun(s.pc)
    ensures HasOutcome(Step(limit, s, e), outcome) <==> EndsWith(s, e, outcome)
  {
    match e {
      case Proceed =>
      case PollStop =>
      case PollCancel =>
      case ConsumeFails(_) =>
      case _ =>
    }
  }

  lemma OutcomeStep(limit: nat, s: State, e: Event, outcome: Option<Error>)
    requires LifeInv(s) && Enabled(s, e)
    ensures HasOutcome(StepOrStay(limit, s, e), outcome) <==> HasOutcome(s, outcome) || EndsWith(s, e, outcome)
  {
    if DrainBegun(s.pc) {
      OutcomeStays(limit, s, e);
    } else {
      OutcomeComes(limit, s, e, outcome);
    }
  }

  /**
   What start returns: success exactly when the loop found stop set, at its check or
   in the stop branch of a select that does not go on; cancellation exactly when it
   found cancellation set, at its check or in the cancellation branch of any select;
   and an error of consume exactly when consume failed with it.
   */
  lemma StartReturns(limit: nat, es: seq<Event>, outcome: Option<Error>)
    requires limit > 0 && IsRun(TheSystem(limit), INITIAL, es)
    ensures HasOutcome(After(TheSystem(limit), INITIAL, es), outcome)
            <==> exists k :: Happens(TheSystem(limit), EndingWith(outcome), INITIAL, es, k)
  {
    InitialInv(limit);
    InvIsInductive(limit);
    forall s, e | Inv(limit, s) && Enabled(s, e)
      ensures HasOutcome(StepOrStay(limit, s, e), outcome) <==> HasOutcome(s, outcome) || EndsWith(s, e, outcome)
    {
      OutcomeStep(limit, s, e, outcome);
    }
    HoldsExactly(TheSystem(limit), InvOf(limit), OutcomeIs(outcome), EndingWith(outcome), INITIAL, es);
  }

  // ---- What the loop waits for ---------------------------------------------

  predicate WaitsForSlot(pc: Pc) {
    pc.SlotWait? || pc.DispatchWait?
  }

  ghost function FullWhileWaiting(limit: nat): State -> bool {
    (s: State) => WaitsForSlot(s.pc) ==> |s.inFlight| >= limit
  }

  /** A wait for a slot begins only when the limit is reached, and nothing leaves while it lasts. */
  lemma SlotMoves(limit: nat, s: State, e: Event)
    requires Enabled(s, e) && WaitsForSlot(Step(limit, s, e).pc)
    ensures Step(limit, s, e).inFlight == s.inFlight
    ensures WaitsForSlot(s.pc) || Full(limit, s)
  {
    match e {
      case Proceed =>
      case Yield(_) => assert false;
      case PollStop =>
      case PollCancel =>
      case Consumed(_) => assert false;
      case _ =>
    }
  }

  lemma FullStep(limit: nat, s: State, e: Event)
    requires Enabled(s, e) && FullWhileWaiting(limit)(s)
    ensures FullWhileWaiting(limit)(StepOrStay(limit, s, e))
  {
    if WaitsForSlot(Step(limit, s, e).pc) {
      SlotMoves(limit, s, e);
    }
  }

  /** The loop waits for a slot only while as many deliveries are in flight as the limit allows. */
  lemma WaitsOnlyWhenFull(limit: nat, es: seq<Event>)
    requires limit > 0 && IsRun(TheSystem(limit), INITIAL, es)
    ensures
      var s := After(TheSystem(limit), INITIAL, es);
      WaitsForSlot(s.pc) ==> |s.inFlight| == limit
  {
    forall s, e | FullWhileWaiting(limit)(s) && Enabled(s, e)
      ensures FullWhileWaiting(limit)(StepOrStay(limit, s, e))
    {
      FullStep(limit, s, e);
    }
    Invariant(TheSystem(limit), FullWhileWaiting(limit), INITIAL, es);
    Reachable(limit, es);
  }

  // ---- Order ---------------------------------------------------------------

  /** What the loop holds are the latest deliveries, in order. */
  predicate InOrder(s: State) {
    var pending := Pending(s.pc);
    |pending| <= |s.deliveries| && pending == Numbers(|s.deliveries| - |pending|, |pending|)
  }

  /** Only a push, a batch received and giving up change what the loop holds. */
  lemma SameHeld(limit: nat, s: State, e: Event)
    requires LifeInv(s) && Enabled(s, e) && !e.Consumed? && !(e == Proceed && s.pc.PushCancel?)
    ensures |Step(limit, s, e).deliveries| == |s.deliveries|
    ensures Pending(Step(limit, s, e).pc) == Pending(s.pc) || Pending(Step(limit, s, e).pc) == []
  {
    match e {
      case Proceed =>
      case PollStop =>
      case PollCancel =>
      case Yield(_) =>
      case _ =>
    }
  }

  lemma PushKeepsOrder(limit: nat, s: State)
    requires InOrder(s) && Enabled(s, Proceed) && s.pc.PushCancel?
    ensures InOrder(Step(limit, s, Proceed))
  {
    if !s.cancelled {
      assert Pending(Step(limit, s, Proceed).pc) == s.pc.rest[1..];
    }
  }

  lemma ConsumedKeepsOrder(s: State, count: nat)
    requires s.pc.ConsumeWait?
    ensures InOrder(ConsumedStep(s, count))
  {
    assert count > 0 ==> Pending(ConsumedStep(s, count).pc) == Numbers(|s.deliveries|, count);
  }

  lemma OrderKept(limit: nat, s: State, e: Event)
    requires InOrder(s) && LifeInv(s) && Enabled(s, e)
    ensures InOrder(StepOrStay(limit, s, e))
  {
    if e == Proceed && s.pc.PushCancel? {
      PushKeepsOrder(limit, s);
    } else if e.Consumed? {
      ConsumedKeepsOrder(s, e.count);
    } else {
      SameHeld(limit, s, e);
    }
  }

  ghost function OrderedInv(limit: nat): State -> bool {
    (s: State) => Inv(limit, s) && InOrder(s)
  }

  /** Deliveries are dispatched in the order they were received: what follows an undispatched one is undispatched. */
  lemma DispatchedInOrder(limit: nat, es: seq<Event>, d: DeliveryId, later: DeliveryId)
    requires limit > 0 && IsRun(TheSystem(limit), INITIAL, es)
    requires
      var s := After(TheSystem(limit), INITIAL, es);
      d < later < |s.deliveries| && s.deliveries[d] == Fetched
    ensures After(TheSystem(limit), INITIAL, es).deliveries[later] == Fetched
  {
    forall s, e | Inv(limit, s) && InOrder(s) && Enabled(s, e)
      ensures Inv(limit, StepOrStay(limit, s, e)) && InOrder(StepOrStay(limit, s, e))
    {
      StepKeepsInv(limit, s, e);
      OrderKept(limit, s, e);
    }
    InitialInv(limit);
    Invariant(TheSystem(limit), OrderedInv(limit), INITIAL, es);
    var s := After(TheSystem(limit), INITIAL, es);
    var pending := Pending(s.pc);
    assert d in pending;
    assert pending[later - (|s.deliveries| - |pending|)] == later;
  }

  // ---- The loop ends -------------------------------------------------------

  predicate Ending(s: State) {
    s.stop || s.cancelled
  }

  predicate OfLoop(e: Event) {
    || e.Proceed? || e.PollStop? || e.PollCancel? || e.Pend?
    || e.Consumed? || e.ConsumeFails? || e.DelayEnds? || e.Yield?
  }

  /** Three numbers, for the three branches. */
  function ByBranch(b: Branch, stop: nat, cancel: nat, work: nat): nat {
    match b
    case StopBranch => stop
    case CancelBranch => cancel
    case WorkBranch => work
  }

  /** The most steps the loop takes from here once stop is set. */
  function StepsToStop(pc: Pc, b: Branch): nat {
    match pc
    case NotStarted => 3
    case Top => 3
    case SlotWait => ByBranch(b, 2, 5, 4)
    case CheckStop => 1
    case CheckCancel => 2
    case ConsumeWait => ByBranch(b, 1, 8, 7)
    case PollWait => ByBranch(b, 4, 6, 5)
    case InflightWait => ByBranch(b, 1, 5, 4)
    case Dispatching(_) => 6
    case DispatchWait(_) => ByBranch(b, 5, 8, 7)
    case PushStop(_) => 4
    case PushCancel(_) => 7
    case _ => 0
  }

  /** The same when only cancellation is set. */
  function StepsToCancel(pc: Pc, b: Branch): nat {
    match pc
    case NotStarted => 3
    case Top => 3
    case SlotWait => ByBranch(b, 2, 1, 4)
    case CheckStop => 2
    case CheckCancel => 1
    case ConsumeWait => ByBranch(b, 2, 1, 7)
    case PollWait => ByBranch(b, 5, 4, 6)
    case InflightWait => ByBranch(b, 2, 1, 4)
    case Dispatching(_) => 6
    case DispatchWait(_) => ByBranch(b, 2, 1, 7)
    case PushStop(_) => 5
    case PushCancel(_) => 4
    case _ => 0
  }

  /** A stop that comes after a cancellation may send the loop another way, but not a longer one. */
  function LoopRank(s: State): int {
    if s.stop then StepsToStop(s.pc, s.branch) else 8 + StepsToCancel(s.pc, s.branch)
  }

  predicate LoopDone(s: State) {
    DrainBegun(s.pc)
  }

  lemma StoppingStep(limit: nat, s: State, e: Event)
    requires LifeInv(s) && s.stop && Enabled(s, e) && !DrainBegun(s.pc)
    ensures
      var n := Step(limit, s, e);
      DrainBegun(n.pc) || StepsToStop(n.pc, n.branch) + Count(OfLoop(e)) <= StepsToStop(s.pc, s.branch)
  {
    match e {
      case Proceed =>
      case Consumed(_) =>
      case Yield(_) =>
      case _ =>
    }
  }

  lemma CancellingStep(limit: nat, s: State, e: Event)
    requires LifeInv(s) && !s.stop && s.cancelled && Enabled(s, e) && !e.CallStop? && !DrainBegun(s.pc)
    ensures
      var n := Step(limit, s, e);
      DrainBegun(n.pc) || StepsToCancel(n.pc, n.branch) + Count(OfLoop(e)) <= StepsToCancel(s.pc, s.branch)
  {
    match e {
      case Proceed =>
      case Consumed(_) =>
      case Yield(_) =>
      case _ =>
    }
  }

  lemma EndingStep(limit: nat, s: State, e: Event)
    requires LifeInv(s) && Ending(s) && Enabled(s, e)
    ensures
      var n := StepOrStay(limit, s, e);
      DrainBegun(n.pc) || (!DrainBegun(s.pc) && LoopRank(n) + Count(OfLoop(e)) <= LoopRank(s))
  {
    TokenStep(limit, s, e);
    if DrainBegun(s.pc) {
      DrainGoesOn(limit, s, e);
    } else if s.stop {
      StoppingStep(limit, s, e);
    } else if !e.CallStop? {
      CancellingStep(limit, s, e);
    }
  }

  ghost function EndingInv(limit: nat): State -> bool {
    (s: State) => Inv(limit, s) && Ending(s)
  }

  lemma RankWithin(s: State)
    ensures 0 <= LoopRank(s) <= 16
  {
  }

  /** The loop ends: once stop or cancellation is set, it does so within sixteen steps in every continuation. */
  lemma LoopEnds(limit: nat, es: seq<Event>, more: seq<Event>)
    requires limit > 0 && IsRun(TheSystem(limit), INITIAL, es)
    requires
      var s := After(TheSystem(limit), INITIAL, es);
      Ending(s) && IsRun(TheSystem(limit), s, more)
    ensures
      var s := After(TheSystem(limit), INITIAL, es);
      DrainBegun(After(TheSystem(limit), s, more).pc) || Tally(OfLoop, more) <= 16
  {
    Reachable(limit, es);
    EndsWithin(limit, After(TheSystem(limit), INITIAL, es), more);
  }

  lemma EndsWithin(limit: nat, s: State, more: seq<Event>)
    requires EndingInv(limit)(s) && IsRun(TheSystem(limit), s, more)
    ensures LoopDone(After(TheSystem(limit), s, more)) || Tally(OfLoop, more) <= 16
  {
    EndingFalls(limit);
    BoundedUntil(TheSystem(limit), EndingInv(limit), LoopDone, LoopRank, OfLoop, s, more);
    RankWithin(s);
    RankWithin(After(TheSystem(limit), s, more));
  }

  lemma EndingFalls(limit: nat)
    ensures Inductive(TheSystem(limit), EndingInv(limit))
    ensures FallsUntil(TheSystem(limit), EndingInv(limit), LoopDone, LoopRank, OfLoop)
  {
    forall s, e | Inv(limit, s) && Ending(s) && Enabled(s, e)
      ensures
        var n := StepOrStay(limit, s, e);
        && Inv(limit, n) && Ending(n)
        && (DrainBegun(n.pc) || (!DrainBegun(s.pc) && LoopRank(n) + Count(OfLoop(e)) <= LoopRank(s)))
    {
      StepKeepsInv(limit, s, e);
      TokenStep(limit, s, e);
      EndingStep(limit, s, e);
    }
  }

  // ---- When stop returns ---------------------------------------------------

  predicate StopHasReturned(s: State, c: nat) {
    c in s.stops && s.stops[c] == HasReturned
  }

  /** Stop number `c` finds the worker idle, or sees the finished token. */
  predicate ReturnsStop(s: State, e: Event, c: nat) {
    (e == LoadState(c) && s.life == Idle) || e == StopReturns(c)
  }

  ghost function StopReturned(c: nat): State -> bool {
    (s: State) => StopHasReturned(s, c)
  }

  ghost function ReturningStop(c: nat): (State, Event) -> bool {
    (s: State, e: Event) => ReturnsStop(s, e, c)
  }

  lemma StopStepsExactly(limit: nat, s: State, e: Event, c: nat)
    requires Enabled(s, e)
    ensures StopHasReturned(StepOrStay(limit, s, e), c) <==> StopHasReturned(s, c) || ReturnsStop(s, e, c)
  {
    match e {
      case CallStop(_) =>
      case LoadState(_) =>
      case StopReturns(_) =>
      case Proceed =>
      case _ =>
    }
  }

  /**
   A stop returns exactly when it found the worker idle, or saw that start has ended;
   and once start has ended every stop that is waiting can return.
   */
  lemma StopReturnsExactly(limit: nat, es: seq<Event>, c: nat)
    requires limit > 0 && IsRun(TheSystem(limit), INITIAL, es)
    ensures
      var s := After(TheSystem(limit), INITIAL, es);
      && (StopHasReturned(s, c) <==> exists k :: Happens(TheSystem(limit), ReturningStop(c), INITIAL, es, k))
      && (s.pc.Done? && c in s.stops && s.stops[c] == Waiting ==> Enabled(s, StopReturns(c)))
  {
    InitialInv(limit);
    InvIsInductive(limit);
    forall s, e | Enabled(s, e)
      ensures StopHasReturned(StepOrStay(limit, s, e), c) <==> StopHasReturned(s, c) || ReturnsStop(s, e, c)
    {
      StopStepsExactly(limit, s, e, c);
    }
    HoldsExactly(TheSystem(limit), InvOf(limit), StopReturned(c), ReturningStop(c), INITIAL, es);
  }

  // ---- When the loop polls -------------------------------------------------

  /** On the way to a poll, or at it, unless stop is about to be found. */
  predicate NeedsRoom(s: State) {
    (s.pc.CheckStop? && !s.stop) || s.pc.CheckCancel? || s.pc.ConsumeWait? || s.pc.InflightWait?
  }

  predicate HasRoom(limit: nat, s: State) {
    NeedsRoom(s) ==> |s.inFlight| < limit
  }

  lemma RoomByProceed(limit: nat, s: State)
    requires HasRoom(limit, s) && Runnable(s)
    ensures HasRoom(limit, ProceedStep(limit, s))
  {
    match s.pc {
      case Top =>
      case CheckStop =>
      case CheckCancel =>
      case _ =>
    }
  }

  lemma RoomByOthers(limit: nat, s: State, e: Event)
    requires LifeInv(s) && Enabled(s, e) && !e.Proceed? && NeedsRoom(Step(limit, s, e))
    ensures Step(limit, s, e).inFlight == s.inFlight && NeedsRoom(s)
  {
    match e {
      case PollStop =>
      case PollCancel =>
      case Consumed(_) =>
      case Yield(_) => assert false;
      case _ =>
    }
  }

  ghost function RoomInv(limit: nat): State -> bool {
    (s: State) => Inv(limit, s) && HasRoom(limit, s)
  }

  lemma RoomIsInductive(limit: nat)
    ensures Inductive(TheSystem(limit), RoomInv(limit))
  {
    forall s, e | Inv(limit, s) && HasRoom(limit, s) && Enabled(s, e)
      ensures Inv(limit, StepOrStay(limit, s, e)) && HasRoom(limit, StepOrStay(limit, s, e))
    {
      StepKeepsInv(limit, s, e);
      if e.Proceed? {
        RoomByProceed(limit, s);
      } else if NeedsRoom(Step(limit, s, e)) {
        RoomByOthers(limit, s, e);
      }
    }
  }

  /** The queue is polled only while fewer deliveries are in flight than the limit allows. */
  lemma PollsOnlyWithRoom(limit: nat, es: seq<Event>)
    requires limit > 0 && IsRun(TheSystem(limit), INITIAL, es)
    ensures
      var s := After(TheSystem(limit), INITIAL, es);
      s.pc.ConsumeWait? ==> |s.inFlight| < limit
  {
    RoomIsInductive(limit);
    InitialInv(limit);
    assert Inv(limit, INITIAL);
    Invariant(TheSystem(limit), RoomInv(limit), INITIAL, es);
  }
}
