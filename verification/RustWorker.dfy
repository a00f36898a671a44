/**
 The Rust worker: `start` claims the worker by compare-and-exchange and runs the
 loop; `stop` cancels the stop token and then reads the state; both may be called
 any number of times from any thread. Every load and store is a step of its own.
 The selects are biased: a poll looks at the stop token, then at cancellation, then
 at the work, each in a step of its own, so that a token may be set in between, by
 another thread or by a handler that is being polled. In-flight futures make
 progress only while the loop polls them.
 */
module RustWorker {
  import opened Bytes
  import opened Runs

  type DeliveryId = nat

  datatype Error = Cancelled | ConsumeError(code: nat)

  datatype Phase =
    | Fetched
    | Handling
    | Returned(ok: bool)   // the handler has returned
    | Settled(ok: bool)    // acknowledged or nacked
    | Abandoned            // never dispatched
    | Torn                 // its future was dropped before it settled

  datatype Life = Idle | Running | Stopped

  datatype Pc =
    | NotStarted
    | Top
    | SlotWait                              // select over the tokens and in_flight.next()
    | CheckStop
    | CheckCancel
    | ConsumeWait                           // select over the tokens and consume
    | PollWait                              // select over the tokens and the delay
    | InflightWait                          // select over the tokens, in_flight.next() and the delay
    | Dispatching(rest: seq<DeliveryId>)
    | DispatchWait(rest: seq<DeliveryId>)   // as SlotWait, with items left to dispatch
    | PushStop(rest: seq<DeliveryId>)
    | PushCancel(rest: seq<DeliveryId>)
    | Draining(outcome: Option<Error>)
    | Leaving(outcome: Option<Error>)       // run has returned
    | Finishing(outcome: Option<Error>)     // state stored, finished token not yet cancelled
    | Done(outcome: Option<Error>)

  /** The branch of the current select that is polled next. */
  datatype Branch = StopBranch | CancelBranch | WorkBranch

  datatype StopCall = MustLoad | Waiting | HasReturned

  datatype State = State(
    life: Life,
    stop: bool,
    cancelled: bool,
    pc: Pc,
    branch: Branch,
    deliveries: seq<Phase>,
    inFlight: set<DeliveryId>,
    stops: map<nat, StopCall>,
    runs: nat,   // start calls that won the exchange
    polls: nat)  // calls of consume

  const INITIAL := State(Idle, false, false, NotStarted, StopBranch, [], {}, map[], 0, 0)

  datatype Event =
    | CancelExternally
    | CallStart
    | CallStop(c: nat)      // cancels the stop token
    | LoadState(c: nat)
    | StopReturns(c: nat)
    | Proceed               // the loop's next step outside a select
    | PollStop              // the stop branch is polled, and taken if the token is cancelled
    | PollCancel            // likewise the cancellation branch
    | Pend                  // no branch is ready; the next poll begins again with stop
    | Consumed(count: nat)
    | ConsumeFails(code: nat)
    | DelayEnds             // a zero interval does not even look at the tokens
    | HandlerReturns(d: DeliveryId, ok: bool)
    | Settle(d: DeliveryId)
    | Yield(d: DeliveryId)  // in_flight.next() returns this future

  // ---- Steps ---------------------------------------------------------------

  predicate Full(limit: nat, s: State) {
    |s.inFlight| >= limit
  }

  predicate InSelect(pc: Pc) {
    pc.SlotWait? || pc.ConsumeWait? || pc.PollWait? || pc.InflightWait? || pc.DispatchWait?
  }

  /** The loop is at branch `b` of a select. */
  predicate Polling(s: State, b: Branch) {
    InSelect(s.pc) && s.branch == b
  }

  /** The loop is polling the in-flight futures. */
  predicate PollsInFlight(s: State) {
    || s.pc.Draining?
    || ((s.pc.SlotWait? || s.pc.DispatchWait? || s.pc.InflightWait?) && s.branch == WorkBranch)
  }

  predicate Runnable(s: State) {
    || s.pc.Top? || s.pc.CheckStop? || s.pc.CheckCancel? || s.pc.PushStop?
    || (s.pc.Dispatching? && s.pc.rest != []) || (s.pc.PushCancel? && s.pc.rest != [])
    || (s.pc.Draining? && s.inFlight == {}) || s.pc.Leaving? || s.pc.Finishing?
  }

  predicate PhaseIs(s: State, d: DeliveryId, p: Phase) {
    d < |s.deliveries| && s.deliveries[d] == p
  }

  predicate Enabled(s: State, e: Event) {
    match e
    case CancelExternally => true
    case CallStart => true
    case CallStop(c) => c !in s.stops
    case LoadState(c) => c in s.stops && s.stops[c] == MustLoad
    case StopReturns(c) => c in s.stops && s.stops[c] == Waiting && s.pc.Done?
    case Proceed => Runnable(s)
    case PollStop => Polling(s, StopBranch)
    case PollCancel => Polling(s, CancelBranch)
    case Pend => Polling(s, WorkBranch)
    case Consumed(_) => s.pc.ConsumeWait? && s.branch == WorkBranch
    case ConsumeFails(_) => s.pc.ConsumeWait? && s.branch == WorkBranch
    case DelayEnds => s.pc.PollWait? || (s.pc.InflightWait? && s.branch == WorkBranch)
    case HandlerReturns(d, _) => d in s.inFlight && PhaseIs(s, d, Handling) && PollsInFlight(s)
    case Settle(d) => d in s.inFlight && d < |s.deliveries| && s.deliveries[d].Returned? && PollsInFlight(s)
    case Yield(d) => d in s.inFlight && d < |s.deliveries| && s.deliveries[d].Settled? && PollsInFlight(s)
  }

  /** The deliveries the loop holds and has not dispatched. */
  function Pending(pc: Pc): seq<DeliveryId> {
    match pc
    case Dispatching(rest) => rest
    case DispatchWait(rest) => rest
    case PushStop(rest) => rest
    case PushCancel(rest) => rest
    case _ => []
  }

  function Drop(p: Phase, held: bool): Phase {
    if held then Abandoned else if p.Handling? || p.Returned? then Torn else p
  }

  function AbandonRest(s: State, pc: Pc): State {
    s.(pc := pc,
       deliveries := seq(|s.deliveries|, d requires 0 <= d < |s.deliveries| =>
         if d in Pending(s.pc) then Abandoned else s.deliveries[d]))
  }

  /** Leaving `run` by `?`: the local variables go, and with them the items and the in-flight futures. */
  function LeaveAtOnce(s: State): State {
    s.(pc := Leaving(Some(Cancelled)), inFlight := {},
       deliveries := seq(|s.deliveries|, d requires 0 <= d < |s.deliveries| =>
         Drop(s.deliveries[d], d in Pending(s.pc))))
  }

  function Push(s: State, rest: seq<DeliveryId>): State
    requires rest != []
  {
    s.(inFlight := s.inFlight + {rest[0]},
       deliveries := if rest[0] < |s.deliveries| then s.deliveries[rest[0] := Handling] else s.deliveries,
       pc := if |rest| == 1 then Top else Dispatching(rest[1..]))
  }

  /** Entering a select. */
  function Await(s: State, pc: Pc): State {
    s.(pc := pc, branch := StopBranch)
  }

  function ProceedStep(limit: nat, s: State): State
    requires Runnable(s)
  {
    match s.pc
    case Top => if Full(limit, s) then Await(s, SlotWait) else s.(pc := CheckStop)
    case CheckStop => s.(pc := if s.stop then Draining(None) else CheckCancel)
    case CheckCancel =>
      if s.cancelled then s.(pc := Draining(Some(Cancelled))) else Await(s, ConsumeWait).(polls := s.polls + 1)
    case Dispatching(rest) => if Full(limit, s) then Await(s, DispatchWait(rest)) else s.(pc := PushStop(rest))
    case PushStop(rest) => if s.stop then AbandonRest(s, Top) else s.(pc := PushCancel(rest))
    case PushCancel(rest) => if s.cancelled then AbandonRest(s, Top) else Push(s, rest)
    case Draining(outcome) => s.(pc := Leaving(outcome))
    case Leaving(outcome) => s.(pc := Finishing(outcome), life := Stopped)
    case Finishing(outcome) => s.(pc := Done(outcome))
    case _ => s
  }

  function StopStep(s: State): State {
    if !s.stop then s.(branch := CancelBranch)
    else
      match s.pc
      case SlotWait => s.(pc := CheckStop)
      case DispatchWait(rest) => s.(pc := PushStop(rest))
      case _ => s.(pc := Draining(None))
  }

  function ConsumedStep(s: State, count: nat): State {
    if count > 0 then
      s.(pc := Dispatching(seq(count, i => |s.deliveries| + i)),
         deliveries := s.deliveries + seq(count, i => Fetched))
    else Await(s, if s.inFlight == {} then PollWait else InflightWait)
  }

  function YieldStep(s: State, d: DeliveryId): State {
    s.(inFlight := s.inFlight - {d},
       pc := match s.pc
             case DispatchWait(rest) => Dispatching(rest)
             case Draining(_) => s.pc
             case _ => Top)
  }

  function SetPhase(s: State, d: DeliveryId, p: Phase): State
    requires d < |s.deliveries|
  {
    s.(deliveries := s.deliveries[d := p])
  }

  function Step(limit: nat, s: State, e: Event): State
    requires Enabled(s, e)
  {
    match e
    case CancelExternally => s.(cancelled := true)
    case CallStart => if s.life == Idle then s.(life := Running, pc := Top, runs := s.runs + 1) else s
    case CallStop(c) => s.(stop := true, stops := s.stops[c := MustLoad])
    case LoadState(c) => s.(stops := s.stops[c := if s.life == Idle then HasReturned else Waiting])
    case StopReturns(c) => s.(stops := s.stops[c := HasReturned])
    case Proceed => ProceedStep(limit, s)
    case PollStop => StopStep(s)
    case PollCancel => if s.cancelled then LeaveAtOnce(s) else s.(branch := WorkBranch)
    case Pend => s.(branch := StopBranch)
    case Consumed(n) => ConsumedStep(s, n)
    case ConsumeFails(code) => s.(pc := Draining(Some(ConsumeError(code))))
    case DelayEnds => s.(pc := Top)
    case HandlerReturns(d, ok) => SetPhase(s, d, Returned(ok))
    case Settle(d) => SetPhase(s, d, Settled(s.deliveries[d].ok))
    case Yield(d) => YieldStep(s, d)
  }

  function StepOrStay(limit: nat, s: State, e: Event): State {
    if Enabled(s, e) then Step(limit, s, e) else s
  }

  /** A worker with the given concurrency limit. */
  function TheSystem(limit: nat): System<State, Event> {
    System(Enabled, (s, e) => StepOrStay(limit, s, e))
  }

  // ---- Invariants ----------------------------------------------------------

  /** The phases agree with what the loop holds and what is in flight. */
  ghost predicate PhaseInv(s: State) {
    var pending := Pending(s.pc);
    && (forall i, j | 0 <= i < j < |pending| :: pending[i] != pending[j])
    && (forall d | d in pending :: d < |s.deliveries|)
    && (forall d | 0 <= d < |s.deliveries| :: s.deliveries[d] == Fetched <==> d in pending)
    && (forall d | 0 <= d < |s.deliveries| && (s.deliveries[d].Handling? || s.deliveries[d].Returned?) ::
          d in s.inFlight)
    && (forall d | d in s.inFlight ::
          && d < |s.deliveries|
          && (s.deliveries[d].Handling? || s.deliveries[d].Returned? || s.deliveries[d].Settled?))
  }

  predicate HasRest(pc: Pc) {
    pc.Dispatching? || pc.DispatchWait? || pc.PushStop? || pc.PushCancel?
  }

  /** The loop pushes only below the limit. */
  ghost predicate LimitInv(limit: nat, s: State) {
    && |s.inFlight| <= limit
    && (HasRest(s.pc) ==> s.pc.rest != [])
    && (s.pc.PushCancel? || (s.pc.PushStop? && !s.stop) ==> |s.inFlight| < limit)
  }

  /** Leaving early is the only way to tear a delivery, and reports cancellation. */
  ghost predicate TearInv(s: State) {
    && (SomeTorn(s) ==> LeftEarly(s.pc))
    && (HasLeft(s.pc) ==> s.inFlight == {})
  }

  predicate NothingHeld(pc: Pc) {
    || pc.NotStarted? || pc.Top? || pc.CheckStop? || pc.Draining?
    || pc.Leaving? || pc.Finishing? || pc.Done?
  }

  ghost predicate SomeStopReturned(s: State) {
    exists c | c in s.stops :: s.stops[c] == HasReturned
  }

  ghost predicate ControlInv(limit: nat, s: State) {
    && LifeInv(s)
    && (forall c | c in s.stops :: s.stop)
    && (SomeStopReturned(s) ==> s.stop && s.inFlight == {} && NothingHeld(s.pc))
  }

  ghost predicate Inv(limit: nat, s: State) {
    limit > 0 && PhaseInv(s) && LimitInv(limit, s) && TearInv(s) && ControlInv(limit, s)
  }

  // ---- Every step keeps the invariant --------------------------------------

  /** Steps that leave deliveries and in-flight futures alone. */
  lemma MoveKeepsPhases(s: State, n: State)
    requires PhaseInv(s) && Pending(n.pc) == Pending(s.pc)
    requires n.deliveries == s.deliveries && n.inFlight == s.inFlight
    ensures PhaseInv(n)
  {
  }

  lemma AbandonKeepsPhases(s: State, pc: Pc)
    requires PhaseInv(s) && Pending(pc) == []
    ensures PhaseInv(AbandonRest(s, pc))
  {
  }

  lemma LeaveKeepsPhases(s: State)
    requires PhaseInv(s)
    ensures PhaseInv(LeaveAtOnce(s))
  {
  }

  lemma PushKeepsPhases(s: State, rest: seq<DeliveryId>)
    requires PhaseInv(s) && Pending(s.pc) == rest != []
    ensures PhaseInv(Push(s, rest)) && rest[0] !in s.inFlight && rest[0] < |s.deliveries|
  {
    var n := Push(s, rest);
    assert rest[0] in rest;
    assert Pending(n.pc) == rest[1..];
    assert rest == [rest[0]] + rest[1..];
    forall d | d in rest[1..]
      ensures d in rest && d != rest[0]
    {
      var i :| 0 <= i < |rest[1..]| && rest[1..][i] == d;
      assert rest[i + 1] == d;
    }
  }

  lemma ConsumedKeepsPhases(s: State, count: nat)
    requires PhaseInv(s) && s.pc.ConsumeWait?
    ensures PhaseInv(ConsumedStep(s, count))
  {
    var n := ConsumedStep(s, count);
    forall d | 0 <= d < |n.deliveries|
      ensures n.deliveries[d] == Fetched <==> d in Pending(n.pc)
    {
      if d >= |s.deliveries| {
        assert Pending(n.pc)[d - |s.deliveries|] == d;
      }
    }
  }

  lemma HandlerKeepsPhases(s: State, d: DeliveryId, p: Phase)
    requires PhaseInv(s) && d in s.inFlight && (p.Returned? || p.Settled?)
    ensures PhaseInv(SetPhase(s, d, p))
  {
  }

  lemma ProceedKeepsPhases(limit: nat, s: State)
    requires PhaseInv(s) && Runnable(s)
    ensures PhaseInv(ProceedStep(limit, s))
  {
    if (s.pc.PushStop? && s.stop) || (s.pc.PushCancel? && s.cancelled) {
      AbandonKeepsPhases(s, Top);
    } else if s.pc.PushCancel? {
      PushKeepsPhases(s, s.pc.rest);
    } else {
      MoveKeepsPhases(s, ProceedStep(limit, s));
    }
  }

  lemma PhaseKept(limit: nat, s: State, e: Event)
    requires PhaseInv(s) && Enabled(s, e) && ControlInv(limit, s)
    ensures PhaseInv(Step(limit, s, e))
  {
    match e {
      case Proceed => ProceedKeepsPhases(limit, s);
      case PollCancel => LeaveKeepsPhases(s);
      case Consumed(n) => ConsumedKeepsPhases(s, n);
      case HandlerReturns(d, ok) => HandlerKeepsPhases(s, d, Returned(ok));
      case Settle(d) => HandlerKeepsPhases(s, d, Settled(s.deliveries[d].ok));
      case Yield(d) =>
      case _ => MoveKeepsPhases(s, Step(limit, s, e));
    }
  }

  lemma PushKeepsLimit(limit: nat, s: State, rest: seq<DeliveryId>)
    requires rest != [] && |s.inFlight| < limit && rest[0] !in s.inFlight
    ensures LimitInv(limit, Push(s, rest))
  {
  }

  lemma YieldKeepsLimit(limit: nat, s: State, d: DeliveryId)
    requires LimitInv(limit, s) && d in s.inFlight && PollsInFlight(s)
    ensures LimitInv(limit, YieldStep(s, d))
  {
    assert |s.inFlight - {d}| == |s.inFlight| - 1;
  }

  lemma LimitKept(limit: nat, s: State, e: Event)
    requires LimitInv(limit, s) && Enabled(s, e)
    requires s.pc.PushCancel? ==> s.pc.rest[0] !in s.inFlight
    ensures LimitInv(limit, Step(limit, s, e))
  {
    if e.Yield? {
      YieldKeepsLimit(limit, s, e.d);
    } else if e.Proceed? && s.pc.PushCancel? && !s.cancelled {
      PushKeepsLimit(limit, s, s.pc.rest);
    }
  }

  predicate LeftEarly(pc: Pc) {
    pc == Leaving(Some(Cancelled)) || pc == Finishing(Some(Cancelled)) || pc == Done(Some(Cancelled))
  }

  lemma LeftEarlyStays(limit: nat, s: State, e: Event)
    requires LeftEarly(s.pc) && Enabled(s, e) && s.life != Idle && s.inFlight == {}
    ensures LeftEarly(Step(limit, s, e).pc)
  {
  }

  predicate HasLeft(pc: Pc) {
    pc.Leaving? || pc.Finishing? || pc.Done?
  }

  lemma LeavingEmpties(limit: nat, s: State, e: Event)
    requires Enabled(s, e) && s.life != Idle && !HasLeft(s.pc) && HasLeft(Step(limit, s, e).pc)
    ensures Step(limit, s, e).inFlight == {}
  {
  }

  lemma LeftStaysEmpty(limit: nat, s: State, e: Event)
    requires Enabled(s, e) && s.life != Idle && HasLeft(s.pc) && s.inFlight == {}
    ensures Step(limit, s, e).inFlight == {}
  {
  }

  lemma TearKept(limit: nat, s: State, e: Event)
    requires TearInv(s) && Enabled(s, e) && LifeInv(s)
    ensures TearInv(Step(limit, s, e))
  {
    if HasLeft(s.pc) {
      LeftStaysEmpty(limit, s, e);
    } else if HasLeft(Step(limit, s, e).pc) && s.life != Idle {
      LeavingEmpties(limit, s, e);
    }
    if SomeTorn(Step(limit, s, e)) {
      OnlyLeavingTears(limit, s, e);
      if SomeTorn(s) {
        LeftEarlyStays(limit, s, e);
      }
    }
  }

  /** No event takes a returned stop back, and only two make one. */
  lemma StopsKept(limit: nat, s: State, e: Event)
    requires Enabled(s, e)
    ensures !e.LoadState? && !e.StopReturns? ==> (SomeStopReturned(Step(limit, s, e)) ==> SomeStopReturned(s))
    ensures SomeStopReturned(s) ==> SomeStopReturned(Step(limit, s, e))
  {
    var n := Step(limit, s, e);
    if SomeStopReturned(n) && !e.LoadState? && !e.StopReturns? {
      var c :| c in n.stops && n.stops[c] == HasReturned;
      assert c in s.stops && s.stops[c] == HasReturned;
    }
    if SomeStopReturned(s) {
      var c :| c in s.stops && s.stops[c] == HasReturned;
      assert c in n.stops && n.stops[c] == HasReturned;
    }
  }

  /** The part of the control invariant that relates the state variable and the place in the code. */
  predicate LifeInv(s: State) {
    && (s.life == Idle <==> s.pc.NotStarted?)
    && (s.life == Stopped <==> s.pc.Finishing? || s.pc.Done?)
    && s.runs == (if s.pc.NotStarted? then 0 else 1)
    && (s.pc.NotStarted? ==> s.inFlight == {})
  }

  lemma LifeKept(limit: nat, s: State, e: Event)
    requires LifeInv(s) && Enabled(s, e)
    ensures LifeInv(Step(limit, s, e))
  {
  }

  /** A quiet worker stays quiet once its stop token is cancelled. */
  lemma QuietKept(limit: nat, s: State, e: Event)
    requires Enabled(s, e) && limit > 0 && s.stop && s.inFlight == {} && NothingHeld(s.pc)
    ensures Step(limit, s, e).stop && Step(limit, s, e).inFlight == {} && NothingHeld(Step(limit, s, e).pc)
  {
  }

  lemma ControlKept(limit: nat, s: State, e: Event)
    requires Inv(limit, s) && Enabled(s, e)
    ensures ControlInv(limit, Step(limit, s, e))
  {
    LifeKept(limit, s, e);
    StopsKept(limit, s, e);
    if SomeStopReturned(s) {
      QuietKept(limit, s, e);
    }
  }

  lemma StepKeepsInv(limit: nat, s: State, e: Event)
    requires Inv(limit, s) && Enabled(s, e)
    ensures Inv(limit, Step(limit, s, e))
  {
    PhaseKept(limit, s, e);
    if s.pc.PushCancel? {
      assert s.pc.rest[0] in Pending(s.pc);
    }
    LimitKept(limit, s, e);
    TearKept(limit, s, e);
    ControlKept(limit, s, e);
  }

  ghost function InvOf(limit: nat): State -> bool {
    (s: State) => Inv(limit, s)
  }

  lemma InitialInv(limit: nat)
    requires limit > 0
    ensures InvOf(limit)(INITIAL)
  {
  }

  lemma InvIsInductive(limit: nat)
    ensures Inductive(TheSystem(limit), InvOf(limit))
  {
    forall s, e | Inv(limit, s) && Enabled(s, e)
      ensures Inv(limit, StepOrStay(limit, s, e))
    {
      StepKeepsInv(limit, s, e);
    }
  }

  lemma Reachable(limit: nat, es: seq<Event>)
    requires limit > 0 && IsRun(TheSystem(limit), INITIAL, es)
    ensures Inv(limit, After(TheSystem(limit), INITIAL, es))
  {
    InitialInv(limit);
    InvIsInductive(limit);
    Invariant(TheSystem(limit), InvOf(limit), INITIAL, es);
  }

  // ---- Theorems ------------------------------------------------------------

  /**
   When start has returned, nothing is in flight and every delivery it received
   was settled, abandoned before dispatch, or torn; a delivery is torn only when
   start reports cancellation, so the stop and consume-error exits drain. At no
   time are more deliveries in flight than the limit.
   */
  lemma DrainsUnlessCancelled(limit: nat, es: seq<Event>)
    requires limit > 0 && IsRun(TheSystem(limit), INITIAL, es)
    ensures
      var s := After(TheSystem(limit), INITIAL, es);
      && |s.inFlight| <= limit
      && (s.pc.Done? ==>
            && s.inFlight == {}
            && (forall d | 0 <= d < |s.deliveries| ::
                  s.deliveries[d].Settled? || s.deliveries[d] == Abandoned || s.deliveries[d] == Torn)
            && (s.pc.outcome != Some(Cancelled) ==>
                  forall d | 0 <= d < |s.deliveries| :: s.deliveries[d].Settled? || s.deliveries[d] == Abandoned))
  {
    Reachable(limit, es);
    var s := After(TheSystem(limit), INITIAL, es);
    if s.pc.Done? {
      forall d | 0 <= d < |s.deliveries|
        ensures !s.deliveries[d].Fetched? && !s.deliveries[d].Handling? && !s.deliveries[d].Returned?
      {
        assert s.deliveries[d] == Fetched <==> d in Pending(s.pc);
      }
    }
  }

  /** What the handler of a delivery returned, once it has returned. */
  function Verdict(s: State, d: DeliveryId): Option<bool> {
    if d < |s.deliveries| && (s.deliveries[d].Returned? || s.deliveries[d].Settled?) then Some(s.deliveries[d].ok)
    else None
  }

  lemma VerdictComesFromHandler(limit: nat, s: State, e: Event, d: DeliveryId)
    requires Enabled(s, e) && Verdict(Step(limit, s, e), d).Some?
    ensures
      var verdict := Verdict(Step(limit, s, e), d);
      Verdict(s, d) == verdict || e == HandlerReturns(d, verdict.value)
  {
  }

  /** The verdict on `d` is `ok`, or its future was dropped. */
  predicate DecidedOrTorn(s: State, d: DeliveryId, ok: bool) {
    Verdict(s, d) == Some(ok) || PhaseIs(s, d, Torn)
  }

  lemma DecisionLasts(limit: nat, s: State, e: Event, d: DeliveryId, ok: bool)
    requires PhaseInv(s) && Enabled(s, e)
    requires DecidedOrTorn(s, d, ok) || e == HandlerReturns(d, ok)
    ensures DecidedOrTorn(Step(limit, s, e), d, ok)
  {
    assert DecidedOrTorn(s, d, ok) ==> d !in Pending(s.pc);
  }

  /**
   A delivery is acknowledged only if its handler returned success in this run,
   nacked only if it returned an error; and what a handler returned decides its
   delivery for good, unless the future is dropped first.
   */
  lemma SettledAsHandled(limit: nat, es: seq<Event>, d: DeliveryId, ok: bool)
    requires limit > 0 && IsRun(TheSystem(limit), INITIAL, es)
    ensures
      var s := After(TheSystem(limit), INITIAL, es);
      && (Verdict(s, d) == Some(ok) ==> HandlerReturns(d, ok) in es)
      && (HandlerReturns(d, ok) in es ==> DecidedOrTorn(s, d, ok))
  {
    var verdict := (s: State) => Verdict(s, d) == Some(ok);
    var cause := (e: Event) => e == HandlerReturns(d, ok);
    forall s, e | Enabled(s, e)
      ensures verdict(StepOrStay(limit, s, e)) ==> verdict(s) || cause(e)
    {
      if verdict(StepOrStay(limit, s, e)) {
        VerdictComesFromHandler(limit, s, e, d);
      }
    }
    if verdict(After(TheSystem(limit), INITIAL, es)) {
      Caused(TheSystem(limit), verdict, cause, INITIAL, es);
    }
    if HandlerReturns(d, ok) in es {
      HandledStaysDecided(limit, es, d, ok);
    }
  }

  lemma HandledStaysDecided(limit: nat, es: seq<Event>, d: DeliveryId, ok: bool)
    requires limit > 0 && IsRun(TheSystem(limit), INITIAL, es) && HandlerReturns(d, ok) in es
    ensures DecidedOrTorn(After(TheSystem(limit), INITIAL, es), d, ok)
  {
    var inv := InvOf(limit);
    var fact := (s: State) => DecidedOrTorn(s, d, ok);
    var cause := (e: Event) => e == HandlerReturns(d, ok);
    forall s, e | inv(s) && Enabled(s, e)
      ensures inv(StepOrStay(limit, s, e)) && (fact(s) || cause(e) ==> fact(StepOrStay(limit, s, e)))
    {
      StepKeepsInv(limit, s, e);
      if fact(s) || cause(e) {
        DecisionLasts(limit, s, e, d, ok);
      }
    }
    assert cause(HandlerReturns(d, ok));
    Remembered(TheSystem(limit), inv, fact, cause, INITIAL, es);
  }

  /** Some dispatched delivery has not settled. */
  ghost predicate Unsettled(s: State) {
    exists d | 0 <= d < |s.deliveries| :: s.deliveries[d].Handling? || s.deliveries[d].Returned?
  }

  ghost predicate SomeTorn(s: State) {
    exists d | 0 <= d < |s.deliveries| :: s.deliveries[d] == Torn
  }

  /** A select takes its cancellation branch, and `run` leaves by `?`, with a delivery unsettled. */
  ghost predicate Tears(s: State, e: Event) {
    e == PollCancel && s.cancelled && Unsettled(s)
  }

  lemma TornStays(limit: nat, s: State, e: Event)
    requires Inv(limit, s) && Enabled(s, e) && SomeTorn(s)
    ensures SomeTorn(Step(limit, s, e))
  {
    var d :| 0 <= d < |s.deliveries| && s.deliveries[d] == Torn;
    assert d !in Pending(s.pc) && d !in s.inFlight;
    assert Step(limit, s, e).deliveries[d] == Torn;
  }

  lemma LeavingTears(s: State)
    requires PhaseInv(s) && Unsettled(s)
    ensures SomeTorn(LeaveAtOnce(s))
  {
    var d :| 0 <= d < |s.deliveries| && (s.deliveries[d].Handling? || s.deliveries[d].Returned?);
    assert s.deliveries[d] != Fetched;
    assert LeaveAtOnce(s).deliveries[d] == Torn;
  }

  lemma OnlyLeavingTears(limit: nat, s: State, e: Event)
    requires Enabled(s, e) && SomeTorn(Step(limit, s, e))
    ensures SomeTorn(s) || Tears(s, e)
  {
    var n := Step(limit, s, e);
    var d :| 0 <= d < |n.deliveries| && n.deliveries[d] == Torn;
    assert d < |s.deliveries|;
    assert s.deliveries[d] == Torn || s.deliveries[d].Handling? || s.deliveries[d].Returned?;
    assert s.deliveries[d] == Torn || (e == PollCancel && s.cancelled);
  }

  lemma TearStep(limit: nat, s: State, e: Event)
    requires Inv(limit, s) && Enabled(s, e)
    ensures SomeTorn(Step(limit, s, e)) <==> SomeTorn(s) || Tears(s, e)
  {
    if SomeTorn(s) {
      TornStays(limit, s, e);
    }
    if e == PollCancel && s.cancelled && Unsettled(s) {
      LeavingTears(s);
    }
    if SomeTorn(Step(limit, s, e)) {
      OnlyLeavingTears(limit, s, e);
    }
  }

  /**
   Exactly when draining fails: a delivery is left neither acknowledged nor
   nacked if and only if some select took its cancellation branch while a
   dispatched delivery had not settled.
   */
  lemma TornExactly(limit: nat, es: seq<Event>)
    requires limit > 0 && IsRun(TheSystem(limit), INITIAL, es)
    ensures SomeTorn(After(TheSystem(limit), INITIAL, es))
            <==> exists k :: Happens(TheSystem(limit), Tears, INITIAL, es, k)
  {
    InitialInv(limit);
    InvIsInductive(limit);
    forall s, e | Inv(limit, s) && Enabled(s, e)
      ensures SomeTorn(StepOrStay(limit, s, e)) <==> SomeTorn(s) || Tears(s, e)
    {
      TearStep(limit, s, e);
    }
    HoldsExactly(TheSystem(limit), InvOf(limit), SomeTorn, Tears, INITIAL, es);
  }

  // ---- Abandoned deliveries ------------------------------------------------

  ghost function IsAbandoned(d: DeliveryId): State -> bool {
    (s: State) => PhaseIs(s, d, Abandoned)
  }

  /**
   The loop gives up items it holds: it finds stop or cancellation set before a
   push, or a select takes its cancellation branch while it waits for a slot.
   */
  predicate GivesUp(s: State, e: Event) {
    || (e == Proceed && s.pc.PushStop? && s.stop)
    || (e == Proceed && s.pc.PushCancel? && s.cancelled)
    || (e == PollCancel && s.pc.DispatchWait? && s.cancelled)
  }

  ghost function GivingUp(d: DeliveryId): (State, Event) -> bool {
    (s: State, e: Event) => GivesUp(s, e) && d in Pending(s.pc)
  }

  lemma AbandonedStays(limit: nat, s: State, e: Event, d: DeliveryId)
    requires PhaseInv(s) && Enabled(s, e) && PhaseIs(s, d, Abandoned)
    ensures PhaseIs(Step(limit, s, e), d, Abandoned)
  {
    assert d !in Pending(s.pc) && d !in s.inFlight;
  }

  lemma GivingUpAbandons(limit: nat, s: State, e: Event, d: DeliveryId)
    requires PhaseInv(s) && Enabled(s, e) && GivesUp(s, e) && d in Pending(s.pc)
    ensures PhaseIs(Step(limit, s, e), d, Abandoned)
  {
  }

  lemma OnlyGivingUpAbandons(limit: nat, s: State, e: Event, d: DeliveryId)
    requires Enabled(s, e) && PhaseIs(Step(limit, s, e), d, Abandoned) && !PhaseIs(s, d, Abandoned)
    ensures GivesUp(s, e) && d in Pending(s.pc)
  {
  }

  lemma AbandonStep(limit: nat, s: State, e: Event, d: DeliveryId)
    requires PhaseInv(s) && Enabled(s, e)
    ensures PhaseIs(StepOrStay(limit, s, e), d, Abandoned)
            <==> PhaseIs(s, d, Abandoned) || (GivesUp(s, e) && d in Pending(s.pc))
  {
    if PhaseIs(s, d, Abandoned) {
      AbandonedStays(limit, s, e, d);
    } else if GivesUp(s, e) && d in Pending(s.pc) {
      GivingUpAbandons(limit, s, e, d);
    } else if PhaseIs(Step(limit, s, e), d, Abandoned) {
      OnlyGivingUpAbandons(limit, s, e, d);
    }
  }

  /** Exactly when a delivery is abandoned: the loop gave up while it held the delivery undispatched. */
  lemma AbandonedExactly(limit: nat, es: seq<Event>, d: DeliveryId)
    requires limit > 0 && IsRun(TheSystem(limit), INITIAL, es)
    ensures PhaseIs(After(TheSystem(limit), INITIAL, es), d, Abandoned)
            <==> exists k :: Happens(TheSystem(limit), GivingUp(d), INITIAL, es, k)
  {
    InitialInv(limit);
    InvIsInductive(limit);
    AbandonsExactly(limit, d);
    HoldsExactly(TheSystem(limit), InvOf(limit), IsAbandoned(d), GivingUp(d), INITIAL, es);
  }

  lemma AbandonsExactly(limit: nat, d: DeliveryId)
    ensures ExactlyBy(TheSystem(limit), InvOf(limit), IsAbandoned(d), GivingUp(d))
  {
    forall s, e | Inv(limit, s) && Enabled(s, e)
      ensures PhaseIs(StepOrStay(limit, s, e), d, Abandoned)
              <==> PhaseIs(s, d, Abandoned) || (GivesUp(s, e) && d in Pending(s.pc))
    {
      AbandonStep(limit, s, e, d);
    }
  }

  // ---- Two runs ------------------------------------------------------------

  /** One item has been received and is about to be dispatched. */
  const DISPATCHING :=
    State(Running, false, false, Dispatching([0]), WorkBranch, [Fetched], {}, map[], 1, 1)

  /** How a run gets there. */
  lemma FromStart(rest: seq<Event>) returns (es: seq<Event>)
    requires IsRun(TheSystem(1), DISPATCHING, rest)
    ensures IsRun(TheSystem(1), INITIAL, es)
    ensures After(TheSystem(1), INITIAL, es) == After(TheSystem(1), DISPATCHING, rest)
  {
    var s0 := Step(1, INITIAL, CallStart);
    var s1 := Step(1, s0, Proceed);
    var s2 := Step(1, s1, Proceed);
    var s3 := Step(1, s2, Proceed);
    es := FromConsume(s3, rest);
    es := Prepend(TheSystem(1), s2, Proceed, es);
    es := Prepend(TheSystem(1), s1, Proceed, es);
    es := Prepend(TheSystem(1), s0, Proceed, es);
    es := Prepend(TheSystem(1), INITIAL, CallStart, es);
  }

  lemma FromConsume(s: State, rest: seq<Event>) returns (es: seq<Event>)
    requires s == State(Running, false, false, ConsumeWait, StopBranch, [], {}, map[], 1, 1)
    requires IsRun(TheSystem(1), DISPATCHING, rest)
    ensures IsRun(TheSystem(1), s, es) && After(TheSystem(1), s, es) == After(TheSystem(1), DISPATCHING, rest)
  {
    var s1 := Step(1, s, PollStop);
    var s2 := Step(1, s1, PollCancel);
    var s3 := Step(1, s2, Consumed(1));
    assert s3.pc == Dispatching([0]) && s3.deliveries == [Fetched];
    es := Prepend(TheSystem(1), s2, Consumed(1), rest);
    es := Prepend(TheSystem(1), s1, PollCancel, es);
    es := Prepend(TheSystem(1), s, PollStop, es);
  }

  /** Cancellation while a handler runs and the limit is reached: its delivery is neither acknowledged nor nacked. */
  lemma CancellationTears() returns (es: seq<Event>)
    ensures IsRun(TheSystem(1), INITIAL, es)
    ensures
      var s := After(TheSystem(1), INITIAL, es);
      s.pc == Done(Some(Cancelled)) && s.deliveries == [Torn]
  {
    var s1 := Step(1, DISPATCHING, Proceed);
    var s2 := Step(1, s1, Proceed);
    var s3 := Step(1, s2, Proceed);
    es := TearEnd(s3);
    es := Prepend(TheSystem(1), s2, Proceed, es);
    es := Prepend(TheSystem(1), s1, Proceed, es);
    es := Prepend(TheSystem(1), DISPATCHING, Proceed, es);
    es := FromStart(es);
  }

  lemma TearEnd(s: State) returns (es: seq<Event>)
    requires s == State(Running, false, false, Top, WorkBranch, [Handling], {0}, map[], 1, 1)
    ensures IsRun(TheSystem(1), s, es)
    ensures
      var n := After(TheSystem(1), s, es);
      n.pc == Done(Some(Cancelled)) && n.deliveries == [Torn]
  {
    var s1 := Step(1, s, Proceed);
    var s2 := Step(1, s1, PollStop);
    var s3 := Step(1, s2, CancelExternally);
    var s4 := Step(1, s3, PollCancel);
    assert s4.deliveries == [Torn];
    es := LeaveEnd(s4);
    es := Prepend(TheSystem(1), s3, PollCancel, es);
    es := Prepend(TheSystem(1), s2, CancelExternally, es);
    es := Prepend(TheSystem(1), s1, PollStop, es);
    es := Prepend(TheSystem(1), s, Proceed, es);
  }

  /** Stop after an item was received and before it is dispatched: the item is neither handled nor settled. */
  lemma StopAbandons() returns (es: seq<Event>)
    ensures IsRun(TheSystem(1), INITIAL, es)
    ensures
      var s := After(TheSystem(1), INITIAL, es);
      s.pc == Done(None) && s.deliveries == [Abandoned]
  {
    var s1 := Step(1, DISPATCHING, CallStop(0));
    var s2 := Step(1, s1, Proceed);
    var s3 := Step(1, s2, Proceed);
    assert s3.deliveries == [Abandoned];
    es := StopEnd(s3);
    es := Prepend(TheSystem(1), s2, Proceed, es);
    es := Prepend(TheSystem(1), s1, Proceed, es);
    es := Prepend(TheSystem(1), DISPATCHING, CallStop(0), es);
    es := FromStart(es);
  }

  lemma StopEnd(s: State) returns (es: seq<Event>)
    requires s.pc == Top && s.stop && s.inFlight == {}
    ensures IsRun(TheSystem(1), s, es)
    ensures
      var n := After(TheSystem(1), s, es);
      n.pc == Done(None) && n.deliveries == s.deliveries
  {
    var s1 := Step(1, s, Proceed);
    var s2 := Step(1, s1, Proceed);
    var s3 := Step(1, s2, Proceed);
    es := LeaveEnd(s3);
    es := Prepend(TheSystem(1), s2, Proceed, es);
    es := Prepend(TheSystem(1), s1, Proceed, es);
    es := Prepend(TheSystem(1), s, Proceed, es);
  }

  lemma LeaveEnd(s: State) returns (es: seq<Event>)
    requires s.pc.Leaving?
    ensures IsRun(TheSystem(1), s, es)
    ensures
      var n := After(TheSystem(1), s, es);
      n.pc == Done(s.pc.outcome) && n.deliveries == s.deliveries
  {
    var s1 := Step(1, s, Proceed);
    es := Prepend(TheSystem(1), s1, Proceed, []);
    es := Prepend(TheSystem(1), s, Proceed, es);
  }

  // ---- Stop against cancellation -------------------------------------------

  /** Stop is set, nothing is torn, and no select is about to look at cancellation with a delivery unsettled. */
  ghost predicate Shielded(s: State) {
    s.stop && !SomeTorn(s) && !(Polling(s, CancelBranch) && Unsettled(s))
  }

  /** Once stop is set, only a poll that is past its stop branch already is at its cancellation branch. */
  lemma PastStopBranch(limit: nat, s: State, e: Event)
    requires Enabled(s, e) && s.stop && Polling(Step(limit, s, e), CancelBranch) && !s.pc.NotStarted?
    ensures Polling(s, CancelBranch) && Step(limit, s, e).deliveries == s.deliveries
  {
  }

  lemma ShieldKept(limit: nat, s: State, e: Event)
    requires Inv(limit, s) && Enabled(s, e) && Shielded(s)
    ensures Shielded(Step(limit, s, e))
  {
    TearStep(limit, s, e);
    if Polling(Step(limit, s, e), CancelBranch) && !s.pc.NotStarted? {
      PastStopBranch(limit, s, e);
    }
  }

  lemma ShieldHolds(limit: nat, s: State, more: seq<Event>)
    requires Inv(limit, s) && Shielded(s) && IsRun(TheSystem(limit), s, more)
    ensures !SomeTorn(After(TheSystem(limit), s, more))
  {
    var inv := (t: State) => Inv(limit, t) && Shielded(t);
    forall t, e | inv(t) && Enabled(t, e)
      ensures inv(StepOrStay(limit, t, e))
    {
      StepKeepsInv(limit, t, e);
      ShieldKept(limit, t, e);
    }
    Invariant(TheSystem(limit), inv, s, more);
  }

  /** A cancellation that slips in between the two branches. */
  lemma SlipIn(limit: nat, s: State) returns (more: seq<Event>)
    requires Inv(limit, s) && Polling(s, CancelBranch) && Unsettled(s)
    ensures IsRun(TheSystem(limit), s, more) && SomeTorn(After(TheSystem(limit), s, more))
  {
    var t := Step(limit, s, CancelExternally);
    MoveKeepsPhases(s, t);
    LeavingTears(t);
    more := Prepend(TheSystem(limit), t, PollCancel, []);
    more := Prepend(TheSystem(limit), s, CancelExternally, more);
  }

  ghost predicate CanTear(limit: nat, s: State) {
    exists more :: IsRun(TheSystem(limit), s, more) && SomeTorn(After(TheSystem(limit), s, more))
  }

  /**
   What the bias is worth: once stop is set, whatever happens from then on, a
   delivery can be torn if and only if one is torn already, or is unsettled while a
   select is between looking at stop and looking at cancellation.
   */
  lemma StopShieldsExactly(limit: nat, es: seq<Event>)
    requires limit > 0 && IsRun(TheSystem(limit), INITIAL, es)
    requires After(TheSystem(limit), INITIAL, es).stop
    ensures
      var s := After(TheSystem(limit), INITIAL, es);
      CanTear(limit, s) <==> SomeTorn(s) || (Polling(s, CancelBranch) && Unsettled(s))
  {
    Reachable(limit, es);
    var s := After(TheSystem(limit), INITIAL, es);
    if Shielded(s) {
      forall more | IsRun(TheSystem(limit), s, more)
        ensures !SomeTorn(After(TheSystem(limit), s, more))
      {
        ShieldHolds(limit, s, more);
      }
    } else if SomeTorn(s) {
      assert IsRun(TheSystem(limit), s, []) && After(TheSystem(limit), s, []) == s;
    } else {
      var more := SlipIn(limit, s);
    }
  }

  // ---- Somebody can move, and the drain ends -------------------------------

  /** An event of a dispatched delivery. */
  predicate OfDelivery(e: Event) {
    e.HandlerReturns? || e.Settle? || e.Yield?
  }

  ghost predicate SomeDeliveryCanMove(s: State) {
    exists e :: OfDelivery(e) && Enabled(s, e)
  }

  lemma DeliveriesMove(s: State)
    requires PhaseInv(s) && s.pc.Draining? && s.inFlight != {}
    ensures SomeDeliveryCanMove(s)
  {
    var d :| d in s.inFlight;
    var e := if s.deliveries[d].Handling? then HandlerReturns(d, true)
             else if s.deliveries[d].Returned? then Settle(d)
             else Yield(d);
    assert OfDelivery(e) && Enabled(s, e);
  }

  /** The loop's own next step, unless it drains. */
  function LoopStep(s: State): Event {
    if !InSelect(s.pc) then Proceed
    else
      match s.branch
      case StopBranch => PollStop
      case CancelBranch => PollCancel
      case WorkBranch => Pend
  }

  /** From start to the end, the loop or a dispatched delivery can move. */
  lemma NeverStuck(limit: nat, es: seq<Event>)
    requires limit > 0 && IsRun(TheSystem(limit), INITIAL, es)
    ensures
      var s := After(TheSystem(limit), INITIAL, es);
      s.pc.NotStarted? || s.pc.Done? || Enabled(s, LoopStep(s)) || SomeDeliveryCanMove(s)
  {
    Reachable(limit, es);
    var s := After(TheSystem(limit), INITIAL, es);
    if s.pc.Draining? && s.inFlight != {} {
      DeliveriesMove(s);
    }
  }

  /** The steps delivery `d` still has to take. */
  function Weight(s: State, d: DeliveryId): nat {
    if d !in s.inFlight || d >= |s.deliveries| then 0
    else
      match s.deliveries[d]
      case Handling => 3
      case Returned(_) => 2
      case _ => 1
  }

  function Weights(s: State): (ws: seq<nat>)
    ensures |ws| == |s.deliveries| && forall d | 0 <= d < |ws| :: ws[d] == Weight(s, d)
  {
    seq(|s.deliveries|, d requires 0 <= d < |s.deliveries| => Weight(s, d))
  }

  function StepsLeft(s: State): nat {
    Total(Weights(s))
  }

  predicate DrainBegun(pc: Pc) {
    pc.Draining? || HasLeft(pc)
  }

  ghost function DrainingWith(limit: nat): State -> bool {
    (s: State) => Inv(limit, s) && DrainBegun(s.pc)
  }

  lemma DrainGoesOn(limit: nat, s: State, e: Event)
    requires LifeInv(s) && DrainBegun(s.pc) && Enabled(s, e)
    ensures DrainBegun(Step(limit, s, e).pc)
  {
  }

  lemma DrainIsInductive(limit: nat)
    ensures Inductive(TheSystem(limit), DrainingWith(limit))
  {
    forall s, e | Inv(limit, s) && DrainBegun(s.pc) && Enabled(s, e)
      ensures Inv(limit, StepOrStay(limit, s, e)) && DrainBegun(StepOrStay(limit, s, e).pc)
    {
      StepKeepsInv(limit, s, e);
      DrainGoesOn(limit, s, e);
    }
  }

  lemma OneWeightFalls(limit: nat, s: State, e: Event)
    requires Enabled(s, e) && DrainBegun(s.pc) && OfDelivery(e)
    ensures e.d < |s.deliveries| && Weight(s, e.d) > 0
    ensures Weights(Step(limit, s, e)) == Weights(s)[e.d := Weight(s, e.d) - 1]
  {
  }

  lemma NoWeightMoves(limit: nat, s: State, e: Event)
    requires Enabled(s, e) && DrainBegun(s.pc) && LifeInv(s) && !OfDelivery(e)
    ensures Weights(Step(limit, s, e)) == Weights(s)
  {
    assert Step(limit, s, e).deliveries == s.deliveries && Step(limit, s, e).inFlight == s.inFlight;
  }

  lemma StepsCountDown(limit: nat, s: State, e: Event)
    requires Inv(limit, s) && DrainBegun(s.pc) && Enabled(s, e)
    ensures StepsLeft(s) == StepsLeft(StepOrStay(limit, s, e)) + Count(OfDelivery(e))
  {
    if OfDelivery(e) {
      OneWeightFalls(limit, s, e);
      TotalAt(Weights(s), e.d, Weight(s, e.d) - 1);
    } else {
      NoWeightMoves(limit, s, e);
    }
  }

  lemma DrainCountsDown(limit: nat)
    ensures CountsDown(TheSystem(limit), DrainingWith(limit), StepsLeft, OfDelivery)
  {
    forall s, e | Inv(limit, s) && DrainBegun(s.pc) && Enabled(s, e)
      ensures StepsLeft(s) == StepsLeft(StepOrStay(limit, s, e)) + Count(OfDelivery(e))
    {
      StepsCountDown(limit, s, e);
    }
  }

  lemma NoStepsLeft(s: State)
    requires PhaseInv(s) && s.pc.Draining?
    ensures if StepsLeft(s) == 0 then Enabled(s, Proceed) else SomeDeliveryCanMove(s)
  {
    TotalZero(Weights(s));
    if StepsLeft(s) == 0 {
      assert forall d | d in s.inFlight :: Weights(s)[d] > 0;
    } else {
      assert s.inFlight != {};
      DeliveriesMove(s);
    }
  }

  /**
   The drain ends: once the loop has come to it, whatever happens, every step of a
   delivery takes one off the steps left; while some are left a delivery can move,
   and when none is left `run` returns.
   */
  lemma DrainEnds(limit: nat, es: seq<Event>, more: seq<Event>)
    requires limit > 0 && IsRun(TheSystem(limit), INITIAL, es)
    requires
      var s := After(TheSystem(limit), INITIAL, es);
      DrainBegun(s.pc) && IsRun(TheSystem(limit), s, more)
    ensures
      var s := After(TheSystem(limit), INITIAL, es);
      var n := After(TheSystem(limit), s, more);
      && Tally(OfDelivery, more) + StepsLeft(n) == StepsLeft(s)
      && (HasLeft(n.pc)
          || (n.pc.Draining? && if StepsLeft(n) == 0 then Enabled(n, Proceed) else SomeDeliveryCanMove(n)))
  {
    Reachable(limit, es);
    var s := After(TheSystem(limit), INITIAL, es);
    DrainIsInductive(limit);
    DrainCountsDown(limit);
    RankIsTally(TheSystem(limit), DrainingWith(limit), StepsLeft, OfDelivery, s, more);
    Invariant(TheSystem(limit), DrainingWith(limit), s, more);
    if After(TheSystem(limit), s, more).pc.Draining? {
      NoStepsLeft(After(TheSystem(limit), s, more));
    }
  }

  // ---- Stop is final -------------------------------------------------------

  /** Whatever happens, at most one start call ever wins the exchange. */
  lemma OneStartRuns(limit: nat, es: seq<Event>)
    requires limit > 0 && IsRun(TheSystem(limit), INITIAL, es)
    ensures After(TheSystem(limit), INITIAL, es).runs <= 1
  {
    Reachable(limit, es);
  }

  function Footprint(s: State): (seq<Phase>, nat) {
    (s.deliveries, s.polls)
  }

  lemma NothingMovesAfterStop(limit: nat, s: State, e: Event)
    requires Inv(limit, s) && SomeStopReturned(s) && Enabled(s, e)
    ensures Footprint(Step(limit, s, e)) == Footprint(s) && SomeStopReturned(Step(limit, s, e))
  {
    var c :| c in s.stops && s.stops[c] == HasReturned;
    var n := Step(limit, s, e);
    assert c in n.stops && n.stops[c] == HasReturned;
  }

  /**
   Stop is final: after any stop call has returned, whether it found the worker
   idle or finished, nothing is consumed, dispatched, handled or settled, however
   start and stop interleave from then on, and no second start wins.
   */
  lemma StopIsFinal(limit: nat, es: seq<Event>, more: seq<Event>)
    requires limit > 0 && IsRun(TheSystem(limit), INITIAL, es)
    requires
      var s := After(TheSystem(limit), INITIAL, es);
      SomeStopReturned(s) && IsRun(TheSystem(limit), s, more)
    ensures
      var s := After(TheSystem(limit), INITIAL, es);
      var t := After(TheSystem(limit), s, more);
      Footprint(t) == Footprint(s) && t.runs <= 1
  {
    Reachable(limit, es);
    var s := After(TheSystem(limit), INITIAL, es);
    var inv := (t: State) => Inv(limit, t) && SomeStopReturned(t) && Footprint(t) == Footprint(s);
    forall t, e | inv(t) && Enabled(t, e)
      ensures inv(StepOrStay(limit, t, e))
    {
      StepKeepsInv(limit, t, e);
      NothingMovesAfterStop(limit, t, e);
    }
    Invariant(TheSystem(limit), inv, s, more);
  }
}
