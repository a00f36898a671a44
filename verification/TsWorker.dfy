/**
 The TypeScript worker running against the memory adapter. Code between two
 awaits is one step. The loop, the handlers, publishers, `clear`, callers of
 `start` and `stop` and the external abort signal interleave freely.
 */
module TsWorker {
  import opened Bytes
  import opened Runs
  import M = TsMemory
  import P = TsPool

  type DeliveryId = M.DeliveryId

  datatype Config = Config(queueName: string, maxBatch: nat, concurrency: nat)

  datatype Error = Cancelled | ConsumeFailed

  /** Where the worker's `start` call is; the waits name the waiter they are parked on. */
  datatype Pc =
    | NotStarted
    | Top
    | SlotWait(w: nat)
    | Consuming(batch: seq<DeliveryId>)             // awaiting the result of consume
    | RaceWait(w: nat)                              // awaiting a delivery or the poll delay
    | DelayWait                                     // awaiting the poll delay
    | Dispatching(rest: seq<DeliveryId>)
    | DispatchWait(w: nat, rest: seq<DeliveryId>)
    | Draining
    | DrainWait(w: nat)
    | Finished                                      // start has settled

  datatype StopCall = Waiting | Returned

  datatype State = State(
    store: M.Store,
    pool: P.Pool,
    pc: Pc,
    stopAborted: bool,
    externalAborted: bool,
    error: Option<Error>,            // what start rejects with
    stops: map<nat, StopCall>,
    runs: nat,                       // start calls that entered the loop
    polls: nat,                      // calls of consume
    outcomes: map<DeliveryId, bool>) // the handler succeeded

  function Initial(bufferSize: int): State {
    State(M.Empty(bufferSize), P.EMPTY, NotStarted, false, false, None, map[], 0, 0, map[])
  }

  datatype Event =
    | Publish(queue: string, messages: seq<M.Message>)
    | Clear
    | AbortExternally
    | CallStart
    | CallStop(c: nat)
    | StopReturns(c: nat)
    | Proceed                       // the loop runs to its next await or dispatch
    | Resume                        // the waiter the loop is parked on has been resolved
    | DelayEnds(aborted: bool)      // by timeout, or by the stop signal
    | ConsumeFails
    | Write(d: DeliveryId, content: M.Message) // a handler changes the message it was given
    | HandlerReturns(d: DeliveryId, ok: bool)
    | Settle(d: DeliveryId)         // ack or nack
    | Finish(d: DeliveryId)         // the tracked promise settles

  // ---- The loop ------------------------------------------------------------

  predicate Stopping(s: State) {
    s.stopAborted || s.externalAborted
  }

  predicate Full(c: Config, s: State) {
    |s.pool.active| >= c.concurrency
  }

  function Park(s: State, pc: Pc): State {
    s.(pc := pc, pool := P.WaitForOne(s.pool))
  }

  function Consume(c: Config, s: State): State {
    var first := |s.store.deliveries|;
    var n := M.Taken(s.store, c.queueName, c.maxBatch);
    s.(store := M.Consume(s.store, c.queueName, c.maxBatch),
       pc := Consuming(Numbers(first, n)),
       polls := s.polls + 1)
  }

  /** Wait for a slot, then look at the signals once more, then consume. */
  function SlotStep(c: Config, s: State): State {
    if Full(c, s) && !Stopping(s) then Park(s, SlotWait(s.pool.next))
    else if s.stopAborted then s.(pc := Draining)
    else if s.externalAborted then s.(pc := Draining, error := Some(Cancelled))
    else Consume(c, s)
  }

  function TopStep(c: Config, s: State): State {
    if Stopping(s) then s.(pc := Draining) else SlotStep(c, s)
  }

  function ConsumedStep(s: State, batch: seq<DeliveryId>): State {
    if batch != [] then s.(pc := Dispatching(batch))
    else if s.pool.active != {} then Park(s, RaceWait(s.pool.next))
    else s.(pc := DelayWait)
  }

  function Dispatch(s: State, rest: seq<DeliveryId>): State
    requires rest != [] && rest[0] < |s.store.deliveries|
  {
    s.(store := M.Advance(s.store, rest[0], M.Handling),
       pool := P.Add(s.pool, rest[0]),
       pc := if |rest| == 1 then Top else Dispatching(rest[1..]))
  }

  function DispatchStep(c: Config, s: State, rest: seq<DeliveryId>): State
    requires rest != [] && rest[0] < |s.store.deliveries|
  {
    if Full(c, s) && !Stopping(s) then Park(s, DispatchWait(s.pool.next, rest))
    else if Stopping(s) then s.(pc := Top, store := M.AbandonAll(s.store, rest))
    else Dispatch(s, rest)
  }

  function DrainStep(s: State): State {
    if s.pool.active == {} then s.(pc := Finished) else Park(s, DrainWait(s.pool.next))
  }

  predicate Dispatchable(s: State, rest: seq<DeliveryId>) {
    rest != [] && rest[0] < |s.store.deliveries|
  }

  predicate Runnable(s: State) {
    || s.pc.Top? || s.pc.Consuming? || s.pc.Draining?
    || (s.pc.Dispatching? && Dispatchable(s, s.pc.rest))
  }

  /** The waiter the loop is parked on. */
  function ParkedOn(pc: Pc): Option<nat> {
    match pc
    case SlotWait(w) => Some(w)
    case RaceWait(w) => Some(w)
    case DispatchWait(w, _) => Some(w)
    case DrainWait(w) => Some(w)
    case _ => None
  }

  predicate Awake(s: State) {
    && ParkedOn(s.pc).Some? && ParkedOn(s.pc).value in s.pool.resolved
    && (s.pc.DispatchWait? ==> Dispatchable(s, s.pc.rest))
  }

  predicate PhaseIs(s: State, d: DeliveryId, phase: M.Phase) {
    d < |s.store.deliveries| && s.store.deliveries[d].phase == phase
  }

  /** Dispatched and not yet settled: the handler, or what it left running, has the message. */
  predicate InHandler(phase: M.Phase) {
    phase.Handling? || phase.Returned?
  }

  predicate Enabled(s: State, e: Event) {
    match e
    case Publish(_, _) => true
    case Clear => true
    case AbortExternally => true
    case CallStart => true
    case CallStop(c) => c !in s.stops
    case StopReturns(c) => c in s.stops && s.stops[c] == Waiting && s.pc.Finished?
    case Proceed => Runnable(s)
    case Resume => Awake(s)
    case DelayEnds(aborted) => (s.pc.RaceWait? || s.pc.DelayWait?) && (aborted ==> s.stopAborted)
    case ConsumeFails => s.pc == Consuming([])
    case Write(d, _) => d < |s.store.deliveries| && InHandler(s.store.deliveries[d].phase)
    case HandlerReturns(d, _) => PhaseIs(s, d, M.Handling)
    case Settle(d) =>
      && d < |s.store.deliveries| && s.store.deliveries[d].phase.Returned?
      && s.store.deliveries[d].message < |s.store.places|
      && s.store.deliveries[d].message < |s.store.contents|
    case Finish(d) => d in s.pool.active && (PhaseIs(s, d, M.Acked) || PhaseIs(s, d, M.Nacked))
  }

  function ProceedStep(c: Config, s: State): State
    requires Runnable(s)
  {
    match s.pc
    case Top => TopStep(c, s)
    case Consuming(batch) => ConsumedStep(s, batch)
    case Dispatching(rest) => DispatchStep(c, s, rest)
    case _ => DrainStep(s)
  }

  function ResumeStep(c: Config, s: State): State
    requires Awake(s)
  {
    match s.pc
    case SlotWait(_) => SlotStep(c, s)
    case DispatchWait(_, rest) => DispatchStep(c, s, rest)
    case DrainWait(_) => DrainStep(s)
    case _ => TopStep(c, s)
  }

  function DelayStep(c: Config, s: State, aborted: bool): State {
    if s.pc.DelayWait? && aborted && s.externalAborted then s.(pc := Draining, error := Some(Cancelled))
    else TopStep(c, s)
  }

  function SettleStep(s: State, d: DeliveryId): State
    requires Enabled(s, Settle(d))
  {
    if s.store.deliveries[d].phase.ok then s.(store := M.Advance(s.store, d, M.Acked))
    else s.(store := M.Nack(s.store, d))
  }

  function Step(c: Config, s: State, e: Event): State
    requires Enabled(s, e)
  {
    match e
    case Publish(q, messages) => s.(store := M.Publish(s.store, q, messages))
    case Clear => s.(store := M.Clear(s.store))
    case AbortExternally => s.(externalAborted := true)
    case CallStart => if s.pc.NotStarted? then s.(pc := Top, runs := s.runs + 1) else s
    case CallStop(k) =>
      s.(stopAborted := true, stops := s.stops[k := if s.pc.NotStarted? then Returned else Waiting])
    case StopReturns(k) => s.(stops := s.stops[k := Returned])
    case Proceed => ProceedStep(c, s)
    case Resume => ResumeStep(c, s)
    case DelayEnds(aborted) => DelayStep(c, s, aborted)
    case ConsumeFails => s.(pc := Draining, error := Some(ConsumeFailed))
    case Write(d, content) => s.(store := M.Write(s.store, d, content))
    case HandlerReturns(d, ok) =>
      s.(store := M.Advance(s.store, d, M.Returned(ok)), outcomes := s.outcomes[d := ok])
    case Settle(d) => SettleStep(s, d)
    case Finish(d) => s.(pool := P.Settled(s.pool, d))
  }

  function StepOrStay(c: Config, s: State, e: Event): State {
    if Enabled(s, e) then Step(c, s, e) else s
  }

  function TheSystem(c: Config): System<State, Event> {
    System(Enabled, (s, e) => StepOrStay(c, s, e))
  }

  // ---- Invariants ----------------------------------------------------------

  /** The deliveries the loop holds and has not dispatched. */
  function Pending(pc: Pc): seq<DeliveryId> {
    match pc
    case Consuming(batch) => batch
    case Dispatching(rest) => rest
    case DispatchWait(_, rest) => rest
    case _ => []
  }

  /** The pool never exceeds the limit, and a parked loop will be woken. */
  ghost predicate PoolInv(c: Config, s: State) {
    && P.Inv(s.pool)
    && |s.pool.active| <= c.concurrency
    && (ParkedOn(s.pc).Some? ==> P.WillWake(s.pool, ParkedOn(s.pc).value))
  }

  /** The phases of the deliveries agree with what the loop holds and what the pool tracks. */
  ghost predicate PhaseInv(s: State) {
    var ds, pending := s.store.deliveries, Pending(s.pc);
    && (forall i, j | 0 <= i < j < |pending| :: pending[i] != pending[j])
    && (forall d | d in pending :: d < |ds|)
    && (forall d | 0 <= d < |ds| :: ds[d].phase == M.Fetched <==> d in pending)
    && (forall d | 0 <= d < |ds| && (ds[d].phase.Handling? || ds[d].phase.Returned?) :: d in s.pool.active)
    && (forall d | d in s.pool.active :: d < |ds| && ds[d].phase != M.Fetched && ds[d].phase != M.Abandoned)
    && (s.pc.Dispatching? || s.pc.DispatchWait? ==> pending != [])
  }

  /** Acknowledged exactly when the handler succeeded. */
  predicate OutcomeAgrees(phase: M.Phase, outcome: Option<bool>) {
    match phase
    case Returned(ok) => outcome == Some(ok)
    case Acked => outcome == Some(true)
    case Nacked => outcome == Some(false)
    case _ => outcome == None
  }

  function OutcomeOf(s: State, d: DeliveryId): Option<bool> {
    if d in s.outcomes then Some(s.outcomes[d]) else None
  }

  ghost predicate OutcomeInv(s: State) {
    && (forall d | 0 <= d < |s.store.deliveries| :: OutcomeAgrees(s.store.deliveries[d].phase, OutcomeOf(s, d)))
    && (forall d | d in s.outcomes :: d < |s.store.deliveries|)
  }

  predicate BeforeOrAfterWork(pc: Pc) {
    pc.NotStarted? || pc.Top? || pc.Draining? || pc.Finished?
  }

  ghost predicate SomeStopReturned(s: State) {
    exists k | k in s.stops :: s.stops[k] == Returned
  }

  ghost predicate ControlInv(s: State) {
    && s.runs == (if s.pc.NotStarted? then 0 else 1)
    && (s.pc.NotStarted? || s.pc.Finished? ==> s.pool.active == {})
    && (forall k | k in s.stops :: s.stopAborted)
    && (SomeStopReturned(s) ==> s.stopAborted && s.pool.active == {} && BeforeOrAfterWork(s.pc))
  }

  ghost predicate Inv(c: Config, s: State) {
    M.Inv(s.store) && PoolInv(c, s) && PhaseInv(s) && OutcomeInv(s) && ControlInv(s)
  }

  // ---- Every step keeps the invariant --------------------------------------

  /** Only the place in the code, and perhaps the error, changes. */
  lemma GotoKeepsInv(c: Config, s: State, pc: Pc, error: Option<Error>)
    requires Inv(c, s) && !s.pc.NotStarted? && !pc.NotStarted?
    requires ParkedOn(pc).None? && Pending(pc) == Pending(s.pc)
    requires pc.Dispatching? ==> Pending(pc) != []
    requires pc.Finished? ==> s.pool.active == {}
    requires s.stopAborted && s.pool.active == {} ==> BeforeOrAfterWork(pc)
    ensures Inv(c, s.(pc := pc, error := error))
  {
  }

  lemma ParkKeepsInv(c: Config, s: State, pc: Pc)
    requires Inv(c, s) && !s.pc.NotStarted? && !s.pc.Finished?
    requires ParkedOn(pc) == Some(s.pool.next) && Pending(pc) == Pending(s.pc)
    requires pc.DispatchWait? ==> Pending(pc) != []
    requires s.stopAborted ==> s.pool.active != {}
    ensures Inv(c, Park(s, pc))
  {
    P.WaitForOneWillWake(s.pool);
  }

  lemma ConsumeKeepsPhases(c: Config, s: State)
    requires M.Inv(s.store) && PhaseInv(s) && OutcomeInv(s) && Pending(s.pc) == []
    ensures PhaseInv(Consume(c, s)) && OutcomeInv(Consume(c, s))
  {
    var n := Consume(c, s);
    var first, batch := |s.store.deliveries|, Pending(n.pc);
    forall d | 0 <= d < |n.store.deliveries|
      ensures n.store.deliveries[d].phase == M.Fetched <==> d in batch
    {
      if d >= first {
        assert batch[d - first] == d;
      }
    }
  }

  lemma ConsumeKeepsInv(c: Config, s: State)
    requires Inv(c, s) && Pending(s.pc) == [] && !Stopping(s) && !s.pc.NotStarted? && !s.pc.Finished?
    ensures Inv(c, Consume(c, s))
  {
    M.ConsumeKeepsInv(s.store, c.queueName, c.maxBatch);
    ConsumeKeepsPhases(c, s);
  }

  lemma DispatchKeepsPhases(s: State, rest: seq<DeliveryId>)
    requires PhaseInv(s) && OutcomeInv(s) && Pending(s.pc) == rest != []
    requires rest[0] < |s.store.deliveries|
    ensures PhaseInv(Dispatch(s, rest)) && OutcomeInv(Dispatch(s, rest))
  {
    var n := Dispatch(s, rest);
    assert Pending(n.pc) == rest[1..];
    assert rest == [rest[0]] + rest[1..];
    forall d | d in rest[1..]
      ensures d in rest && d != rest[0]
    {
      var i :| 0 <= i < |rest[1..]| && rest[1..][i] == d;
      assert rest[i + 1] == d;
    }
  }

  lemma DispatchKeepsControl(c: Config, s: State, rest: seq<DeliveryId>)
    requires PoolInv(c, s) && ControlInv(s) && !Full(c, s) && !Stopping(s)
    requires rest != [] && rest[0] < |s.store.deliveries| && (s.pc.Dispatching? || s.pc.DispatchWait?)
    ensures PoolInv(c, Dispatch(s, rest)) && ControlInv(Dispatch(s, rest))
  {
    assert |s.pool.active + {rest[0]}| <= |s.pool.active| + 1;
  }

  lemma DispatchKeepsInv(c: Config, s: State, rest: seq<DeliveryId>)
    requires Inv(c, s) && Pending(s.pc) == rest != [] && !Full(c, s) && !Stopping(s)
    requires s.pc.Dispatching? || s.pc.DispatchWait?
    ensures rest[0] < |s.store.deliveries| && Inv(c, Dispatch(s, rest))
  {
    assert rest[0] in rest;
    M.AdvanceKeepsInv(s.store, rest[0], M.Handling);
    DispatchKeepsPhases(s, rest);
    DispatchKeepsControl(c, s, rest);
  }

  lemma AbandonKeepsInv(c: Config, s: State, rest: seq<DeliveryId>)
    requires Inv(c, s) && Pending(s.pc) == rest && (s.pc.Dispatching? || s.pc.DispatchWait?)
    ensures Inv(c, s.(pc := Top, store := M.AbandonAll(s.store, rest)))
  {
    M.AbandonKeepsInv(s.store, rest);
  }

  lemma SlotStepKeepsInv(c: Config, s: State)
    requires Inv(c, s) && Pending(s.pc) == [] && !s.pc.NotStarted? && !s.pc.Finished?
    ensures Inv(c, SlotStep(c, s))
  {
    if Full(c, s) && !Stopping(s) {
      ParkKeepsInv(c, s, SlotWait(s.pool.next));
    } else if s.stopAborted {
      GotoKeepsInv(c, s, Draining, s.error);
    } else if s.externalAborted {
      GotoKeepsInv(c, s, Draining, Some(Cancelled));
    } else {
      ConsumeKeepsInv(c, s);
    }
  }

  lemma TopStepKeepsInv(c: Config, s: State)
    requires Inv(c, s) && Pending(s.pc) == [] && !s.pc.NotStarted? && !s.pc.Finished?
    ensures Inv(c, TopStep(c, s))
  {
    if Stopping(s) {
      GotoKeepsInv(c, s, Draining, s.error);
    } else {
      SlotStepKeepsInv(c, s);
    }
  }

  lemma DispatchStepKeepsInv(c: Config, s: State, rest: seq<DeliveryId>)
    requires Inv(c, s) && Pending(s.pc) == rest != [] && (s.pc.Dispatching? || s.pc.DispatchWait?)
    ensures rest[0] < |s.store.deliveries| && Inv(c, DispatchStep(c, s, rest))
  {
    assert rest[0] in rest;
    if Full(c, s) && !Stopping(s) {
      ParkKeepsInv(c, s, DispatchWait(s.pool.next, rest));
    } else if Stopping(s) {
      AbandonKeepsInv(c, s, rest);
    } else {
      DispatchKeepsInv(c, s, rest);
    }
  }

  lemma DrainStepKeepsInv(c: Config, s: State)
    requires Inv(c, s) && (s.pc.Draining? || s.pc.DrainWait?)
    ensures Inv(c, DrainStep(s))
  {
    if s.pool.active == {} {
      GotoKeepsInv(c, s, Finished, s.error);
    } else {
      ParkKeepsInv(c, s, DrainWait(s.pool.next));
    }
  }

  lemma ConsumedStepKeepsInv(c: Config, s: State, batch: seq<DeliveryId>)
    requires Inv(c, s) && s.pc == Consuming(batch)
    ensures Inv(c, ConsumedStep(s, batch))
  {
    assert !SomeStopReturned(s);
    if batch != [] {
      ArriveKeepsInv(c, s, Dispatching(batch));
    } else if s.pool.active != {} {
      ParkKeepsInv(c, s, RaceWait(s.pool.next));
    } else {
      ArriveKeepsInv(c, s, DelayWait);
    }
  }

  /** As `GotoKeepsInv`, for a loop that no returned stop has outlived. */
  lemma ArriveKeepsInv(c: Config, s: State, pc: Pc)
    requires Inv(c, s) && s.pc.Consuming? && ParkedOn(pc).None? && Pending(pc) == Pending(s.pc)
    requires (pc.Dispatching? && Pending(pc) != []) || pc.DelayWait?
    ensures Inv(c, s.(pc := pc))
  {
  }

  lemma HandlerKeepsPhases(s: State, d: DeliveryId, ok: bool)
    requires PhaseInv(s) && PhaseIs(s, d, M.Handling)
    ensures PhaseInv(s.(store := M.Advance(s.store, d, M.Returned(ok))))
  {
  }

  lemma HandlerKeepsOutcomes(s: State, d: DeliveryId, ok: bool)
    requires OutcomeInv(s) && PhaseIs(s, d, M.Handling)
    ensures OutcomeInv(s.(store := M.Advance(s.store, d, M.Returned(ok)), outcomes := s.outcomes[d := ok]))
  {
  }

  lemma HandlerKeepsInv(c: Config, s: State, d: DeliveryId, ok: bool)
    requires Inv(c, s) && Enabled(s, HandlerReturns(d, ok))
    ensures Inv(c, Step(c, s, HandlerReturns(d, ok)))
  {
    M.AdvanceKeepsInv(s.store, d, M.Returned(ok));
    HandlerKeepsPhases(s, d, ok);
    HandlerKeepsOutcomes(s, d, ok);
  }

  /** Settling changes the phase of one delivery, and no other delivery. */
  lemma SettleKeepsPhases(s: State, d: DeliveryId, store: M.Store)
    requires PhaseInv(s) && OutcomeInv(s) && d < |s.store.deliveries| && s.store.deliveries[d].phase.Returned?
    requires
      var settled := if s.store.deliveries[d].phase.ok then M.Acked else M.Nacked;
      store.deliveries == s.store.deliveries[d := s.store.deliveries[d].(phase := settled)]
    ensures PhaseInv(s.(store := store)) && OutcomeInv(s.(store := store))
  {
  }

  lemma SettleKeepsInv(c: Config, s: State, d: DeliveryId)
    requires Inv(c, s) && Enabled(s, Settle(d))
    ensures Inv(c, SettleStep(s, d))
  {
    if s.store.deliveries[d].phase.ok {
      M.AdvanceKeepsInv(s.store, d, M.Acked);
    } else {
      M.NackKeepsInv(s.store, d);
    }
    SettleKeepsPhases(s, d, SettleStep(s, d).store);
  }

  lemma WriteKeepsInv(c: Config, s: State, d: DeliveryId, content: M.Message)
    requires Inv(c, s) && d < |s.store.deliveries|
    ensures Inv(c, s.(store := M.Write(s.store, d, content)))
  {
    M.WriteKeepsInv(s.store, d, content);
  }

  lemma FinishKeepsInv(c: Config, s: State, d: DeliveryId)
    requires Inv(c, s) && Enabled(s, Finish(d))
    ensures Inv(c, s.(pool := P.Settled(s.pool, d)))
  {
    if ParkedOn(s.pc).Some? {
      P.StillWillWake(s.pool, d, ParkedOn(s.pc).value);
    }
    assert P.Settled(s.pool, d).active == s.pool.active - {d};
  }

  lemma ControlKeepsInv(c: Config, s: State, e: Event)
    requires Inv(c, s) && Enabled(s, e)
    requires e.AbortExternally? || e.CallStart? || e.CallStop? || e.StopReturns?
    ensures Inv(c, Step(c, s, e))
  {
    var n := Step(c, s, e);
    if SomeStopReturned(n) && !e.CallStop? && !e.StopReturns? {
      var k :| k in n.stops && n.stops[k] == Returned;
      assert k in s.stops && s.stops[k] == Returned;
    }
    if e.CallStop? && SomeStopReturned(n) && !s.pc.NotStarted? {
      var k :| k in n.stops && n.stops[k] == Returned;
      assert k in s.stops && s.stops[k] == Returned;
    }
  }

  lemma OutsideKeepsInv(c: Config, s: State, e: Event)
    requires Inv(c, s) && (e.Publish? || e.Clear?)
    ensures Inv(c, Step(c, s, e))
  {
    if e.Publish? {
      M.PublishKeepsInv(s.store, e.queue, e.messages);
    } else {
      M.ClearKeepsInv(s.store);
    }
  }

  lemma ProceedKeepsInv(c: Config, s: State)
    requires Inv(c, s) && Runnable(s)
    ensures Inv(c, ProceedStep(c, s))
  {
    if s.pc.Top? {
      TopStepKeepsInv(c, s);
    } else if s.pc.Consuming? {
      ConsumedStepKeepsInv(c, s, s.pc.batch);
    } else if s.pc.Dispatching? {
      DispatchStepKeepsInv(c, s, s.pc.rest);
    } else {
      DrainStepKeepsInv(c, s);
    }
  }

  lemma ResumeKeepsInv(c: Config, s: State)
    requires Inv(c, s) && Awake(s)
    ensures Inv(c, ResumeStep(c, s))
  {
    if s.pc.SlotWait? {
      SlotStepKeepsInv(c, s);
    } else if s.pc.DispatchWait? {
      DispatchStepKeepsInv(c, s, s.pc.rest);
    } else if s.pc.DrainWait? {
      DrainStepKeepsInv(c, s);
    } else {
      TopStepKeepsInv(c, s);
    }
  }

  lemma DelayKeepsInv(c: Config, s: State, aborted: bool)
    requires Inv(c, s) && (s.pc.RaceWait? || s.pc.DelayWait?)
    ensures Inv(c, DelayStep(c, s, aborted))
  {
    TopStepKeepsInv(c, s);
    if s.pc.DelayWait? {
      GotoKeepsInv(c, s, Draining, Some(Cancelled));
    }
  }

  lemma StepKeepsInv(c: Config, s: State, e: Event)
    requires Inv(c, s) && Enabled(s, e)
    ensures Inv(c, Step(c, s, e))
  {
    match e {
      case HandlerReturns(d, ok) => HandlerKeepsInv(c, s, d, ok);
      case Write(d, content) => WriteKeepsInv(c, s, d, content);
      case Settle(d) => SettleKeepsInv(c, s, d);
      case Finish(d) => FinishKeepsInv(c, s, d);
      case Publish(_, _) => OutsideKeepsInv(c, s, e);
      case Clear => OutsideKeepsInv(c, s, e);
      case Proceed => ProceedKeepsInv(c, s);
      case Resume => ResumeKeepsInv(c, s);
      case DelayEnds(aborted) => DelayKeepsInv(c, s, aborted);
      case ConsumeFails => GotoKeepsInv(c, s, Draining, Some(ConsumeFailed));
      case _ => ControlKeepsInv(c, s, e);
    }
  }

  ghost function InvOf(c: Config): State -> bool {
    (s: State) => Inv(c, s)
  }

  lemma InitialInv(c: Config, bufferSize: int)
    ensures InvOf(c)(Initial(bufferSize))
  {
  }

  lemma InvIsInductive(c: Config)
    ensures Inductive(TheSystem(c), InvOf(c))
  {
    forall s, e | Inv(c, s) && Enabled(s, e)
      ensures Inv(c, StepOrStay(c, s, e))
    {
      StepKeepsInv(c, s, e);
    }
  }

  lemma Reachable(c: Config, bufferSize: int, es: seq<Event>)
    requires IsRun(TheSystem(c), Initial(bufferSize), es)
    ensures Inv(c, After(TheSystem(c), Initial(bufferSize), es))
  {
    InvIsInductive(c);
    InitialInv(c, bufferSize);
    Invariant(TheSystem(c), InvOf(c), Initial(bufferSize), es);
  }

  // ---- Theorems ------------------------------------------------------------

  /** The handler of `d` has returned and its receipt has been settled accordingly. */
  predicate SettledByOutcome(s: State, d: DeliveryId)
    requires d < |s.store.deliveries|
  {
    match s.store.deliveries[d].phase
    case Acked => OutcomeOf(s, d) == Some(true)
    case Nacked => OutcomeOf(s, d) == Some(false)
    case _ => false
  }

  /**
   End-to-end accounting: in every reachable state each published message is
   queued, fetched, in flight, acknowledged, abandoned, dropped or cleared, only
   one of these, and only once; a receipt is acknowledged exactly when its handler
   succeeded and nacked exactly when it failed; and once start has settled
   nothing is fetched or in flight any more.
   */
  lemma EndToEndAccounting(c: Config, bufferSize: int, es: seq<Event>)
    requires IsRun(TheSystem(c), Initial(bufferSize), es)
    ensures
      var s := After(TheSystem(c), Initial(bufferSize), es);
      var ds := s.store.deliveries;
      && (forall m | 0 <= m < |s.store.places| :: M.AccountedOnce(s.store, m))
      && (forall d | 0 <= d < |ds| && (ds[d].phase == M.Acked || ds[d].phase == M.Nacked) :: SettledByOutcome(s, d))
      && (forall d | 0 <= d < |ds| && d in s.outcomes :: ds[d].phase.Returned? || SettledByOutcome(s, d))
      && (s.pc.Finished? ==>
            forall d | 0 <= d < |ds| :: ds[d].phase == M.Abandoned || SettledByOutcome(s, d))
      && (forall name | name in s.store.queues :: |s.store.queues[name]| <= s.store.bufferSize)
  {
    Reachable(c, bufferSize, es);
    var s := After(TheSystem(c), Initial(bufferSize), es);
    forall m | 0 <= m < |s.store.places|
      ensures M.AccountedOnce(s.store, m)
    {
      M.ExactlyOnePlace(s.store, m);
    }
    SettledPhases(c, s);
  }

  /** Only a returning handler records an outcome. */
  lemma OutcomesMove(c: Config, s: State, e: Event)
    requires Enabled(s, e)
    ensures Step(c, s, e).outcomes == if e.HandlerReturns? then s.outcomes[e.d := e.ok] else s.outcomes
  {
    match e {
      case Proceed =>
      case Resume =>
      case DelayEnds(_) =>
      case _ =>
    }
  }

  ghost function OutcomeIs(d: DeliveryId, ok: bool): State -> bool {
    (s: State) => OutcomeOf(s, d) == Some(ok)
  }

  ghost function Returns(d: DeliveryId, ok: bool): (State, Event) -> bool {
    (s: State, e: Event) => e == HandlerReturns(d, ok)
  }

  lemma OutcomeStep(c: Config, s: State, e: Event, d: DeliveryId, ok: bool)
    requires OutcomeInv(s) && Enabled(s, e)
    ensures OutcomeOf(StepOrStay(c, s, e), d) == Some(ok)
            <==> OutcomeOf(s, d) == Some(ok) || e == HandlerReturns(d, ok)
  {
    OutcomesMove(c, s, e);
  }

  lemma OutcomesByHandlers(c: Config, d: DeliveryId, ok: bool)
    ensures ExactlyBy(TheSystem(c), InvOf(c), OutcomeIs(d, ok), Returns(d, ok))
  {
    forall s, e | Inv(c, s) && Enabled(s, e)
      ensures OutcomeOf(StepOrStay(c, s, e), d) == Some(ok)
              <==> OutcomeOf(s, d) == Some(ok) || e == HandlerReturns(d, ok)
    {
      OutcomeStep(c, s, e, d, ok);
    }
  }

  /** The outcome a receipt is settled by is the one thing the handler of that delivery returned in the run. */
  lemma OutcomeIsTheHandlers(c: Config, bufferSize: int, es: seq<Event>, d: DeliveryId, ok: bool)
    requires IsRun(TheSystem(c), Initial(bufferSize), es)
    ensures OutcomeOf(After(TheSystem(c), Initial(bufferSize), es), d) == Some(ok) <==> HandlerReturns(d, ok) in es
  {
    InvIsInductive(c);
    InitialInv(c, bufferSize);
    OutcomesByHandlers(c, d, ok);
    HoldsExactly(TheSystem(c), InvOf(c), OutcomeIs(d, ok), Returns(d, ok), Initial(bufferSize), es);
    HappensInRun(TheSystem(c), Initial(bufferSize), es, HandlerReturns(d, ok), Returns(d, ok));
  }

  lemma SettledPhases(c: Config, s: State)
    requires Inv(c, s)
    ensures
      var ds := s.store.deliveries;
      && (forall d | 0 <= d < |ds| && (ds[d].phase == M.Acked || ds[d].phase == M.Nacked) :: SettledByOutcome(s, d))
      && (forall d | 0 <= d < |ds| && d in s.outcomes :: ds[d].phase.Returned? || SettledByOutcome(s, d))
      && (s.pc.Finished? ==> forall d | 0 <= d < |ds| :: ds[d].phase == M.Abandoned || SettledByOutcome(s, d))
  {
    var ds := s.store.deliveries;
    forall d | 0 <= d < |ds|
      ensures OutcomeAgrees(ds[d].phase, OutcomeOf(s, d))
      ensures s.pc.Finished? ==> !ds[d].phase.Fetched? && !ds[d].phase.Handling? && !ds[d].phase.Returned?
    {
      assert ds[d].phase == M.Fetched <==> d in Pending(s.pc);
    }
  }

  /** Some tracked delivery can take its next step. */
  ghost predicate SomeDeliveryCanMove(s: State) {
    exists d | d in s.pool.active ::
      Enabled(s, HandlerReturns(d, true)) || Enabled(s, Settle(d)) || Enabled(s, Finish(d))
  }

  lemma TrackedDeliveryMoves(s: State, d: DeliveryId)
    requires PhaseInv(s) && M.Inv(s.store) && d in s.pool.active
    ensures Enabled(s, HandlerReturns(d, true)) || Enabled(s, Settle(d)) || Enabled(s, Finish(d))
  {
    assert s.store.deliveries[d].phase != M.Fetched;
  }

  lemma TrackedDeliveriesMove(c: Config, s: State)
    requires Inv(c, s) && s.pool.active != {}
    ensures SomeDeliveryCanMove(s)
  {
    var d :| d in s.pool.active;
    TrackedDeliveryMoves(s, d);
  }

  /**
   No lost wake-up: whenever the loop is parked on a waiter that has not been
   resolved, that waiter is the stored one, even if an older one lost a race to
   the poll delay, and a running delivery will resolve it; so the loop or a
   delivery can always move. The pool never exceeds the concurrency limit, and
   draining ends only with the pool empty.
   */
  lemma NoLostWakeup(c: Config, bufferSize: int, es: seq<Event>)
    requires IsRun(TheSystem(c), Initial(bufferSize), es)
    ensures
      var s := After(TheSystem(c), Initial(bufferSize), es);
      && (ParkedOn(s.pc).Some? && ParkedOn(s.pc).value !in s.pool.resolved ==>
            && s.pool.waiter == ParkedOn(s.pc)
            && s.pool.active != {} && SomeDeliveryCanMove(s))
      && |s.pool.active| <= c.concurrency
      && (s.pc.Finished? ==> s.pool.active == {})
  {
    Reachable(c, bufferSize, es);
    var s := After(TheSystem(c), Initial(bufferSize), es);
    if s.pool.active != {} {
      TrackedDeliveriesMove(c, s);
    }
  }

  /** What the worker has done to the outside: the deliveries as they stand, and how often it polled. */
  function Footprint(s: State): (seq<M.Delivery>, nat) {
    (s.store.deliveries, s.polls)
  }

  lemma NothingMovesAfterStop(c: Config, s: State, e: Event)
    requires Inv(c, s) && SomeStopReturned(s) && Enabled(s, e)
    ensures Footprint(Step(c, s, e)) == Footprint(s) && SomeStopReturned(Step(c, s, e))
  {
    var k :| k in s.stops && s.stops[k] == Returned;
    assert k in Step(c, s, e).stops && Step(c, s, e).stops[k] == Returned;
    forall d | 0 <= d < |s.store.deliveries|
      ensures !s.store.deliveries[d].phase.Handling? && !s.store.deliveries[d].phase.Returned?
    {
    }
  }

  /** Whatever happens, at most one start call ever enters the loop. */
  lemma OneStartRuns(c: Config, bufferSize: int, es: seq<Event>)
    requires IsRun(TheSystem(c), Initial(bufferSize), es)
    ensures After(TheSystem(c), Initial(bufferSize), es).runs <= 1
  {
    Reachable(c, bufferSize, es);
  }

  /**
   Stop is final: after any stop call has returned, before or after start, no
   delivery is fetched, dispatched, handled or settled and the queue is not
   polled, however the run goes on, and no second start enters the loop.
   */
  lemma StopIsFinal(c: Config, bufferSize: int, es: seq<Event>, more: seq<Event>)
    requires IsRun(TheSystem(c), Initial(bufferSize), es)
    requires
      var s := After(TheSystem(c), Initial(bufferSize), es);
      SomeStopReturned(s) && IsRun(TheSystem(c), s, more)
    ensures
      var s := After(TheSystem(c), Initial(bufferSize), es);
      var t := After(TheSystem(c), s, more);
      Footprint(t) == Footprint(s) && t.runs <= 1
  {
    Reachable(c, bufferSize, es);
    var s := After(TheSystem(c), Initial(bufferSize), es);
    var inv := (t: State) => Inv(c, t) && SomeStopReturned(t) && Footprint(t) == Footprint(s);
    forall t, e | inv(t) && Enabled(t, e)
      ensures inv(StepOrStay(c, t, e))
    {
      StepKeepsInv(c, t, e);
      NothingMovesAfterStop(c, t, e);
    }
    Invariant(TheSystem(c), inv, s, more);
  }

  // ---- First in, first out -------------------------------------------------

  /** What an event appends to queue `name`: a published batch, or one nacked message when there is room. */
  function Appended(s: State, e: Event, name: string): seq<M.MessageId> {
    match e
    case Publish(q, messages) =>
      if q == name && M.Fits(s.store, name, |messages|) then Numbers(|s.store.contents|, |messages|) else []
    case Settle(d) =>
      if Enabled(s, e) && !s.store.deliveries[d].phase.ok && s.store.deliveries[d].queue == name
         && M.Fits(s.store, name, 1)
      then [s.store.deliveries[d].message] else []
    case _ => []
  }

  /** The deliveries an event creates. */
  function Created(c: Config, s: State, e: Event): seq<M.Delivery> {
    NewDeliveries(s, StepOrStay(c, s, e))
  }

  function NewDeliveries(s: State, n: State): seq<M.Delivery> {
    var before, ds := |s.store.deliveries|, n.store.deliveries;
    if before <= |ds| then ds[before..] else []
  }

  /** What the worker is handed from queue `name` in an event: the messages of the deliveries created. */
  function Fetched(c: Config, s: State, e: Event, name: string): seq<M.MessageId> {
    M.Handed(Created(c, s, e), name)
  }

  /** No message moves and none is created. */
  predicate SameGoods(st: M.Store, n: M.Store) {
    && n.queues == st.queues && n.places == st.places && n.contents == st.contents && n.accepted == st.accepted
    && |n.deliveries| == |st.deliveries|
  }

  /** From `s` to `n` no message moves, or there is one poll. */
  predicate AtMostOnePoll(c: Config, s: State, n: State) {
    || (n.polls == s.polls && SameGoods(s.store, n.store))
    || (n.polls == s.polls + 1 && n.store == M.Consume(s.store, c.queueName, c.maxBatch))
  }

  lemma TopPolls(c: Config, s: State)
    ensures AtMostOnePoll(c, s, SlotStep(c, s)) && AtMostOnePoll(c, s, TopStep(c, s))
  {
  }

  lemma OtherPolls(c: Config, s: State, rest: seq<DeliveryId>)
    requires Dispatchable(s, rest)
    ensures AtMostOnePoll(c, s, DispatchStep(c, s, rest))
  {
  }

  lemma ProceedPolls(c: Config, s: State)
    requires Runnable(s)
    ensures AtMostOnePoll(c, s, ProceedStep(c, s))
  {
    TopPolls(c, s);
    if s.pc.Dispatching? {
      OtherPolls(c, s, s.pc.rest);
    }
  }

  lemma ResumePolls(c: Config, s: State)
    requires Awake(s)
    ensures AtMostOnePoll(c, s, ResumeStep(c, s))
  {
    TopPolls(c, s);
    if s.pc.DispatchWait? {
      OtherPolls(c, s, s.pc.rest);
    }
  }

  lemma LoopPolls(c: Config, s: State, e: Event)
    requires Enabled(s, e) && (e.Proceed? || e.Resume? || e.DelayEnds?)
    ensures AtMostOnePoll(c, s, Step(c, s, e))
  {
    match e {
      case Proceed => ProceedPolls(c, s);
      case Resume => ResumePolls(c, s);
      case _ => TopPolls(c, s);
    }
  }

  /** Queue `name` gives its front to the deliveries created, in a step that appends nothing. */
  lemma PollTakes(c: Config, s: State, n: State, name: string)
    requires AtMostOnePoll(c, s, n)
    ensures M.Queue(s.store, name) == M.Handed(NewDeliveries(s, n), name) + M.Queue(n.store, name)
  {
    var q, k := M.Queue(s.store, name), M.Taken(s.store, name, c.maxBatch);
    if n.polls > s.polls {
      M.ConsumeHandsPrefix(s.store, c.queueName, c.maxBatch, name);
      assert q == q[..k] + q[k..];
    } else {
      assert NewDeliveries(s, n) == [];
    }
  }

  /** Publish and settle append, and create no delivery. */
  lemma StoreQueueStep(s: State, e: Event, name: string, n: M.Store)
    requires e.Publish? || (e.Settle? && Enabled(s, e))
    requires n == if e.Publish? then M.Publish(s.store, e.queue, e.messages) else SettleStep(s, e.d).store
    ensures M.Queue(s.store, name) + Appended(s, e, name) == M.Queue(n, name)
    ensures |n.deliveries| == |s.store.deliveries|
  {
    assert M.Queue(s.store, name) + [] == M.Queue(s.store, name);
    if e.Publish? && e.messages == [] {
      assert Numbers(|s.store.contents|, |e.messages|) == [];
    }
  }

  /** The remaining events change no queue. */
  lemma OtherSteps(c: Config, s: State, e: Event)
    requires Enabled(s, e) && !e.Clear? && !e.Publish? && !e.Settle?
    ensures AtMostOnePoll(c, s, Step(c, s, e))
  {
    if e.Proceed? || e.Resume? || e.DelayEnds? {
      LoopPolls(c, s, e);
    }
  }

  lemma QueueStep(c: Config, s: State, e: Event, name: string)
    requires Enabled(s, e) && !e.Clear?
    ensures M.Queue(s.store, name) + Appended(s, e, name)
            == Fetched(c, s, e, name) + M.Queue(StepOrStay(c, s, e).store, name)
  {
    var n := Step(c, s, e);
    if e.Publish? || e.Settle? {
      StoreQueueStep(s, e, name, n.store);
      assert Created(c, s, e) == [];
      assert [] + M.Queue(n.store, name) == M.Queue(n.store, name);
    } else {
      OtherSteps(c, s, e);
      PollTakes(c, s, n, name);
      assert M.Queue(s.store, name) + [] == M.Queue(s.store, name);
    }
  }

  /** On a queue that is never cleared, the fetched messages followed by the queue are the appended ones, in order. */
  lemma QueueIsFifo(c: Config, bufferSize: int, es: seq<Event>, name: string)
    requires IsRun(TheSystem(c), Initial(bufferSize), es) && Clear !in es
    ensures Log(TheSystem(c), Puts(name), Initial(bufferSize), es)
            == Log(TheSystem(c), Takes(c, name), Initial(bufferSize), es)
               + M.Queue(After(TheSystem(c), Initial(bufferSize), es).store, name)
  {
    StepsAreFifo(c, name);
    QueueOrder(TheSystem(c), QueueNamed(name), Puts(name), Takes(c, name), KeepsQueues, Initial(bufferSize), es);
    assert QueueNamed(name)(Initial(bufferSize)) == [];
  }

  function QueueNamed(name: string): State -> seq<M.MessageId> {
    (s: State) => M.Queue(s.store, name)
  }

  function Puts(name: string): (State, Event) -> seq<M.MessageId> {
    (s: State, e: Event) => Appended(s, e, name)
  }

  function Takes(c: Config, name: string): (State, Event) -> seq<M.MessageId> {
    (s: State, e: Event) => Fetched(c, s, e, name)
  }

  predicate KeepsQueues(e: Event) {
    !e.Clear?
  }

  lemma StepsAreFifo(c: Config, name: string)
    ensures FirstInFirstOut(TheSystem(c), QueueNamed(name), Puts(name), Takes(c, name), KeepsQueues)
  {
    forall s, e | Enabled(s, e) && KeepsQueues(e)
      ensures M.Queue(s.store, name) + Appended(s, e, name)
              == Fetched(c, s, e, name) + M.Queue(StepOrStay(c, s, e).store, name)
    {
      QueueStep(c, s, e, name);
    }
  }

  // ---- The drain ends ------------------------------------------------------

  /** An event of a dispatched delivery that takes it on its way. */
  predicate OfDelivery(e: Event) {
    e.HandlerReturns? || e.Settle? || e.Finish?
  }

  /** The steps delivery `d` still has to take. */
  function Weight(s: State, d: DeliveryId): nat {
    if d !in s.pool.active || d >= |s.store.deliveries| then 0
    else
      match s.store.deliveries[d].phase
      case Handling => 3
      case Returned(_) => 2
      case _ => 1
  }

  function Weights(s: State): (ws: seq<nat>)
    ensures |ws| == |s.store.deliveries| && forall d | 0 <= d < |ws| :: ws[d] == Weight(s, d)
  {
    seq(|s.store.deliveries|, d requires 0 <= d < |s.store.deliveries| => Weight(s, d))
  }

  function StepsLeft(s: State): nat {
    Total(Weights(s))
  }

  predicate DrainBegun(pc: Pc) {
    pc.Draining? || pc.DrainWait? || pc.Finished?
  }

  ghost function DrainingWith(c: Config): State -> bool {
    (s: State) => Inv(c, s) && DrainBegun(s.pc)
  }

  lemma DrainGoesOn(c: Config, s: State, e: Event)
    requires DrainBegun(s.pc) && Enabled(s, e)
    ensures DrainBegun(Step(c, s, e).pc)
  {
  }

  lemma DrainIsInductive(c: Config)
    ensures Inductive(TheSystem(c), DrainingWith(c))
  {
    forall s, e | Inv(c, s) && DrainBegun(s.pc) && Enabled(s, e)
      ensures Inv(c, StepOrStay(c, s, e)) && DrainBegun(StepOrStay(c, s, e).pc)
    {
      StepKeepsInv(c, s, e);
      DrainGoesOn(c, s, e);
    }
  }

  /** Only delivery `d` has changed its phase or left the pool. */
  predicate OnlyMoves(s: State, n: State, d: DeliveryId) {
    && |n.store.deliveries| == |s.store.deliveries|
    && forall x | 0 <= x < |s.store.deliveries| && x != d ::
         && n.store.deliveries[x].phase == s.store.deliveries[x].phase
         && (x in n.pool.active <==> x in s.pool.active)
  }

  lemma OneWeightMoves(s: State, n: State, d: DeliveryId)
    requires d < |s.store.deliveries| && OnlyMoves(s, n, d)
    ensures Weights(n) == Weights(s)[d := Weight(n, d)]
  {
  }

  /** `d` changes its phase within the pool. */
  lemma PhaseFalls(s: State, n: State, d: DeliveryId, phase: M.Phase)
    requires d < |s.store.deliveries| && d in s.pool.active && n.pool == s.pool
    requires n.store.deliveries == s.store.deliveries[d := s.store.deliveries[d].(phase := phase)]
    ensures Weights(n) == Weights(s)[d := Weight(n, d)]
    ensures n.store.deliveries[d].phase == phase
  {
    OneWeightMoves(s, n, d);
  }

  lemma HandlerFalls(c: Config, s: State, d: DeliveryId, ok: bool)
    requires PhaseInv(s) && PhaseIs(s, d, M.Handling)
    ensures Weight(s, d) > 0
    ensures Weights(Step(c, s, HandlerReturns(d, ok))) == Weights(s)[d := Weight(s, d) - 1]
  {
    PhaseFalls(s, Step(c, s, HandlerReturns(d, ok)), d, M.Returned(ok));
  }

  lemma SettleFalls(s: State, d: DeliveryId)
    requires PhaseInv(s) && Enabled(s, Settle(d))
    ensures Weight(s, d) > 0
    ensures Weights(SettleStep(s, d)) == Weights(s)[d := Weight(s, d) - 1]
  {
    PhaseFalls(s, SettleStep(s, d), d, if s.store.deliveries[d].phase.ok then M.Acked else M.Nacked);
  }

  lemma FinishFalls(c: Config, s: State, d: DeliveryId)
    requires Enabled(s, Finish(d))
    ensures d < |s.store.deliveries| && Weight(s, d) > 0
    ensures Weights(Step(c, s, Finish(d))) == Weights(s)[d := Weight(s, d) - 1]
  {
    OneWeightMoves(s, Step(c, s, Finish(d)), d);
  }

  lemma OneWeightFalls(c: Config, s: State, e: Event)
    requires PhaseInv(s) && Enabled(s, e) && OfDelivery(e)
    ensures e.d < |s.store.deliveries| && Weight(s, e.d) > 0
    ensures Weights(Step(c, s, e)) == Weights(s)[e.d := Weight(s, e.d) - 1]
  {
    match e {
      case HandlerReturns(d, ok) => HandlerFalls(c, s, d, ok);
      case Settle(d) => SettleFalls(s, d);
      case Finish(d) => FinishFalls(c, s, d);
    }
  }

  /** The phases and the pool, which is all the weights look at. */
  predicate SameWork(s: State, n: State) {
    && n.pool.active == s.pool.active && |n.store.deliveries| == |s.store.deliveries|
    && forall d | 0 <= d < |s.store.deliveries| :: n.store.deliveries[d].phase == s.store.deliveries[d].phase
  }

  lemma NoWorkMoves(c: Config, s: State, e: Event)
    requires Enabled(s, e) && DrainBegun(s.pc) && !OfDelivery(e)
    ensures SameWork(s, Step(c, s, e))
  {
  }

  lemma StepsCountDown(c: Config, s: State, e: Event)
    requires PhaseInv(s) && DrainBegun(s.pc) && Enabled(s, e)
    ensures StepsLeft(s) == StepsLeft(StepOrStay(c, s, e)) + Count(OfDelivery(e))
  {
    if OfDelivery(e) {
      OneWeightFalls(c, s, e);
      TotalAt(Weights(s), e.d, Weight(s, e.d) - 1);
    } else {
      NoWorkMoves(c, s, e);
      assert Weights(Step(c, s, e)) == Weights(s);
    }
  }

  lemma DrainCountsDown(c: Config)
    ensures CountsDown(TheSystem(c), DrainingWith(c), StepsLeft, OfDelivery)
  {
    forall s, e | Inv(c, s) && DrainBegun(s.pc) && Enabled(s, e)
      ensures StepsLeft(s) == StepsLeft(StepOrStay(c, s, e)) + Count(OfDelivery(e))
    {
      StepsCountDown(c, s, e);
    }
  }

  /** The loop's step out of the drain. */
  function LastStep(s: State): Event {
    if s.pc.Draining? then Proceed else Resume
  }

  lemma NoStepsLeft(c: Config, s: State)
    requires Inv(c, s) && (s.pc.Draining? || s.pc.DrainWait?)
    ensures StepsLeft(s) == 0 ==> Enabled(s, LastStep(s)) && Step(c, s, LastStep(s)).pc.Finished?
    ensures StepsLeft(s) > 0 ==> SomeDeliveryCanMove(s)
  {
    TotalZero(Weights(s));
    if StepsLeft(s) == 0 {
      assert forall d | d in s.pool.active :: Weights(s)[d] > 0;
      assert s.pool.active == {};
    } else {
      assert s.pool.active != {};
      TrackedDeliveriesMove(c, s);
    }
  }

  /** What the drain has come to: start has settled, or the loop's next step settles it, or a delivery can move. */
  ghost predicate DrainProgress(c: Config, s: State) {
    || s.pc.Finished?
    || (StepsLeft(s) == 0 && Enabled(s, LastStep(s)) && Step(c, s, LastStep(s)).pc.Finished?)
    || (StepsLeft(s) > 0 && SomeDeliveryCanMove(s))
  }

  /**
   The drain ends: once the loop has come to it, whatever happens, every step of a
   delivery takes one off the steps left; while some are left a delivery can move,
   and when none is left the loop's next step settles start.
   */
  lemma DrainEnds(c: Config, bufferSize: int, es: seq<Event>, more: seq<Event>)
    requires IsRun(TheSystem(c), Initial(bufferSize), es)
    requires
      var s := After(TheSystem(c), Initial(bufferSize), es);
      DrainBegun(s.pc) && IsRun(TheSystem(c), s, more)
    ensures
      var s := After(TheSystem(c), Initial(bufferSize), es);
      var n := After(TheSystem(c), s, more);
      Tally(OfDelivery, more) + StepsLeft(n) == StepsLeft(s) && DrainProgress(c, n)
  {
    Reachable(c, bufferSize, es);
    var s := After(TheSystem(c), Initial(bufferSize), es);
    DrainIsInductive(c);
    DrainCountsDown(c);
    RankIsTally(TheSystem(c), DrainingWith(c), StepsLeft, OfDelivery, s, more);
    Invariant(TheSystem(c), DrainingWith(c), s, more);
    var n := After(TheSystem(c), s, more);
    if !n.pc.Finished? {
      NoStepsLeft(c, n);
    }
  }
}
