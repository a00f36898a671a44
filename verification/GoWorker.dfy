/**
 The Go worker: one `Start` loop, the goroutines it spawns and any number of
 `Stop` callers, interleaved at channel, semaphore and WaitGroup operations.
 Items carry delivery numbers; handlers, the adapter and the context are free to
 answer as they like.
 */
module GoWorker {
  import opened Bytes
  import opened Runs

  type Id = nat

  datatype Error = ContextError | AdapterError(code: nat)

  /** Where `Start` is. */
  datatype Pc =
    | NotStarted
    | Top
    | Polling
    | Waiting
    | Dispatching(rest: seq<Id>)         // at the select for the next item
    | Acquired(item: Id, rest: seq<Id>)  // holds a semaphore token for the item
    | Added(item: Id, rest: seq<Id>)     // has counted the item in the WaitGroup
    | Draining                           // returned; the deferred wg.Wait has begun
    | Closed                             // done is closed

  datatype StopCall = Called | Blocked | Returned(error: Option<Error>)

  /** One call of Ack (`ack`) or Nack on a delivery's receipt. */
  datatype Attempt = Attempt(item: Id, ack: bool)

  /** The goroutines, with the semaphore and the WaitGroup they share with the loop. */
  datatype Crew = Crew(
    handling: set<Id>,  // inside processMessage, Handle has not returned
    handled: set<Id>,   // inside processMessage, Handle has returned
    leaving: set<Id>,   // left processMessage, token still held
    released: set<Id>,  // token given back, wg.Done still to come
    tokens: nat,        // semaphore channel length
    wg: nat)            // WaitGroup counter

  /** What has happened to the deliveries received so far. */
  datatype Record = Record(
    next: Id,                 // deliveries received
    dispatched: set<Id>,      // a goroutine was spawned
    abandoned: set<Id>,       // received, never dispatched
    outcomes: map<Id, bool>,  // Handle returned nil
    attempts: seq<Attempt>)

  datatype State = State(
    concurrency: nat,
    pc: Pc,
    ctxDone: bool,
    stopClosed: bool,
    startErr: Option<Error>,  // the field Stop callers read
    result: Option<Error>,    // what Start returned
    crew: Crew,
    record: Record,
    stops: map<Id, StopCall>)

  function Initial(concurrency: nat): State {
    State(concurrency, NotStarted, false, false, None, None,
          Crew({}, {}, {}, {}, 0, 0), Record(0, {}, {}, map[], []), map[])
  }

  datatype Event =
    | CancelContext
    | CallStart
    | SeeContext                 // a select takes the ctx.Done case
    | SeeStop                    // a select takes the stopCh case
    | Poll
    | PollFails(code: nat)
    | PollEmpty
    | PollItems(count: nat)
    | TimerFires
    | Acquire
    | Add
    | Spawn
    | HandleReturns(g: Id, ok: bool)
    | Settle(g: Id)
    | Release(g: Id)
    | Done(g: Id)
    | Close
    | CallStop(c: Id)
    | CloseStop(c: Id)
    | StopReturns(c: Id)

  predicate Selecting(pc: Pc) {
    pc.Top? || pc.Waiting? || pc.Dispatching?
  }

  predicate Enabled(s: State, e: Event) {
    match e
    case CancelContext => true
    case CallStart => s.pc.NotStarted?
    case SeeContext => Selecting(s.pc) && s.ctxDone
    case SeeStop => Selecting(s.pc) && s.stopClosed
    case Poll => s.pc.Top? && !s.ctxDone && !s.stopClosed
    case PollFails(_) => s.pc.Polling?
    case PollEmpty => s.pc.Polling?
    case PollItems(n) => s.pc.Polling? && n > 0
    case TimerFires => s.pc.Waiting?
    case Acquire => s.pc.Dispatching? && s.pc.rest != [] && s.crew.tokens < s.concurrency
    case Add => s.pc.Acquired?
    case Spawn => s.pc.Added?
    case HandleReturns(g, _) => g in s.crew.handling
    case Settle(g) => g in s.crew.handled
    case Release(g) => g in s.crew.leaving && s.crew.tokens > 0
    case Done(g) => g in s.crew.released && s.crew.wg > 0
    case Close => s.pc.Draining? && s.crew.wg == 0
    case CallStop(c) => c !in s.stops
    case CloseStop(c) => c in s.stops && s.stops[c] == Called
    case StopReturns(c) => c in s.stops && s.stops[c] == Blocked && s.pc.Closed?
  }

  /** The items received but not yet handed to a goroutine. */
  function Pending(pc: Pc): seq<Id> {
    match pc
    case Dispatching(rest) => rest
    case Acquired(item, rest) => [item] + rest
    case Added(item, rest) => [item] + rest
    case _ => []
  }

  function Abandon(r: Record, items: seq<Id>): Record {
    r.(abandoned := r.abandoned + (set i | i in items))
  }

  /** `return nil`: the field is left as it is. */
  function LeaveStopped(s: State): State {
    s.(pc := Draining, result := None, record := Abandon(s.record, Pending(s.pc)))
  }

  /** The error goes into the field and is returned from there. */
  function LeaveFailed(s: State, error: Error): State {
    s.(pc := Draining, startErr := Some(error), result := Some(error), record := Abandon(s.record, Pending(s.pc)))
  }

  /** What an event does to the goroutines and their counters. */
  function CrewStep(c: Crew, pc: Pc, e: Event): Crew {
    match e
    case Acquire => c.(tokens := c.tokens + 1)
    case Add => c.(wg := c.wg + 1)
    case Spawn => if pc.Added? then c.(handling := c.handling + {pc.item}) else c
    case HandleReturns(g, _) => c.(handling := c.handling - {g}, handled := c.handled + {g})
    case Settle(g) => c.(handled := c.handled - {g}, leaving := c.leaving + {g})
    case Release(g) =>
      c.(leaving := c.leaving - {g}, released := c.released + {g}, tokens := if c.tokens > 0 then c.tokens - 1 else 0)
    case Done(g) => c.(released := c.released - {g}, wg := if c.wg > 0 then c.wg - 1 else 0)
    case _ => c
  }

  /** Ack when the handler returned nil, Nack when it returned an error. */
  function Settling(r: Record, g: Id): Record {
    r.(attempts := r.attempts + [Attempt(g, g in r.outcomes && r.outcomes[g])])
  }

  function Step(s: State, e: Event): State
    requires Enabled(s, e)
  {
    match e
    case CancelContext => s.(ctxDone := true)
    case CallStart => s.(pc := Top)
    case SeeContext => LeaveFailed(s, ContextError)
    case SeeStop => LeaveStopped(s)
    case Poll => s.(pc := Polling)
    case PollFails(code) => LeaveFailed(s, if s.ctxDone then ContextError else AdapterError(code))
    case PollEmpty => s.(pc := Waiting)
    case PollItems(n) =>
      s.(pc := Dispatching(Numbers(s.record.next, n)), record := s.record.(next := s.record.next + n))
    case TimerFires => s.(pc := Top)
    case Acquire => s.(pc := Acquired(s.pc.rest[0], s.pc.rest[1..]), crew := CrewStep(s.crew, s.pc, e))
    case Add => s.(pc := Added(s.pc.item, s.pc.rest), crew := CrewStep(s.crew, s.pc, e))
    case Spawn =>
      s.(pc := if s.pc.rest == [] then Top else Dispatching(s.pc.rest),
         crew := CrewStep(s.crew, s.pc, e),
         record := s.record.(dispatched := s.record.dispatched + {s.pc.item}))
    case HandleReturns(g, ok) =>
      s.(crew := CrewStep(s.crew, s.pc, e), record := s.record.(outcomes := s.record.outcomes[g := ok]))
    case Settle(g) => s.(crew := CrewStep(s.crew, s.pc, e), record := Settling(s.record, g))
    case Release(g) => s.(crew := CrewStep(s.crew, s.pc, e))
    case Done(g) => s.(crew := CrewStep(s.crew, s.pc, e))
    case Close => s.(pc := Closed)
    case CallStop(c) => s.(stops := s.stops[c := Called])
    case CloseStop(c) => s.(stopClosed := true, stops := s.stops[c := Blocked])
    case StopReturns(c) => s.(stops := s.stops[c := Returned(s.startErr)])
  }

  function StepOrStay(s: State, e: Event): State {
    if Enabled(s, e) then Step(s, e) else s
  }

  const SYSTEM: System<State, Event> := System(Enabled, StepOrStay)

  // ---- Invariants ----------------------------------------------------------

  /** The loop holds a token for an item it has not spawned yet. */
  predicate HoldsToken(pc: Pc) {
    pc.Acquired? || pc.Added?
  }

  /** Tokens and WaitGroup count the goroutines, plus what the loop holds for the next one. */
  ghost predicate CrewInv(c: Crew, pc: Pc, concurrency: nat) {
    && c.handling !! c.handled !! c.leaving !! c.released
    && c.tokens == |c.handling| + |c.handled| + |c.leaving| + Count(HoldsToken(pc))
    && c.tokens <= concurrency
    && c.wg == |c.handling| + |c.handled| + |c.leaving| + |c.released| + Count(pc.Added?)
  }

  /** Every delivery is waiting for dispatch, dispatched or abandoned, and only one of these. */
  ghost predicate DeliveryInv(r: Record, pending: seq<Id>) {
    && (forall i, j | 0 <= i < j < |pending| :: pending[i] != pending[j])
    && (forall d | d in r.dispatched :: d < r.next && d !in pending && d !in r.abandoned)
    && (forall d | d in r.abandoned :: d < r.next && d !in pending)
    && (forall d | d in pending :: d < r.next)
    && (forall d: nat | d < r.next :: d in pending || d in r.dispatched || d in r.abandoned)
  }

  /** Attempts: one per delivery that is past its handler, Ack exactly when the handler returned nil. */
  ghost predicate SettleInv(r: Record, c: Crew) {
    && c.handling + c.handled + c.leaving + c.released <= r.dispatched
    && c.handling !! c.handled
    && r.outcomes.Keys == r.dispatched - c.handling
    && (forall i, j | 0 <= i < j < |r.attempts| :: r.attempts[i].item != r.attempts[j].item)
    && (forall a | a in r.attempts ::
          && a.item in r.dispatched && a.item !in c.handling && a.item !in c.handled
          && a.ack == r.outcomes[a.item])
    && (forall d | d in r.dispatched && d !in c.handling && d !in c.handled ::
          Attempt(d, r.outcomes[d]) in r.attempts)
  }

  predicate LoopInv(s: State) {
    && (!(s.pc.Draining? || s.pc.Closed?) ==> s.startErr == None)
    && s.startErr == s.result
    && (s.pc.Closed? ==> s.crew.wg == 0)
    && (s.pc.Dispatching? ==> s.pc.rest != [])
  }

  /** A Stop that has returned has the error `Start` returned. */
  ghost predicate StopsInv(s: State) {
    forall c | c in s.stops && s.stops[c].Returned? :: s.pc.Closed? && s.stops[c].error == s.result
  }

  ghost predicate ResultInv(s: State) {
    LoopInv(s) && StopsInv(s)
  }

  ghost predicate Inv(s: State) {
    && CrewInv(s.crew, s.pc, s.concurrency)
    && DeliveryInv(s.record, Pending(s.pc))
    && SettleInv(s.record, s.crew)
    && ResultInv(s)
  }

  /** A goroutine moves from one phase to the next; the sizes move with it. */
  lemma OneMoves(from: set<Id>, to: set<Id>, g: Id)
    requires from !! to && g in from
    ensures from - {g} !! to + {g}
    ensures |from - {g}| == |from| - 1 && |to + {g}| == |to| + 1
  {
  }

  lemma CrewHandles(c: Crew, pc: Pc, concurrency: nat, g: Id, ok: bool)
    requires CrewInv(c, pc, concurrency) && g in c.handling
    ensures CrewInv(CrewStep(c, pc, HandleReturns(g, ok)), pc, concurrency)
  {
    OneMoves(c.handling, c.handled, g);
  }

  lemma CrewSettles(c: Crew, pc: Pc, concurrency: nat, g: Id)
    requires CrewInv(c, pc, concurrency) && g in c.handled
    ensures CrewInv(CrewStep(c, pc, Settle(g)), pc, concurrency)
  {
    OneMoves(c.handled, c.leaving, g);
  }

  lemma CrewEnds(c: Crew, pc: Pc, concurrency: nat, e: Event)
    requires CrewInv(c, pc, concurrency)
    requires
      match e
      case Release(g) => g in c.leaving && c.tokens > 0
      case Done(g) => g in c.released && c.wg > 0
      case _ => false
    ensures CrewInv(CrewStep(c, pc, e), pc, concurrency)
  {
    if e.Release? {
      OneMoves(c.leaving, c.released, e.g);
    }
  }

  lemma CrewGrows(c: Crew, pc: Pc, next: Pc, concurrency: nat)
    requires CrewInv(c, pc, concurrency) && pc.Added? && !HoldsToken(next)
    requires pc.item !in c.handling + c.handled + c.leaving + c.released
    ensures CrewInv(CrewStep(c, pc, Spawn), next, concurrency)
  {
  }

  lemma CrewPrepares(c: Crew, pc: Pc, next: Pc, concurrency: nat, e: Event)
    requires CrewInv(c, pc, concurrency)
    requires
      || (e == Acquire && !HoldsToken(pc) && next.Acquired? && c.tokens < concurrency)
      || (e == Add && pc.Acquired? && next.Added?)
    ensures CrewInv(CrewStep(c, pc, e), next, concurrency)
  {
  }

  /** The other events do not touch the crew, nor what the loop holds for it. */
  lemma CrewUntouched(s: State, e: Event)
    requires Enabled(s, e) && !e.HandleReturns? && !e.Settle? && !e.Release? && !e.Done?
    requires !e.Acquire? && !e.Add? && !e.Spawn?
    ensures Step(s, e).crew == s.crew && Step(s, e).concurrency == s.concurrency
    ensures HoldsToken(Step(s, e).pc) == HoldsToken(s.pc) && Step(s, e).pc.Added? == s.pc.Added?
  {
  }

  lemma CrewKept(s: State, e: Event)
    requires CrewInv(s.crew, s.pc, s.concurrency) && Enabled(s, e)
    requires e.Spawn? ==> s.pc.item !in s.crew.handling + s.crew.handled + s.crew.leaving + s.crew.released
    ensures CrewInv(Step(s, e).crew, Step(s, e).pc, Step(s, e).concurrency)
  {
    if e.HandleReturns? {
      CrewHandles(s.crew, s.pc, s.concurrency, e.g, e.ok);
    } else if e.Settle? {
      CrewSettles(s.crew, s.pc, s.concurrency, e.g);
    } else if e.Release? || e.Done? {
      CrewEnds(s.crew, s.pc, s.concurrency, e);
    } else if e.Acquire? || e.Add? {
      CrewPrepares(s.crew, s.pc, Step(s, e).pc, s.concurrency, e);
    } else if e.Spawn? {
      CrewGrows(s.crew, s.pc, Step(s, e).pc, s.concurrency);
    } else {
      CrewUntouched(s, e);
    }
  }

  lemma SpawnDelivery(r: Record, item: Id, rest: seq<Id>)
    requires DeliveryInv(r, [item] + rest)
    ensures DeliveryInv(r.(dispatched := r.dispatched + {item}), rest)
  {
    var pending := [item] + rest;
    assert pending[1..] == rest;
    forall i, j | 0 <= i < j < |rest|
      ensures rest[i] != rest[j]
    {
      assert pending[i + 1] == rest[i] && pending[j + 1] == rest[j];
    }
    forall d | d in rest
      ensures d in pending && d != item
    {
      var i :| 0 <= i < |rest| && rest[i] == d;
      assert pending[0] == item && pending[i + 1] == d;
    }
    forall d: nat | d < r.next
      ensures d in rest || d in r.dispatched + {item} || d in r.abandoned
    {
      if d in pending && d != item {
        var i :| 0 <= i < |pending| && pending[i] == d;
        assert rest[i - 1] == d;
      }
    }
  }

  lemma PollDelivery(r: Record, count: nat)
    requires DeliveryInv(r, [])
    ensures DeliveryInv(r.(next := r.next + count), Numbers(r.next, count))
  {
    var b := Numbers(r.next, count);
    forall d: nat | d < r.next + count
      ensures d in b || d in r.dispatched || d in r.abandoned
    {
      if d >= r.next {
        assert b[d - r.next] == d;
      }
    }
  }

  lemma AbandonDelivery(r: Record, pending: seq<Id>)
    requires DeliveryInv(r, pending)
    ensures DeliveryInv(Abandon(r, pending), [])
  {
  }

  lemma DeliveryKept(s: State, e: Event)
    requires DeliveryInv(s.record, Pending(s.pc)) && Enabled(s, e)
    ensures DeliveryInv(Step(s, e).record, Pending(Step(s, e).pc))
  {
    if e.PollItems? {
      PollDelivery(s.record, e.count);
    } else if e.Spawn? {
      SpawnDelivery(s.record, s.pc.item, s.pc.rest);
    } else if e.SeeContext? || e.SeeStop? || e.PollFails? {
      AbandonDelivery(s.record, Pending(s.pc));
    } else {
      SamePending(s, e);
      SameDeliveries(s.record, Step(s, e).record, Pending(s.pc));
    }
  }

  lemma SamePending(s: State, e: Event)
    requires Enabled(s, e)
    requires !e.PollItems? && !e.Spawn? && !e.SeeContext? && !e.SeeStop? && !e.PollFails?
    ensures Pending(Step(s, e).pc) == Pending(s.pc)
    ensures
      var r := Step(s, e).record;
      r.next == s.record.next && r.dispatched == s.record.dispatched && r.abandoned == s.record.abandoned
  {
    if e.Acquire? {
      assert s.pc.rest == [s.pc.rest[0]] + s.pc.rest[1..];
    }
  }

  lemma SameDeliveries(r: Record, q: Record, pending: seq<Id>)
    requires DeliveryInv(r, pending)
    requires q.next == r.next && q.dispatched == r.dispatched && q.abandoned == r.abandoned
    ensures DeliveryInv(q, pending)
  {
  }

  lemma SpawnSettle(r: Record, c: Crew, g: Id)
    requires SettleInv(r, c) && g !in r.dispatched
    ensures SettleInv(r.(dispatched := r.dispatched + {g}), c.(handling := c.handling + {g}))
  {
  }

  lemma HandleSettle(r: Record, c: Crew, g: Id, ok: bool)
    requires SettleInv(r, c) && g in c.handling
    ensures SettleInv(r.(outcomes := r.outcomes[g := ok]),
                      c.(handling := c.handling - {g}, handled := c.handled + {g}))
  {
  }

  lemma AttemptSettle(r: Record, c: Crew, g: Id)
    requires SettleInv(r, c) && g in c.handled
    ensures SettleInv(Settling(r, g), c.(handled := c.handled - {g}, leaving := c.leaving + {g}))
  {
  }

  lemma EndSettle(r: Record, c: Crew, d: Crew)
    requires SettleInv(r, c)
    requires d.handling == c.handling && d.handled == c.handled
    requires d.leaving + d.released <= c.leaving + c.released
    ensures SettleInv(r, d)
  {
  }

  lemma SettleKept(s: State, e: Event)
    requires SettleInv(s.record, s.crew) && Enabled(s, e)
    requires e.Spawn? ==> s.pc.item !in s.record.dispatched
    ensures SettleInv(Step(s, e).record, Step(s, e).crew)
  {
    match e {
      case Spawn => SpawnSettle(s.record, s.crew, s.pc.item);
      case HandleReturns(g, ok) => HandleSettle(s.record, s.crew, g, ok);
      case Settle(g) => AttemptSettle(s.record, s.crew, g);
      case Release(_) => EndSettle(s.record, s.crew, Step(s, e).crew);
      case Done(_) => EndSettle(s.record, s.crew, Step(s, e).crew);
      case Acquire => EndSettle(s.record, s.crew, Step(s, e).crew);
      case Add => EndSettle(s.record, s.crew, Step(s, e).crew);
      case _ =>
    }
  }

  lemma LoopKept(s: State, e: Event)
    requires LoopInv(s) && Enabled(s, e)
    ensures LoopInv(Step(s, e)) && Step(s, e).concurrency == s.concurrency
  {
  }

  lemma StopsKept(s: State, e: Event)
    requires ResultInv(s) && Enabled(s, e)
    ensures StopsInv(Step(s, e))
  {
  }

  lemma ResultKept(s: State, e: Event)
    requires ResultInv(s) && Enabled(s, e)
    ensures ResultInv(Step(s, e)) && Step(s, e).concurrency == s.concurrency
  {
    LoopKept(s, e);
    StopsKept(s, e);
  }

  lemma StepKeepsInv(s: State, e: Event)
    requires Inv(s) && Enabled(s, e)
    ensures Inv(Step(s, e)) && Step(s, e).concurrency == s.concurrency
  {
    if e.Spawn? {
      assert s.pc.item in Pending(s.pc);
    }
    CrewKept(s, e);
    DeliveryKept(s, e);
    SettleKept(s, e);
    ResultKept(s, e);
  }

  ghost predicate Good(s: State, concurrency: nat) {
    Inv(s) && s.concurrency == concurrency
  }

  ghost function GoodAt(concurrency: nat): State -> bool {
    (s: State) => Good(s, concurrency)
  }

  lemma InitialIsGood(concurrency: nat)
    ensures GoodAt(concurrency)(Initial(concurrency))
  {
  }

  lemma GoodIsInductive(concurrency: nat)
    ensures Inductive(SYSTEM, GoodAt(concurrency))
  {
    forall s, e | Good(s, concurrency) && Enabled(s, e)
      ensures Good(StepOrStay(s, e), concurrency)
    {
      StepKeepsInv(s, e);
    }
  }

  lemma Reachable(concurrency: nat, es: seq<Event>)
    requires IsRun(SYSTEM, Initial(concurrency), es)
    ensures Good(After(SYSTEM, Initial(concurrency), es), concurrency)
  {
    GoodIsInductive(concurrency);
    InitialIsGood(concurrency);
    Invariant(SYSTEM, GoodAt(concurrency), Initial(concurrency), es);
  }

  // ---- Theorems ------------------------------------------------------------

  /** Concurrency: handlers running, tokens held and the configured limit, in every interleaving. */
  lemma ConcurrencyBound(concurrency: nat, es: seq<Event>)
    requires IsRun(SYSTEM, Initial(concurrency), es)
    ensures
      var s := After(SYSTEM, Initial(concurrency), es);
      var c := s.crew;
      && |c.handling + c.handled| <= c.tokens <= concurrency
      && c.wg == |c.handling + c.handled + c.leaving + c.released| + Count(s.pc.Added?)
  {
    Reachable(concurrency, es);
  }

  /** An event of one of the spawned goroutines. */
  predicate OfGoroutine(e: Event) {
    e.HandleReturns? || e.Settle? || e.Release? || e.Done?
  }

  ghost predicate SomeGoroutineCanMove(s: State) {
    exists e :: OfGoroutine(e) && Enabled(s, e)
  }

  /** `<-sem` and wg.Done go through. */
  predicate CrewUnstuck(s: State) {
    && (forall g | g in s.crew.leaving :: Enabled(s, Release(g)))
    && (forall g | g in s.crew.released :: Enabled(s, Done(g)))
  }

  /** A loop that must wait for a token, or for the drain, has a goroutine to wait for. */
  ghost predicate LoopUnstuck(s: State) {
    && (s.pc.Dispatching? ==> Enabled(s, Acquire) || SomeGoroutineCanMove(s))
    && (s.pc.Draining? ==> Enabled(s, Close) || SomeGoroutineCanMove(s))
  }

  ghost predicate Unstuck(s: State) {
    CrewUnstuck(s) && LoopUnstuck(s)
  }

  /**
   Nothing is ever stuck but on a handler: a goroutine's `<-sem` and wg.Done
   never block or go negative, and a loop that cannot take a token, or cannot
   finish its wg.Wait, has a goroutine that can move.
   */
  lemma NeverStuck(concurrency: nat, es: seq<Event>)
    requires IsRun(SYSTEM, Initial(concurrency), es) && concurrency > 0
    ensures Unstuck(After(SYSTEM, Initial(concurrency), es))
  {
    Reachable(concurrency, es);
    InvUnstuck(After(SYSTEM, Initial(concurrency), es));
  }

  lemma InvUnstuck(s: State)
    requires Inv(s) && s.concurrency > 0
    ensures Unstuck(s)
  {
    CrewGoesOn(s);
    LoopGoesOn(s);
  }

  ghost predicate Idle(c: Crew) {
    c.handling == {} && c.handled == {} && c.leaving == {} && c.released == {}
  }

  lemma TokensSuffice(c: Crew, pc: Pc, concurrency: nat)
    requires CrewInv(c, pc, concurrency)
    ensures c.leaving != {} ==> c.tokens > 0
    ensures c.released != {} ==> c.wg > 0
  {
  }

  /** With no goroutine left the counters show only what the loop holds. */
  lemma IdleCounters(c: Crew, pc: Pc, concurrency: nat)
    requires CrewInv(c, pc, concurrency) && Idle(c)
    ensures c.tokens == Count(HoldsToken(pc)) && c.wg == Count(pc.Added?)
  {
  }

  lemma CrewGoesOn(s: State)
    requires CrewInv(s.crew, s.pc, s.concurrency)
    ensures CrewUnstuck(s)
  {
    TokensSuffice(s.crew, s.pc, s.concurrency);
  }

  lemma LoopGoesOn(s: State)
    requires CrewInv(s.crew, s.pc, s.concurrency) && s.concurrency > 0
    requires s.pc.Dispatching? ==> s.pc.rest != []
    ensures LoopUnstuck(s)
  {
    if Idle(s.crew) {
      IdleCounters(s.crew, s.pc, s.concurrency);
    } else {
      SomeoneCanMove(s);
    }
  }

  lemma SomeoneCanMove(s: State)
    requires CrewInv(s.crew, s.pc, s.concurrency) && !Idle(s.crew)
    ensures SomeGoroutineCanMove(s)
  {
    TokensSuffice(s.crew, s.pc, s.concurrency);
    var e := NextMove(s.crew);
    assert OfGoroutine(e) && Enabled(s, e);
  }

  /** A step of some goroutine that is left. */
  lemma NextMove(c: Crew) returns (e: Event)
    requires !Idle(c)
    ensures match e
            case HandleReturns(g, _) => g in c.handling
            case Settle(g) => g in c.handled
            case Release(g) => g in c.leaving
            case Done(g) => g in c.released
            case _ => false
  {
    if c.handling != {} {
      var g :| g in c.handling;
      e := HandleReturns(g, true);
    } else if c.handled != {} {
      var g :| g in c.handled;
      e := Settle(g);
    } else if c.leaving != {} {
      var g :| g in c.leaving;
      e := Release(g);
    } else {
      var g :| g in c.released;
      e := Done(g);
    }
  }

  /** An event of the loop or of one of its goroutines. */
  predicate OfWorker(e: Event) {
    !e.CancelContext? && !e.CallStop? && !e.CloseStop? && !e.StopReturns?
  }

  ghost predicate CanMove(s: State) {
    exists e :: OfWorker(e) && Enabled(s, e)
  }

  /** The next step of a loop that does not wait for a goroutine. */
  function LoopStep(s: State): Event {
    match s.pc
    case NotStarted => CallStart
    case Top => if s.ctxDone then SeeContext else if s.stopClosed then SeeStop else Poll
    case Polling => PollEmpty
    case Waiting => TimerFires
    case Dispatching(_) => Acquire
    case Acquired(_, _) => Add
    case Added(_, _) => Spawn
    case _ => Close
  }

  /** Until `done` is closed, the loop or a goroutine can move. */
  lemma WorkerCanMove(s: State)
    requires Inv(s) && s.concurrency > 0 && !s.pc.Closed?
    ensures CanMove(s)
  {
    assert OfWorker(LoopStep(s));
    if s.pc.Dispatching? || s.pc.Draining? {
      LoopGoesOn(s);
      if SomeGoroutineCanMove(s) {
        var e :| OfGoroutine(e) && Enabled(s, e);
        assert OfWorker(e);
      }
    } else {
      assert Enabled(s, LoopStep(s));
    }
  }

  /** A receipt was asked exactly once to settle delivery `d`, the way its handler's outcome says. */
  ghost predicate SettledOnce(r: Record, d: Id) {
    exists i | 0 <= i < |r.attempts| ::
      && r.attempts[i].item == d
      && d in r.outcomes && r.attempts[i].ack == r.outcomes[d]
      && forall j | 0 <= j < |r.attempts| && r.attempts[j].item == d :: j == i
  }

  lemma AttemptMeansSettledOnce(r: Record, c: Crew, d: Id)
    requires SettleInv(r, c) && d in r.dispatched && d !in c.handling && d !in c.handled
    ensures SettledOnce(r, d)
  {
    assert Attempt(d, r.outcomes[d]) in r.attempts;
    var i :| 0 <= i < |r.attempts| && r.attempts[i] == Attempt(d, r.outcomes[d]);
  }

  /** No goroutine is left, every dispatched delivery was settled once, and the others were abandoned. */
  ghost predicate Drained(s: State) {
    && Idle(s.crew)
    && (forall d | d in s.record.dispatched :: SettledOnce(s.record, d))
    && (forall d: nat | d < s.record.next :: d in s.record.dispatched <==> d !in s.record.abandoned)
  }

  lemma ClosedIsDrained(s: State)
    requires Inv(s) && s.pc.Closed?
    ensures Drained(s)
  {
    forall d | d in s.record.dispatched
      ensures SettledOnce(s.record, d)
    {
      AttemptMeansSettledOnce(s.record, s.crew, d);
    }
  }

  /**
   Drain: when `done` is closed every dispatched delivery has been asked to
   settle exactly once, by Ack exactly when its handler returned nil; every
   other delivery was abandoned; and every Stop that returned has the error
   Start returned.
   */
  lemma DrainedWhenClosed(concurrency: nat, es: seq<Event>)
    requires IsRun(SYSTEM, Initial(concurrency), es)
    ensures
      var s := After(SYSTEM, Initial(concurrency), es);
      && (s.pc.Closed? ==> Drained(s))
      && (forall c | c in s.stops && s.stops[c].Returned? :: s.pc.Closed? && s.stops[c].error == s.result)
  {
    Reachable(concurrency, es);
    var s := After(SYSTEM, Initial(concurrency), es);
    if s.pc.Closed? {
      ClosedIsDrained(s);
    }
  }

  // ---- What a delivery's fate is due to ------------------------------------

  /** The recorded outcome of a delivery. */
  predicate HasOutcome(s: State, d: Id, ok: bool) {
    d in s.record.outcomes && s.record.outcomes[d] == ok
  }

  ghost function OutcomeIs(d: Id, ok: bool): State -> bool {
    (s: State) => HasOutcome(s, d, ok)
  }

  ghost function Returns(d: Id, ok: bool): (State, Event) -> bool {
    (s: State, e: Event) => e == HandleReturns(d, ok)
  }

  /** Only a returning handler records an outcome. */
  lemma OutcomesMove(s: State, e: Event)
    requires Enabled(s, e)
    ensures Step(s, e).record.outcomes
            == if e.HandleReturns? then s.record.outcomes[e.g := e.ok] else s.record.outcomes
  {
  }

  lemma OutcomeStep(s: State, e: Event, d: Id, ok: bool)
    requires SettleInv(s.record, s.crew) && Enabled(s, e)
    ensures HasOutcome(StepOrStay(s, e), d, ok) <==> HasOutcome(s, d, ok) || e == HandleReturns(d, ok)
  {
    OutcomesMove(s, e);
  }

  lemma OutcomesByHandlers(concurrency: nat, d: Id, ok: bool)
    ensures ExactlyBy(SYSTEM, GoodAt(concurrency), OutcomeIs(d, ok), Returns(d, ok))
  {
    forall s, e | Good(s, concurrency) && Enabled(s, e)
      ensures HasOutcome(StepOrStay(s, e), d, ok) <==> HasOutcome(s, d, ok) || e == HandleReturns(d, ok)
    {
      OutcomeStep(s, e, d, ok);
    }
  }

  /**
   The outcome that decides between Ack and Nack is the one thing the handler of
   that delivery returned in the run.
   */
  lemma OutcomeIsTheHandlers(concurrency: nat, es: seq<Event>, d: Id, ok: bool)
    requires IsRun(SYSTEM, Initial(concurrency), es)
    ensures HasOutcome(After(SYSTEM, Initial(concurrency), es), d, ok) <==> HandleReturns(d, ok) in es
  {
    GoodIsInductive(concurrency);
    InitialIsGood(concurrency);
    OutcomesByHandlers(concurrency, d, ok);
    HoldsExactly(SYSTEM, GoodAt(concurrency), OutcomeIs(d, ok), Returns(d, ok), Initial(concurrency), es);
    HappensInRun(SYSTEM, Initial(concurrency), es, HandleReturns(d, ok), Returns(d, ok));
  }

  // ---- What Start returns --------------------------------------------------

  /** The loop leaves by a context case, or by a failed Consume under an ended context. */
  predicate EndsByContext(s: State, e: Event) {
    e == SeeContext || (e.PollFails? && s.ctxDone)
  }

  ghost function EndsByAdapter(code: nat): (State, Event) -> bool {
    (s: State, e: Event) => e == PollFails(code) && !s.ctxDone
  }

  predicate EndsByStop(s: State, e: Event) {
    e == SeeStop
  }

  ghost function ResultIs(error: Error): State -> bool {
    (s: State) => s.result == Some(error)
  }

  predicate LeftWithNil(s: State) {
    WaitBegun(s) && s.result == None
  }

  /** Before the loop has left there is no result; after that nothing changes it. */
  lemma ResultStep(s: State, e: Event, error: Error)
    requires LoopInv(s) && Enabled(s, e)
    ensures
      var n := StepOrStay(s, e);
      && (n.result == Some(error) <==>
            || s.result == Some(error)
            || (error == ContextError && EndsByContext(s, e))
            || (error.AdapterError? && e == PollFails(error.code) && !s.ctxDone))
      && (LeftWithNil(n) <==> LeftWithNil(s) || EndsByStop(s, e))
  {
  }

  lemma ResultsExactly(concurrency: nat, code: nat)
    ensures ExactlyBy(SYSTEM, GoodAt(concurrency), ResultIs(ContextError), EndsByContext)
    ensures ExactlyBy(SYSTEM, GoodAt(concurrency), ResultIs(AdapterError(code)), EndsByAdapter(code))
    ensures ExactlyBy(SYSTEM, GoodAt(concurrency), LeftWithNil, EndsByStop)
  {
    forall s, e | Good(s, concurrency) && Enabled(s, e)
      ensures StepOrStay(s, e).result == Some(ContextError) <==> s.result == Some(ContextError) || EndsByContext(s, e)
      ensures StepOrStay(s, e).result == Some(AdapterError(code)) <==>
                s.result == Some(AdapterError(code)) || EndsByAdapter(code)(s, e)
      ensures LeftWithNil(StepOrStay(s, e)) <==> LeftWithNil(s) || EndsByStop(s, e)
    {
      ResultStep(s, e, ContextError);
      ResultStep(s, e, AdapterError(code));
    }
  }

  /**
   What Start returns, and with it every Stop: the context's error exactly when the
   loop took a context case, or Consume failed after the context had ended; the
   adapter's error exactly when Consume failed with it before; and nil exactly when
   the loop took the stop case.
   */
  lemma StartReturns(concurrency: nat, es: seq<Event>, code: nat)
    requires IsRun(SYSTEM, Initial(concurrency), es)
    ensures
      var s := After(SYSTEM, Initial(concurrency), es);
      && (s.result == Some(ContextError)
          <==> exists k :: Happens(SYSTEM, EndsByContext, Initial(concurrency), es, k))
      && (s.result == Some(AdapterError(code))
          <==> exists k :: Happens(SYSTEM, EndsByAdapter(code), Initial(concurrency), es, k))
      && (WaitBegun(s) && s.result == None
          <==> exists k :: Happens(SYSTEM, EndsByStop, Initial(concurrency), es, k))
  {
    GoodIsInductive(concurrency);
    InitialIsGood(concurrency);
    ResultsExactly(concurrency, code);
    var s0 := Initial(concurrency);
    HoldsExactly(SYSTEM, GoodAt(concurrency), ResultIs(ContextError), EndsByContext, s0, es);
    HoldsExactly(SYSTEM, GoodAt(concurrency), ResultIs(AdapterError(code)), EndsByAdapter(code), s0, es);
    HoldsExactly(SYSTEM, GoodAt(concurrency), LeftWithNil, EndsByStop, s0, es);
  }

  predicate ContextHasEnded(s: State) {
    s.ctxDone
  }

  predicate StopIsClosed(s: State) {
    s.stopClosed
  }

  predicate CancelsContext(s: State, e: Event) {
    e == CancelContext
  }

  predicate ClosesStop(s: State, e: Event) {
    e.CloseStop?
  }

  lemma SignalsStep(s: State, e: Event)
    requires Enabled(s, e)
    ensures StepOrStay(s, e).ctxDone <==> s.ctxDone || e == CancelContext
    ensures StepOrStay(s, e).stopClosed <==> s.stopClosed || e.CloseStop?
    ensures e == SeeContext ==> s.ctxDone
    ensures e == SeeStop ==> s.stopClosed
  {
  }

  /** The context has ended exactly when it was cancelled, and stopCh is closed exactly when some Stop closed it. */
  lemma SignalsExactly(concurrency: nat, es: seq<Event>)
    requires IsRun(SYSTEM, Initial(concurrency), es)
    ensures
      var s := After(SYSTEM, Initial(concurrency), es);
      && (s.ctxDone <==> CancelContext in es)
      && (s.stopClosed <==> exists k :: Happens(SYSTEM, ClosesStop, Initial(concurrency), es, k))
  {
    GoodIsInductive(concurrency);
    InitialIsGood(concurrency);
    forall s, e | Enabled(s, e)
      ensures StepOrStay(s, e).ctxDone <==> s.ctxDone || CancelsContext(s, e)
      ensures StepOrStay(s, e).stopClosed <==> s.stopClosed || ClosesStop(s, e)
    {
      SignalsStep(s, e);
    }
    HoldsExactly(SYSTEM, GoodAt(concurrency), ContextHasEnded, CancelsContext, Initial(concurrency), es);
    HoldsExactly(SYSTEM, GoodAt(concurrency), StopIsClosed, ClosesStop, Initial(concurrency), es);
    HappensInRun(SYSTEM, Initial(concurrency), es, CancelContext, CancelsContext);
  }

  /** Start returns nil only after a Stop, and the context's error only after the context was cancelled. */
  lemma ReturnsHaveReasons(concurrency: nat, es: seq<Event>)
    requires IsRun(SYSTEM, Initial(concurrency), es)
    ensures
      var s := After(SYSTEM, Initial(concurrency), es);
      && (s.result == Some(ContextError) ==> CancelContext in es)
      && (LeftWithNil(s) ==> exists k :: Happens(SYSTEM, ClosesStop, Initial(concurrency), es, k))
  {
    var s := After(SYSTEM, Initial(concurrency), es);
    SignalsExactly(concurrency, es);
    SignalsBehindResults(concurrency, es);
  }

  ghost function ReasonsAt(concurrency: nat): State -> bool {
    (s: State) =>
      Good(s, concurrency) && (s.result == Some(ContextError) ==> s.ctxDone) && (LeftWithNil(s) ==> s.stopClosed)
  }

  lemma SignalsBehindResults(concurrency: nat, es: seq<Event>)
    requires IsRun(SYSTEM, Initial(concurrency), es)
    ensures ReasonsAt(concurrency)(After(SYSTEM, Initial(concurrency), es))
  {
    forall s, e | ReasonsAt(concurrency)(s) && Enabled(s, e)
      ensures ReasonsAt(concurrency)(StepOrStay(s, e))
    {
      StepKeepsInv(s, e);
      ResultStep(s, e, ContextError);
      SignalsStep(s, e);
    }
    InitialIsGood(concurrency);
    Invariant(SYSTEM, ReasonsAt(concurrency), Initial(concurrency), es);
  }

  // ---- Abandoned deliveries ------------------------------------------------

  ghost function IsAbandoned(d: Id): State -> bool {
    (s: State) => d in s.record.abandoned
  }

  /** The select for the next item takes the stop or the context case with `d` still to be dispatched. */
  predicate LeavesBehind(s: State, e: Event, d: Id) {
    (e == SeeStop || e == SeeContext) && s.pc.Dispatching? && d in s.pc.rest
  }

  ghost function LeavingBehind(d: Id): (State, Event) -> bool {
    (s: State, e: Event) => LeavesBehind(s, e, d)
  }

  lemma AbandonStep(s: State, e: Event, d: Id)
    requires Enabled(s, e)
    ensures d in Step(s, e).record.abandoned <==> d in s.record.abandoned || LeavesBehind(s, e, d)
  {
  }

  /**
   Exactly when a delivery is abandoned: the loop left, because it saw stop or the
   end of its context, at the select for an item of its batch, with the delivery
   among the items not yet dispatched.
   */
  lemma AbandonedExactly(concurrency: nat, es: seq<Event>, d: Id)
    requires IsRun(SYSTEM, Initial(concurrency), es)
    ensures d in After(SYSTEM, Initial(concurrency), es).record.abandoned
            <==> exists k :: Happens(SYSTEM, LeavingBehind(d), Initial(concurrency), es, k)
  {
    forall s, e | Enabled(s, e)
      ensures IsAbandoned(d)(StepOrStay(s, e)) <==> IsAbandoned(d)(s) || LeavesBehind(s, e, d)
    {
      AbandonStep(s, e, d);
    }
    GoodIsInductive(concurrency);
    InitialIsGood(concurrency);
    HoldsExactly(SYSTEM, GoodAt(concurrency), IsAbandoned(d), LeavingBehind(d), Initial(concurrency), es);
  }

  /** A run in which a delivery is received, and stop is seen before it is dispatched. */
  lemma StopAbandons() returns (es: seq<Event>)
    ensures IsRun(SYSTEM, Initial(1), es)
    ensures
      var s := After(SYSTEM, Initial(1), es);
      s.pc.Closed? && s.result == None && s.record.abandoned == {0}
  {
    var s0 := Initial(1);
    var s1 := Step(s0, CallStart);
    var s2 := Step(s1, Poll);
    var s3 := Step(s2, PollItems(1));
    assert s3.pc == Dispatching([0]);
    es := StopBeforeDispatch(s3);
    es := Prepend(SYSTEM, s2, PollItems(1), es);
    es := Prepend(SYSTEM, s1, Poll, es);
    es := Prepend(SYSTEM, s0, CallStart, es);
  }

  lemma StopBeforeDispatch(s: State) returns (es: seq<Event>)
    requires s.pc == Dispatching([0]) && s.crew.wg == 0 && s.record.abandoned == {} && s.stops == map[]
    ensures IsRun(SYSTEM, s, es)
    ensures
      var n := After(SYSTEM, s, es);
      n.pc.Closed? && n.result == None && n.record.abandoned == {0}
  {
    var s1 := Step(s, CallStop(0));
    var s2 := Step(s1, CloseStop(0));
    var s3 := Step(s2, SeeStop);
    es := Prepend(SYSTEM, s3, Close, []);
    es := Prepend(SYSTEM, s2, SeeStop, es);
    es := Prepend(SYSTEM, s1, CloseStop(0), es);
    es := Prepend(SYSTEM, s, CallStop(0), es);
  }

  // ---- The loop ends -------------------------------------------------------

  /** A signal to stop has been given, whether or not the loop has seen it. */
  predicate Ending(s: State) {
    s.ctxDone || s.stopClosed
  }

  /** An event of the loop itself. */
  predicate OfLoop(e: Event) {
    OfWorker(e) && !OfGoroutine(e)
  }

  /** The steps the loop has still to take, apart from those for items it has yet to receive. */
  function LoopSteps(pc: Pc): nat {
    match pc
    case NotStarted => 2
    case Top => 1
    case Polling => 3
    case Waiting => 2
    case Dispatching(rest) => 3 * |rest| + 1
    case Acquired(_, rest) => 3 * |rest| + 3
    case Added(_, rest) => 3 * |rest| + 2
    case _ => 0
  }

  function LoopRank(s: State): int {
    LoopSteps(s.pc) - 3 * s.record.next
  }

  lemma EndingStep(s: State, e: Event)
    requires Ending(s) && Enabled(s, e)
    ensures Ending(StepOrStay(s, e)) && e != Poll
    ensures WaitBegun(StepOrStay(s, e))
            || (!WaitBegun(s) && LoopRank(StepOrStay(s, e)) + Count(OfLoop(e)) <= LoopRank(s))
  {
  }

  predicate IsPoll(e: Event) {
    e == Poll
  }

  /**
   The loop ends: once the context has ended or a Stop has been called, in every
   continuation no further poll begins, and the loop comes to its wg.Wait within the
   steps left, three for each item a poll under way may still bring.
   */
  lemma LoopEnds(concurrency: nat, es: seq<Event>, more: seq<Event>)
    requires IsRun(SYSTEM, Initial(concurrency), es)
    requires
      var s := After(SYSTEM, Initial(concurrency), es);
      Ending(s) && IsRun(SYSTEM, s, more)
    ensures
      var s := After(SYSTEM, Initial(concurrency), es);
      var n := After(SYSTEM, s, more);
      && Poll !in more
      && (WaitBegun(n)
          || LoopSteps(n.pc) + Tally(OfLoop, more) <= LoopSteps(s.pc) + 3 * (n.record.next - s.record.next))
  {
    EndingBounds(After(SYSTEM, Initial(concurrency), es), more);
  }

  lemma EndingBounds(s: State, more: seq<Event>)
    requires Ending(s) && IsRun(SYSTEM, s, more)
    ensures
      var n := After(SYSTEM, s, more);
      && Poll !in more
      && (WaitBegun(n)
          || LoopSteps(n.pc) + Tally(OfLoop, more) <= LoopSteps(s.pc) + 3 * (n.record.next - s.record.next))
  {
    forall s, e | Ending(s) && Enabled(s, e)
      ensures Ending(StepOrStay(s, e)) && !IsPoll(e)
      ensures WaitBegun(StepOrStay(s, e))
              || (!WaitBegun(s) && LoopRank(StepOrStay(s, e)) + Count(OfLoop(e)) <= LoopRank(s))
    {
      EndingStep(s, e);
    }
    BoundedUntil(SYSTEM, Ending, WaitBegun, LoopRank, OfLoop, s, more);
    if Poll in more {
      var k :| 0 <= k < |more| && more[k] == Poll;
      NoneWhenQuiet(SYSTEM, Ending, IsPoll, s, more, k);
      assert false;
    }
  }

  /** The loop waits for a token only while as many goroutines hold one as the limit allows. */
  lemma WaitsOnlyWhenFull(concurrency: nat, es: seq<Event>)
    requires IsRun(SYSTEM, Initial(concurrency), es)
    ensures
      var s := After(SYSTEM, Initial(concurrency), es);
      s.pc.Dispatching? && !Enabled(s, Acquire) ==>
        |s.crew.handling| + |s.crew.handled| + |s.crew.leaving| == concurrency
  {
    Reachable(concurrency, es);
  }

  // ---- Items are dispatched in order ---------------------------------------

  /** What is still to be dispatched are the latest deliveries, in order. */
  ghost predicate InOrder(s: State) {
    var pending := Pending(s.pc);
    && |pending| <= s.record.next
    && pending == Numbers(s.record.next - |pending|, |pending|)
    && forall d | d in s.record.dispatched :: d < s.record.next - |pending|
  }

  lemma OrderKept(s: State, e: Event)
    requires InOrder(s) && Enabled(s, e)
    ensures InOrder(StepOrStay(s, e))
  {
    if e.Spawn? {
      SpawnKeepsOrder(s);
    } else if e.PollItems? {
      assert Numbers(s.record.next, e.count) == Pending(Step(s, e).pc);
    } else if !e.SeeContext? && !e.SeeStop? && !e.PollFails? {
      SamePending(s, e);
    }
  }

  lemma SpawnKeepsOrder(s: State)
    requires InOrder(s) && Enabled(s, Spawn)
    ensures InOrder(Step(s, Spawn))
  {
    var pending := Pending(s.pc);
    assert pending == [s.pc.item] + s.pc.rest;
    assert pending[1..] == s.pc.rest == Pending(Step(s, Spawn).pc);
    assert s.pc.item == pending[0] == s.record.next - |pending|;
  }

  /** No delivery is dispatched before one that was received earlier and is still to be dispatched. */
  lemma DispatchedInOrder(concurrency: nat, es: seq<Event>, d: Id, p: Id)
    requires IsRun(SYSTEM, Initial(concurrency), es)
    requires
      var s := After(SYSTEM, Initial(concurrency), es);
      d in s.record.dispatched && p in Pending(s.pc)
    ensures d < p
  {
    forall s, e | InOrder(s) && Enabled(s, e)
      ensures InOrder(StepOrStay(s, e))
    {
      OrderKept(s, e);
    }
    Invariant(SYSTEM, InOrder, Initial(concurrency), es);
  }

  // ---- The drain ends ------------------------------------------------------

  /** The steps the goroutines still have to take. */
  function StepsLeft(s: State): nat {
    StepsOf(s.crew)
  }

  function StepsOf(c: Crew): nat {
    4 * |c.handling| + 3 * |c.handled| + 2 * |c.leaving| + |c.released|
  }

  ghost function DrainingAt(concurrency: nat): State -> bool {
    (s: State) => Good(s, concurrency) && WaitBegun(s)
  }

  lemma DrainIsInductive(concurrency: nat)
    ensures Inductive(SYSTEM, DrainingAt(concurrency))
  {
    forall s, e | Good(s, concurrency) && WaitBegun(s) && Enabled(s, e)
      ensures Good(StepOrStay(s, e), concurrency) && WaitBegun(StepOrStay(s, e))
    {
      StepKeepsInv(s, e);
      WaitIsFinal(s, e);
    }
  }

  lemma CrewMovesOn(c: Crew, pc: Pc, concurrency: nat, e: Event)
    requires CrewInv(c, pc, concurrency)
    requires
      match e
      case HandleReturns(g, _) => g in c.handling
      case Settle(g) => g in c.handled
      case _ => false
    ensures StepsOf(c) == StepsOf(CrewStep(c, pc, e)) + 1
  {
    if e.HandleReturns? {
      OneMoves(c.handling, c.handled, e.g);
    } else {
      OneMoves(c.handled, c.leaving, e.g);
    }
  }

  lemma CrewRunsOut(c: Crew, pc: Pc, concurrency: nat, e: Event)
    requires CrewInv(c, pc, concurrency)
    requires
      match e
      case Release(g) => g in c.leaving
      case Done(g) => g in c.released
      case _ => false
    ensures StepsOf(c) == StepsOf(CrewStep(c, pc, e)) + 1
  {
    if e.Release? {
      OneMoves(c.leaving, c.released, e.g);
    }
  }

  lemma StepsCountDown(s: State, e: Event)
    requires CrewInv(s.crew, s.pc, s.concurrency) && Enabled(s, e) && WaitBegun(s)
    ensures StepsLeft(s) == StepsLeft(StepOrStay(s, e)) + Count(OfGoroutine(e))
  {
    CrewStepsOnly(s, e);
    if e.HandleReturns? || e.Settle? {
      CrewMovesOn(s.crew, s.pc, s.concurrency, e);
    } else if e.Release? || e.Done? {
      CrewRunsOut(s.crew, s.pc, s.concurrency, e);
    }
  }

  lemma DrainCountsDown(concurrency: nat)
    ensures CountsDown(SYSTEM, DrainingAt(concurrency), StepsLeft, OfGoroutine)
  {
    forall s, e | Good(s, concurrency) && WaitBegun(s) && Enabled(s, e)
      ensures StepsLeft(s) == StepsLeft(StepOrStay(s, e)) + Count(OfGoroutine(e))
    {
      StepsCountDown(s, e);
    }
  }

  lemma CrewStepsOnly(s: State, e: Event)
    requires Enabled(s, e) && WaitBegun(s)
    ensures Step(s, e).crew == CrewStep(s.crew, s.pc, e)
  {
  }

  lemma NoStepsLeft(s: State)
    requires Inv(s) && s.concurrency > 0 && s.pc.Draining?
    ensures StepsLeft(s) == 0 ==> Enabled(s, Close)
    ensures StepsLeft(s) > 0 ==> SomeGoroutineCanMove(s)
  {
    if Idle(s.crew) {
      IdleCounters(s.crew, s.pc, s.concurrency);
    } else {
      SomeoneCanMove(s);
    }
  }

  /**
   The drain ends: once `Start` waits for its goroutines, whatever happens, every
   step of a goroutine takes one off the steps left; while some are left a
   goroutine can move, and when none is left `done` can be closed.
   */
  lemma DrainEnds(concurrency: nat, es: seq<Event>, more: seq<Event>)
    requires concurrency > 0 && IsRun(SYSTEM, Initial(concurrency), es)
    requires
      var s := After(SYSTEM, Initial(concurrency), es);
      WaitBegun(s) && IsRun(SYSTEM, s, more)
    ensures
      var s := After(SYSTEM, Initial(concurrency), es);
      var n := After(SYSTEM, s, more);
      && Tally(OfGoroutine, more) + StepsLeft(n) == StepsLeft(s)
      && (n.pc.Closed? || (n.pc.Draining? && if StepsLeft(n) == 0 then Enabled(n, Close) else SomeGoroutineCanMove(n)))
  {
    Reachable(concurrency, es);
    var s := After(SYSTEM, Initial(concurrency), es);
    DrainIsInductive(concurrency);
    DrainCountsDown(concurrency);
    RankIsTally(SYSTEM, DrainingAt(concurrency), StepsLeft, OfGoroutine, s, more);
    Invariant(SYSTEM, DrainingAt(concurrency), s, more);
    if After(SYSTEM, s, more).pc.Draining? {
      NoStepsLeft(After(SYSTEM, s, more));
    }
  }

  /** Events that poll, dispatch or touch a delivery. */
  predicate Works(e: Event) {
    e.Poll? || e.PollItems? || e.Acquire? || e.Add? || e.Spawn? || OfGoroutine(e)
  }

  ghost predicate Finished(s: State) {
    s.pc.Closed? && Idle(s.crew)
  }

  lemma FinishedStays(s: State, e: Event)
    requires Finished(s) && Enabled(s, e)
    ensures !Works(e) && Finished(Step(s, e))
  {
  }

  lemma FinishedIsQuiescent()
    ensures Quiescent(SYSTEM, Finished, Works)
  {
    forall s, e | Finished(s) && Enabled(s, e)
      ensures !Works(e) && Finished(StepOrStay(s, e))
    {
      FinishedStays(s, e);
    }
  }

  /** After `done` closes, and after any Stop has returned, nothing is polled, dispatched, handled or settled. */
  lemma QuietAfterStop(concurrency: nat, es: seq<Event>, i: nat, j: nat)
    requires IsRun(SYSTEM, Initial(concurrency), es) && i < j < |es|
    requires es[i].Close? || es[i].StopReturns?
    ensures !Works(es[j])
  {
    StateAt(SYSTEM, Initial(concurrency), es, i);
    StateAfter(SYSTEM, Initial(concurrency), es, i);
    DrainedWhenClosed(concurrency, es[..i + 1]);
    FinishedIsQuiescent();
    NoneAfterQuiet(SYSTEM, Finished, Works, Initial(concurrency), es, i + 1, j);
  }

  predicate WaitBegun(s: State) {
    s.pc.Draining? || s.pc.Closed?
  }

  predicate IsAdd(e: Event) {
    e.Add?
  }

  lemma WaitIsFinal(s: State, e: Event)
    requires WaitBegun(s) && Enabled(s, e)
    ensures !IsAdd(e) && WaitBegun(Step(s, e))
  {
  }

  /** wg.Add never happens once the deferred wg.Wait has begun. */
  lemma AddBeforeWait(concurrency: nat, es: seq<Event>, i: nat, j: nat)
    requires IsRun(SYSTEM, Initial(concurrency), es) && i <= j < |es|
    requires WaitBegun(After(SYSTEM, Initial(concurrency), es[..i]))
    ensures !es[j].Add?
  {
    forall s, e | WaitBegun(s) && Enabled(s, e)
      ensures !IsAdd(e) && WaitBegun(StepOrStay(s, e))
    {
      WaitIsFinal(s, e);
    }
    NoneAfterQuiet(SYSTEM, WaitBegun, IsAdd, Initial(concurrency), es, i, j);
  }
}
