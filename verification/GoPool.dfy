/**
 The Go worker pool: `Start` spawns its workers, a goroutine that waits for all
 of them and one that listens for Stop, and then selects. What a worker returns,
 and when, is free here; `GoPoolWorkers` puts the workers of `GoWorker` in.
 */
module GoPool {
  import opened Bytes
  import opened Runs
  import GoWorker

  /** What a worker's `Start` returns when it fails. */
  type Failure = GoWorker.Error

  datatype Error = ParentContext | FromWorker(worker: nat, failure: Failure)

  /** A worker's goroutine; an error it has to report is one that is not `context.Canceled`. */
  datatype Worker =
    | Running
    | MustReport(failure: Failure)
    | MustCancel
    | MustCount  // wg.Done still to come
    | Gone

  datatype Pc = Spawning | Selecting | AwaitDone(error: Error) | Returned(outcome: Option<Error>)

  datatype State = State(
    size: nat,
    workers: seq<Worker>,
    errCh: seq<Error>,        // buffered channel of capacity `size`
    parentDone: bool,
    poolCancelled: bool,
    stopClosed: bool,
    doneCh: bool,             // closed
    pc: Pc,
    failures: map<nat, Failure>,  // the error each failed worker returned
    overflowed: bool)         // an error found the channel full

  function Initial(size: nat): State {
    State(size, [], [], false, false, false, false, Spawning, map[], false)
  }

  datatype Event =
    | CancelParent
    | CallStop
    | Listen                        // the listener sees Stop and cancels the pool context
    | SpawnWorker
    | BeginSelect
    | WorkerReturns(w: nat, failure: Option<Failure>)
    | Report(w: nat)
    | Cancel(w: nat)
    | CountDown(w: nat)
    | CloseDone
    | SelectParent
    | SelectError
    | SelectDone
    | SeeDone

  predicate WorkerAt(s: State, w: nat, phase: Worker) {
    w < |s.workers| && s.workers[w] == phase
  }

  predicate AllGone(s: State) {
    |s.workers| == s.size && forall w | 0 <= w < |s.workers| :: s.workers[w] == Gone
  }

  predicate Enabled(s: State, e: Event) {
    match e
    case CancelParent => true
    case CallStop => true
    case Listen => s.stopClosed && !s.pc.Spawning?
    case SpawnWorker => s.pc.Spawning? && |s.workers| < s.size
    case BeginSelect => s.pc.Spawning? && |s.workers| == s.size
    case WorkerReturns(w, _) => WorkerAt(s, w, Running)
    case Report(w) => w < |s.workers| && s.workers[w].MustReport?
    case Cancel(w) => WorkerAt(s, w, MustCancel)
    case CountDown(w) => WorkerAt(s, w, MustCount)
    case CloseDone => !s.pc.Spawning? && AllGone(s) && !s.doneCh
    case SelectParent => s.pc.Selecting? && s.parentDone
    case SelectError => s.pc.Selecting? && s.errCh != []
    case SelectDone => s.pc.Selecting? && s.doneCh
    case SeeDone => s.pc.AwaitDone? && s.doneCh
  }

  function Step(s: State, e: Event): State
    requires Enabled(s, e)
  {
    match e
    case CancelParent => s.(parentDone := true, poolCancelled := true)
    case CallStop => s.(stopClosed := true)
    case Listen => s.(poolCancelled := true)
    case SpawnWorker => s.(workers := s.workers + [Running])
    case BeginSelect => s.(pc := Selecting)
    case WorkerReturns(w, None) => s.(workers := s.workers[w := MustCount])
    case WorkerReturns(w, Some(failure)) =>
      s.(workers := s.workers[w := MustReport(failure)], failures := s.failures[w := failure])
    case Report(w) =>
      if |s.errCh| < s.size then
        s.(workers := s.workers[w := MustCancel], errCh := s.errCh + [FromWorker(w, s.workers[w].failure)])
      else
        s.(workers := s.workers[w := MustCancel], overflowed := true)
    case Cancel(w) => s.(workers := s.workers[w := MustCount], poolCancelled := true)
    case CountDown(w) => s.(workers := s.workers[w := Gone])
    case CloseDone => s.(doneCh := true)
    case SelectParent => s.(pc := AwaitDone(ParentContext), poolCancelled := true)
    case SelectError => s.(pc := AwaitDone(s.errCh[0]), errCh := s.errCh[1..])
    case SelectDone => s.(pc := Returned(None))
    case SeeDone => s.(pc := Returned(Some(s.pc.error)))
  }

  function StepOrStay(s: State, e: Event): State {
    if Enabled(s, e) then Step(s, e) else s
  }

  const SYSTEM: System<State, Event> := System(Enabled, StepOrStay)

  // ---- Invariants ----------------------------------------------------------

  /** The workers whose error is in the channel. */
  ghost function Senders(errCh: seq<Error>): set<nat> {
    set e | e in errCh && e.FromWorker? :: e.worker
  }

  predicate Reported(s: State, w: nat) {
    w < |s.workers| && !s.workers[w].Running? && !s.workers[w].MustReport?
  }

  ghost predicate Genuine(s: State, error: Error) {
    match error
    case ParentContext => s.parentDone
    case FromWorker(w, failure) => w in s.failures && s.failures[w] == failure && Reported(s, w)
  }

  ghost predicate Channel(s: State) {
    && (forall e | e in s.errCh :: e.FromWorker? && Genuine(s, e))
    && (forall i, j | 0 <= i < j < |s.errCh| :: s.errCh[i] != s.errCh[j])
    && !s.overflowed
  }

  ghost predicate Unread(s: State) {
    forall w | w in s.failures && Reported(s, w) :: FromWorker(w, s.failures[w]) in s.errCh
  }

  /** Exactly the failed workers have failed, and one that has to report reports what it returned. */
  ghost predicate Failing(workers: seq<Worker>, failures: map<nat, Failure>) {
    && (forall w | w in failures :: w < |workers| && !workers[w].Running?)
    && (forall w | 0 <= w < |workers| && workers[w].MustReport? :: w in failures && failures[w] == workers[w].failure)
  }

  ghost predicate WorkersInv(s: State) {
    && |s.workers| <= s.size
    && (!s.pc.Spawning? ==> |s.workers| == s.size)
    && Failing(s.workers, s.failures)
  }

  ghost predicate DoneInv(s: State) {
    && (s.doneCh ==> AllGone(s) && !s.pc.Spawning?)
    && (s.pc.Returned? ==> s.doneCh)
  }

  ghost predicate ResultInv(s: State) {
    && (s.pc.AwaitDone? ==> Genuine(s, s.pc.error))
    && (s.pc.Returned? && s.pc.outcome.Some? ==> Genuine(s, s.pc.outcome.value))
    && (s.pc.Spawning? || s.pc.Selecting? || s.pc == Returned(None) ==> Unread(s))
  }

  ghost predicate Inv(s: State) {
    WorkersInv(s) && DoneInv(s) && Channel(s) && ResultInv(s)
  }

  lemma {:induction false} BoundedSetSize(ws: set<nat>, n: nat)
    requires forall w | w in ws :: w < n
    ensures |ws| <= n
  {
    if n > 0 {
      BoundedSetSize(ws - {n - 1}, n - 1);
      assert ws <= (ws - {n - 1}) + {n - 1};
      assert |ws| <= |(ws - {n - 1}) + {n - 1}|;
    } else {
      assert ws == {};
    }
  }

  lemma {:induction false} SendersSize(s: State, errCh: seq<Error>)
    requires forall e | e in errCh :: e.FromWorker? && Genuine(s, e)
    requires forall i, j | 0 <= i < j < |errCh| :: errCh[i] != errCh[j]
    ensures |Senders(errCh)| == |errCh|
  {
    if errCh != [] {
      var n := |errCh| - 1;
      var last := errCh[n];
      SendersSize(s, errCh[..n]);
      assert errCh == errCh[..n] + [last];
      assert last in errCh;
      assert Senders(errCh) == Senders(errCh[..n]) + {last.worker};
      assert Genuine(s, last);
      assert forall e | e in errCh[..n] :: e in errCh && Genuine(s, e);
    }
  }

  /** A worker about to report finds room: the channel holds at most one error of each other worker. */
  lemma RoomToReport(s: State, w: nat)
    requires Inv(s) && w < |s.workers| && s.workers[w].MustReport?
    ensures |s.errCh| < s.size
  {
    SendersSize(s, s.errCh);
    var all := Senders(s.errCh) + {w};
    forall v | v in Senders(s.errCh)
      ensures v < s.size && v != w
    {
      var e :| e in s.errCh && e.FromWorker? && e.worker == v;
      assert Genuine(s, e);
    }
    BoundedSetSize(all, s.size);
  }

  /** Only `WorkerReturns` takes a goroutine out of running. */
  lemma WorkersMove(s: State, e: Event, w: nat)
    requires Enabled(s, e) && w < |Step(s, e).workers| && !Step(s, e).workers[w].Running?
    ensures (w < |s.workers| && !s.workers[w].Running?) || (e.WorkerReturns? && e.w == w)
  {
    match e {
      case WorkerReturns(_, None) =>
      case WorkerReturns(_, Some(_)) =>
      case Report(_) =>
      case Cancel(_) =>
      case CountDown(_) =>
      case _ =>
    }
  }

  /** Only `WorkerReturns` records a failure. */
  lemma FailuresMove(s: State, e: Event)
    requires Enabled(s, e)
    ensures Step(s, e).size == s.size
    ensures Step(s, e).failures
            == if e.WorkerReturns? && e.failure.Some? then s.failures[e.w := e.failure.value] else s.failures
  {
    match e {
      case WorkerReturns(_, None) =>
      case WorkerReturns(_, Some(_)) =>
      case Report(_) =>
      case Cancel(_) =>
      case CountDown(_) =>
      case _ =>
    }
  }

  lemma ReportedStays(s: State, e: Event, w: nat)
    requires Enabled(s, e) && Reported(s, w)
    ensures Reported(Step(s, e), w) && !(e.WorkerReturns? && e.w == w)
  {
  }

  lemma GenuineStays(s: State, e: Event, error: Error)
    requires Enabled(s, e) && Genuine(s, error)
    ensures Genuine(Step(s, e), error)
  {
    if error.FromWorker? {
      ReportedStays(s, e, error.worker);
      FailuresMove(s, e);
    }
  }

  lemma ChannelKept(s: State, e: Event)
    requires Inv(s) && Enabled(s, e)
    ensures Channel(Step(s, e))
  {
    var n := Step(s, e);
    if e.Report? {
      RoomToReport(s, e.w);
      var error := FromWorker(e.w, s.workers[e.w].failure);
      assert error !in s.errCh;
      assert Genuine(n, error);
    }
    forall x | x in n.errCh && x in s.errCh
      ensures x.FromWorker? && Genuine(n, x)
    {
      GenuineStays(s, e, x);
    }
  }

  lemma UnreadKept(s: State, e: Event)
    requires Inv(s) && Enabled(s, e) && Unread(s) && !e.SelectError?
    ensures Unread(Step(s, e))
  {
    if e.Report? {
      RoomToReport(s, e.w);
    }
  }

  lemma WorkerMoves(workers: seq<Worker>, failures: map<nat, Failure>, w: nat, phase: Worker)
    requires Failing(workers, failures) && w < |workers|
    requires !phase.Running? && !phase.MustReport?
    ensures Failing(workers[w := phase], failures)
  {
  }

  lemma WorkerFails(workers: seq<Worker>, failures: map<nat, Failure>, w: nat, failure: Failure)
    requires Failing(workers, failures) && w < |workers|
    ensures Failing(workers[w := MustReport(failure)], failures[w := failure])
  {
  }

  lemma WorkerJoins(workers: seq<Worker>, failures: map<nat, Failure>)
    requires Failing(workers, failures)
    ensures Failing(workers + [Running], failures)
  {
  }

  lemma FailingKept(s: State, e: Event)
    requires Failing(s.workers, s.failures) && Enabled(s, e)
    ensures Failing(Step(s, e).workers, Step(s, e).failures)
  {
    match e {
      case SpawnWorker => WorkerJoins(s.workers, s.failures);
      case WorkerReturns(w, None) => WorkerMoves(s.workers, s.failures, w, MustCount);
      case WorkerReturns(w, Some(failure)) => WorkerFails(s.workers, s.failures, w, failure);
      case Report(w) => WorkerMoves(s.workers, s.failures, w, MustCancel);
      case Cancel(w) => WorkerMoves(s.workers, s.failures, w, MustCount);
      case CountDown(w) => WorkerMoves(s.workers, s.failures, w, Gone);
      case _ =>
    }
  }

  lemma SizesMove(s: State, e: Event)
    requires Enabled(s, e)
    ensures Step(s, e).size == s.size && |Step(s, e).workers| == |s.workers| + Count(e.SpawnWorker?)
  {
    match e {
      case WorkerReturns(_, None) =>
      case WorkerReturns(_, Some(_)) =>
      case Report(_) =>
      case Cancel(_) =>
      case CountDown(_) =>
      case _ =>
    }
  }

  lemma SpawningEnds(s: State, e: Event)
    requires Enabled(s, e)
    ensures Step(s, e).pc.Spawning? <==> s.pc.Spawning? && !e.BeginSelect?
  {
    match e {
      case WorkerReturns(_, None) =>
      case WorkerReturns(_, Some(_)) =>
      case Report(_) =>
      case Cancel(_) =>
      case CountDown(_) =>
      case _ =>
    }
  }

  lemma WorkersKept(s: State, e: Event)
    requires WorkersInv(s) && Enabled(s, e)
    ensures WorkersInv(Step(s, e)) && Step(s, e).size == s.size
  {
    SizesMove(s, e);
    SpawningEnds(s, e);
    FailingKept(s, e);
  }

  lemma DoneKept(s: State, e: Event)
    requires DoneInv(s) && Enabled(s, e)
    ensures DoneInv(Step(s, e))
  {
  }

  lemma ResultKept(s: State, e: Event)
    requires Inv(s) && Enabled(s, e)
    ensures ResultInv(Step(s, e))
  {
    if s.pc.AwaitDone? {
      GenuineStays(s, e, s.pc.error);
    }
    if s.pc.Returned? && s.pc.outcome.Some? {
      GenuineStays(s, e, s.pc.outcome.value);
    }
    if e.SelectError? {
      GenuineStays(s, e, s.errCh[0]);
    } else if Unread(s) {
      UnreadKept(s, e);
    }
  }

  lemma StepKeepsInv(s: State, e: Event)
    requires Inv(s) && Enabled(s, e)
    ensures Inv(Step(s, e)) && Step(s, e).size == s.size
  {
    WorkersKept(s, e);
    DoneKept(s, e);
    ChannelKept(s, e);
    ResultKept(s, e);
  }

  lemma InvIsInductive()
    ensures Inductive(SYSTEM, Inv)
  {
    forall s, e | Inv(s) && Enabled(s, e)
      ensures Inv(StepOrStay(s, e))
    {
      StepKeepsInv(s, e);
    }
  }

  ghost predicate Good(s: State, size: nat) {
    Inv(s) && s.size == size
  }

  lemma Reachable(size: nat, es: seq<Event>)
    requires IsRun(SYSTEM, Initial(size), es)
    ensures Good(After(SYSTEM, Initial(size), es), size)
  {
    var inv := (s: State) => Good(s, size);
    forall s, e | inv(s) && Enabled(s, e)
      ensures inv(Step(s, e))
    {
      StepKeepsInv(s, e);
    }
    Invariant(SYSTEM, inv, Initial(size), es);
  }

  // ---- Theorems ------------------------------------------------------------

  /**
   `Start` returns only when every worker has drained; no error is ever turned
   away from the channel; an error it returns is the parent context's or one a
   worker returned; and when it returns nil, every worker error is still lying
   unread in the channel.
   */
  lemma PoolReturns(size: nat, es: seq<Event>)
    requires IsRun(SYSTEM, Initial(size), es)
    ensures
      var s := After(SYSTEM, Initial(size), es);
      && !s.overflowed
      && (s.pc.Returned? ==> AllGone(s) && |s.workers| == size)
      && (s.pc.Returned? && s.pc.outcome.Some? ==>
            match s.pc.outcome.value
            case ParentContext => s.parentDone
            case FromWorker(w, failure) => w in s.failures && s.failures[w] == failure)
      && (s.pc == Returned(None) ==> forall w | w in s.failures :: FromWorker(w, s.failures[w]) in s.errCh)
  {
    Reachable(size, es);
  }

  /** `Start` has returned nil although a worker failed. */
  predicate Missed(s: State) {
    s.pc == Returned(None) && s.failures != map[]
  }

  /** The select takes the done channel while an error is waiting. */
  predicate Misses(s: State, e: Event) {
    e == SelectDone && s.errCh != []
  }

  /** When all workers are gone and no error has been taken, an error waits exactly when a worker failed. */
  lemma WaitingMeansFailed(s: State)
    requires Inv(s) && AllGone(s) && Unread(s)
    ensures s.errCh != [] <==> s.failures != map[]
  {
    if s.errCh != [] {
      assert s.errCh[0] in s.errCh && Genuine(s, s.errCh[0]);
    }
    if s.failures != map[] {
      var w :| w in s.failures;
      assert Reported(s, w);
    }
  }

  lemma MissedStays(s: State, e: Event)
    requires Inv(s) && Enabled(s, e) && s.pc.Returned?
    ensures Step(s, e).pc == s.pc && Step(s, e).failures == s.failures
  {
  }

  lemma MissedStep(s: State, e: Event)
    requires Inv(s) && Enabled(s, e)
    ensures Missed(StepOrStay(s, e)) <==> Missed(s) || Misses(s, e)
  {
    if s.pc.Returned? {
      MissedStays(s, e);
    } else if e == SelectDone {
      WaitingMeansFailed(s);
    }
  }

  /**
   Exactly when a failure is missed: `Start` returns nil although a worker failed
   if and only if its select takes the done channel while an error is waiting.
   */
  lemma MissedExactly(size: nat, es: seq<Event>)
    requires IsRun(SYSTEM, Initial(size), es)
    ensures Missed(After(SYSTEM, Initial(size), es)) <==> exists k :: Happens(SYSTEM, Misses, Initial(size), es, k)
  {
    InvIsInductive();
    forall s, e | Inv(s) && Enabled(s, e)
      ensures Missed(StepOrStay(s, e)) <==> Missed(s) || Misses(s, e)
    {
      MissedStep(s, e);
    }
    HoldsExactly(SYSTEM, Inv, Missed, Misses, Initial(size), es);
  }

  // ---- When the pool's context ends ----------------------------------------

  predicate ContextHasEnded(s: State) {
    s.poolCancelled
  }

  /** The parent's context, a Stop, the select's parent case, or a failed worker's goroutine. */
  predicate EndsContext(s: State, e: Event) {
    e.CancelParent? || e.Listen? || e.SelectParent? || e.Cancel?
  }

  lemma ContextStep(s: State, e: Event)
    requires Enabled(s, e)
    ensures StepOrStay(s, e).poolCancelled <==> s.poolCancelled || EndsContext(s, e)
  {
    match e {
      case WorkerReturns(_, None) =>
      case WorkerReturns(_, Some(_)) =>
      case Report(_) =>
      case _ =>
    }
  }

  /**
   Exactly when the pool's context ends: its parent was cancelled, the listener saw
   Stop, the select took the parent case, or a failed worker's goroutine cancelled it.
   */
  lemma ContextEndsExactly(size: nat, es: seq<Event>)
    requires IsRun(SYSTEM, Initial(size), es)
    ensures After(SYSTEM, Initial(size), es).poolCancelled
            <==> exists k :: Happens(SYSTEM, EndsContext, Initial(size), es, k)
  {
    InvIsInductive();
    forall s, e | Enabled(s, e)
      ensures StepOrStay(s, e).poolCancelled <==> s.poolCancelled || EndsContext(s, e)
    {
      ContextStep(s, e);
    }
    HoldsExactly(SYSTEM, Inv, ContextHasEnded, EndsContext, Initial(size), es);
  }

  /** A failed worker whose goroutine has done its reporting has ended the pool's context. */
  ghost predicate FailureEndsContext(s: State) {
    forall w | w in s.failures && w < |s.workers| && (s.workers[w].MustCount? || s.workers[w].Gone?) :: s.poolCancelled
  }

  lemma FailureEndsContextKept(s: State, e: Event)
    requires Inv(s) && FailureEndsContext(s) && Enabled(s, e)
    ensures FailureEndsContext(StepOrStay(s, e))
  {
    ContextStep(s, e);
    match e {
      case WorkerReturns(_, None) =>
      case WorkerReturns(_, Some(_)) =>
      case Report(_) =>
      case _ =>
    }
  }

  ghost predicate InvWithContext(s: State) {
    Inv(s) && FailureEndsContext(s)
  }

  lemma FailuresEndContext(size: nat, es: seq<Event>)
    requires IsRun(SYSTEM, Initial(size), es)
    ensures FailureEndsContext(After(SYSTEM, Initial(size), es))
  {
    forall s, e | InvWithContext(s) && Enabled(s, e)
      ensures InvWithContext(StepOrStay(s, e))
    {
      StepKeepsInv(s, e);
      FailureEndsContextKept(s, e);
    }
    Invariant(SYSTEM, InvWithContext, Initial(size), es);
  }

  // ---- What the pool's Start returns ---------------------------------------

  ghost function Reporting(error: Error): State -> bool {
    (s: State) => s.pc == AwaitDone(error) || s.pc == Returned(Some(error))
  }

  ghost function Picks(error: Error): (State, Event) -> bool {
    (s: State, e: Event) => if error.ParentContext? then e == SelectParent else e == SelectError && [error] <= s.errCh
  }

  predicate ReturnedNil(s: State) {
    s.pc == Returned(None)
  }

  predicate PicksDone(s: State, e: Event) {
    e == SelectDone
  }

  /** Only the selects and the return itself move `Start` on. */
  lemma PcMoves(s: State, e: Event)
    requires Enabled(s, e)
    ensures StepOrStay(s, e).pc ==
              match e
              case BeginSelect => Selecting
              case SelectParent => AwaitDone(ParentContext)
              case SelectError => AwaitDone(s.errCh[0])
              case SelectDone => Returned(None)
              case SeeDone => Returned(Some(s.pc.error))
              case _ => s.pc
  {
  }

  lemma ReportStep(s: State, e: Event, error: Error)
    requires Channel(s) && Enabled(s, e)
    ensures Reporting(error)(StepOrStay(s, e)) <==> Reporting(error)(s) || Picks(error)(s, e)
    ensures ReturnedNil(StepOrStay(s, e)) <==> ReturnedNil(s) || PicksDone(s, e)
  {
    PcMoves(s, e);
    if e == SelectError {
      assert s.errCh[0] in s.errCh;
    }
  }

  /**
   What the pool's Start returns: the parent context's error exactly when its select
   took the parent case, a worker's error exactly when it received that error first
   from the channel, and nil exactly when it took the done channel.
   */
  lemma StartReturns(size: nat, es: seq<Event>, error: Error)
    requires IsRun(SYSTEM, Initial(size), es)
    ensures
      var s := After(SYSTEM, Initial(size), es);
      && (s.pc == AwaitDone(error) || s.pc == Returned(Some(error))
          <==> exists k :: Happens(SYSTEM, Picks(error), Initial(size), es, k))
      && (s.pc == Returned(None) <==> exists k :: Happens(SYSTEM, PicksDone, Initial(size), es, k))
  {
    InvIsInductive();
    forall s, e | Inv(s) && Enabled(s, e)
      ensures Reporting(error)(StepOrStay(s, e)) <==> Reporting(error)(s) || Picks(error)(s, e)
      ensures ReturnedNil(StepOrStay(s, e)) <==> ReturnedNil(s) || PicksDone(s, e)
    {
      ReportStep(s, e, error);
    }
    HoldsExactly(SYSTEM, Inv, Reporting(error), Picks(error), Initial(size), es);
    HoldsExactly(SYSTEM, Inv, ReturnedNil, PicksDone, Initial(size), es);
  }
}
