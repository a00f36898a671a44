/**
 The Go pool together with its workers: each goroutine of `GoPool` runs the
 `Start` of a `GoWorker` under the pool's context, and returns what that returned.
 */
module GoPoolWorkers {
  import opened Bytes
  import opened Runs
  import P = GoPool
  import W = GoWorker

  datatype State = State(pool: P.State, inner: seq<W.State>)

  function Initial(size: nat, concurrency: nat): State {
    State(P.Initial(size), seq(size, i => W.Initial(concurrency)))
  }

  datatype Event =
    | OfPool(e: P.Event)
    | OfWorker(w: nat, step: W.Event)

  /**
   What the pool reports for a worker that returned `result`: its error, unless
   that is context.Canceled, which an adapter may return as well as a context.
   */
  predicate Reports(result: Option<W.Error>, failure: Option<W.Error>) {
    failure == None || failure == result
  }

  /** A worker's goroutine returns from `Start` only when that has closed `done`. */
  predicate PoolEnabled(s: State, e: P.Event) {
    && P.Enabled(s.pool, e)
    && (e.WorkerReturns? ==>
          e.w < |s.inner| && s.inner[e.w].pc.Closed? && Reports(s.inner[e.w].result, e.failure))
  }

  /** A spawned worker moves on its own; its context ends with the pool's, and nobody calls its Stop. */
  predicate WorkerEnabled(s: State, w: nat, e: W.Event) {
    && w < |s.pool.workers| && w < |s.inner| && W.Enabled(s.inner[w], e)
    && (e.CancelContext? ==> s.pool.poolCancelled)
    && !e.CallStop? && !e.CloseStop? && !e.StopReturns?
  }

  predicate Enabled(s: State, e: Event) {
    match e
    case OfPool(p) => PoolEnabled(s, p)
    case OfWorker(w, step) => WorkerEnabled(s, w, step)
  }

  function Step(s: State, e: Event): State {
    match e
    case OfPool(p) => s.(pool := P.StepOrStay(s.pool, p))
    case OfWorker(w, step) => if w < |s.inner| then s.(inner := s.inner[w := W.StepOrStay(s.inner[w], step)]) else s
  }

  const SYSTEM: System<State, Event> := System(Enabled, Step)

  // ---- A run of both is a run of the pool ----------------------------------

  function PoolEvents(es: seq<Event>): seq<P.Event> {
    if es == [] then []
    else if es[0].OfPool? then [es[0].e] + PoolEvents(es[1..])
    else PoolEvents(es[1..])
  }

  lemma {:induction false} PoolRun(s: State, es: seq<Event>)
    requires IsRun(SYSTEM, s, es)
    ensures IsRun(P.SYSTEM, s.pool, PoolEvents(es))
    ensures After(P.SYSTEM, s.pool, PoolEvents(es)) == After(SYSTEM, s, es).pool
    decreases |es|
  {
    if es != [] {
      PoolRun(Step(s, es[0]), es[1..]);
      if es[0].OfPool? {
        assert PoolEvents(es)[1..] == PoolEvents(es[1..]);
      }
    }
  }

  // ---- The workers ---------------------------------------------------------

  /** The goroutine of worker `w` goes on only when that has closed `done`, and reports what it returned. */
  predicate Follows(pool: P.State, w: nat, worker: W.State) {
    && (w < |pool.workers| && !pool.workers[w].Running? ==> worker.pc.Closed?)
    && (w in pool.failures ==> worker.pc.Closed? && worker.result == Some(pool.failures[w]))
  }

  /** Worker `w` satisfies `good`, and its goroutine follows it. */
  ghost predicate WorkerInv(s: State, good: W.State -> bool, w: nat)
    requires w < |s.inner|
  {
    good(s.inner[w]) && Follows(s.pool, w, s.inner[w])
  }

  ghost predicate Inv(s: State, good: W.State -> bool) {
    |s.inner| == s.pool.size && forall w | 0 <= w < |s.inner| :: WorkerInv(s, good, w)
  }

  lemma ClosedStays(s: W.State, e: W.Event)
    requires W.Enabled(s, e) && s.pc.Closed?
    ensures W.StepOrStay(s, e).pc.Closed? && W.StepOrStay(s, e).result == s.result
  {
  }

  lemma WorkerReplaced(s: State, good: W.State -> bool, w: nat, n: W.State)
    requires Inv(s, good) && w < |s.inner| && good(n)
    requires s.inner[w].pc.Closed? ==> n.pc.Closed? && n.result == s.inner[w].result
    ensures Inv(s.(inner := s.inner[w := n]), good)
  {
    var t := s.(inner := s.inner[w := n]);
    assert WorkerInv(s, good, w);
    forall v | 0 <= v < |t.inner|
      ensures WorkerInv(t, good, v)
    {
      assert WorkerInv(s, good, v);
    }
  }

  lemma WorkerStepKeepsInv(s: State, good: W.State -> bool, w: nat, step: W.Event)
    requires Inductive(W.SYSTEM, good) && Inv(s, good) && WorkerEnabled(s, w, step)
    ensures Inv(Step(s, OfWorker(w, step)), good)
  {
    assert WorkerInv(s, good, w);
    assert good(W.SYSTEM.step(s.inner[w], step));
    if s.inner[w].pc.Closed? {
      ClosedStays(s.inner[w], step);
    }
    WorkerReplaced(s, good, w, W.StepOrStay(s.inner[w], step));
  }

  /** What the pool may do to the goroutine of worker `w`. */
  lemma PoolStepKeepsWorker(s: State, good: W.State -> bool, e: P.Event, w: nat)
    requires w < |s.inner| && WorkerInv(s, good, w) && PoolEnabled(s, e)
    ensures WorkerInv(s.(pool := P.Step(s.pool, e)), good, w)
  {
    P.FailuresMove(s.pool, e);
    if w < |P.Step(s.pool, e).workers| && !P.Step(s.pool, e).workers[w].Running? {
      P.WorkersMove(s.pool, e, w);
    }
  }

  lemma PoolStepKeepsInv(s: State, good: W.State -> bool, e: P.Event)
    requires Inv(s, good) && PoolEnabled(s, e)
    ensures Inv(Step(s, OfPool(e)), good)
  {
    var n := Step(s, OfPool(e));
    P.FailuresMove(s.pool, e);
    forall w | 0 <= w < |n.inner|
      ensures WorkerInv(n, good, w)
    {
      PoolStepKeepsWorker(s, good, e, w);
    }
  }

  lemma Reachable(size: nat, concurrency: nat, es: seq<Event>)
    requires IsRun(SYSTEM, Initial(size, concurrency), es)
    ensures Inv(After(SYSTEM, Initial(size, concurrency), es), W.GoodAt(concurrency))
  {
    W.GoodIsInductive(concurrency);
    W.Reachable(concurrency, []);
    GoodIsKept(W.GoodAt(concurrency), Initial(size, concurrency), es);
  }

  lemma GoodIsKept(good: W.State -> bool, s: State, es: seq<Event>)
    requires Inductive(W.SYSTEM, good) && Inv(s, good) && IsRun(SYSTEM, s, es)
    ensures Inv(After(SYSTEM, s, es), good)
  {
    var inv := (s: State) => Inv(s, good);
    forall s, e | inv(s) && Enabled(s, e)
      ensures inv(Step(s, e))
    {
      match e {
        case OfPool(p) => PoolStepKeepsInv(s, good, p);
        case OfWorker(w, step) => WorkerStepKeepsInv(s, good, w, step);
      }
    }
    Invariant(SYSTEM, inv, s, es);
  }

  // ---- Theorems ------------------------------------------------------------

  /**
   The pool drains: when its `Start` has returned, every worker has closed `done`
   and drained: each delivery any of them dispatched was settled exactly once, by
   what its handler returned. A worker's error that the pool returns is the one
   that worker's `Start` returned.
   */
  lemma PoolDrains(size: nat, concurrency: nat, es: seq<Event>)
    requires IsRun(SYSTEM, Initial(size, concurrency), es)
    ensures
      var s := After(SYSTEM, Initial(size, concurrency), es);
      s.pool.pc.Returned? ==>
        && |s.inner| == size
        && (forall w | 0 <= w < size :: s.inner[w].pc.Closed? && W.Drained(s.inner[w]))
        && (s.pool.pc.outcome.Some? && s.pool.pc.outcome.value.FromWorker? ==>
              var error := s.pool.pc.outcome.value;
              error.worker < size && s.inner[error.worker].result == Some(error.failure))
  {
    var s := After(SYSTEM, Initial(size, concurrency), es);
    Reachable(size, concurrency, es);
    PoolRun(Initial(size, concurrency), es);
    P.Reachable(size, PoolEvents(es));
    if s.pool.pc.Returned? {
      P.PoolReturns(size, PoolEvents(es));
      forall w | 0 <= w < size
        ensures s.inner[w].pc.Closed? && W.Drained(s.inner[w])
      {
        assert WorkerInv(s, W.GoodAt(concurrency), w);
        W.ClosedIsDrained(s.inner[w]);
      }
      if s.pool.pc.outcome.Some? && s.pool.pc.outcome.value.FromWorker? {
        assert P.Genuine(s.pool, s.pool.pc.outcome.value);
        assert WorkerInv(s, W.GoodAt(concurrency), s.pool.pc.outcome.value.worker);
      }
    }
  }

  // ---- A failure ends the others -------------------------------------------

  /** The steps worker `w` takes in a run of the pool. */
  function StepsOf(es: seq<Event>, w: nat): seq<W.Event> {
    if es == [] then []
    else if es[0].OfWorker? && es[0].w == w then [es[0].step] + StepsOf(es[1..], w)
    else StepsOf(es[1..], w)
  }

  /** They are a run of that worker. */
  lemma {:induction false} WorkerRun(s: State, es: seq<Event>, w: nat)
    requires IsRun(SYSTEM, s, es) && w < |s.inner|
    ensures |After(SYSTEM, s, es).inner| == |s.inner|
    ensures IsRun(W.SYSTEM, s.inner[w], StepsOf(es, w))
    ensures After(W.SYSTEM, s.inner[w], StepsOf(es, w)) == After(SYSTEM, s, es).inner[w]
    decreases |es|
  {
    if es != [] {
      WorkerRun(Step(s, es[0]), es[1..], w);
      if es[0].OfWorker? && es[0].w == w {
        assert StepsOf(es, w)[1..] == StepsOf(es[1..], w);
      }
    }
  }

  /** Worker `w` has failed, and its goroutine has reported and cancelled. */
  predicate HasFailed(s: State, w: nat) {
    w in s.pool.failures && w < |s.pool.workers| && (s.pool.workers[w].MustCount? || s.pool.workers[w].Gone?)
  }

  /** Once a worker has failed, the context of every other worker that was spawned can end. */
  lemma FailureReachesOthers(size: nat, concurrency: nat, es: seq<Event>, w: nat, other: nat)
    requires IsRun(SYSTEM, Initial(size, concurrency), es)
    requires
      var s := After(SYSTEM, Initial(size, concurrency), es);
      HasFailed(s, w) && other < |s.pool.workers|
    ensures
      var s := After(SYSTEM, Initial(size, concurrency), es);
      other < |s.inner| && Enabled(s, OfWorker(other, W.CancelContext))
  {
    Reachable(size, concurrency, es);
    PoolRun(Initial(size, concurrency), es);
    P.FailuresEndContext(size, PoolEvents(es));
    P.Reachable(size, PoolEvents(es));
  }

  /**
   And it ends there: a worker whose context has ended begins no further poll in any
   continuation of the pool's run, and its loop comes to its wg.Wait within the steps
   left, three for each item a poll under way may still bring.
   */
  lemma CancelledWorkerEnds(size: nat, concurrency: nat, es: seq<Event>, more: seq<Event>, w: nat)
    requires IsRun(SYSTEM, Initial(size, concurrency), es)
    requires
      var s := After(SYSTEM, Initial(size, concurrency), es);
      w < |s.inner| && s.inner[w].ctxDone && IsRun(SYSTEM, s, more)
    ensures
      var s := After(SYSTEM, Initial(size, concurrency), es);
      var n := After(SYSTEM, s, more);
      && |n.inner| == |s.inner|
      && OfWorker(w, W.Poll) !in more
      && (W.WaitBegun(n.inner[w])
          || W.LoopSteps(n.inner[w].pc) + Tally(W.OfLoop, StepsOf(more, w))
             <= W.LoopSteps(s.inner[w].pc) + 3 * (n.inner[w].record.next - s.inner[w].record.next))
  {
    var s := After(SYSTEM, Initial(size, concurrency), es);
    WorkerRun(s, more, w);
    W.EndingBounds(s.inner[w], StepsOf(more, w));
    if OfWorker(w, W.Poll) in more {
      StepOfWorker(more, w, W.Poll);
      assert false;
    }
  }

  lemma {:induction false} StepOfWorker(es: seq<Event>, w: nat, step: W.Event)
    requires OfWorker(w, step) in es
    ensures step in StepsOf(es, w)
  {
    if es[0] != OfWorker(w, step) {
      assert es == [es[0]] + es[1..];
      StepOfWorker(es[1..], w, step);
    }
  }

  // ---- Somebody can always move --------------------------------------------

  /** An event of the pool's own goroutines or of a worker's, and not of a caller. */
  predicate Internal(e: Event) {
    match e
    case OfPool(p) => !p.CancelParent? && !p.CallStop? && !p.Listen?
    case OfWorker(_, step) => W.OfWorker(step)
  }

  ghost predicate CanMove(s: State) {
    exists e :: Internal(e) && Enabled(s, e)
  }

  lemma WorkerMovesPool(s: State, concurrency: nat, w: nat)
    requires Inv(s, W.GoodAt(concurrency)) && concurrency > 0 && w < |s.pool.workers| && w < |s.inner|
    requires s.pool.workers[w] != P.Gone
    ensures CanMove(s)
  {
    assert WorkerInv(s, W.GoodAt(concurrency), w);
    match s.pool.workers[w] {
      case Running =>
        if s.inner[w].pc.Closed? {
          assert Internal(OfPool(P.WorkerReturns(w, None))) && Enabled(s, OfPool(P.WorkerReturns(w, None)));
        } else {
          W.WorkerCanMove(s.inner[w]);
          var step :| W.OfWorker(step) && W.Enabled(s.inner[w], step);
          assert Internal(OfWorker(w, step)) && Enabled(s, OfWorker(w, step));
        }
      case MustReport(_) => assert Internal(OfPool(P.Report(w))) && Enabled(s, OfPool(P.Report(w)));
      case MustCancel => assert Internal(OfPool(P.Cancel(w))) && Enabled(s, OfPool(P.Cancel(w)));
      case MustCount => assert Internal(OfPool(P.CountDown(w))) && Enabled(s, OfPool(P.CountDown(w)));
    }
  }

  /** The step of a pool whose workers are all gone. */
  function LastSteps(p: P.State): P.Event {
    if p.pc.Spawning? then if |p.workers| < p.size then P.SpawnWorker else P.BeginSelect
    else if !p.doneCh then P.CloseDone
    else if p.pc.Selecting? then P.SelectDone
    else P.SeeDone
  }

  /** Until the pool's `Start` has returned, a goroutine of the pool or of a worker can move. */
  lemma NeverStuck(size: nat, concurrency: nat, es: seq<Event>)
    requires concurrency > 0 && IsRun(SYSTEM, Initial(size, concurrency), es)
    ensures
      var s := After(SYSTEM, Initial(size, concurrency), es);
      s.pool.pc.Returned? || CanMove(s)
  {
    var s := After(SYSTEM, Initial(size, concurrency), es);
    Reachable(size, concurrency, es);
    PoolRun(Initial(size, concurrency), es);
    P.Reachable(size, PoolEvents(es));
    if w :| 0 <= w < |s.pool.workers| && s.pool.workers[w] != P.Gone {
      WorkerMovesPool(s, concurrency, w);
    } else if !s.pool.pc.Returned? {
      PoolCanMove(s);
    }
  }

  lemma PoolCanMove(s: State)
    requires P.Inv(s.pool) && !s.pool.pc.Returned?
    requires forall w | 0 <= w < |s.pool.workers| :: s.pool.workers[w] == P.Gone
    ensures CanMove(s)
  {
    var e := LastSteps(s.pool);
    assert Internal(OfPool(e)) && Enabled(s, OfPool(e));
  }

  /** A run in which a worker fails and the pool's `Start` returns nil: the select took the done channel. */
  lemma ErrorCanBeMissed() returns (es: seq<Event>)
    ensures IsRun(SYSTEM, Initial(1, 1), es)
    ensures
      var s := After(SYSTEM, Initial(1, 1), es);
      P.Missed(s.pool) && s.pool.failures == map[0 := W.AdapterError(7)]
      && |s.inner| == 1 && s.inner[0].result == Some(W.AdapterError(7))
  {
    var s0 := Initial(1, 1);
    var s1 := Step(s0, OfPool(P.SpawnWorker));
    var s2 := Step(s1, OfPool(P.BeginSelect));
    assert s2.inner == [W.Initial(1)];
    es := WorkerFails(s2);
    es := Prepend(SYSTEM, s1, OfPool(P.BeginSelect), es);
    es := Prepend(SYSTEM, s0, OfPool(P.SpawnWorker), es);
    assert 0 in After(SYSTEM, s0, es).pool.failures;
  }

  /** The only worker polls once, and the adapter fails. */
  lemma WorkerFails(s: State) returns (es: seq<Event>)
    requires s.inner == [W.Initial(1)] && s.pool.workers == [P.Running] && s.pool.size == 1
    requires s.pool.pc.Selecting? && s.pool.errCh == [] && !s.pool.doneCh && s.pool.failures == map[]
    ensures IsRun(SYSTEM, s, es)
    ensures
      var n := After(SYSTEM, s, es);
      && n.pool.pc == P.Returned(None) && n.pool.failures == map[0 := W.AdapterError(7)]
      && |n.inner| == 1 && n.inner[0].result == Some(W.AdapterError(7))
  {
    var s1 := Step(s, OfWorker(0, W.CallStart));
    var s2 := Step(s1, OfWorker(0, W.Poll));
    var s3 := Step(s2, OfWorker(0, W.PollFails(7)));
    var s4 := Step(s3, OfWorker(0, W.Close));
    es := PoolLooksAway(s4);
    es := Prepend(SYSTEM, s3, OfWorker(0, W.Close), es);
    es := Prepend(SYSTEM, s2, OfWorker(0, W.PollFails(7)), es);
    es := Prepend(SYSTEM, s1, OfWorker(0, W.Poll), es);
    es := Prepend(SYSTEM, s, OfWorker(0, W.CallStart), es);
  }

  /** The error is in the channel when the done channel closes, and the select takes the latter. */
  lemma PoolLooksAway(s: State) returns (es: seq<Event>)
    requires |s.inner| == 1 && s.inner[0].pc.Closed? && s.inner[0].result == Some(W.AdapterError(7))
    requires s.pool.workers == [P.Running] && s.pool.size == 1
    requires s.pool.pc.Selecting? && s.pool.errCh == [] && !s.pool.doneCh && s.pool.failures == map[]
    ensures IsRun(SYSTEM, s, es)
    ensures
      var n := After(SYSTEM, s, es);
      n.pool.pc == P.Returned(None) && n.pool.failures == map[0 := W.AdapterError(7)] && n.inner == s.inner
  {
    var s1 := Step(s, OfPool(P.WorkerReturns(0, Some(W.AdapterError(7)))));
    var s2 := Step(s1, OfPool(P.Report(0)));
    es := WorkerLeaves(s2);
    es := Prepend(SYSTEM, s1, OfPool(P.Report(0)), es);
    es := Prepend(SYSTEM, s, OfPool(P.WorkerReturns(0, Some(W.AdapterError(7)))), es);
  }

  lemma WorkerLeaves(s: State) returns (es: seq<Event>)
    requires s.pool.workers == [P.MustCancel] && s.pool.size == 1 && s.pool.pc.Selecting? && !s.pool.doneCh
    ensures IsRun(SYSTEM, s, es)
    ensures
      var n := After(SYSTEM, s, es);
      n.pool.pc == P.Returned(None) && n.pool.failures == s.pool.failures && n.inner == s.inner
  {
    var s1 := Step(s, OfPool(P.Cancel(0)));
    var s2 := Step(s1, OfPool(P.CountDown(0)));
    es := PoolLeaves(s2);
    es := Prepend(SYSTEM, s1, OfPool(P.CountDown(0)), es);
    es := Prepend(SYSTEM, s, OfPool(P.Cancel(0)), es);
  }

  lemma PoolLeaves(s: State) returns (es: seq<Event>)
    requires s.pool.workers == [P.Gone] && s.pool.size == 1 && s.pool.pc.Selecting? && !s.pool.doneCh
    ensures IsRun(SYSTEM, s, es)
    ensures
      var n := After(SYSTEM, s, es);
      n.pool.pc == P.Returned(None) && n.pool.failures == s.pool.failures && n.inner == s.inner
  {
    var s1 := Step(s, OfPool(P.CloseDone));
    var s2 := Step(s1, OfPool(P.SelectDone));
    es := [];
    es := Prepend(SYSTEM, s1, OfPool(P.SelectDone), es);
    es := Prepend(SYSTEM, s, OfPool(P.CloseDone), es);
  }
}
