/**
 The one-shot broadcast signal: any number of `wait` futures, which check,
 register a listener, check again and park, against any number of `set` calls,
 which swap the flag and, when they flipped it, notify every listener. Each
 access to the flag or the listener list is one step; steps interleave freely.
 */
module RustSignal {
  import opened Runs

  type Id = nat

  datatype Wait =
    | Entered    // called, flag not read yet
    | Checked    // read the flag as clear
    | Listening  // listener registered, flag to be read again
    | Parked     // awaiting the listener
    | Returned

  datatype Setter =
    | Calling
    | MustNotify // flipped the flag, has yet to notify
    | Finished

  /** `listeners` are registered and not notified, `notified` are registered and notified. */
  datatype State = State(
    flag: bool,
    waits: map<Id, Wait>,
    listeners: set<Id>,
    notified: set<Id>,
    setters: map<Id, Setter>)

  const INITIAL := State(false, map[], {}, {}, map[])

  datatype Event =
    | Enter(w: Id)
    | FirstLoad(w: Id)
    | Listen(w: Id)
    | SecondLoad(w: Id)
    | Wake(w: Id)
    | Discard(w: Id)  // the future is dropped before it completes
    | Call(t: Id)
    | Swap(t: Id)
    | Notify(t: Id)

  predicate At(s: State, w: Id, phase: Wait) {
    w in s.waits && s.waits[w] == phase
  }

  predicate SetterAt(s: State, t: Id, phase: Setter) {
    t in s.setters && s.setters[t] == phase
  }

  predicate Enabled(s: State, e: Event) {
    match e
    case Enter(w) => w !in s.waits
    case FirstLoad(w) => At(s, w, Entered)
    case Listen(w) => At(s, w, Checked)
    case SecondLoad(w) => At(s, w, Listening)
    case Wake(w) => At(s, w, Parked) && w in s.notified
    case Discard(w) => w in s.waits
    case Call(t) => t !in s.setters
    case Swap(t) => SetterAt(s, t, Calling)
    case Notify(t) => SetterAt(s, t, MustNotify)
  }

  function Goto(s: State, w: Id, phase: Wait): State {
    s.(waits := s.waits[w := phase])
  }

  function Unlisten(s: State, w: Id): State {
    s.(listeners := s.listeners - {w}, notified := s.notified - {w})
  }

  function Step(s: State, e: Event): State {
    match e
    case Enter(w) => Goto(s, w, Entered)
    case FirstLoad(w) => Goto(s, w, if s.flag then Returned else Checked)
    case Listen(w) => Goto(s, w, Listening).(listeners := s.listeners + {w})
    case SecondLoad(w) => if s.flag then Goto(Unlisten(s, w), w, Returned) else Goto(s, w, Parked)
    case Wake(w) => Goto(Unlisten(s, w), w, Returned)
    case Discard(w) => Unlisten(s, w).(waits := s.waits - {w})
    case Call(t) => s.(setters := s.setters[t := Calling])
    case Swap(t) => s.(flag := true, setters := s.setters[t := if s.flag then Finished else MustNotify])
    case Notify(t) =>
      s.(notified := s.notified + s.listeners, listeners := {}, setters := s.setters[t := Finished])
  }

  const SYSTEM: System<State, Event> := System(Enabled, Step)

  /** Some setter flipped the flag and has not finished notifying. */
  ghost predicate Notifying(s: State) {
    exists t | t in s.setters :: s.setters[t] == MustNotify
  }

  ghost predicate WaitInv(s: State, w: Id)
    requires w in s.waits
  {
    match s.waits[w]
    case Listening => w in s.listeners || w in s.notified
    case Parked => w in s.notified || (w in s.listeners && (!s.flag || Notifying(s)))
    case Returned => s.flag
    case _ => true
  }

  ghost predicate Inv(s: State) {
    && (forall w | w in s.waits :: WaitInv(s, w))
    && (s.notified != {} ==> s.flag)
    && (forall t | t in s.setters && s.setters[t] != Calling :: s.flag)
    && (forall t, u | t in s.setters && u in s.setters && s.setters[t] == s.setters[u] == MustNotify :: t == u)
  }

  lemma StepKeepsInv(s: State, e: Event)
    requires Inv(s) && Enabled(s, e)
    ensures Inv(Step(s, e))
  {
    var n := Step(s, e);
    if Notifying(s) && !e.Notify? {
      var t :| t in s.setters && s.setters[t] == MustNotify;
      assert t in n.setters && n.setters[t] == MustNotify;
    }
    if e.Swap? && !s.flag {
      assert n.setters[e.t] == MustNotify;
    }
    forall w | w in n.waits
      ensures WaitInv(n, w)
    {
      if w in s.waits {
        assert WaitInv(s, w);
      }
    }
  }

  lemma Reachable(es: seq<Event>)
    requires IsRun(SYSTEM, INITIAL, es)
    ensures Inv(After(SYSTEM, INITIAL, es))
  {
    forall s, e | Inv(s) && Enabled(s, e)
      ensures Inv(Step(s, e))
    {
      StepKeepsInv(s, e);
    }
    Invariant(SYSTEM, Inv, INITIAL, es);
  }

  /**
   No lost wake-up: once the flag is set and the setter that flipped it has
   finished, no wait is parked on a listener that was not notified. There is at
   most one such setter, and no wait ever returns before the flag is set.
   */
  lemma NoLostWakeup(es: seq<Event>)
    requires IsRun(SYSTEM, INITIAL, es)
    ensures
      var s := After(SYSTEM, INITIAL, es);
      && (s.flag && !Notifying(s) ==> forall w | At(s, w, Parked) :: w in s.notified)
      && (forall t, u | SetterAt(s, t, MustNotify) && SetterAt(s, u, MustNotify) :: t == u)
      && (forall w | At(s, w, Returned) :: s.flag)
  {
    Reachable(es);
    var s := After(SYSTEM, INITIAL, es);
    assert forall w | w in s.waits :: WaitInv(s, w);
  }

  /** The steps wait `w` still has to take once the flag is set. */
  function OwnSteps(s: State, w: Id): seq<Event>
    requires w in s.waits
  {
    match s.waits[w]
    case Entered => [FirstLoad(w)]
    case Checked => [Listen(w), SecondLoad(w)]
    case Listening => [SecondLoad(w)]
    case Parked => [Wake(w)]
    case Returned => []
  }

  /** From then on every wait can return by at most two steps of its own, needing nobody else. */
  lemma WaitsReturnAlone(es: seq<Event>, w: Id)
    requires IsRun(SYSTEM, INITIAL, es)
    requires
      var s := After(SYSTEM, INITIAL, es);
      s.flag && !Notifying(s) && w in s.waits
    ensures
      var s := After(SYSTEM, INITIAL, es);
      IsRun(SYSTEM, s, OwnSteps(s, w)) && At(After(SYSTEM, s, OwnSteps(s, w)), w, Returned)
  {
    NoLostWakeup(es);
    var s := After(SYSTEM, INITIAL, es);
    if At(s, w, Parked) {
      assert w in s.notified;
    }
    if At(s, w, Checked) {
      var own := OwnSteps(s, w);
      var n := Step(s, own[0]);
      assert own[1..] == [SecondLoad(w)];
      assert IsRun(SYSTEM, n, own[1..]);
      assert After(SYSTEM, n, own[1..]) == Step(n, own[1]);
    }
  }
}
