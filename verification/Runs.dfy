/** Step systems: states, events with a guard and an effect, and their finite runs in any interleaving. */
module Runs {

  datatype System<!S, !E> = System(enabled: (S, E) -> bool, step: (S, E) -> S)

  /** Every event of `es` is enabled where it happens, starting from `s`. */
  ghost predicate IsRun<S(!new), E(!new)>(sys: System<S, E>, s: S, es: seq<E>) {
    es == [] || (sys.enabled(s, es[0]) && IsRun(sys, sys.step(s, es[0]), es[1..]))
  }

  ghost function After<S, E>(sys: System<S, E>, s: S, es: seq<E>): S {
    if es == [] then s else After(sys, sys.step(s, es[0]), es[1..])
  }

  /** Every enabled event keeps `inv`. */
  ghost predicate Inductive<S(!new), E(!new)>(sys: System<S, E>, inv: S -> bool) {
    forall s, e :: inv(s) && sys.enabled(s, e) ==> inv(sys.step(s, e))
  }

  lemma {:induction false} Invariant<S(!new), E(!new)>(sys: System<S, E>, inv: S -> bool, s: S, es: seq<E>)
    requires Inductive(sys, inv) && inv(s) && IsRun(sys, s, es)
    ensures inv(After(sys, s, es))
    decreases |es|
  {
    if es != [] {
      Invariant(sys, inv, sys.step(s, es[0]), es[1..]);
    }
  }

  /** A run can be cut anywhere into a run and a run from where that one ends. */
  lemma {:induction false} Cut<S(!new), E(!new)>(sys: System<S, E>, s: S, es: seq<E>, k: nat)
    requires IsRun(sys, s, es) && k <= |es|
    ensures IsRun(sys, s, es[..k])
    ensures IsRun(sys, After(sys, s, es[..k]), es[k..])
    ensures After(sys, s, es) == After(sys, After(sys, s, es[..k]), es[k..])
    decreases k
  {
    if k > 0 {
      Cut(sys, sys.step(s, es[0]), es[1..], k - 1);
      assert es[..k][1..] == es[1..][..k - 1];
      assert es[k..] == es[1..][k - 1..];
    } else {
      assert es[..0] == [] && es[0..] == es;
    }
  }

  /** The state in which the event at position `k` happens. */
  lemma StateAt<S(!new), E(!new)>(sys: System<S, E>, s: S, es: seq<E>, k: nat)
    requires IsRun(sys, s, es) && k < |es|
    ensures IsRun(sys, s, es[..k])
    ensures sys.enabled(After(sys, s, es[..k]), es[k])
  {
    Cut(sys, s, es, k);
    assert es[k..][0] == es[k];
  }

  /** The state just after the event at position `k`. */
  lemma StateAfter<S(!new), E(!new)>(sys: System<S, E>, s: S, es: seq<E>, k: nat)
    requires IsRun(sys, s, es) && k < |es|
    ensures After(sys, s, es[..k + 1]) == sys.step(After(sys, s, es[..k]), es[k])
    ensures IsRun(sys, s, es[..k + 1])
  {
    Cut(sys, s, es, k + 1);
    Cut(sys, s, es[..k + 1], k);
    assert es[..k + 1][..k] == es[..k];
    assert es[..k + 1][k..] == [es[k]];
    var t := After(sys, s, es[..k]);
    assert After(sys, t, [es[k]]) == After(sys, sys.step(t, es[k]), [es[k]][1..]);
  }

  /** `quiet` states stay quiet and admit no `bad` event. */
  ghost predicate Quiescent<S(!new), E(!new)>(sys: System<S, E>, quiet: S -> bool, bad: E -> bool) {
    forall s, e :: quiet(s) && sys.enabled(s, e) ==> !bad(e) && quiet(sys.step(s, e))
  }

  lemma {:induction false} NoneWhenQuiet<S(!new), E(!new)>(
    sys: System<S, E>, quiet: S -> bool, bad: E -> bool, s: S, es: seq<E>, k: nat)
    requires Quiescent(sys, quiet, bad) && quiet(s) && IsRun(sys, s, es) && k < |es|
    ensures !bad(es[k])
    decreases k
  {
    if k > 0 {
      NoneWhenQuiet(sys, quiet, bad, sys.step(s, es[0]), es[1..], k - 1);
    }
  }

  /** Once a run has passed a quiet state, no `bad` event happens in it. */
  lemma NoneAfterQuiet<S(!new), E(!new)>(
    sys: System<S, E>, quiet: S -> bool, bad: E -> bool, s: S, es: seq<E>, i: nat, j: nat)
    requires Quiescent(sys, quiet, bad) && IsRun(sys, s, es) && i <= j < |es|
    requires quiet(After(sys, s, es[..i]))
    ensures !bad(es[j])
  {
    Cut(sys, s, es, i);
    NoneWhenQuiet(sys, quiet, bad, After(sys, s, es[..i]), es[i..], j - i);
    assert es[i..][j - i] == es[j];
  }

  /** A run from the state after `e`, with `e` put in front. */
  lemma Prepend<S(!new), E(!new)>(sys: System<S, E>, s: S, e: E, es: seq<E>) returns (longer: seq<E>)
    requires sys.enabled(s, e) && IsRun(sys, sys.step(s, e), es)
    ensures longer == [e] + es && IsRun(sys, s, longer)
    ensures After(sys, s, longer) == After(sys, sys.step(s, e), es)
  {
    longer := [e] + es;
    assert longer[1..] == es;
  }

  // ---- Facts and the events behind them ------------------------------------

  /** `fact` becomes true only by a `cause`. */
  ghost predicate OnlyBy<S(!new), E(!new)>(sys: System<S, E>, fact: S -> bool, cause: E -> bool) {
    forall s, e :: sys.enabled(s, e) && fact(sys.step(s, e)) ==> fact(s) || cause(e)
  }

  /** A fact that does not hold at the start and holds at the end has a cause in the run. */
  lemma {:induction false} Caused<S(!new), E(!new)>(
    sys: System<S, E>, fact: S -> bool, cause: E -> bool, s: S, es: seq<E>)
    requires OnlyBy(sys, fact, cause) && IsRun(sys, s, es) && !fact(s) && fact(After(sys, s, es))
    ensures exists e :: e in es && cause(e)
    decreases |es|
  {
    assert es == [es[0]] + es[1..];
    if fact(sys.step(s, es[0])) {
      assert es[0] in es && cause(es[0]);
    } else {
      Caused(sys, fact, cause, sys.step(s, es[0]), es[1..]);
    }
  }

  /** Under `inv`, every `cause` makes `fact` true, and nothing makes it false again. */
  ghost predicate Lasting<S(!new), E(!new)>(sys: System<S, E>, inv: S -> bool, fact: S -> bool, cause: E -> bool) {
    forall s, e :: inv(s) && sys.enabled(s, e) && (fact(s) || cause(e)) ==> fact(sys.step(s, e))
  }

  lemma {:induction false} Remembered<S(!new), E(!new)>(
    sys: System<S, E>, inv: S -> bool, fact: S -> bool, cause: E -> bool, s: S, es: seq<E>)
    requires Inductive(sys, inv) && Lasting(sys, inv, fact, cause) && IsRun(sys, s, es) && inv(s)
    requires fact(s) || exists e :: e in es && cause(e)
    ensures fact(After(sys, s, es))
    decreases |es|
  {
    if es != [] {
      Remembered(sys, inv, fact, cause, sys.step(s, es[0]), es[1..]);
    }
  }

  /** The event at position `k` of the run from `s` happens where `cause` holds. */
  ghost predicate Happens<S(!new), E(!new)>(
    sys: System<S, E>, cause: (S, E) -> bool, s: S, es: seq<E>, k: nat)
  {
    k < |es| && cause(After(sys, s, es[..k]), es[k])
  }

  /** A cause that looks at the event only happens when that event is in the run. */
  lemma HappensInRun<S(!new), E(!new)>(sys: System<S, E>, s: S, es: seq<E>, event: E, cause: (S, E) -> bool)
    requires forall s, e :: cause(s, e) <==> e == event
    ensures (exists k :: Happens(sys, cause, s, es, k)) <==> event in es
  {
    if event in es {
      var k: nat :| k < |es| && es[k] == event;
      assert Happens(sys, cause, s, es, k);
    }
  }

  /** The first event, or one of the rest. */
  lemma HappensFirstOrLater<S(!new), E(!new)>(sys: System<S, E>, cause: (S, E) -> bool, s: S, es: seq<E>)
    requires es != []
    ensures (exists k :: Happens(sys, cause, s, es, k))
            <==> cause(s, es[0]) || exists k :: Happens(sys, cause, sys.step(s, es[0]), es[1..], k)
  {
    var n, rest := sys.step(s, es[0]), es[1..];
    assert Happens(sys, cause, s, es, 0) <==> cause(s, es[0]) by {
      assert es[..0] == [];
    }
    forall k: nat
      ensures Happens(sys, cause, s, es, k + 1) <==> Happens(sys, cause, n, rest, k)
    {
      if k < |rest| {
        assert es[..k + 1][1..] == rest[..k];
      }
    }
    if k: nat :| Happens(sys, cause, s, es, k) && k > 0 {
      assert Happens(sys, cause, n, rest, k - 1);
    }
  }

  /** Under `inv`, each step makes `fact` true exactly by `cause`, and none makes it false. */
  ghost predicate ExactlyBy<S(!new), E(!new)>(
    sys: System<S, E>, inv: S -> bool, fact: S -> bool, cause: (S, E) -> bool)
  {
    forall s, e :: inv(s) && sys.enabled(s, e) ==> (fact(sys.step(s, e)) <==> fact(s) || cause(s, e))
  }

  /** Then `fact` holds at the end of a run exactly when it held at the start or `cause` held at some event. */
  lemma {:induction false} HoldsExactly<S(!new), E(!new)>(
    sys: System<S, E>, inv: S -> bool, fact: S -> bool, cause: (S, E) -> bool, s: S, es: seq<E>)
    requires Inductive(sys, inv) && ExactlyBy(sys, inv, fact, cause) && inv(s) && IsRun(sys, s, es)
    ensures fact(After(sys, s, es)) <==> fact(s) || exists k :: Happens(sys, cause, s, es, k)
    decreases |es|
  {
    if es != [] {
      HoldsExactly(sys, inv, fact, cause, sys.step(s, es[0]), es[1..]);
      HappensFirstOrLater(sys, cause, s, es);
    }
  }

  /** `fact` holds after the first `j` events. */
  ghost predicate HeldAt<S(!new), E(!new)>(sys: System<S, E>, fact: S -> bool, s: S, es: seq<E>, j: nat) {
    j <= |es| && fact(After(sys, s, es[..j]))
  }

  lemma HeldFirstOrLater<S(!new), E(!new)>(sys: System<S, E>, fact: S -> bool, s: S, es: seq<E>)
    requires es != []
    ensures (exists j :: HeldAt(sys, fact, s, es, j))
            <==> fact(s) || exists j :: HeldAt(sys, fact, sys.step(s, es[0]), es[1..], j)
  {
    var n, rest := sys.step(s, es[0]), es[1..];
    assert HeldAt(sys, fact, s, es, 0) <==> fact(s) by {
      assert es[..0] == [];
    }
    forall j: nat
      ensures HeldAt(sys, fact, s, es, j + 1) <==> HeldAt(sys, fact, n, rest, j)
    {
      if j <= |rest| {
        assert es[..j + 1][1..] == rest[..j];
      }
    }
    if j: nat :| HeldAt(sys, fact, s, es, j) && j > 0 {
      assert HeldAt(sys, fact, n, rest, j - 1);
    }
  }

  /** Under `inv`, `cause` makes `fact` true, and nothing else does; other steps may make it false again. */
  ghost predicate RaisedBy<S(!new), E(!new)>(
    sys: System<S, E>, inv: S -> bool, fact: S -> bool, cause: (S, E) -> bool)
  {
    forall s, e :: inv(s) && sys.enabled(s, e) ==>
      (cause(s, e) ==> fact(sys.step(s, e))) && (fact(sys.step(s, e)) ==> fact(s) || cause(s, e))
  }

  /** Then `fact` holds at some time of a run exactly when it held at the start or `cause` held at some event. */
  lemma {:induction false} HeldExactly<S(!new), E(!new)>(
    sys: System<S, E>, inv: S -> bool, fact: S -> bool, cause: (S, E) -> bool, s: S, es: seq<E>)
    requires Inductive(sys, inv) && RaisedBy(sys, inv, fact, cause) && inv(s) && IsRun(sys, s, es)
    ensures (exists j :: HeldAt(sys, fact, s, es, j)) <==> fact(s) || exists k :: Happens(sys, cause, s, es, k)
    decreases |es|
  {
    if es != [] {
      HeldExactly(sys, inv, fact, cause, sys.step(s, es[0]), es[1..]);
      HappensFirstOrLater(sys, cause, s, es);
      HeldFirstOrLater(sys, fact, s, es);
    } else {
      assert es[..0] == es;
      assert HeldAt(sys, fact, s, es, 0) <==> fact(s);
      assert forall j | HeldAt(sys, fact, s, es, j) :: j == 0;
    }
  }

  // ---- How many steps are left ---------------------------------------------

  /** How many events of `es` satisfy `p`. */
  function Tally<E>(p: E -> bool, es: seq<E>): nat {
    if es == [] then 0 else Count(p(es[0])) + Tally(p, es[1..])
  }

  /** Under `inv`, each event that satisfies `p` takes one off `rank`, and no other event changes it. */
  ghost predicate CountsDown<S(!new), E(!new)>(
    sys: System<S, E>, inv: S -> bool, rank: S -> nat, p: E -> bool)
  {
    forall s, e :: inv(s) && sys.enabled(s, e) ==> rank(s) == rank(sys.step(s, e)) + Count(p(e))
  }

  /** Then `rank` tells how many such events are still to come. */
  lemma {:induction false} RankIsTally<S(!new), E(!new)>(
    sys: System<S, E>, inv: S -> bool, rank: S -> nat, p: E -> bool, s: S, es: seq<E>)
    requires Inductive(sys, inv) && CountsDown(sys, inv, rank, p) && inv(s) && IsRun(sys, s, es)
    ensures rank(s) == rank(After(sys, s, es)) + Tally(p, es)
    decreases |es|
  {
    if es != [] {
      RankIsTally(sys, inv, rank, p, sys.step(s, es[0]), es[1..]);
    }
  }

  /** Under `inv`, until `goal` is reached, which is for good, each event that satisfies `p` takes one off `rank`. */
  ghost predicate FallsUntil<S(!new), E(!new)>(
    sys: System<S, E>, inv: S -> bool, goal: S -> bool, rank: S -> int, p: E -> bool)
  {
    forall s, e :: inv(s) && sys.enabled(s, e) ==>
      goal(sys.step(s, e)) || (!goal(s) && rank(sys.step(s, e)) + Count(p(e)) <= rank(s))
  }

  /** Then `rank` bounds how many such events come before the goal. */
  lemma {:induction false} BoundedUntil<S(!new), E(!new)>(
    sys: System<S, E>, inv: S -> bool, goal: S -> bool, rank: S -> int, p: E -> bool, s: S, es: seq<E>)
    requires Inductive(sys, inv) && FallsUntil(sys, inv, goal, rank, p) && inv(s) && IsRun(sys, s, es)
    ensures goal(After(sys, s, es)) || rank(After(sys, s, es)) + Tally(p, es) <= rank(s)
    decreases |es|
  {
    if es != [] {
      var n := sys.step(s, es[0]);
      BoundedUntil(sys, inv, goal, rank, p, n, es[1..]);
      if goal(n) {
        GoalStays(sys, inv, goal, rank, p, n, es[1..]);
      }
    }
  }

  lemma {:induction false} GoalStays<S(!new), E(!new)>(
    sys: System<S, E>, inv: S -> bool, goal: S -> bool, rank: S -> int, p: E -> bool, s: S, es: seq<E>)
    requires Inductive(sys, inv) && FallsUntil(sys, inv, goal, rank, p) && inv(s) && IsRun(sys, s, es) && goal(s)
    ensures goal(After(sys, s, es))
    decreases |es|
  {
    if es != [] {
      GoalStays(sys, inv, goal, rank, p, sys.step(s, es[0]), es[1..]);
    }
  }

  function Total(ws: seq<nat>): nat {
    if ws == [] then 0 else ws[0] + Total(ws[1..])
  }

  lemma {:induction false} TotalAt(ws: seq<nat>, i: nat, w: nat)
    requires i < |ws|
    ensures Total(ws[i := w]) + ws[i] == Total(ws) + w
  {
    if i == 0 {
      assert ws[i := w][1..] == ws[1..];
    } else {
      assert ws[i := w][1..] == ws[1..][i - 1 := w];
      TotalAt(ws[1..], i - 1, w);
    }
  }

  lemma {:induction false} TotalZero(ws: seq<nat>)
    ensures Total(ws) == 0 <==> forall i | 0 <= i < |ws| :: ws[i] == 0
  {
    if ws != [] {
      TotalZero(ws[1..]);
      assert forall i | 1 <= i < |ws| :: ws[i] == ws[1..][i - 1];
      assert forall i | 0 <= i < |ws[1..]| :: ws[1..][i] == ws[i + 1];
    }
  }

  // ---- What a run adds up to -----------------------------------------------

  /** The sequences `f` gives for the events of a run, one after the other. */
  ghost function Log<S, E, T>(sys: System<S, E>, f: (S, E) -> seq<T>, s: S, es: seq<E>): seq<T> {
    if es == [] then [] else f(s, es[0]) + Log(sys, f, sys.step(s, es[0]), es[1..])
  }

  /** The multisets `f` gives for the events of a run, taken together. */
  ghost function Sum<S, E, T>(sys: System<S, E>, f: (S, E) -> multiset<T>, s: S, es: seq<E>): multiset<T> {
    if es == [] then multiset{} else f(s, es[0]) + Sum(sys, f, sys.step(s, es[0]), es[1..])
  }

  /** Every enabled event moves `total` by what comes in and what goes out. */
  ghost predicate Balanced<S(!new), E(!new), T>(
    sys: System<S, E>, total: S -> multiset<T>, come: (S, E) -> multiset<T>, go: (S, E) -> multiset<T>)
  {
    forall s, e :: sys.enabled(s, e) ==> total(s) + come(s, e) == total(sys.step(s, e)) + go(s, e)
  }

  lemma {:induction false} Conservation<S(!new), E(!new), T>(
    sys: System<S, E>, total: S -> multiset<T>, come: (S, E) -> multiset<T>, go: (S, E) -> multiset<T>,
    s: S, es: seq<E>)
    requires Balanced(sys, total, come, go) && IsRun(sys, s, es)
    ensures total(s) + Sum(sys, come, s, es) == total(After(sys, s, es)) + Sum(sys, go, s, es)
    decreases |es|
  {
    if es != [] {
      var n := sys.step(s, es[0]);
      Conservation(sys, total, come, go, n, es[1..]);
      var c, cs := come(s, es[0]), Sum(sys, come, n, es[1..]);
      var g, gs := go(s, es[0]), Sum(sys, go, n, es[1..]);
      var end := total(After(sys, n, es[1..]));
      assert total(s) + c == total(n) + g;
      calc {
        total(s) + (c + cs);
        total(s) + c + cs;
        total(n) + g + cs;
        total(n) + cs + g;
        end + gs + g;
        end + (g + gs);
      }
    }
  }

  lemma {:induction false} NothingLogged<S(!new), E(!new), T>(
    sys: System<S, E>, f: (S, E) -> seq<T>, s: S, es: seq<E>)
    requires forall s, e :: f(s, e) == []
    ensures Log(sys, f, s, es) == []
    decreases |es|
  {
    if es != [] {
      NothingLogged(sys, f, sys.step(s, es[0]), es[1..]);
    }
  }

  /** A queue on which every enabled event appends some items at the back and takes some from the front. */
  ghost predicate FirstInFirstOut<S(!new), E(!new), T>(
    sys: System<S, E>, queue: S -> seq<T>, put: (S, E) -> seq<T>, take: (S, E) -> seq<T>, allowed: E -> bool)
  {
    forall s, e :: sys.enabled(s, e) && allowed(e) ==> queue(s) + put(s, e) == take(s, e) + queue(sys.step(s, e))
  }

  lemma {:induction false} QueueOrder<S(!new), E(!new), T>(
    sys: System<S, E>, queue: S -> seq<T>, put: (S, E) -> seq<T>, take: (S, E) -> seq<T>, allowed: E -> bool,
    s: S, es: seq<E>)
    requires FirstInFirstOut(sys, queue, put, take, allowed) && IsRun(sys, s, es)
    requires forall e | e in es :: allowed(e)
    ensures queue(s) + Log(sys, put, s, es) == Log(sys, take, s, es) + queue(After(sys, s, es))
    decreases |es|
  {
    if es != [] {
      var n := sys.step(s, es[0]);
      assert allowed(es[0]);
      QueueOrder(sys, queue, put, take, allowed, n, es[1..]);
      var puts, takes := Log(sys, put, n, es[1..]), Log(sys, take, n, es[1..]);
      calc {
        queue(s) + (put(s, es[0]) + puts);
        (queue(s) + put(s, es[0])) + puts;
        (take(s, es[0]) + queue(n)) + puts;
        take(s, es[0]) + (queue(n) + puts);
        take(s, es[0]) + (takes + queue(After(sys, n, es[1..])));
        (take(s, es[0]) + takes) + queue(After(sys, n, es[1..]));
      }
    }
  }

  // ---- Numbering and counting ----------------------------------------------

  /** `count` consecutive numbers, as given to the next items that arrive. */
  function Numbers(first: nat, count: nat): (r: seq<nat>)
    ensures |r| == count && forall i | 0 <= i < count :: r[i] == first + i
  {
    seq(count, i => first + i)
  }

  function Count(b: bool): nat {
    if b then 1 else 0
  }
}
