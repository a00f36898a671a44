/**
 `InFlightPool`: the set of running deliveries and a slot for one waiter. A call
 of `waitForOne` is numbered; its promise is resolved when its number is in
 `resolved`.
 */
module TsPool {
  import opened Bytes

  datatype Pool = Pool(active: set<nat>, waiter: Option<nat>, resolved: set<nat>, next: nat)

  const EMPTY := Pool({}, None, {}, 0)

  function Add(p: Pool, d: nat): Pool {
    p.(active := p.active + {d})
  }

  /** The `finally` callback: leave the set, and resolve the stored waiter if there is one. */
  function Settled(p: Pool, d: nat): Pool {
    var left := p.(active := p.active - {d});
    match p.waiter
    case None => left
    case Some(w) => left.(waiter := None, resolved := p.resolved + {w})
  }

  /** Call number `p.next` of `waitForOne`: resolved at once when nothing runs, else stored over any older waiter. */
  function WaitForOne(p: Pool): Pool {
    if p.active == {} then p.(next := p.next + 1, resolved := p.resolved + {p.next})
    else p.(next := p.next + 1, waiter := Some(p.next))
  }

  ghost predicate Inv(p: Pool) {
    && (forall w | w in p.resolved :: w < p.next)
    && (p.waiter.Some? ==> p.waiter.value < p.next && p.waiter.value !in p.resolved)
  }

  /** Waiter `w` has been resolved, or is the stored one and somebody is running who will resolve it. */
  ghost predicate WillWake(p: Pool, w: nat) {
    w < p.next && (w in p.resolved || (p.waiter == Some(w) && p.active != {}))
  }

  lemma WaitForOneWillWake(p: Pool)
    requires Inv(p)
    ensures Inv(WaitForOne(p)) && WillWake(WaitForOne(p), p.next)
  {
  }

  lemma StillWillWake(p: Pool, d: nat, w: nat)
    requires Inv(p) && WillWake(p, w)
    ensures Inv(Settled(p, d)) && WillWake(Settled(p, d), w)
    ensures WillWake(Add(p, d), w)
  {
  }

  /** The pool as an object. */
  class InFlightPool {
    var active: set<nat>
    var resolveWaiter: Option<nat>
    var resolved: set<nat>
    var next: nat

    ghost function View(): Pool
      reads this
    {
      Pool(active, resolveWaiter, resolved, next)
    }

    constructor ()
      ensures View() == EMPTY && Inv(View())
    {
      active, resolveWaiter, resolved, next := {}, None, {}, 0;
    }

    method Track(d: nat)
      modifies this`active
      ensures View() == Add(old(View()), d)
      ensures old(Inv(View())) ==> Inv(View()) && forall w | old(WillWake(View(), w)) :: WillWake(View(), w)
    {
      active := active + {d};
    }

    method Finally(d: nat)
      modifies this
      ensures View() == Settled(old(View()), d)
      ensures old(Inv(View())) ==> Inv(View()) && forall w | old(WillWake(View(), w)) :: WillWake(View(), w)
      ensures old(resolveWaiter).Some? ==> old(resolveWaiter).value in resolved && resolveWaiter == None
    {
      active := active - {d};
      if resolveWaiter.Some? {
        var resolve := resolveWaiter.value;
        resolveWaiter := None;
        resolved := resolved + {resolve};
      }
    }

    method Wait() returns (w: nat)
      modifies this
      ensures w == old(next) && View() == WaitForOne(old(View()))
      ensures old(Inv(View())) ==> Inv(View()) && WillWake(View(), w)
    {
      w := next;
      next := next + 1;
      if active == {} {
        resolved := resolved + {w};
      } else {
        resolveWaiter := Some(w);
      }
    }
  }
}
