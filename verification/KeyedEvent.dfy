/** The rendezvous that every lock sleeps on: a waiter that times out has to take itself off the
    count before it may leave, and a releaser meets as many waiters as it has taken off. */
module KeyedEvent {
  import opened Wrappers
  import opened AtomicWord

  /** How a kernel wait ends, and how sleeping ends. */
  datatype Waited = Met(elapsed: nat) | TimedOut
  datatype Slept = Notified(elapsed: nat) | Left(result: int)

  /** How a call came to its end: in its own attempt, or by leaving once a wait had timed out;
      the word that this found; and how long the call had slept in waits that ended otherwise. */
  datatype Ending<+W> = Tried(at: W, slept: nat) | HadLeft(at: W, slept: nat)

  /** What a lock makes of the rendezvous, from the point of view of one thread. */
  datatype Rendezvous<!T, !E, !W> = Rendezvous(
    meet: (nat, nat, nat) -> E,             // the waiter, the releaser, and how long it took
    expire: E,                              // the kernel wait times out
    settle: E,                              // the look at the count after that
    leave: W -> Decision<W, Option<int>>,   // what that look decides: the result, or to stay
    asleep: T -> bool,                      // in the kernel wait
    timed: T -> bool,                       // in a wait that has a time limit
    awake: (T, nat) -> T,                   // a sleeper that has been released
    late: T -> T,                           // a sleeper whose time is over
    back: T -> T,                           // a sleeper that has to stay
    gone: (T, int) -> T,                    // a sleeper that has left
    owing: (T, nat) -> T)                   // a thread with so many releases to make

  /** Meeting and timing out do to a sleeper what the rendezvous says, and only a sleeper with a
      time limit times out. */
  ghost predicate WaitLaws<S(!new), T(!new), E(!new), W(!new)>(
    m: Machine<S, T, E, W>, k: Rendezvous<T, E, W>, me: nat)
  {
    && (forall s, u, d :: m.fits(s) && m.enabled(s, k.meet(me, u, d)) ==>
                            m.mine(m.apply(s, k.meet(me, u, d))) == k.awake(m.mine(s), d))
    && (forall s :: m.fits(s) && m.enabled(s, k.expire) ==>
                      k.timed(m.mine(s)) && m.mine(m.apply(s, k.expire)) == k.late(m.mine(s)))
    && (forall t, u, d :: !m.entry(k.meet(t, u, d)))
    && !m.entry(k.expire) && !m.entry(k.settle)
  }

  /** A timed-out sleeper leaves, or goes back to the same wait. */
  ghost predicate SettleLaws<S(!new), T(!new), E(!new), W(!new)>(
    m: Machine<S, T, E, W>, k: Rendezvous<T, E, W>)
  {
    && (forall t :: k.asleep(t) ==>
                      m.own(k.late(t), k.settle) && k.asleep(k.back(t)) && k.late(k.back(t)) == k.late(t))
    && (forall t, d :: k.asleep(t) ==> k.awake(k.back(t), d) == k.awake(t, d))
    && (forall t, w :: k.asleep(t) ==>
                         m.after(w, k.late(t), k.settle) ==
                         (Outcome(w, k.leave(w)),
                          match k.leave(w).result case Some(r) => k.gone(t, r) case None => k.back(t)))
  }

  /** Each meeting takes one off what a releaser owes. */
  ghost predicate ReleaseLaws<S(!new), T(!new), E(!new), W(!new)>(
    m: Machine<S, T, E, W>, k: Rendezvous<T, E, W>, me: nat)
  {
    && (forall s, t, d, b, n: nat :: m.fits(s) && t != me && n > 0 && m.mine(s) == k.owing(b, n)
                                     && m.enabled(s, k.meet(t, me, d)) ==>
                                       m.mine(m.apply(s, k.meet(t, me, d))) == k.owing(b, n - 1))
    && (forall t, u, d :: !m.entry(k.meet(t, u, d)))
  }

  /** The kernel wait. */
  method Wait<S(!new), T(!new), E(!new), W(!new, ==)>(world: World<S, T, E, W>, k: Rendezvous<T, E, W>)
    returns (status: Option<Waited>)
    requires world.Valid() && WaitLaws(world.machine, k, world.me)
    modifies world
    ensures world.Valid() && world.Calls() == old(world.Calls())
    ensures old(world.history) <= world.history && old(world.Steps()) <= world.Steps()
    ensures status.None? ==> world.turns == []
    ensures status.Some? ==> |world.turns| < |old(world.turns)|
    ensures status.Some? ==>
              match status.value
              case Met(d) => world.Mine() == k.awake(old(world.Mine()), d)
              case TimedOut => world.Mine() == k.late(old(world.Mine())) && k.timed(old(world.Mine()))
  {
    while true
      invariant world.Valid() && world.Mine() == old(world.Mine()) && world.Calls() == old(world.Calls())
      invariant old(world.history) <= world.history && world.Steps() == old(world.Steps())
      invariant |world.turns| <= |old(world.turns)|
      decreases |world.turns|
    {
      var turn := world.Begin();
      if turn.None? {
        return None;
      }
      var meet := k.meet(world.me, turn.value.partner, turn.value.elapsed);
      if world.machine.enabled(world.state, meet) {
        world.Step(meet);
        return Some(Met(turn.value.elapsed));
      }
      if world.machine.enabled(world.state, k.expire) {
        world.Step(k.expire);
        return Some(TimedOut);
      }
    }
  }

  /** A thread `t` has left with the result `r`: it found the word `at`, which allowed that. */
  ghost predicate HasLeft<S(!new), T(!new), E(!new), W(!new)>(
    world: World<S, T, E, W>, k: Rendezvous<T, E, W>, t: T, r: int, at: W)
    reads world
  {
    && world.Mine() == k.gone(t, r)
    && k.leave(at).result == Some(r)
    && world.machine.word(world.state) == Outcome(at, k.leave(at))
    && world.Found(at)
  }

  /** The look at the count after a timeout: it returns the result with which the sleeper
      `sleeper` leaves, or nothing if that has to stay. */
  method Settle<S(!new), T(!new), E(!new), W(!new, ==)>(
    world: World<S, T, E, W>, k: Rendezvous<T, E, W>, ghost sleeper: T)
    returns (result: Option<Option<int>>, ghost at: W)
    requires world.Valid() && SettleLaws(world.machine, k) && !world.machine.entry(k.settle)
    requires k.asleep(sleeper) && world.Mine() == k.late(sleeper)
    modifies world
    ensures world.Valid() && world.Calls() == old(world.Calls())
    ensures old(world.history) <= world.history && old(world.Steps()) <= world.Steps()
    ensures result.None? ==> world.turns == []
    ensures result.Some? ==> |world.turns| < |old(world.turns)|
    ensures result == Some(None) ==> world.Mine() == k.back(sleeper)
    ensures result.Some? && result.value.Some? ==> HasLeft(world, k, sleeper, result.value.value, at)
  {
    result, at := world.Retry(k.settle, k.leave);
  }

  /** Sleeping, until a release has come or the thread has taken itself off the count. */
  method Sleep<S(!new), T(!new), E(!new), W(!new, ==)>(world: World<S, T, E, W>, k: Rendezvous<T, E, W>)
    returns (slept: Option<Slept>, ghost at: W)
    requires world.Valid() && k.asleep(world.Mine())
    requires WaitLaws(world.machine, k, world.me) && SettleLaws(world.machine, k)
    modifies world
    ensures world.Valid() && world.Calls() == old(world.Calls())
    ensures old(world.history) <= world.history && old(world.Steps()) <= world.Steps()
    ensures slept.None? ==> world.turns == []
    ensures slept.Some? ==> |world.turns| < |old(world.turns)|
    ensures slept.Some? ==>
              match slept.value
              case Notified(d) => world.Mine() == k.awake(old(world.Mine()), d)
              case Left(r) => HasLeft(world, k, old(world.Mine()), r, at) && k.timed(old(world.Mine()))
  {
    at := world.machine.word(world.state);
    ghost var sleeper := world.Mine();
    var status := Wait(world, k);
    while status.Some? && status.value.TimedOut?
      invariant world.Valid() && world.Calls() == old(world.Calls())
      invariant old(world.history) <= world.history && old(world.Steps()) <= world.Steps()
      invariant status.None? ==> world.turns == []
      invariant status.Some? ==> |world.turns| < |old(world.turns)|
      invariant status.Some? && status.value.Met? ==> world.Mine() == k.awake(sleeper, status.value.elapsed)
      invariant status.Some? && status.value.TimedOut? ==> world.Mine() == k.late(sleeper) && k.timed(sleeper)
      decreases |world.turns|
    {
      var result, seen := Settle(world, k, sleeper);
      if result.None? {
        return None, at;
      }
      if result.value.Some? {
        return Some(Left(result.value.value)), seen;
      }
      status := Wait(world, k);
    }
    slept := if status.None? then None else Some(Notified(status.value.elapsed));
  }

  /** Releases waiters one at a time. */
  method BatchRelease<S(!new), T(!new), E(!new), W(!new, ==)>(
    world: World<S, T, E, W>, k: Rendezvous<T, E, W>, count: nat, ghost base: T)
    returns (done: bool)
    requires world.Valid() && ReleaseLaws(world.machine, k, world.me)
    requires world.Mine() == k.owing(base, count)
    modifies world
    ensures world.Valid() && world.Calls() == old(world.Calls()) && old(world.history) <= world.history
    ensures if done then world.Mine() == k.owing(base, 0) else world.turns == []
    ensures count == 0 ==> done
  {
    var remaining: nat := count;
    while remaining != 0
      invariant world.Valid() && world.Calls() == old(world.Calls()) && old(world.history) <= world.history
      invariant world.Mine() == k.owing(base, remaining) && remaining <= count
      decreases |world.turns|
    {
      var turn := world.Begin();
      if turn.None? {
        return false;
      }
      var meet := k.meet(turn.value.partner, world.me, turn.value.elapsed);
      if turn.value.partner != world.me && world.machine.enabled(world.state, meet) {
        world.Step(meet);
        remaining := remaining - 1;
      }
    }
    return true;
  }
}
