/** The condition variable as the loops that one thread runs, proved to take only steps of the
    machine in `Cond` while any other threads do the same. */
module CondCode {
  import opened Wrappers
  import opened AtomicWord
  import opened KeyedEvent
  import opened Timeouts
  import opened Cond

  /** An event that thread `me` has no part in. */
  predicate Foreign(e: Event, me: nat)
  {
    e.t != me && (e.Meet? ==> e.u != me)
  }

  /** The same event of the thread with index 0. */
  function AsFirst(e: Event): Event { e.(t := 0) }

  /** A system with one thread: the steps that a thread takes by itself look at nothing else. */
  function Alone(w: nat, th: Pc, cap: nat): State { State(w, [th], cap, 0, 0, 0, 0) }

  predicate CanStep(th: Pc, e: Event)
  {
    !e.Meet? && Enabled(Alone(0, th, 1), AsFirst(e))
  }

  /** What a step makes of the word and of the thread. */
  function After(w: nat, th: Pc, e: Event, cap: nat): (nat, Pc)
    requires cap > 0 && CanStep(th, e)
  {
    var next := Apply(Alone(w, th, cap), AsFirst(e));
    (next.nsleep, next.threads[0])
  }

  /** The events that begin an operation. */
  predicate IsEntry(e: Event) { e.Enter? || e.Signal? }

  /** The machine as thread `me` sees it. */
  function MachineOf(me: nat, cap: nat): Machine<State, Pc, Event, nat>
    requires cap > 0
  {
    Machine(
      (s: State, e: Event) => Enabled(s, e),
      (s: State, e: Event) => if Enabled(s, e) then Apply(s, e) else s,
      (s: State) => me < |s.threads| && s.cap == cap,
      (e: Event) => Foreign(e, me),
      (e: Event) => IsEntry(e),
      (th: Pc, e: Event) => e.t == me && CanStep(th, e),
      (s: State) => s.nsleep,
      (s: State) => if me < |s.threads| then s.threads[me] else Idle(0),
      (w: nat, th: Pc, e: Event) => if CanStep(th, e) then After(w, th, e, cap) else (w, th))
  }

  lemma StepIsLocal(s: State, e: Event)
    requires e.t < |s.threads| && s.cap > 0 && CanStep(s.threads[e.t], e)
    ensures Enabled(s, e)
    ensures var (w, th) := After(s.nsleep, s.threads[e.t], e, s.cap);
            Apply(s, e).nsleep == w && Apply(s, e).threads == s.threads[e.t := th]
  {
  }

  lemma StepSize(s: State, e: Event, me: nat)
    requires Enabled(s, e) && me < |s.threads|
    ensures |Apply(s, e).threads| == |s.threads| && Apply(s, e).cap == s.cap
    ensures Foreign(e, me) ==> Apply(s, e).threads[me] == s.threads[me]
  {
  }

  lemma MachineIsLawful(me: nat, cap: nat)
    requires cap > 0
    ensures Lawful(MachineOf(me, cap))
  {
    var m := MachineOf(me, cap);
    forall s, e | m.fits(s) && m.enabled(s, e)
      ensures m.fits(m.apply(s, e)) && (m.foreign(e) ==> m.mine(m.apply(s, e)) == m.mine(s))
    {
      StepSize(s, e, me);
    }
    forall s, e | m.fits(s) && m.own(m.mine(s), e)
      ensures m.enabled(s, e)
      ensures m.after(m.word(s), m.mine(s), e) == (m.word(m.apply(s, e)), m.mine(m.apply(s, e)))
    {
      StepIsLocal(s, e);
    }
  }

  /** A run of the machine as a thread sees it is a run of the condition variable. */
  lemma {:induction false} ReplayIsExecution(me: nat, cap: nat, s: State, es: seq<Event>)
    requires cap > 0
    ensures Replay(MachineOf(me, cap), s, es) == Execute(s, es)
  {
    if es != [] {
      ReplayIsExecution(me, cap, s, es[..|es| - 1]);
    }
  }

  type Shared = World<State, Pc, Event, nat>

  /** The world is that of the condition variable, and all that has happened is a run of the machine. */
  ghost predicate Ready(world: Shared)
    reads world
  {
    world.cap > 0 && world.Valid() && world.machine == MachineOf(world.me, world.cap)
  }

  // ---------------------------------------------------------------- the rendezvous

  /** What waking up and running out of time make of a sleeping thread. */
  function Awake(th: Pc, elapsed: nat): Pc { Relocking(0) }

  function TooLate(th: Pc): Pc
    requires th.Asleep?
  {
    Expired(th.quad)
  }

  /** What the keyed event does to a thread. */
  function RendezvousOf(me: nat, cap: nat): Rendezvous<Pc, Event, nat>
    requires cap > 0
  {
    Rendezvous(
      (t: nat, u: nat, d: nat) => Meet(t, u),
      Expire(me),
      Settle(me),
      (w: nat) => LeaveDecision(w, cap),
      (th: Pc) => th.Asleep?,
      (th: Pc) => th.Asleep? && (th.zero || th.quad != INT64_MAX),
      (th: Pc, d: nat) => if th.Asleep? then Awake(th, d) else th,
      (th: Pc) => if th.Asleep? then TooLate(th) else th,
      (th: Pc) => if th.Asleep? then th.(zero := true) else th,
      (th: Pc, r: int) => Relocking(r),
      (th: Pc, n: nat) => if th.Idle? && th.result >= 0 then AfterRelease(n, th.result) else Idle(0))
  }

  lemma SettleAfter(w: nat, th: Pc, me: nat, cap: nat)
    requires cap > 0 && th.Asleep?
    ensures var k := RendezvousOf(me, cap);
            && CanStep(TooLate(th), Settle(me))
            && After(w, TooLate(th), Settle(me), cap) ==
               (Outcome(w, k.leave(w)),
                match k.leave(w).result case Some(r) => k.gone(th, r) case None => k.back(th))
  {
  }

  lemma MeetAfter(s: State, e: Event)
    requires Enabled(s, e) && e.Meet?
    ensures e.u < |s.threads| && e.u != e.t
    ensures s.threads[e.t].Asleep? && Apply(s, e).threads[e.t] == Awake(s.threads[e.t], 0)
    ensures s.threads[e.u].Releasing?
    ensures Apply(s, e).threads[e.u] == AfterRelease(s.threads[e.u].wake - 1, s.threads[e.u].claimed)
  {
  }

  lemma WaitIsLawful(me: nat, cap: nat)
    requires cap > 0
    ensures WaitLaws(MachineOf(me, cap), RendezvousOf(me, cap), me)
  {
    var m, k := MachineOf(me, cap), RendezvousOf(me, cap);
    forall s, u, d | m.fits(s) && m.enabled(s, k.meet(me, u, d))
      ensures m.mine(m.apply(s, k.meet(me, u, d))) == k.awake(m.mine(s), d)
    {
      MeetAfter(s, k.meet(me, u, d));
    }
  }

  lemma SettleIsLawful(me: nat, cap: nat)
    requires cap > 0
    ensures SettleLaws(MachineOf(me, cap), RendezvousOf(me, cap))
  {
    var m, k := MachineOf(me, cap), RendezvousOf(me, cap);
    forall th, w | k.asleep(th)
      ensures m.own(k.late(th), k.settle)
      ensures m.after(w, k.late(th), k.settle) ==
              (Outcome(w, k.leave(w)),
               match k.leave(w).result case Some(r) => k.gone(th, r) case None => k.back(th))
    {
      SettleAfter(w, th, me, cap);
    }
  }

  lemma ReleaseIsLawful(me: nat, cap: nat)
    requires cap > 0
    ensures ReleaseLaws(MachineOf(me, cap), RendezvousOf(me, cap), me)
  {
    var m, k := MachineOf(me, cap), RendezvousOf(me, cap);
    forall s, t, d, b, n: nat | m.fits(s) && t != me && n > 0 && m.mine(s) == k.owing(b, n)
                                && m.enabled(s, k.meet(t, me, d))
      ensures m.mine(m.apply(s, k.meet(t, me, d))) == k.owing(b, n - 1)
    {
      MeetAfter(s, k.meet(t, me, d));
    }
  }

  // ---------------------------------------------------------------- the code

  /** One retry loop of the source. */
  method Loop<R>(world: Shared, e: Event, decide: nat -> Decision<nat, R>)
    returns (result: Option<R>, ghost at: nat)
    requires Ready(world) && e.t == world.me && CanStep(world.Mine(), e)
    requires forall w :: After(w, world.Mine(), e, world.cap).0 == Outcome(w, decide(w))
    modifies world
    ensures Ready(world)
    ensures result.None? ==> world.turns == [] && |old(world.turns)| <= 1 + Disturbed(old(world.turns))
    ensures result.Some? && Disturbed(old(world.turns)) == 0 ==> at == old(world.state.nsleep)
    ensures result.Some? ==>
              && world.Found(at) && |world.turns| < |old(world.turns)|
              && result.value == decide(at).result
              && (world.state.nsleep, world.Mine()) == After(at, old(world.Mine()), e, world.cap)
              && world.Calls() == old(world.Calls()) + (if IsEntry(e) then [e] else [])
              && world.Steps() == old(world.Steps()) + [e]
              && TookStep(world.machine, world.origin, old(world.history), world.history, e, at)
  {
    result, at := world.Retry(e, decide);
  }

  /** A step that involves nobody else and does not look at the count. */
  method StepAlone(world: Shared, e: Event)
    requires Ready(world) && e.t == world.me && CanStep(world.Mine(), e)
    requires e.Unlocked? || e.Expire? || e.Relocked? || (e.Signal? && e.limit == 0)
    modifies world`state, world`history
    ensures Ready(world)
    ensures world.Calls() == old(world.Calls()) + if e.Signal? then [e] else []
    ensures world.Steps() == old(world.Steps()) + [e]
    ensures world.Mine() == match e
                            case Unlocked(_) => Asleep(old(world.Mine()).quad, old(world.Mine()).quad == 0)
                            case Expire(_) => Expired(old(world.Mine()).quad)
                            case Relocked(_) => Idle(old(world.Mine()).err)
                            case _ => Idle(0)
  {
    world.Step(e);
  }

  /** Sleeping: true once a release has come, false once the thread has taken itself off the
      count. */
  method SleepLoop(world: Shared) returns (met: Option<bool>)
    requires Ready(world) && world.Mine().Asleep?
    requires world.Mine().zero ==> world.Mine().quad != INT64_MAX
    modifies world
    ensures Ready(world) && world.Calls() == old(world.Calls()) && old(world.Steps()) <= world.Steps()
    ensures met.None? ==> world.turns == []
    ensures met.Some? ==> world.Mine() == Relocking(if met.value then 0 else -1)
    ensures met == Some(false) ==> old(world.Mine()).quad != INT64_MAX
  {
    WaitIsLawful(world.me, world.cap);
    SettleIsLawful(world.me, world.cap);
    var slept, at := KeyedEvent.Sleep(world, RendezvousOf(world.me, world.cap));
    met := if slept.None? then None else Some(slept.value.Notified?);
  }

  /** Registers, unlocks and sleeps: true once a release has come, false once the time is over.
      The thread registers itself first, and only then unlocks its mutex, for which the unlock
      callback takes a turn. */
  method UnlockAndWait(world: Shared, msOpt: Option<int>) returns (met: Option<bool>)
    requires Ready(world) && world.Mine().Idle?
    requires msOpt.Some? ==> IsInt64(msOpt.value)
    modifies world
    ensures Ready(world)
    ensures met.None? ==> world.turns == []
    ensures met.Some? ==> world.Calls() == old(world.Calls()) + [Enter(world.me, msOpt)]
    ensures met.Some? ==> old(world.Steps()) + [Enter(world.me, msOpt), Unlocked(world.me)] <= world.Steps()
    ensures met.Some? ==> world.Mine() == Relocking(if met.value then 0 else -1)
    ensures msOpt.None? ==> met != Some(false)
  {
    var cap := world.cap;
    var entered, at := Loop(world, Enter(world.me, msOpt), n => EnterDecision(n, cap));
    if entered.None? {
      return None;
    }
    var unlocking := world.Begin();
    if unlocking.None? {
      return None;
    }
    StepAlone(world, Unlocked(world.me));
    assert world.Steps() == old(world.Steps()) + [Enter(world.me, msOpt), Unlocked(world.me)];
    met := SleepLoop(world);
  }

  /** Waits for a signal: 0 when one has come, -1 when the time is over; the relock callback
      takes a turn.  What the callbacks do to a mutex is in `RecursiveMutex`.  Whatever other
      threads do, all that this thread does are steps of the machine, and without a timeout it
      does not fail. */
  method Wait(world: Shared, msOpt: Option<int>) returns (result: Option<int>)
    requires Ready(world) && world.Mine().Idle?
    requires msOpt.Some? ==> IsInt64(msOpt.value)
    modifies world
    ensures Ready(world)
    ensures result.None? ==> world.turns == []
    ensures result.Some? ==> world.Calls() == old(world.Calls()) + [Enter(world.me, msOpt)]
    ensures result.Some? ==>
              && old(world.Steps()) + [Enter(world.me, msOpt), Unlocked(world.me)] < world.Steps()
              && world.Steps()[|world.Steps()| - 1] == Relocked(world.me)
    ensures result.Some? ==> world.Mine() == Idle(result.value) && (result.value == 0 || result.value == -1)
    ensures msOpt.None? ==> result != Some(-1)
  {
    var met := UnlockAndWait(world, msOpt);
    if met.None? {
      return None;
    }
    var relocking := world.Begin();
    if relocking.None? {
      return None;
    }
    StepAlone(world, Relocked(world.me));
    return Some(if met.value then 0 else -1);
  }

  /** Releases waiters one at a time. */
  method ReleaseAll(world: Shared, count: nat, ghost claimed: nat) returns (done: bool)
    requires Ready(world) && world.Mine() == AfterRelease(count, claimed)
    modifies world
    ensures Ready(world) && world.Calls() == old(world.Calls()) && old(world.history) <= world.history
    ensures if done then world.Mine() == Idle(claimed) else world.turns == []
    ensures count == 0 ==> done
  {
    ReleaseIsLawful(world.me, world.cap);
    done := BatchRelease(world, RendezvousOf(world.me, world.cap), count, Idle(claimed));
  }

  lemma SignalAfter(nsleep: nat, pc: Pc, me: nat, limit: nat, cap: nat)
    requires cap > 0 && limit != 0 && pc.Idle?
    ensures var d := SignalDecision(nsleep, limit, cap);
            After(nsleep, pc, Signal(me, limit), cap) == (Outcome(nsleep, d), AfterRelease(d.result, d.result))
  {
  }

  /** Wakes waiters and says how many: all of those counted at one moment, `at`, but no more than
      `limit`. */
  method SignalSome(world: Shared, limit: nat) returns (count: Option<nat>, ghost at: nat)
    requires Ready(world) && world.Mine().Idle?
    modifies world
    ensures Ready(world)
    ensures count.None? ==> world.turns == []
    ensures count.Some? ==> world.Mine() == Idle(count.value) && count.value <= limit
    ensures count.Some? ==> world.Calls() == old(world.Calls()) + [Signal(world.me, limit)]
    ensures count.Some? && limit > 0 ==>
              && WordWas(world.machine, world.origin, old(world.history), world.history, at)
              && count.value == if at < limit then at else limit
    ensures old(world.Unhindered(2)) && old(world.state.nsleep) == 0 ==> count == Some(0)
  {
    at := 0;
    if limit == 0 {
      StepAlone(world, Signal(world.me, 0));
      return Some(0), at;
    }
    ghost var pc, past := world.Mine(), world.history;
    var cap := world.cap;
    forall n: nat
      ensures After(n, pc, Signal(world.me, limit), cap).0 == Outcome(n, SignalDecision(n, limit, cap))
    {
      SignalAfter(n, pc, world.me, limit, cap);
    }
    var wake;
    wake, at := Loop(world, Signal(world.me, limit), n => SignalDecision(n, limit, cap));
    if wake.None? {
      return None, at;
    }
    SignalAfter(at, pc, world.me, limit, cap);
    ghost var decided := world.history;
    var done := ReleaseAll(world, wake.value, wake.value);
    StepSawWord(world.machine, world.origin, past, decided, world.history, Signal(world.me, limit), at);
    count := if done then wake else None;
  }

  /** The code does what the machine does: every theorem about reachable states holds. */
  lemma WorldIsReachable(world: Shared, n: nat)
    requires Ready(world) && world.origin == Initial(n, world.cap) && n < world.cap
    ensures Reachable(world.state)
  {
    ReplayIsExecution(world.me, world.cap, world.origin, world.history);
  }

  /** From a fresh condition variable: one thread waits, and then signals, whatever the others
      do. */
  method WaitAndSignal(me: nat, count: nat, cap: nat, limit: nat, turns: seq<Turn<Event>>)
    returns (world: Shared, woken: Option<nat>)
    requires me < count < cap
    ensures Ready(world) && Reachable(world.state) && (woken.None? ==> world.turns == [])
    ensures woken.Some? ==> woken.value <= limit && world.Mine() == Idle(woken.value)
    ensures woken.Some? ==> world.Calls() == [Enter(me, None), Signal(me, limit)]
  {
    MachineIsLawful(me, cap);
    world := new World(MachineOf(me, cap), me, cap, Initial(count, cap), turns);
    var result := Wait(world, None);
    if result.Some? {
      ghost var at;
      woken, at := SignalSome(world, limit);
    } else {
      woken := None;
    }
    WorldIsReachable(world, count);
  }
}
