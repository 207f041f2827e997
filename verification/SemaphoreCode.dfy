/** The semaphore as the loops that one thread runs, proved to take only steps of the machine in
    `Semaphore` while any other threads do the same. */
module SemaphoreCode {
  import opened Wrappers
  import opened AtomicWord
  import opened KeyedEvent
  import opened Timeouts
  import opened Semaphore

  /** An event that thread `me` has no part in. */
  predicate Foreign(e: Event, me: nat)
  {
    e.t != me && (e.Meet? ==> e.u != me)
  }

  /** The same event of the thread with index 0. */
  function AsFirst(e: Event): Event { e.(t := 0) }

  /** A system with one thread: the steps that a thread takes by itself look at nothing else. */
  function Alone(w: int, th: Thread, cap: nat): State { State(w, [th], cap, 0) }

  predicate CanStep(th: Thread, e: Event)
  {
    !e.Meet? && Enabled(Alone(0, th, 1), AsFirst(e))
  }

  /** What a step makes of the word and of the thread. */
  function After(w: int, th: Thread, e: Event, cap: nat): (int, Thread)
    requires cap > 0 && CanStep(th, e)
  {
    var next := Apply(Alone(w, th, cap), AsFirst(e));
    (next.value, next.threads[0])
  }

  /** The events that begin an operation. */
  predicate IsEntry(e: Event) { e.Call? || e.Signal? }

  /** The machine as thread `me` sees it. */
  function MachineOf(me: nat, cap: nat): Machine<State, Thread, Event, int>
    requires cap > 0
  {
    Machine(
      (s: State, e: Event) => Enabled(s, e),
      (s: State, e: Event) => if Enabled(s, e) then Apply(s, e) else s,
      (s: State) => me < |s.threads| && s.max == cap,
      (e: Event) => Foreign(e, me),
      (e: Event) => IsEntry(e),
      (th: Thread, e: Event) => e.t == me && CanStep(th, e),
      (s: State) => s.value,
      (s: State) => if me < |s.threads| then s.threads[me] else Thread(Idle(0), 0, 0),
      (w: int, th: Thread, e: Event) => if CanStep(th, e) then After(w, th, e, cap) else (w, th))
  }

  lemma StepIsLocal(s: State, e: Event)
    requires e.t < |s.threads| && s.max > 0 && CanStep(s.threads[e.t], e)
    ensures Enabled(s, e)
    ensures var (w, th) := After(s.value, s.threads[e.t], e, s.max);
            Apply(s, e).value == w && Apply(s, e).threads == s.threads[e.t := th]
  {
  }

  lemma StepSize(s: State, e: Event, me: nat)
    requires Enabled(s, e) && me < |s.threads|
    ensures |Apply(s, e).threads| == |s.threads| && Apply(s, e).max == s.max
    ensures Foreign(e, me) ==> Apply(s, e).threads[me] == s.threads[me]
  {
  }

  lemma MachineIsLawful(me: nat, cap: nat)
    requires cap > 0
    ensures Lawful(MachineOf(me, cap))
  {
    var m := MachineOf(me, cap);
    forall s, e | m.fits(s) && m.enabled(s, e)
      ensures m.fits(m.apply(s, e)) && (m.foreign(e) ==> m.mine(m.apply(s, e)) == m.mine(s))
    {
      StepSize(s, e, me);
    }
    forall s, e | m.fits(s) && m.own(m.mine(s), e)
      ensures m.enabled(s, e)
      ensures m.after(m.word(s), m.mine(s), e) == (m.word(m.apply(s, e)), m.mine(m.apply(s, e)))
    {
      StepIsLocal(s, e);
    }
  }

  /** A run of the machine as a thread sees it is a run of the semaphore. */
  lemma {:induction false} ReplayIsExecution(me: nat, cap: nat, s: State, es: seq<Event>)
    requires cap > 0
    ensures Replay(MachineOf(me, cap), s, es) == Execute(s, es)
  {
    if es != [] {
      ReplayIsExecution(me, cap, s, es[..|es| - 1]);
    }
  }

  type Shared = World<State, Thread, Event, int>

  /** The world is that of the semaphore, and all that has happened is a run of the machine. */
  ghost predicate Ready(world: Shared)
    reads world
  {
    world.cap > 0 && world.Valid() && world.machine == MachineOf(world.me, world.cap)
  }

  // ---------------------------------------------------------------- the rendezvous

  /** What waking up and running out of time make of a sleeping thread. */
  function Awake(th: Thread, elapsed: nat): Thread { WithPermit(th) }

  function TooLate(th: Thread): Thread
    requires th.pc.Asleep?
  {
    th.(pc := Expired(th.pc.quad))
  }

  /** What the keyed event does to a thread. */
  function RendezvousOf(me: nat, cap: nat): Rendezvous<Thread, Event, int>
    requires cap > 0
  {
    Rendezvous(
      (t: nat, u: nat, d: nat) => Meet(t, u),
      Expire(me),
      Settle(me),
      (w: int) => LeaveDecision(w),
      (th: Thread) => th.pc.Asleep?,
      (th: Thread) => th.pc.Asleep? && (th.pc.zero || th.pc.quad != INT64_MAX),
      (th: Thread, d: nat) => if th.pc.Asleep? then Awake(th, d) else th,
      (th: Thread) => if th.pc.Asleep? then TooLate(th) else th,
      (th: Thread) => if th.pc.Asleep? then th.(pc := th.pc.(zero := true)) else th,
      (th: Thread, r: int) => th.(pc := Idle(r)),
      (th: Thread, n: nat) => th.(pc := AfterRelease(n)))
  }

  lemma SettleAfter(w: int, th: Thread, me: nat, cap: nat)
    requires cap > 0 && th.pc.Asleep?
    ensures var k := RendezvousOf(me, cap);
            && CanStep(TooLate(th), Settle(me))
            && After(w, TooLate(th), Settle(me), cap) ==
               (Outcome(w, k.leave(w)),
                match k.leave(w).result case Some(r) => k.gone(th, r) case None => k.back(th))
  {
  }

  lemma MeetAfter(s: State, e: Event)
    requires Enabled(s, e) && e.Meet?
    ensures e.u < |s.threads| && e.u != e.t
    ensures s.threads[e.t].pc.Asleep? && Apply(s, e).threads[e.t] == Awake(s.threads[e.t], 0)
    ensures s.threads[e.u].pc.Releasing?
    ensures Apply(s, e).threads[e.u] == s.threads[e.u].(pc := AfterRelease(s.threads[e.u].pc.wake - 1))
  {
  }

  lemma WaitIsLawful(me: nat, cap: nat)
    requires cap > 0
    ensures WaitLaws(MachineOf(me, cap), RendezvousOf(me, cap), me)
  {
    var m, k := MachineOf(me, cap), RendezvousOf(me, cap);
    forall s, u, d | m.fits(s) && m.enabled(s, k.meet(me, u, d))
      ensures m.mine(m.apply(s, k.meet(me, u, d))) == k.awake(m.mine(s), d)
    {
      MeetAfter(s, k.meet(me, u, d));
    }
  }

  lemma SettleIsLawful(me: nat, cap: nat)
    requires cap > 0
    ensures SettleLaws(MachineOf(me, cap), RendezvousOf(me, cap))
  {
    var m, k := MachineOf(me, cap), RendezvousOf(me, cap);
    forall th, w | k.asleep(th)
      ensures m.own(k.late(th), k.settle)
      ensures m.after(w, k.late(th), k.settle) ==
              (Outcome(w, k.leave(w)),
               match k.leave(w).result case Some(r) => k.gone(th, r) case None => k.back(th))
    {
      SettleAfter(w, th, me, cap);
    }
  }

  lemma ReleaseIsLawful(me: nat, cap: nat)
    requires cap > 0
    ensures ReleaseLaws(MachineOf(me, cap), RendezvousOf(me, cap), me)
  {
    var m, k := MachineOf(me, cap), RendezvousOf(me, cap);
    forall s, t, d, b, n: nat | m.fits(s) && t != me && n > 0 && m.mine(s) == k.owing(b, n)
                                && m.enabled(s, k.meet(t, me, d))
      ensures m.mine(m.apply(s, k.meet(t, me, d))) == k.owing(b, n - 1)
    {
      MeetAfter(s, k.meet(t, me, d));
    }
  }

  // ---------------------------------------------------------------- the code

  /** One retry loop of the source. */
  method Loop<R>(world: Shared, e: Event, decide: int -> Decision<int, R>)
    returns (result: Option<R>, ghost at: int)
    requires Ready(world) && e.t == world.me && CanStep(world.Mine(), e)
    requires forall w :: After(w, world.Mine(), e, world.cap).0 == Outcome(w, decide(w))
    modifies world
    ensures Ready(world)
    ensures result.None? ==> world.turns == [] && |old(world.turns)| <= 1 + Disturbed(old(world.turns))
    ensures result.Some? && Disturbed(old(world.turns)) == 0 ==> at == old(world.state.value)
    ensures result.Some? ==>
              && world.Found(at) && |world.turns| < |old(world.turns)|
              && result.value == decide(at).result
              && (world.state.value, world.Mine()) == After(at, old(world.Mine()), e, world.cap)
              && world.Calls() == old(world.Calls()) + (if IsEntry(e) then [e] else [])
              && TookStep(world.machine, world.origin, old(world.history), world.history, e, at)
  {
    result, at := world.Retry(e, decide);
  }

  /** Sleeping: true once a release has come with a permit, false once the thread has taken
      itself off the count. */
  method SleepLoop(world: Shared) returns (met: Option<bool>, ghost at: int)
    requires Ready(world) && world.Mine().pc.Asleep?
    requires world.Mine().pc.zero ==> world.Mine().pc.quad != INT64_MAX
    modifies world
    ensures Ready(world) && world.Calls() == old(world.Calls())
    ensures met.None? ==> world.turns == []
    ensures met == Some(true) ==> world.Mine() == WithPermit(old(world.Mine()))
    ensures met == Some(false) ==>
              && world.Mine() == old(world.Mine()).(pc := Idle(-1)) && old(world.Mine()).pc.quad != INT64_MAX
              && world.Found(at) && at < 0 && world.state.value == at + 1
  {
    WaitIsLawful(world.me, world.cap);
    SettleIsLawful(world.me, world.cap);
    var slept;
    slept, at := KeyedEvent.Sleep(world, RendezvousOf(world.me, world.cap));
    met := if slept.None? then None else Some(slept.value.Notified?);
  }

  /** Releases waiters one at a time. */
  method ReleaseAll(world: Shared, count: nat) returns (done: bool)
    requires Ready(world) && world.Mine().pc == AfterRelease(count)
    modifies world
    ensures Ready(world) && world.Calls() == old(world.Calls()) && old(world.history) <= world.history
    ensures if done then world.Mine() == old(world.Mine()).(pc := Idle(0)) else world.turns == []
    ensures count == 0 ==> done
  {
    ReleaseIsLawful(world.me, world.cap);
    done := BatchRelease(world, RendezvousOf(world.me, world.cap), count, world.Mine());
  }

  lemma TryWaitAfter(value: int, th: Thread, me: nat, max: nat)
    requires max > 0 && th.pc.Trying?
    ensures var d, (v, th') := WaitDecision(value, th.pc.quad), After(value, th, TryWait(me), max);
            && v == Outcome(value, d)
            && WaitOutcome(value, v, th.pc.quad, d.result)
            && th' == match d.result
                      case Acquired => WithPermit(th)
                      case Refused => th.(pc := Idle(-1))
                      case GoToSleep => th.(pc := Asleep(th.pc.quad, th.pc.quad == 0))
  {
  }

  /** The first loop of a wait. */
  method TryWaitLoop(world: Shared, quad: int) returns (result: Option<WaitResult>, ghost at: int)
    requires Ready(world) && world.Mine().pc == Trying(quad)
    modifies world
    ensures Ready(world)
    ensures result.None? ==> world.turns == [] && |old(world.turns)| <= 1 + Disturbed(old(world.turns))
    ensures result.Some? && Disturbed(old(world.turns)) == 0 ==> at == old(world.state.value)
    ensures result.Some? ==> world.Found(at) && WaitOutcome(at, world.state.value, quad, result.value)
    ensures result.Some? ==> world.Calls() == old(world.Calls())
    ensures result.Some? ==>
              world.Mine() == match result.value
                              case Acquired => WithPermit(old(world.Mine()))
                              case Refused => old(world.Mine()).(pc := Idle(-1))
                              case GoToSleep => old(world.Mine()).(pc := Asleep(quad, quad == 0))
  {
    ghost var th, max := world.Mine(), world.cap;
    forall v
      ensures After(v, th, TryWait(world.me), max).0 == Outcome(v, WaitDecision(v, quad))
    {
      TryWaitAfter(v, th, world.me, max);
    }
    result, at := Loop(world, TryWait(world.me), v => WaitDecision(v, quad));
    TryWaitAfter(at, th, world.me, max);
  }

  /** How a wait ends: it takes a permit if there is one, is refused if there is none and its
      timeout is zero, gets its permit from a releaser, or leaves while a sleeper is counted. */
  datatype WaitEnd = AtOnce(at: int) | ByRelease | ByLeaving(at: int)

  predicate Answers(how: WaitEnd, quad: int, result: int)
  {
    match how
    case AtOnce(at) => if at > 0 then result == 0 else result == -1 && quad == 0
    case ByRelease => result == 0 && quad != 0
    case ByLeaving(at) => result == -1 && at < 0 && quad != 0 && quad != INT64_MAX
  }

  /** A thread whose wait has returned `result`. */
  function Answered(th: Thread, result: int): Thread
  {
    if result == 0 then WithPermit(th) else th.(pc := Idle(result))
  }

  /** Waits for a permit: 0 exactly when this thread has got one, -1 when the time is over.
      Whatever other threads do, all that this thread does are steps of the machine, and without
      a timeout it does not fail. */
  method Wait(world: Shared, msOpt: Option<int>) returns (result: Option<int>, ghost how: WaitEnd)
    requires Ready(world) && world.Mine().pc.Idle?
    requires msOpt.Some? ==> IsInt64(msOpt.value)
    modifies world
    ensures Ready(world)
    ensures result.None? ==> world.turns == []
    ensures old(world.Unhindered(2)) && old(world.state.value) > 0 ==> result == Some(0)
    ensures old(world.Unhindered(2)) && old(world.state.value) <= 0 && msOpt == Some(0) ==> result == Some(-1)
    ensures result.Some? ==>
              && world.Calls() == old(world.Calls()) + [Call(world.me, msOpt)]
              && (result.value == 0 || (result.value == -1 && msOpt.Some?))
              && world.Mine() == Answered(old(world.Mine()), result.value)
              && (!how.ByRelease? ==> world.Found(how.at))
              && Answers(how, Converted(msOpt), result.value)
  {
    world.Step(Call(world.me, msOpt));
    result, how := WaitFrom(world, Converted(msOpt));
  }

  /** A wait that has begun. */
  method WaitFrom(world: Shared, quad: int) returns (result: Option<int>, ghost how: WaitEnd)
    requires Ready(world) && world.Mine().pc == Trying(quad)
    modifies world
    ensures Ready(world)
    ensures result.None? ==> world.turns == []
    ensures old(world.Unhindered(2)) && old(world.state.value) > 0 ==> result == Some(0)
    ensures old(world.Unhindered(2)) && old(world.state.value) <= 0 && quad == 0 ==> result == Some(-1)
    ensures result.Some? ==>
              && world.Calls() == old(world.Calls())
              && world.Mine() == Answered(old(world.Mine()), result.value)
              && (!how.ByRelease? ==> world.Found(how.at))
              && Answers(how, quad, result.value)
  {
    var attempt, at := TryWaitLoop(world, quad);
    how := AtOnce(at);
    if attempt.None? {
      return None, how;
    }
    match attempt.value {
      case Acquired =>
        return Some(0), how;
      case Refused =>
        return Some(-1), how;
      case GoToSleep =>
    }
    var met;
    met, at := SleepLoop(world);
    how := if met == Some(true) then ByRelease else ByLeaving(at);
    result := if met.None? then None else if met.value then Some(0) else Some(-1);
  }

  lemma SignalAfter(value: int, th: Thread, me: nat, add: int, max: nat)
    requires 0 < add <= max && th.pc.Idle?
    ensures var d, (v, th') := SignalDecision(value, add, max), After(value, th, Signal(me, add), max);
            && v == Outcome(value, d)
            && (d.result.Overflow? <==> value + add > max)
            && th' == match d.result
                      case Overflow => th.(pc := Idle(-2))
                      case Wake(count) => th.(pc := AfterRelease(count), added := th.added + add)
  {
  }

  /** The signal loop, for an argument that is in range. */
  method SignalLoop(world: Shared, add: int) returns (result: Option<int>, ghost at: int)
    requires Ready(world) && world.Mine().pc.Idle? && 0 < add <= world.cap
    modifies world
    ensures Ready(world)
    ensures result.None? ==> world.turns == []
    ensures result.Some? ==>
              && world.Calls() == old(world.Calls()) + [Signal(world.me, add)]
              && result.value == (if at + add > world.cap then -2 else 0)
              && world.Mine() == Signalled(old(world.Mine()), add, result.value)
              && WordWas(world.machine, world.origin, old(world.history), world.history, at)
    ensures old(world.Unhindered(2)) && old(world.state.value) >= 0 ==> result.Some?
  {
    ghost var th, past := world.Mine(), world.history;
    var max := world.cap;
    forall v
      ensures After(v, th, Signal(world.me, add), max).0 == Outcome(v, SignalDecision(v, add, max))
    {
      SignalAfter(v, th, world.me, add, max);
    }
    var signal;
    signal, at := Loop(world, Signal(world.me, add), v => SignalDecision(v, add, max));
    if signal.None? {
      return None, at;
    }
    SignalAfter(at, th, world.me, add, max);
    ghost var decided := world.history;
    if signal.value.Overflow? {
      StepSawWord(world.machine, world.origin, past, decided, world.history, Signal(world.me, add), at);
      return Some(-2), at;
    }
    var done := ReleaseAll(world, signal.value.count);
    StepSawWord(world.machine, world.origin, past, decided, world.history, Signal(world.me, add), at);
    result := if done then Some(0) else None;
  }

  /** A thread whose signal has returned `result`. */
  function Signalled(th: Thread, add: int, result: int): Thread
    requires add >= 0
  {
    Thread(Idle(result), th.taken, th.added + if result == 0 then add else 0)
  }

  /** A signal that ends before its loop. */
  method SignalNothing(world: Shared, add: int)
    requires Ready(world) && world.Mine().pc.Idle? && (add <= 0 || add > world.cap)
    modifies world
    ensures Ready(world) && world.Calls() == old(world.Calls()) + [Signal(world.me, add)]
    ensures world.Mine() == old(world.Mine()).(pc := Idle(if add == 0 then 0 else -1))
    ensures world.turns == old(world.turns)
  {
    world.Step(Signal(world.me, add));
  }

  /** Adds permits and releases waiters.  The result is -1 exactly for a bad argument, and -2
      exactly when the sum with the value `at`, which the semaphore had at that moment, is too
      large; nothing is added then.  Otherwise it is 0, and all permits have been added. */
  method SignalSome(world: Shared, add: int) returns (result: Option<int>, ghost at: int)
    requires Ready(world) && world.Mine().pc.Idle?
    modifies world
    ensures Ready(world)
    ensures result.None? ==> world.turns == []
    ensures result.Some? ==> world.Calls() == old(world.Calls()) + [Signal(world.me, add)]
    ensures result.Some? ==>
              && (result.value == 0 || result.value == -1 || result.value == -2)
              && world.Mine().pc == Idle(result.value) && world.Mine().taken == old(world.Mine()).taken
              && world.Mine().added == old(world.Mine()).added + (if result.value == 0 then add else 0)
    ensures result == Some(-1) <==> add < 0 || add > world.cap
    ensures result.Some? && 0 < add <= world.cap ==>
              && WordWas(world.machine, world.origin, old(world.history), world.history, at)
              && (result.value == -2 <==> at + add > world.cap)
    ensures result == Some(-2) ==> 0 < add <= world.cap
    ensures old(world.Unhindered(2)) && old(world.state.value) >= 0 ==> result.Some?
  {
    at := 0;
    if add < 0 || add > world.cap {
      SignalNothing(world, add);
      return Some(-1), at;
    } else if add == 0 {
      SignalNothing(world, add);
      return Some(0), at;
    }
    result, at := SignalLoop(world, add);
  }

  /** The code does what the machine does: in a world that began with a fresh semaphore, every
      theorem about reachable states holds. */
  lemma WorldIsReachable(world: Shared, n: nat, initial: nat)
    requires Ready(world) && world.origin == Initial(n, world.cap, initial)
    requires n <= world.cap && initial <= world.cap
    ensures Reachable(world.state)
  {
    ReplayIsExecution(world.me, world.cap, world.origin, world.history);
  }

  /** From a fresh semaphore: one thread takes a permit and gives it back, whatever the others
      do. */
  method TakeAndReturn(me: nat, count: nat, max: nat, initial: nat, turns: seq<Turn<Event>>)
    returns (world: Shared, result: Option<int>)
    requires me < count <= max && initial <= max
    ensures Ready(world) && Reachable(world.state) && (result.None? ==> world.turns == [])
    ensures result.Some? ==>
              && (result.value == 0 || result.value == -2)
              && world.Mine() == Thread(Idle(result.value), 1, if result.value == 0 then 1 else 0)
              && world.Calls() == [Call(me, None), Signal(me, 1)]
  {
    MachineIsLawful(me, max);
    world := new World(MachineOf(me, max), me, max, Initial(count, max, initial), turns);
    ghost var how;
    result, how := Wait(world, None);
    if result.Some? {
      ghost var at;
      result, at := SignalSome(world, 1);
    }
    WorldIsReachable(world, count, initial);
  }
}
