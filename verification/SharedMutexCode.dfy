/** The shared mutex as the loops that one thread runs, proved to take only steps of the machine
    in `SharedMutex` while any other threads do the same. */
module SharedMutexCode {
  import opened Wrappers
  import opened AtomicWord
  import opened KeyedEvent
  import opened Timeouts
  import opened SharedMutexWord
  import opened SharedMutex

  /** An event that thread `me` has no part in. */
  predicate Foreign(e: Event, me: nat)
  {
    e.t != me && (e.Meet? ==> e.u != me) && (e.Handoff? ==> e.u != me)
  }

  /** The same event of the thread with index 0. */
  function AsFirst(e: Event): Event { e.(t := 0) }

  /** A system with one thread: the steps that a thread takes by itself look at nothing else. */
  function Alone(w: Word, th: Thread, cap: nat): State { State(w, [th], cap) }

  predicate CanStep(th: Thread, e: Event)
  {
    !e.Meet? && !e.Handoff? && Enabled(Alone(Word(0, 0), th, 1), AsFirst(e))
  }

  /** What a step makes of the word and of the thread. */
  function After(w: Word, th: Thread, e: Event, cap: nat): (Word, Thread)
    requires cap > 0 && CanStep(th, e)
  {
    var next := Apply(Alone(w, th, cap), AsFirst(e));
    (next.word, next.threads[0])
  }

  /** The events that begin an operation. */
  predicate IsEntry(e: Event) { e.Call? || e.Unlock? }

  /** The machine as thread `me` sees it. */
  function MachineOf(me: nat, cap: nat): Machine<State, Thread, Event, Word>
    requires cap > 0
  {
    Machine(
      (s: State, e: Event) => Enabled(s, e),
      (s: State, e: Event) => if Enabled(s, e) then Apply(s, e) else s,
      (s: State) => me < |s.threads| && s.cap == cap,
      (e: Event) => Foreign(e, me),
      (e: Event) => IsEntry(e),
      (th: Thread, e: Event) => e.t == me && CanStep(th, e),
      (s: State) => s.word,
      (s: State) => if me < |s.threads| then s.threads[me] else Thread(Idle(0), 0, false),
      (w: Word, th: Thread, e: Event) => if CanStep(th, e) then After(w, th, e, cap) else (w, th))
  }

  lemma StepIsLocal(s: State, e: Event)
    requires e.t < |s.threads| && s.cap > 0 && CanStep(s.threads[e.t], e)
    ensures Enabled(s, e)
    ensures var (w, th) := After(s.word, s.threads[e.t], e, s.cap);
            Apply(s, e).word == w && Apply(s, e).threads == s.threads[e.t := th]
  {
  }

  lemma StepSize(s: State, e: Event, me: nat)
    requires Enabled(s, e) && me < |s.threads|
    ensures |Apply(s, e).threads| == |s.threads| && Apply(s, e).cap == s.cap
    ensures Foreign(e, me) ==> Apply(s, e).threads[me] == s.threads[me]
  {
  }

  lemma MachineIsLawful(me: nat, cap: nat)
    requires cap > 0
    ensures Lawful(MachineOf(me, cap))
  {
    var m := MachineOf(me, cap);
    forall s, e | m.fits(s) && m.enabled(s, e)
      ensures m.fits(m.apply(s, e)) && (m.foreign(e) ==> m.mine(m.apply(s, e)) == m.mine(s))
    {
      StepSize(s, e, me);
    }
    forall s, e | m.fits(s) && m.own(m.mine(s), e)
      ensures m.enabled(s, e)
      ensures m.after(m.word(s), m.mine(s), e) == (m.word(m.apply(s, e)), m.mine(m.apply(s, e)))
    {
      StepIsLocal(s, e);
    }
  }

  /** A run of the machine as a thread sees it is a run of the shared mutex. */
  lemma {:induction false} ReplayIsExecution(me: nat, cap: nat, s: State, es: seq<Event>)
    requires cap > 0
    ensures Replay(MachineOf(me, cap), s, es) == Execute(s, es)
  {
    if es != [] {
      ReplayIsExecution(me, cap, s, es[..|es| - 1]);
    }
  }

  type Shared = World<State, Thread, Event, Word>

  /** The world is that of the shared mutex, and all that has happened is a run of the machine. */
  ghost predicate Ready(world: Shared)
    reads world
  {
    world.cap > 0 && world.Valid() && world.machine == MachineOf(world.me, world.cap)
  }

  // ---------------------------------------------------------------- the rendezvous

  /** What waking up and running out of time make of a sleeping thread. */
  function Awake(th: Thread, elapsed: nat): Thread
    requires th.pc.Asleep?
  {
    th.(pc := Trying(Adjusted(th.pc.quad, elapsed), th.pc.shared))
  }

  function TooLate(th: Thread): Thread
    requires th.pc.Asleep?
  {
    th.(pc := Expired(th.pc.quad, th.pc.shared))
  }

  /** What the keyed event does to a thread. */
  function RendezvousOf(me: nat, cap: nat): Rendezvous<Thread, Event, Word>
    requires cap > 0
  {
    Rendezvous(
      (t: nat, u: nat, d: nat) => Meet(t, u, d),
      Expire(me),
      Settle(me),
      (w: Word) => LeaveDecision(w, cap),
      (th: Thread) => th.pc.Asleep?,
      (th: Thread) => th.pc.Asleep? && (th.pc.zero || th.pc.quad != INT64_MAX),
      (th: Thread, d: nat) => if th.pc.Asleep? then Awake(th, d) else th,
      (th: Thread) => if th.pc.Asleep? then TooLate(th) else th,
      (th: Thread) => if th.pc.Asleep? then th.(pc := th.pc.(zero := true)) else th,
      (th: Thread, r: int) => th.(pc := Idle(r)),
      (th: Thread, n: nat) => th.(pc := AfterRelease(n)))
  }

  lemma SettleAfter(w: Word, th: Thread, me: nat, cap: nat)
    requires cap > 0 && th.pc.Asleep?
    ensures var k := RendezvousOf(me, cap);
            && CanStep(TooLate(th), Settle(me))
            && After(w, TooLate(th), Settle(me), cap) ==
               (Outcome(w, k.leave(w)),
                match k.leave(w).result case Some(r) => k.gone(th, r) case None => k.back(th))
  {
  }

  lemma MeetAfter(s: State, e: Event)
    requires Enabled(s, e) && e.Meet?
    ensures e.u < |s.threads| && e.u != e.t
    ensures s.threads[e.t].pc.Asleep? && Apply(s, e).threads[e.t] == Awake(s.threads[e.t], e.elapsed)
    ensures s.threads[e.u].pc.Releasing?
    ensures Apply(s, e).threads[e.u] == s.threads[e.u].(pc := AfterRelease(s.threads[e.u].pc.wake - 1))
  {
  }

  lemma WaitIsLawful(me: nat, cap: nat)
    requires cap > 0
    ensures WaitLaws(MachineOf(me, cap), RendezvousOf(me, cap), me)
  {
    var m, k := MachineOf(me, cap), RendezvousOf(me, cap);
    forall s, u, d | m.fits(s) && m.enabled(s, k.meet(me, u, d))
      ensures m.mine(m.apply(s, k.meet(me, u, d))) == k.awake(m.mine(s), d)
    {
      MeetAfter(s, k.meet(me, u, d));
    }
  }

  lemma SettleIsLawful(me: nat, cap: nat)
    requires cap > 0
    ensures SettleLaws(MachineOf(me, cap), RendezvousOf(me, cap))
  {
    var m, k := MachineOf(me, cap), RendezvousOf(me, cap);
    forall th, w | k.asleep(th)
      ensures m.own(k.late(th), k.settle)
      ensures m.after(w, k.late(th), k.settle) ==
              (Outcome(w, k.leave(w)),
               match k.leave(w).result case Some(r) => k.gone(th, r) case None => k.back(th))
    {
      SettleAfter(w, th, me, cap);
    }
  }

  lemma ReleaseIsLawful(me: nat, cap: nat)
    requires cap > 0
    ensures ReleaseLaws(MachineOf(me, cap), RendezvousOf(me, cap), me)
  {
    var m, k := MachineOf(me, cap), RendezvousOf(me, cap);
    forall s, t, d, b, n: nat | m.fits(s) && t != me && n > 0 && m.mine(s) == k.owing(b, n)
                                && m.enabled(s, k.meet(t, me, d))
      ensures m.mine(m.apply(s, k.meet(t, me, d))) == k.owing(b, n - 1)
    {
      MeetAfter(s, k.meet(t, me, d));
    }
  }

  // ---------------------------------------------------------------- the code

  /** One retry loop of the source. */
  method Loop<R>(world: Shared, e: Event, decide: Word -> Decision<Word, R>)
    returns (result: Option<R>, ghost at: Word)
    requires Ready(world) && e.t == world.me && CanStep(world.Mine(), e)
    requires forall w :: After(w, world.Mine(), e, world.cap).0 == Outcome(w, decide(w))
    modifies world
    ensures Ready(world)
    ensures result.None? ==> world.turns == [] && |old(world.turns)| <= 1 + Disturbed(old(world.turns))
    ensures result.Some? && Disturbed(old(world.turns)) == 0 ==> at == old(world.state.word)
    ensures result.Some? ==>
              && world.Found(at) && |world.turns| < |old(world.turns)|
              && result.value == decide(at).result
              && (world.state.word, world.Mine()) == After(at, old(world.Mine()), e, world.cap)
              && world.Calls() == old(world.Calls()) + (if IsEntry(e) then [e] else [])
  {
    result, at := world.Retry(e, decide);
  }

  /** Sleeping: until a release has come, or the thread has taken itself off the count. */
  method SleepLoop(world: Shared) returns (slept: Option<Slept>, ghost at: Word)
    requires Ready(world) && world.Mine().pc.Asleep?
    requires world.Mine().pc.zero ==> world.Mine().pc.quad != INT64_MAX
    modifies world
    ensures Ready(world)
    ensures slept.None? ==> world.turns == []
    ensures slept.Some? ==> |world.turns| < |old(world.turns)| && world.Calls() == old(world.Calls())
    ensures slept.Some? && slept.value.Notified? ==> world.Mine() == Awake(old(world.Mine()), slept.value.elapsed)
    ensures slept.Some? && slept.value.Left? ==>
              && slept.value.result == -1 && world.Mine() == old(world.Mine()).(pc := Idle(-1))
              && old(world.Mine()).pc.quad != INT64_MAX
              && world.Found(at) && LeavesCount(at, world.state.word, world.cap)
  {
    WaitIsLawful(world.me, world.cap);
    SettleIsLawful(world.me, world.cap);
    slept, at := KeyedEvent.Sleep(world, RendezvousOf(world.me, world.cap));
  }

  /** Releases waiters one at a time. */
  method ReleaseAll(world: Shared, count: nat) returns (done: bool)
    requires Ready(world) && world.Mine().pc == AfterRelease(count)
    modifies world
    ensures Ready(world) && world.Calls() == old(world.Calls()) && old(world.history) <= world.history
    ensures if done then world.Mine() == old(world.Mine()).(pc := Idle(0)) else world.turns == []
    ensures count == 0 ==> done
  {
    ReleaseIsLawful(world.me, world.cap);
    done := BatchRelease(world, RendezvousOf(world.me, world.cap), count, world.Mine());
  }

  /** A thread in a lock call. */
  predicate Calling(th: Thread, quad: int, shared: bool)
  {
    th.pc == Trying(quad, shared)
  }

  /** What a thread has once its lock call has succeeded. */
  function Granting(th: Thread, shared: bool): Thread
  {
    if shared then Thread(Idle(0), th.shares + 1, th.exclusive) else Thread(Idle(0), th.shares, true)
  }

  lemma TryLockAfter(w: Word, th: Thread, me: nat, cap: nat)
    requires cap > 0 && th.pc.Trying?
    ensures var d, (w', th') := LockDecision(w, th.pc.shared, th.pc.quad, cap), After(w, th, TryLock(me), cap);
            && w' == Outcome(w, d)
            && (d.result.Refused? ==> th.pc.quad == 0)
            && th' == match d.result
                      case Granted => Granting(th, th.pc.shared)
                      case Refused => th.(pc := Idle(-1))
                      case GoToSleep => th.(pc := Asleep(th.pc.quad, th.pc.shared, th.pc.quad == 0))
  {
  }

  /** The loop at the retry label. */
  method TryLockLoop(world: Shared, quad: int, shared: bool) returns (result: Option<LockResult>, ghost at: Word)
    requires Ready(world) && Calling(world.Mine(), quad, shared)
    modifies world
    ensures Ready(world)
    ensures result.None? ==> world.turns == [] && |old(world.turns)| <= 1 + Disturbed(old(world.turns))
    ensures result.Some? && Disturbed(old(world.turns)) == 0 ==> at == old(world.state.word)
    ensures result.Some? ==> |world.turns| < |old(world.turns)| && world.Calls() == old(world.Calls())
    ensures result.Some? ==>
              world.Found(at) && LockOutcome(at, world.state.word, shared, quad, world.cap, result.value)
    ensures result.Some? ==>
              world.Mine() == match result.value
                              case Granted => Granting(old(world.Mine()), shared)
                              case Refused => old(world.Mine()).(pc := Idle(-1))
                              case GoToSleep => old(world.Mine()).(pc := Asleep(quad, shared, quad == 0))
  {
    ghost var th := world.Mine();
    var cap := world.cap;
    forall w
      ensures After(w, th, TryLock(world.me), cap).0 == Outcome(w, LockDecision(w, shared, quad, cap))
    {
      TryLockAfter(w, th, world.me, cap);
    }
    result, at := Loop(world, TryLock(world.me), w => LockDecision(w, shared, quad, cap));
    TryLockAfter(at, th, world.me, cap);
    LockChoices(at, shared, quad, cap);
  }

  /** Sleeping in a call that has slept `used` of its time: with the time that is left once a
      release has come, or without once the thread has taken itself off the count. */
  method SleepOn(world: Shared, quad: int, ghost initial: int, ghost used: nat)
    returns (left: Option<Option<int>>, ghost at: Word, ghost used': nat)
    requires Ready(world) && world.Mine().pc.Asleep?
    requires world.Mine().pc == Asleep(quad, world.Mine().pc.shared, quad == 0)
    requires quad == Adjusted(initial, used)
    modifies world
    ensures Ready(world)
    ensures left.None? ==> world.turns == []
    ensures left.Some? ==> |world.turns| < |old(world.turns)| && world.Calls() == old(world.Calls())
    ensures left.Some? ==>
              match left.value
              case Some(q) =>
                && q == Adjusted(initial, used')
                && world.Mine() == old(world.Mine()).(pc := Trying(q, old(world.Mine()).pc.shared))
              case None =>
                && world.Mine() == old(world.Mine()).(pc := Idle(-1)) && initial != INT64_MAX
                && world.Found(at) && LeavesCount(at, world.state.word, world.cap)
  {
    var slept;
    slept, at := SleepLoop(world);
    used' := used;
    if slept.None? {
      return None, at, used';
    }
    match slept.value {
      case Notified(elapsed) =>
        SleptOn(initial, used, quad, elapsed);
        return Some(Some(Adjusted(quad, elapsed))), at, used + elapsed;
      case Left(_) =>
        return Some(None), at, used';
    }
  }

  /** How a call ends: it gets what it wants if that can be had, is refused if it cannot be had and
      all of the time has been slept away, or leaves while it is counted. */
  predicate Answers(how: Ending<Word>, shared: bool, quad: int, result: int)
  {
    match how
    case Tried(at, slept) =>
      if Grantable(at, shared) then result == 0 else result == -1 && Adjusted(quad, slept) == 0
    case HadLeft(at, _) => result == -1 && at.nsleep > 0 && quad != INT64_MAX
  }

  /** A thread whose call has returned `result`. */
  function Answered(th: Thread, shared: bool, result: int): Thread
  {
    if result == 0 then Granting(th, shared) else th.(pc := Idle(result))
  }

  /** Locking from the retry label on. */
  method LockFrom(world: Shared, initialQuad: int, shared: bool)
    returns (result: Option<int>, ghost how: Ending<Word>)
    requires Ready(world) && Calling(world.Mine(), initialQuad, shared)
    modifies world
    ensures Ready(world)
    ensures result.None? ==> world.turns == []
    ensures old(world.Unhindered(2)) && Grantable(old(world.state.word), shared) ==> result == Some(0)
    ensures old(world.Unhindered(2)) && !Grantable(old(world.state.word), shared) && initialQuad == 0 ==>
              result == Some(-1)
    ensures result.Some? ==>
              && world.Calls() == old(world.Calls())
              && world.Mine() == Answered(old(world.Mine()), shared, result.value)
              && world.Found(how.at) && Answers(how, shared, initialQuad, result.value)
  {
    ghost var th, found := world.Mine(), world.state.word;
    ghost var sure := world.Unhindered(2) && (Grantable(found, shared) || initialQuad == 0);
    ghost var used: nat := 0;
    var quad := initialQuad;
    while true
      invariant Ready(world) && world.Calls() == old(world.Calls())
      invariant world.Mine() == th.(pc := Trying(quad, shared))
      invariant quad == Adjusted(initialQuad, used)
      invariant sure ==> world.Unhindered(2) && world.state.word == found && quad == initialQuad
      decreases |world.turns|
    {
      var attempt, at := TryLockLoop(world, quad, shared);
      how := Tried(at, used);
      if attempt.None? {
        return None, how;
      }
      match attempt.value {
        case Granted =>
          return Some(0), how;
        case Refused =>
          return Some(-1), how;
        case GoToSleep =>
      }
      var left;
      ghost var seen;
      left, seen, used := SleepOn(world, quad, initialQuad, used);
      if left.None? || left.value.None? {
        return if left.None? then None else Some(-1), HadLeft(seen, used);
      }
      quad := left.value.value;
    }
  }

  /** Locks for reading or for writing: 0 when the caller has got what it wants, -1 when the time
      is over.  Whatever other threads do, all that this thread does are steps of the machine,
      and without a timeout it does not fail. */
  method LockCommon(world: Shared, shared: bool, msOpt: Option<int>)
    returns (result: Option<int>, ghost how: Ending<Word>)
    requires Ready(world) && world.Mine().pc.Idle?
    requires msOpt.Some? ==> IsInt64(msOpt.value)
    modifies world
    ensures Ready(world)
    ensures result.None? ==> world.turns == []
    ensures old(world.Unhindered(2)) && Grantable(old(world.state.word), shared) ==> result == Some(0)
    ensures old(world.Unhindered(2)) && !Grantable(old(world.state.word), shared) && msOpt == Some(0) ==>
              result == Some(-1)
    ensures result.Some? ==>
              && world.Calls() == old(world.Calls()) + [Call(world.me, shared, msOpt)]
              && (result.value == 0 || (result.value == -1 && msOpt.Some?))
              && world.Mine() == Answered(old(world.Mine()), shared, result.value)
              && world.Found(how.at) && Answers(how, shared, Converted(msOpt), result.value)
  {
    world.Step(Call(world.me, shared, msOpt));
    result, how := LockFrom(world, Converted(msOpt), shared);
  }

  /** Gives up one share or the exclusive ownership; the last one out releases all sleepers. */
  method UnlockSlow(world: Shared) returns (done: bool)
    requires Ready(world) && world.Mine().pc.Idle? && Owns(world.Mine())
    modifies world
    ensures Ready(world)
    ensures done ==> world.Mine() == Without(old(world.Mine())).(pc := Idle(0))
    ensures done ==> world.Calls() == old(world.Calls()) + [Unlock(world.me)]
    ensures !done ==> world.turns == []
    ensures var w := old(world.state.word);
            old(world.Unhindered(2)) && (w.nsleep == 0 || 1 < w.nshare < 0x3FFF) ==> done
  {
    var wake, at := Loop(world, Unlock(world.me), w => UnlockDecision(w));
    if wake.None? {
      return false;
    }
    done := ReleaseAll(world, wake.value);
  }

  /** The code does what the machine does: in a world that began with an unlocked mutex, every
      theorem about reachable states holds. */
  lemma WorldIsReachable(world: Shared, n: nat)
    requires Ready(world) && world.origin == Initial(n, world.cap) && n < world.cap
    ensures Reachable(world.state)
  {
    ReplayIsExecution(world.me, world.cap, world.origin, world.history);
  }

  /** From an unlocked mutex: one thread locks and unlocks, whatever the others do.  In between
      it is a reader among readers, or the only owner. */
  method LockAndUnlock(me: nat, count: nat, cap: nat, shared: bool, turns: seq<Turn<Event>>)
    returns (world: Shared, done: bool)
    requires me < count < cap
    ensures Ready(world) && Reachable(world.state) && (!done ==> world.turns == [])
    ensures done ==> world.Mine() == Thread(Idle(0), 0, false)
    ensures done ==> world.Calls() == [Call(me, shared, None), Unlock(me)]
  {
    MachineIsLawful(me, cap);
    world := new World(MachineOf(me, cap), me, cap, Initial(count, cap), turns);
    var result, how := LockCommon(world, shared, None);
    WorldIsReachable(world, count);
    if result.None? {
      return world, false;
    }
    forall u | 0 <= u < |world.state.threads| && u != me
      ensures !world.state.threads[u].exclusive && (shared || world.state.threads[u].shares == 0)
    {
      ReadersOrOneWriter(world.state, u, me);
      ReadersOrOneWriter(world.state, me, u);
    }
    done := UnlockSlow(world);
    WorldIsReachable(world, count);
  }
}
