/** The once-initialization flag as the loops that one thread runs, proved to take only steps of
    the machine in `Once` while any other threads do the same. */
module OnceCode {
  import opened Wrappers
  import opened AtomicWord
  import opened KeyedEvent
  import opened Timeouts
  import opened Once

  /** An event that thread `me` has no part in. */
  predicate Foreign(e: Event, me: nat)
  {
    e.t != me && (e.Meet? ==> e.u != me) && (e.Handoff? ==> e.u != me)
  }

  /** The same event of the thread with index 0. */
  function AsFirst(e: Event): Event { e.(t := 0) }

  /** A system with one thread: the steps that a thread takes by itself look at nothing else. */
  function Alone(w: Word, th: Thread, cap: nat): State { State(w, [th], cap) }

  predicate CanStep(th: Thread, e: Event)
  {
    !e.Meet? && !e.Handoff? && Enabled(Alone(Word(0, false, 0), th, 1), AsFirst(e))
  }

  /** What a step makes of the word and of the thread. */
  function After(w: Word, th: Thread, e: Event, cap: nat): (Word, Thread)
    requires cap > 0 && CanStep(th, e)
  {
    var next := Apply(Alone(w, th, cap), AsFirst(e));
    (next.word, next.threads[0])
  }

  /** The events that begin an operation. */
  predicate IsEntry(e: Event) { e.Call? || e.Abort? || e.Release? }

  /** The machine as thread `me` sees it. */
  function MachineOf(me: nat, cap: nat): Machine<State, Thread, Event, Word>
    requires cap > 0
  {
    Machine(
      (s: State, e: Event) => Enabled(s, e),
      (s: State, e: Event) => if Enabled(s, e) then Apply(s, e) else s,
      (s: State) => me < |s.threads| && s.cap == cap,
      (e: Event) => Foreign(e, me),
      (e: Event) => IsEntry(e),
      (th: Thread, e: Event) => e.t == me && CanStep(th, e),
      (s: State) => s.word,
      (s: State) => if me < |s.threads| then s.threads[me] else Thread(Idle(0), false),
      (w: Word, th: Thread, e: Event) => if CanStep(th, e) then After(w, th, e, cap) else (w, th))
  }

  lemma StepIsLocal(s: State, e: Event)
    requires e.t < |s.threads| && s.cap > 0 && CanStep(s.threads[e.t], e)
    ensures Enabled(s, e)
    ensures var (w, th) := After(s.word, s.threads[e.t], e, s.cap);
            Apply(s, e).word == w && Apply(s, e).threads == s.threads[e.t := th]
  {
  }

  lemma StepSize(s: State, e: Event, me: nat)
    requires Enabled(s, e) && me < |s.threads|
    ensures |Apply(s, e).threads| == |s.threads| && Apply(s, e).cap == s.cap
    ensures Foreign(e, me) ==> Apply(s, e).threads[me] == s.threads[me]
  {
  }

  lemma MachineIsLawful(me: nat, cap: nat)
    requires cap > 0
    ensures Lawful(MachineOf(me, cap))
  {
    var m := MachineOf(me, cap);
    forall s, e | m.fits(s) && m.enabled(s, e)
      ensures m.fits(m.apply(s, e)) && (m.foreign(e) ==> m.mine(m.apply(s, e)) == m.mine(s))
    {
      StepSize(s, e, me);
    }
    forall s, e | m.fits(s) && m.own(m.mine(s), e)
      ensures m.enabled(s, e)
      ensures m.after(m.word(s), m.mine(s), e) == (m.word(m.apply(s, e)), m.mine(m.apply(s, e)))
    {
      StepIsLocal(s, e);
    }
  }

  /** A run of the machine as a thread sees it is a run of the flag. */
  lemma {:induction false} ReplayIsExecution(me: nat, cap: nat, s: State, es: seq<Event>)
    requires cap > 0
    ensures Replay(MachineOf(me, cap), s, es) == Execute(s, es)
  {
    if es != [] {
      ReplayIsExecution(me, cap, s, es[..|es| - 1]);
    }
  }

  type Shared = World<State, Thread, Event, Word>

  /** The world is that of the flag, and all that has happened is a run of the machine. */
  ghost predicate Ready(world: Shared)
    reads world
  {
    world.cap > 0 && world.Valid() && world.machine == MachineOf(world.me, world.cap) && Inv(world.origin)
  }

  /** The code does what the machine does, so the invariant of the machine holds at every moment. */
  lemma PastInv(world: Shared, es: seq<Event>)
    requires Ready(world) && Replay(world.machine, world.origin, es).Some?
    ensures Inv(Replay(world.machine, world.origin, es).value)
  {
    ReplayIsExecution(world.me, world.cap, world.origin, es);
    RunKeepsInv(world.origin, es);
  }

  lemma StateInv(world: Shared)
    requires Ready(world)
    ensures Inv(world.state)
  {
    PastInv(world, world.history);
  }

  // ---------------------------------------------------------------- the rendezvous

  /** What waking up and running out of time make of a sleeping thread. */
  function Awake(th: Thread, elapsed: nat): Thread
    requires th.pc.Asleep?
  {
    th.(pc := Trying(Adjusted(th.pc.quad, elapsed), true))
  }

  function TooLate(th: Thread): Thread
    requires th.pc.Asleep?
  {
    th.(pc := Expired(th.pc.quad))
  }

  /** What the keyed event does to a thread. */
  function RendezvousOf(me: nat, cap: nat): Rendezvous<Thread, Event, Word>
    requires cap > 0
  {
    Rendezvous(
      (t: nat, u: nat, d: nat) => Meet(t, u, d),
      Expire(me),
      Settle(me),
      (w: Word) => LeaveDecision(w, cap),
      (th: Thread) => th.pc.Asleep?,
      (th: Thread) => th.pc.Asleep? && (th.pc.zero || th.pc.quad != INT64_MAX),
      (th: Thread, d: nat) => if th.pc.Asleep? then Awake(th, d) else th,
      (th: Thread) => if th.pc.Asleep? then TooLate(th) else th,
      (th: Thread) => if th.pc.Asleep? then th.(pc := th.pc.(zero := true)) else th,
      (th: Thread, r: int) => th.(pc := Idle(r)),
      (th: Thread, n: nat) => th.(pc := AfterRelease(n)))
  }

  lemma SettleAfter(w: Word, th: Thread, me: nat, cap: nat)
    requires cap > 0 && th.pc.Asleep?
    ensures var k := RendezvousOf(me, cap);
            && CanStep(TooLate(th), Settle(me))
            && After(w, TooLate(th), Settle(me), cap) ==
               (Outcome(w, k.leave(w)),
                match k.leave(w).result case Some(r) => k.gone(th, r) case None => k.back(th))
  {
  }

  lemma MeetAfter(s: State, e: Event)
    requires Enabled(s, e) && e.Meet?
    ensures e.u < |s.threads| && e.u != e.t
    ensures s.threads[e.t].pc.Asleep? && Apply(s, e).threads[e.t] == Awake(s.threads[e.t], e.elapsed)
    ensures s.threads[e.u].pc.Releasing?
    ensures Apply(s, e).threads[e.u] == s.threads[e.u].(pc := AfterRelease(s.threads[e.u].pc.wake - 1))
  {
  }

  lemma WaitIsLawful(me: nat, cap: nat)
    requires cap > 0
    ensures WaitLaws(MachineOf(me, cap), RendezvousOf(me, cap), me)
  {
    var m, k := MachineOf(me, cap), RendezvousOf(me, cap);
    forall s, u, d | m.fits(s) && m.enabled(s, k.meet(me, u, d))
      ensures m.mine(m.apply(s, k.meet(me, u, d))) == k.awake(m.mine(s), d)
    {
      MeetAfter(s, k.meet(me, u, d));
    }
  }

  lemma SettleIsLawful(me: nat, cap: nat)
    requires cap > 0
    ensures SettleLaws(MachineOf(me, cap), RendezvousOf(me, cap))
  {
    var m, k := MachineOf(me, cap), RendezvousOf(me, cap);
    forall th, w | k.asleep(th)
      ensures m.own(k.late(th), k.settle)
      ensures m.after(w, k.late(th), k.settle) ==
              (Outcome(w, k.leave(w)),
               match k.leave(w).result case Some(r) => k.gone(th, r) case None => k.back(th))
    {
      SettleAfter(w, th, me, cap);
    }
  }

  lemma ReleaseIsLawful(me: nat, cap: nat)
    requires cap > 0
    ensures ReleaseLaws(MachineOf(me, cap), RendezvousOf(me, cap), me)
  {
    var m, k := MachineOf(me, cap), RendezvousOf(me, cap);
    forall s, t, d, b, n: nat | m.fits(s) && t != me && n > 0 && m.mine(s) == k.owing(b, n)
                                && m.enabled(s, k.meet(t, me, d))
      ensures m.mine(m.apply(s, k.meet(t, me, d))) == k.owing(b, n - 1)
    {
      MeetAfter(s, k.meet(t, me, d));
    }
  }

  // ---------------------------------------------------------------- the code

  /** One retry loop of the source. */
  method Loop<R>(world: Shared, e: Event, decide: Word -> Decision<Word, R>)
    returns (result: Option<R>, ghost at: Word)
    requires Ready(world) && e.t == world.me && CanStep(world.Mine(), e)
    requires forall w :: After(w, world.Mine(), e, world.cap).0 == Outcome(w, decide(w))
    modifies world
    ensures Ready(world)
    ensures result.None? ==> world.turns == [] && |old(world.turns)| <= 1 + Disturbed(old(world.turns))
    ensures result.Some? && Disturbed(old(world.turns)) == 0 ==> at == old(world.state.word)
    ensures result.Some? ==>
              && world.Found(at) && |world.turns| < |old(world.turns)|
              && result.value == decide(at).result
              && (world.state.word, world.Mine()) == After(at, old(world.Mine()), e, world.cap)
              && world.Calls() == old(world.Calls()) + (if IsEntry(e) then [e] else [])
  {
    result, at := world.Retry(e, decide);
  }

  /** Sleeping: until a release has come, or the thread has taken itself off the count. */
  method SleepLoop(world: Shared) returns (slept: Option<Slept>, ghost at: Word)
    requires Ready(world) && world.Mine().pc.Asleep?
    requires world.Mine().pc.zero ==> world.Mine().pc.quad != INT64_MAX
    modifies world
    ensures Ready(world)
    ensures slept.None? ==> world.turns == []
    ensures slept.Some? ==> |world.turns| < |old(world.turns)| && world.Calls() == old(world.Calls())
    ensures slept.Some? && slept.value.Notified? ==> world.Mine() == Awake(old(world.Mine()), slept.value.elapsed)
    ensures slept.Some? && slept.value.Left? ==>
              && slept.value.result == -1 && world.Mine() == old(world.Mine()).(pc := Idle(-1))
              && old(world.Mine()).pc.quad != INT64_MAX
              && world.Found(at) && LeavesCount(at, world.state.word, world.cap)
  {
    WaitIsLawful(world.me, world.cap);
    SettleIsLawful(world.me, world.cap);
    slept, at := KeyedEvent.Sleep(world, RendezvousOf(world.me, world.cap));
    if slept.Some? && slept.value.Left? {
      PastInv(world, world.history[..|world.history| - 1]);
    }
  }

  /** Releases waiters one at a time. */
  method ReleaseAll(world: Shared, count: nat) returns (done: bool)
    requires Ready(world) && world.Mine().pc == AfterRelease(count)
    modifies world
    ensures Ready(world) && world.Calls() == old(world.Calls()) && old(world.history) <= world.history
    ensures if done then world.Mine() == old(world.Mine()).(pc := Idle(0)) else world.turns == []
    ensures count == 0 ==> done
  {
    ReleaseIsLawful(world.me, world.cap);
    done := BatchRelease(world, RendezvousOf(world.me, world.cap), count, world.Mine());
  }

  lemma TryWaitAfter(w: Word, th: Thread, me: nat, cap: nat)
    requires cap > 0 && th.pc.Trying?
    ensures var d, (w', th') := WaitDecision(w, th.pc.quad, cap), After(w, th, TryWait(me), cap);
            && w' == Outcome(w, d)
            && th' == match d.result
                      case Return(value) => Thread(Idle(value), th.role || value == 1)
                      case GoToSleep => th.(pc := Asleep(th.pc.quad, th.pc.quad == 0))
  {
  }

  /** The loop at the retry label.  It returns 0 on a flag that is ready, hands over the role on
      one that is not and that nobody initialises, and returns -1 if somebody does and no time is
      left; otherwise the thread becomes a sleeper. */
  method TryWaitLoop(world: Shared, quad: int) returns (result: Option<WaitResult>, ghost at: Word)
    requires Ready(world) && world.Mine().pc.Trying? && world.Mine().pc.quad == quad
    modifies world
    ensures Ready(world)
    ensures result.None? ==> world.turns == [] && |old(world.turns)| <= 1 + Disturbed(old(world.turns))
    ensures result.Some? && Disturbed(old(world.turns)) == 0 ==> at == old(world.state.word)
    ensures result.Some? ==> |world.turns| < |old(world.turns)| && world.Calls() == old(world.Calls())
    ensures result.Some? ==> world.Found(at) && WaitOutcome(at, world.state.word, quad, world.cap, result.value)
    ensures result.Some? ==>
              world.Mine() == match result.value
                              case Return(value) => Thread(Idle(value), old(world.Mine()).role || value == 1)
                              case GoToSleep => old(world.Mine()).(pc := Asleep(quad, quad == 0))
  {
    ghost var th := world.Mine();
    var cap := world.cap;
    forall w
      ensures After(w, th, TryWait(world.me), cap).0 == Outcome(w, WaitDecision(w, quad, cap))
    {
      TryWaitAfter(w, th, world.me, cap);
    }
    result, at := Loop(world, TryWait(world.me), w => WaitDecision(w, quad, cap));
    TryWaitAfter(at, th, world.me, cap);
    WaitChoices(at, quad, cap);
  }

  /** Sleeping in a call that has slept `used` of its time: with the time that is left once a
      release has come, or without once the thread has taken itself off the count. */
  method SleepOn(world: Shared, quad: int, ghost initial: int, ghost used: nat)
    returns (left: Option<Option<int>>, ghost at: Word, ghost used': nat)
    requires Ready(world) && world.Mine().pc.Asleep? && world.Mine().pc == Asleep(quad, quad == 0)
    requires quad == Adjusted(initial, used)
    modifies world
    ensures Ready(world)
    ensures left.None? ==> world.turns == []
    ensures left.Some? ==> |world.turns| < |old(world.turns)| && world.Calls() == old(world.Calls())
    ensures left.Some? ==>
              match left.value
              case Some(q) =>
                q == Adjusted(initial, used') && world.Mine() == old(world.Mine()).(pc := Trying(q, true))
              case None =>
                && world.Mine() == old(world.Mine()).(pc := Idle(-1)) && initial != INT64_MAX
                && world.Found(at) && LeavesCount(at, world.state.word, world.cap)
  {
    var slept;
    slept, at := SleepLoop(world);
    used' := used;
    if slept.None? {
      return None, at, used';
    }
    match slept.value {
      case Notified(elapsed) =>
        SleptOn(initial, used, quad, elapsed);
        return Some(Some(Adjusted(quad, elapsed))), at, used + elapsed;
      case Left(_) =>
        return Some(None), at, used';
    }
  }

  /** How a wait ends: by an attempt, with what that has found, or by leaving while it is counted. */
  predicate Answers(how: Ending<Word>, quad: int, result: int)
  {
    match how
    case Tried(at, slept) => AnsweredBy(at, Adjusted(quad, slept), result)
    case HadLeft(at, _) => result == -1 && at.ready == 0 && at.nsleep > 0 && quad != INT64_MAX
  }

  /** The slow wait from its retry label on. */
  method WaitFrom(world: Shared, initialQuad: int) returns (result: Option<int>, ghost how: Ending<Word>)
    requires Ready(world) && world.Mine().pc.Trying? && world.Mine().pc.quad == initialQuad
    modifies world
    ensures Ready(world)
    ensures result.None? ==> world.turns == []
    ensures var w := old(world.state.word);
            old(world.Unhindered(2)) && (w.ready != 0 || !w.locked || initialQuad == 0) ==>
              result.Some? && AnsweredBy(w, initialQuad, result.value)
    ensures result.Some? ==>
              && world.Calls() == old(world.Calls())
              && world.Mine() == Thread(Idle(result.value), old(world.Mine()).role || result.value == 1)
              && world.Found(how.at) && Answers(how, initialQuad, result.value)
              && (result == Some(0) ==> world.state.word.ready != 0)
  {
    ghost var role, found := world.Mine().role, world.state.word;
    ghost var sure := world.Unhindered(2) && (found.ready != 0 || !found.locked || initialQuad == 0);
    ghost var used: nat := 0;
    var quad := initialQuad;
    while true
      invariant Ready(world) && world.Calls() == old(world.Calls())
      invariant world.Mine().pc.Trying? && world.Mine().pc.quad == quad && world.Mine().role == role
      invariant quad == Adjusted(initialQuad, used)
      invariant sure ==> world.Unhindered(2) && world.state.word == found && quad == initialQuad
      decreases |world.turns|
    {
      var attempt, at := TryWaitLoop(world, quad);
      how := Tried(at, used);
      if attempt.None? {
        return None, how;
      }
      match attempt.value {
        case Return(value) =>
          return Some(value), how;
        case GoToSleep =>
      }
      var left;
      ghost var seen;
      left, seen, used := SleepOn(world, quad, initialQuad, used);
      if left.None? || left.value.None? {
        return if left.None? then None else Some(-1), HadLeft(seen, used);
      }
      quad := left.value.value;
    }
  }

  /** Waits for the initialisation: 0 when it is done, 1 when the caller is to do it, -1 when the
      time is over.  Whatever other threads do, all that this thread does are steps of the
      machine. */
  method WaitSlow(world: Shared, msOpt: Option<int>) returns (result: Option<int>, ghost how: Ending<Word>)
    requires Ready(world) && world.Mine().pc.Idle?
    requires msOpt.Some? ==> IsInt64(msOpt.value)
    modifies world
    ensures Ready(world)
    ensures result.None? ==> world.turns == []
    ensures var w := old(world.state.word);
            old(world.Unhindered(2)) && (w.ready != 0 || !w.locked || msOpt == Some(0)) ==>
              result.Some? && AnsweredBy(w, Converted(msOpt), result.value)
    ensures result.Some? ==>
              && world.Calls() == old(world.Calls()) + [Call(world.me, msOpt)]
              && -1 <= result.value <= 1 && (result == Some(-1) ==> msOpt.Some?)
              && world.Mine() == Thread(Idle(result.value), old(world.Mine()).role || result.value == 1)
              && world.Found(how.at) && Answers(how, Converted(msOpt), result.value)
              && (result == Some(0) ==> world.state.word.ready != 0)
  {
    world.Step(Call(world.me, msOpt));
    result, how := WaitFrom(world, Converted(msOpt));
  }

  /** Gives the role up after a failed initialisation and releases one waiter. */
  method AbortSlow(world: Shared) returns (done: bool)
    requires Ready(world) && world.Mine().pc.Idle? && world.Mine().role
    modifies world
    ensures Ready(world)
    ensures done ==> world.Mine() == Thread(Idle(0), false)
    ensures done ==> world.Calls() == old(world.Calls()) + [Abort(world.me)]
    ensures !done ==> world.turns == []
    ensures old(world.Unhindered(2)) && old(world.state.word.nsleep) == 0 ==> done
  {
    var cap := world.cap;
    var wake, at := Loop(world, Abort(world.me), w => AbortDecision(w, cap));
    if wake.None? {
      return false;
    }
    done := ReleaseAll(world, wake.value);
  }

  /** Once the flag is ready it stays so, whatever happens. */
  lemma StaysReady(world: Shared, s: State, past: seq<Event>)
    requires Ready(world) && past <= world.history && s.word.ready == 1
    requires Replay(world.machine, world.origin, past) == Some(s)
    ensures world.state.word == Word(1, false, 0)
  {
    var more := world.history[|past|..];
    assert world.history == past + more;
    PastInv(world, past);
    ReplayOn(world.machine, world.origin, past, more);
    ReplayIsExecution(world.me, world.cap, s, more);
    ReadyWordStays(s, more);
  }

  /** Publishes the initialisation with one unconditional exchange and releases all waiters. */
  method ReleaseSlow(world: Shared) returns (done: bool)
    requires Ready(world) && world.Mine().pc.Idle? && world.Mine().role
    modifies world
    ensures Ready(world)
    ensures done ==> world.Mine() == Thread(Idle(0), false)
    ensures done ==> world.Calls() == old(world.Calls()) + [Release(world.me)]
    ensures done ==> world.state.word == Word(1, false, 0)
    ensures !done ==> world.turns == []
    ensures old(world.Unhindered(1)) && old(world.state.word.nsleep) == 0 ==> done
  {
    var turn := world.Begin();
    if turn.None? {
      return false;
    }
    var before := world.state.word;
    world.Step(Release(world.me));
    ghost var released, past := world.state, world.history;
    done := ReleaseAll(world, before.nsleep);
    StaysReady(world, released, past);
  }

  /** One thread's part in an initialisation, from an unused flag on: it waits, and if it is told
      to initialise it reports back, with success or without.  Unless its own attempt has failed
      the flag is ready in the end. */
  method CallOnce(me: nat, count: nat, cap: nat, succeeds: bool, turns: seq<Turn<Event>>)
    returns (world: Shared, result: Option<int>)
    requires me < count < cap
    ensures Ready(world) && (result.None? ==> world.turns == [])
    ensures result.Some? ==> world.Mine() == Thread(Idle(0), false) && (result.value == 0 || result.value == 1)
    ensures result.Some? && (result.value == 0 || succeeds) ==> world.state.word.ready != 0
    ensures result.Some? ==>
              world.Calls() == [Call(me, None)]
                             + if result.value == 0 then [] else if succeeds then [Release(me)] else [Abort(me)]
  {
    MachineIsLawful(me, cap);
    InitialInv(count, cap);
    world := new World(MachineOf(me, cap), me, cap, Initial(count, cap), turns);
    ghost var how;
    result, how := WaitSlow(world, None);
    if result != Some(1) {
      return;
    }
    var done: bool;
    if succeeds {
      done := ReleaseSlow(world);
    } else {
      done := AbortSlow(world);
    }
    if !done {
      result := None;
    }
  }
}
