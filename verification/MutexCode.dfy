/** The mutex as the loops that one thread runs, proved to take only steps of the machine in
    `Mutex` while any other threads do the same.

    Every access to shared state uses up one turn; a call whose turns run out has no result
    yet. */
module MutexCode {
  import opened Wrappers
  import opened AtomicWord
  import opened KeyedEvent
  import opened Timeouts
  import opened MutexWord
  import opened Mutex

  /** A thread that has just locked the mutex. */
  const Acquired := Thread(Idle(0), true)

  /** An event that thread `me` has no part in. */
  predicate Foreign(e: Event, me: nat)
  {
    e.t != me && (e.Meet? ==> e.u != me) && (e.Handoff? ==> e.u != me)
  }

  /** The same event of the thread with index 0. */
  function AsFirst(e: Event): Event { e.(t := 0) }

  /** A system with one thread: the steps that a thread takes by itself look at nothing else. */
  function Alone(w: Word, th: Thread, cap: nat): State { State(w, [th], cap) }

  predicate CanStep(th: Thread, e: Event)
  {
    !e.Meet? && !e.Handoff? && Enabled(Alone(Word(false, 0, 0, 0), th, 1), AsFirst(e))
  }

  /** What a step makes of the word and of the thread. */
  function After(w: Word, th: Thread, e: Event, cap: nat): (Word, Thread)
    requires cap > 0 && CanStep(th, e)
  {
    var next := Apply(Alone(w, th, cap), AsFirst(e));
    (next.word, next.threads[0])
  }

  /** The events that begin an operation. */
  predicate IsEntry(e: Event) { e.Call? || e.Unlock? }

  /** The machine as thread `me` sees it. */
  function MachineOf(me: nat, cap: nat): Machine<State, Thread, Event, Word>
    requires cap > 0
  {
    Machine(
      (s: State, e: Event) => Enabled(s, e),
      (s: State, e: Event) => if Enabled(s, e) then Apply(s, e) else s,
      (s: State) => me < |s.threads| && s.cap == cap,
      (e: Event) => Foreign(e, me),
      (e: Event) => IsEntry(e),
      (th: Thread, e: Event) => e.t == me && CanStep(th, e),
      (s: State) => s.word,
      (s: State) => if me < |s.threads| then s.threads[me] else Acquired,
      (w: Word, th: Thread, e: Event) => if CanStep(th, e) then After(w, th, e, cap) else (w, th))
  }

  lemma StepIsLocal(s: State, e: Event)
    requires e.t < |s.threads| && s.cap > 0 && CanStep(s.threads[e.t], e)
    ensures Enabled(s, e)
    ensures var (w, th) := After(s.word, s.threads[e.t], e, s.cap);
            Apply(s, e).word == w && Apply(s, e).threads == s.threads[e.t := th]
  {
  }

  lemma StepSize(s: State, e: Event, me: nat)
    requires Enabled(s, e) && me < |s.threads|
    ensures |Apply(s, e).threads| == |s.threads| && Apply(s, e).cap == s.cap
    ensures Foreign(e, me) ==> Apply(s, e).threads[me] == s.threads[me]
  {
  }

  lemma MachineIsLawful(me: nat, cap: nat)
    requires cap > 0
    ensures Lawful(MachineOf(me, cap))
  {
    var m := MachineOf(me, cap);
    forall s, e | m.fits(s) && m.enabled(s, e)
      ensures m.fits(m.apply(s, e)) && (m.foreign(e) ==> m.mine(m.apply(s, e)) == m.mine(s))
    {
      StepSize(s, e, me);
    }
    forall s, e | m.fits(s) && m.own(m.mine(s), e)
      ensures m.enabled(s, e)
      ensures m.after(m.word(s), m.mine(s), e) == (m.word(m.apply(s, e)), m.mine(m.apply(s, e)))
    {
      StepIsLocal(s, e);
    }
  }

  /** A run of the machine as a thread sees it is a run of the mutex. */
  lemma {:induction false} ReplayIsExecution(me: nat, cap: nat, s: State, es: seq<Event>)
    requires cap > 0
    ensures Replay(MachineOf(me, cap), s, es) == Execute(s, es)
  {
    if es != [] {
      ReplayIsExecution(me, cap, s, es[..|es| - 1]);
    }
  }

  type Shared = World<State, Thread, Event, Word>

  /** The world is that of the mutex, and all that has happened is a run of the machine. */
  ghost predicate Ready(world: Shared)
    reads world
  {
    world.cap > 0 && world.Valid() && world.machine == MachineOf(world.me, world.cap)
  }

  // ---------------------------------------------------------------- the rendezvous

  /** What waking up and running out of time make of a sleeping thread. */
  function Awake(th: Thread, elapsed: nat): Thread
    requires th.pc.Asleep?
  {
    th.(pc := Trying(Adjusted(th.pc.quad, elapsed), true))
  }

  function TooLate(th: Thread): Thread
    requires th.pc.Asleep?
  {
    th.(pc := Expired(th.pc.quad))
  }

  /** What the keyed event does to a thread. */
  function RendezvousOf(me: nat, cap: nat): Rendezvous<Thread, Event, Word>
    requires cap > 0
  {
    Rendezvous(
      (t: nat, u: nat, d: nat) => Meet(t, u, d),
      Expire(me),
      Settle(me),
      (w: Word) => LeaveDecision(w, cap),
      (th: Thread) => th.pc.Asleep?,
      (th: Thread) => th.pc.Asleep? && (th.pc.zero || th.pc.quad != INT64_MAX),
      (th: Thread, d: nat) => if th.pc.Asleep? then Awake(th, d) else th,
      (th: Thread) => if th.pc.Asleep? then TooLate(th) else th,
      (th: Thread) => if th.pc.Asleep? then th.(pc := th.pc.(zero := true)) else th,
      (th: Thread, r: int) => th.(pc := Idle(r)),
      (th: Thread, n: nat) => th.(pc := AfterRelease(n)))
  }

  lemma SettleAfter(w: Word, th: Thread, me: nat, cap: nat)
    requires cap > 0 && th.pc.Asleep?
    ensures var k := RendezvousOf(me, cap);
            && CanStep(TooLate(th), Settle(me))
            && After(w, TooLate(th), Settle(me), cap) ==
               (Outcome(w, k.leave(w)),
                match k.leave(w).result case Some(r) => k.gone(th, r) case None => k.back(th))
  {
  }

  lemma MeetAfter(s: State, e: Event)
    requires Enabled(s, e) && e.Meet?
    ensures e.u < |s.threads| && e.u != e.t
    ensures s.threads[e.t].pc.Asleep? && Apply(s, e).threads[e.t] == Awake(s.threads[e.t], e.elapsed)
    ensures s.threads[e.u].pc.Releasing?
    ensures Apply(s, e).threads[e.u] == s.threads[e.u].(pc := AfterRelease(s.threads[e.u].pc.wake - 1))
  {
  }

  lemma WaitIsLawful(me: nat, cap: nat)
    requires cap > 0
    ensures WaitLaws(MachineOf(me, cap), RendezvousOf(me, cap), me)
  {
    var m, k := MachineOf(me, cap), RendezvousOf(me, cap);
    forall s, u, d | m.fits(s) && m.enabled(s, k.meet(me, u, d))
      ensures m.mine(m.apply(s, k.meet(me, u, d))) == k.awake(m.mine(s), d)
    {
      MeetAfter(s, k.meet(me, u, d));
    }
  }

  lemma SettleIsLawful(me: nat, cap: nat)
    requires cap > 0
    ensures SettleLaws(MachineOf(me, cap), RendezvousOf(me, cap))
  {
    var m, k := MachineOf(me, cap), RendezvousOf(me, cap);
    forall th, w | k.asleep(th)
      ensures m.own(k.late(th), k.settle)
      ensures m.after(w, k.late(th), k.settle) ==
              (Outcome(w, k.leave(w)),
               match k.leave(w).result case Some(r) => k.gone(th, r) case None => k.back(th))
    {
      SettleAfter(w, th, me, cap);
    }
  }

  lemma ReleaseIsLawful(me: nat, cap: nat)
    requires cap > 0
    ensures ReleaseLaws(MachineOf(me, cap), RendezvousOf(me, cap), me)
  {
    var m, k := MachineOf(me, cap), RendezvousOf(me, cap);
    forall s, t, d, b, n: nat | m.fits(s) && t != me && n > 0 && m.mine(s) == k.owing(b, n)
                                && m.enabled(s, k.meet(t, me, d))
      ensures m.mine(m.apply(s, k.meet(t, me, d))) == k.owing(b, n - 1)
    {
      MeetAfter(s, k.meet(t, me, d));
    }
  }

  // ---------------------------------------------------------------- the code

  /** One retry loop of the source. */
  method Loop<R>(world: Shared, e: Event, decide: Word -> Decision<Word, R>)
    returns (result: Option<R>, ghost at: Word)
    requires Ready(world) && e.t == world.me && CanStep(world.Mine(), e)
    requires forall w :: After(w, world.Mine(), e, world.cap).0 == Outcome(w, decide(w))
    modifies world
    ensures Ready(world)
    ensures result.None? ==> world.turns == [] && |old(world.turns)| <= 1 + Disturbed(old(world.turns))
    ensures result.Some? && Disturbed(old(world.turns)) == 0 ==> at == old(world.state.word)
    ensures result.Some? ==>
              && world.Found(at) && |world.turns| < |old(world.turns)|
              && result.value == decide(at).result
              && (world.state.word, world.Mine()) == After(at, old(world.Mine()), e, world.cap)
              && world.Calls() == old(world.Calls()) + (if IsEntry(e) then [e] else [])
  {
    result, at := world.Retry(e, decide);
  }

  /** One attempt at a step on the word that has been read. */
  method TryOnce(world: Shared, seen: Word, next: Word, e: Event) returns (ok: bool)
    requires Ready(world) && e.t == world.me && CanStep(world.Mine(), e)
    requires After(seen, world.Mine(), e, world.cap).0 == next
    modifies world
    ensures Ready(world)
    ensures ok ==> world.Found(seen)
    ensures ok ==> (world.state.word, world.Mine()) == After(seen, old(world.Mine()), e, world.cap)
    ensures !ok ==> world.Mine() == old(world.Mine())
    ensures old(world.Unhindered(1)) && old(world.state.word) == seen ==> ok
    ensures world.Calls() == old(world.Calls()) + (if ok && IsEntry(e) then [e] else [])
  {
    var current;
    ok, current := world.CompareExchangeWeak(seen, next, e);
  }

  // ---------------------------------------------------------------- the slow lock

  /** What the steps make of a thread, in terms of the decision taken. */
  lemma TryLockAfter(w: Word, th: Thread, me: nat, cap: nat)
    requires cap > 0 && th.pc.Trying?
    ensures var d, (w', th') := LockDecision(w, th.pc.quad, cap), After(w, th, TryLock(me), cap);
            && w' == Outcome(w, d)
            && match d.result
               case Locked => th' == Acquired
               case Refused => th.pc.quad == 0 && th' == Thread(Idle(-1), th.holds)
               case SpinOn(budget, slot) =>
                 && th' == Thread(Spinning(th.pc.quad, budget, slot), th.holds)
                 && budget != 0 && slot != 0
               case GoToSleep => th' == Thread(Asleep(th.pc.quad, th.pc.quad == 0), th.holds)
  {
    FreeSlotIsLowest(w.spMask);
    assert w.spNfail < NFAIL_THRESHOLD ==> w.spNfail as nat < 10;
  }

  /** A spinning thread after one more round, with its slot. */
  function OneRoundOn(th: Thread, slot: bv4): Thread
    requires th.pc.Spinning? && th.pc.budget != 0
  {
    Thread(Spinning(th.pc.quad, th.pc.budget - 1, slot), th.holds)
  }

  lemma SpinAfter(w: Word, th: Thread, me: nat, cap: nat)
    requires cap > 0 && th.pc.Spinning? && th.pc.budget != 0 && th.pc.slot != 0
    ensures var d, (w', th') := SpinDecision(w), After(w, th, SpinPoked(me), cap);
            && w' == Outcome(w, d)
            && match d.result
               case SpinLocked => th' == Acquired
               case Relocated(slot) => slot != 0 && th' == OneRoundOn(th, slot)
               case Crowded => th' == OneRoundOn(th, 0)
  {
    FreeSlotIsLowest(w.spMask);
  }

  lemma GiveUpAfter(w: Word, th: Thread, me: nat, cap: nat)
    requires cap > 0 && th.pc.Spinning? && (th.pc.budget == 0 || th.pc.slot == 0)
    ensures var d, (w', th') := GiveUpDecision(w, th.pc.slot, cap), After(w, th, GiveUp(me), cap);
            && w' == d.next
            && th' == if d.result.LateLock? then Acquired else th.(pc := Asleep(th.pc.quad, th.pc.quad == 0))
  {
  }

  lemma UnlockAfter(w: Word, th: Thread, me: nat, cap: nat)
    requires cap > 0 && th.pc.Idle? && th.holds
    ensures var d, (w', th') := UnlockDecision(w, cap), After(w, th, Unlock(me), cap);
            && w' == d.next && th' == Thread(AfterRelease(d.result), false)
  {
  }

  /** The loop at the retry label. */
  method TryLockLoop(world: Shared, quad: int) returns (result: Option<LockResult>, ghost at: Word)
    requires Ready(world) && world.Mine().pc.Trying? && world.Mine().pc.quad == quad
    modifies world
    ensures Ready(world)
    ensures result.None? ==> world.turns == []
    ensures result.None? ==> |old(world.turns)| <= 1 + Disturbed(old(world.turns))
    ensures result.Some? ==> world.Found(at) && LockOutcome(at, world.state.word, quad, world.cap, result.value)
    ensures result.Some? && Disturbed(old(world.turns)) == 0 ==> at == old(world.state.word)
    ensures result.Some? ==> |world.turns| < |old(world.turns)| && world.Calls() == old(world.Calls())
    ensures result.Some? ==>
              match result.value
              case Locked => world.Mine() == Acquired
              case Refused => quad == 0 && world.Mine() == Thread(Idle(-1), old(world.Mine().holds))
              case SpinOn(budget, mask) =>
                && world.Mine() == Thread(Spinning(quad, budget, mask), old(world.Mine().holds))
                && budget != 0 && mask != 0
              case GoToSleep => world.Mine() == Thread(Asleep(quad, quad == 0), old(world.Mine().holds))
  {
    ghost var th := world.Mine();
    var cap := world.cap;
    forall w
      ensures After(w, th, TryLock(world.me), cap).0 == Outcome(w, LockDecision(w, quad, cap))
    {
      TryLockAfter(w, th, world.me, cap);
    }
    result, at := Loop(world, TryLock(world.me), w => LockDecision(w, quad, cap));
    TryLockAfter(at, th, world.me, cap);
    LockChoices(at, quad, cap);
  }

  /** What a spinning thread does when it has been poked. */
  method PokedLoop(world: Shared) returns (result: Option<SpinResult>, ghost at: Word)
    requires Ready(world) && CanStep(world.Mine(), SpinPoked(world.me))
    modifies world
    ensures Ready(world)
    ensures result.None? ==> world.turns == []
    ensures result.None? ==> |old(world.turns)| <= 1 + Disturbed(old(world.turns))
    ensures result.Some? ==> world.Found(at) && SpinOutcome(at, world.state.word, result.value)
    ensures result.Some? ==> |world.turns| < |old(world.turns)| && world.Calls() == old(world.Calls())
    ensures var th := old(world.Mine());
            result.Some? ==>
              match result.value
              case SpinLocked => world.Mine() == Acquired
              case Relocated(mask) => mask != 0 && world.Mine() == OneRoundOn(th, mask)
              case Crowded => world.Mine() == OneRoundOn(th, 0)
  {
    ghost var th := world.Mine();
    var cap := world.cap;
    forall w
      ensures After(w, th, SpinPoked(world.me), cap).0 == Outcome(w, SpinDecision(w))
    {
      SpinAfter(w, th, world.me, cap);
    }
    result, at := Loop(world, SpinPoked(world.me), w => SpinDecision(w));
    SpinAfter(at, th, world.me, cap);
    SpinChoices(at);
  }

  /** Returning the spinning slot, after having spun in vain. */
  method GiveUpLoop(world: Shared, mask: bv4) returns (result: Option<GiveUpResult>, ghost at: Word)
    requires Ready(world) && CanStep(world.Mine(), GiveUp(world.me)) && world.Mine().pc.slot == mask
    modifies world
    ensures Ready(world)
    ensures result.None? ==> world.turns == []
    ensures result.None? ==> |old(world.turns)| <= 1 + Disturbed(old(world.turns))
    ensures result.Some? ==> world.Found(at) && GiveUpOutcome(at, world.state.word, mask, world.cap, result.value)
    ensures result.Some? ==> |world.turns| < |old(world.turns)| && world.Calls() == old(world.Calls())
    ensures var th := old(world.Mine());
            result.Some? ==>
              world.Mine() == if result.value.LateLock? then Acquired
                              else Thread(Asleep(th.pc.quad, th.pc.quad == 0), th.holds)
  {
    ghost var th := world.Mine();
    var cap := world.cap;
    forall w
      ensures After(w, th, GiveUp(world.me), cap).0 == GiveUpDecision(w, mask, cap).next
    {
      GiveUpAfter(w, th, world.me, cap);
    }
    result, at := Loop(world, GiveUp(world.me), w => GiveUpDecision(w, mask, cap));
    GiveUpAfter(at, th, world.me, cap);
    GiveUpChoices(at, mask, cap);
  }

  /** A thread that spins in the slot `mask`; zero if it has none. */
  predicate IsSpinning(th: Thread, budget: nat, mask: bv4)
  {
    th.pc.Spinning? && th.pc.budget == budget && th.pc.slot == mask
  }

  /** The exchange of the spin byte; if nobody has poked it, that is a round for nothing. */
  method LookAtSpinByte(world: Shared) returns (poked: Option<bool>)
    requires Ready(world) && CanStep(world.Mine(), SpinPoked(world.me))
    modifies world
    ensures Ready(world) && world.Calls() == old(world.Calls())
    ensures poked.None? ==> world.turns == []
    ensures poked.Some? ==> |world.turns| < |old(world.turns)|
    ensures var th := old(world.Mine());
            && (poked == Some(true) ==> world.Mine() == th)
            && (poked == Some(false) ==> world.Mine() == OneRoundOn(th, th.pc.slot))
  {
    var turn := world.Begin();
    if turn.None? {
      return None;
    }
    if !turn.value.poked {
      world.Step(SpinIdle(world.me));
    }
    poked := Some(turn.value.poked);
  }

  /** Waiting for one quantum and looking at the spin byte: whether the thread has got the
      mutex, and otherwise in which slot it goes on. */
  method SpinTurn(world: Shared, mask: bv4) returns (got: Option<bool>, next: bv4, ghost at: Word)
    requires Ready(world) && world.Mine().pc.Spinning? && world.Mine().pc.budget != 0
    requires world.Mine().pc.slot == mask != 0
    modifies world
    ensures Ready(world)
    ensures got.None? ==> world.turns == []
    ensures got.Some? ==> |world.turns| < |old(world.turns)| && world.Calls() == old(world.Calls())
    ensures var th := old(world.Mine());
            got.Some? ==> world.Mine() == if got.value then Acquired else OneRoundOn(th, next)
    ensures got == Some(true) ==> world.Found(at) && Locks(at, world.state.word)
  {
    at := world.state.word;
    var poked := LookAtSpinByte(world);
    if poked.None? {
      return None, 0, at;
    }
    if !poked.value {
      return Some(false), mask, at;
    }
    var result;
    result, at := PokedLoop(world);
    if result.None? {
      return None, 0, at;
    }
    got := Some(result.value.SpinLocked?);
    next := if result.value.Relocated? then result.value.slot else 0;
  }

  /** A thread that spins has used up its budget or lost its slot. */
  predicate SpunInVain(was: Thread, now: Thread, last: bv4)
  {
    && was.pc.Spinning? && now.pc.Spinning?
    && now == was.(pc := Spinning(was.pc.quad, now.pc.budget, last))
    && (now.pc.budget == 0 || last == 0)
  }

  /** Spinning until the mutex is locked, or until the budget is used up or the slot lost; then
      `last` is the slot that is left. */
  method SpinOut(world: Shared, budget: nat, mask: bv4) returns (got: Option<bool>, last: bv4, ghost at: Word)
    requires Ready(world) && IsSpinning(world.Mine(), budget, mask)
    modifies world
    ensures Ready(world) && |world.turns| <= |old(world.turns)|
    ensures got.None? ==> world.turns == []
    ensures got.Some? ==> world.Calls() == old(world.Calls())
    ensures got.Some? && got.value ==> world.Mine() == Acquired && |world.turns| < |old(world.turns)|
    ensures got == Some(true) ==> world.Found(at) && Locks(at, world.state.word)
    ensures got.Some? && !got.value ==> SpunInVain(old(world.Mine()), world.Mine(), last)
  {
    ghost var th := world.Mine();
    var spBudget := budget;
    got, last, at := Some(false), mask, world.state.word;
    while spBudget != 0 && last != 0
      invariant Ready(world) && |world.turns| <= |old(world.turns)| && world.Calls() == old(world.Calls())
      invariant world.Mine().pc == Spinning(th.pc.quad, spBudget, last) && world.Mine().holds == th.holds
      invariant got == Some(false)
      decreases spBudget
    {
      got, last, at := SpinTurn(world, last);
      if got.None? || got.value {
        return;
      }
      spBudget := spBudget - 1;
    }
  }

  /** Spinning: true if it has got the mutex, false if the thread has become a sleeper. */
  method SpinLoop(world: Shared, budget: nat, mask: bv4) returns (got: Option<bool>, ghost at: Word)
    requires Ready(world) && IsSpinning(world.Mine(), budget, mask)
    modifies world
    ensures Ready(world)
    ensures got.None? ==> world.turns == []
    ensures got.Some? ==> |world.turns| < |old(world.turns)| && world.Calls() == old(world.Calls())
    ensures got == Some(true) ==> world.Found(at) && !at.locked
    ensures var th := old(world.Mine());
            got.Some? ==>
              world.Mine() == if got.value then Acquired else th.(pc := Asleep(th.pc.quad, th.pc.quad == 0))
  {
    var spMask;
    got, spMask, at := SpinOut(world, budget, mask);
    if got.Some? && !got.value {
      var last;
      last, at := GiveUpLoop(world, spMask);
      got := if last.None? then None else Some(last.value.LateLock?);
    }
  }

  /** Sleeping: until a release has come, or the thread has taken itself off the count. */
  method SleepLoop(world: Shared) returns (slept: Option<Slept>, ghost at: Word)
    requires Ready(world) && world.Mine().pc.Asleep?
    requires world.Mine().pc.zero ==> world.Mine().pc.quad != INT64_MAX
    modifies world
    ensures Ready(world)
    ensures slept.None? ==> world.turns == []
    ensures slept.Some? ==> |world.turns| < |old(world.turns)| && world.Calls() == old(world.Calls())
    ensures slept.Some? && slept.value.Notified? ==> world.Mine() == Awake(old(world.Mine()), slept.value.elapsed)
    ensures slept.Some? && slept.value.Left? ==>
              && slept.value.result == -1 && world.Mine() == old(world.Mine()).(pc := Idle(-1))
              && old(world.Mine()).pc.quad != INT64_MAX
              && world.Found(at) && LeavesCount(at, world.state.word, world.cap)
  {
    WaitIsLawful(world.me, world.cap);
    SettleIsLawful(world.me, world.cap);
    slept, at := KeyedEvent.Sleep(world, RendezvousOf(world.me, world.cap));
  }

  /** Sleeping in a call that has slept `used` of its time: with the time that is left once a
      release has come, or without once the thread has taken itself off the count. */
  method SleepOn(world: Shared, quad: int, ghost initial: int, ghost used: nat)
    returns (left: Option<Option<int>>, ghost at: Word, ghost used': nat)
    requires Ready(world) && world.Mine().pc.Asleep? && world.Mine().pc == Asleep(quad, quad == 0)
    requires quad == Adjusted(initial, used)
    modifies world
    ensures Ready(world)
    ensures left.None? ==> world.turns == []
    ensures left.Some? ==> |world.turns| < |old(world.turns)| && world.Calls() == old(world.Calls())
    ensures left.Some? ==>
              match left.value
              case Some(q) =>
                q == Adjusted(initial, used') && world.Mine() == old(world.Mine()).(pc := Trying(q, true))
              case None =>
                && world.Mine() == old(world.Mine()).(pc := Idle(-1)) && initial != INT64_MAX
                && world.Found(at) && LeavesCount(at, world.state.word, world.cap)
  {
    var slept;
    slept, at := SleepLoop(world);
    used' := used;
    if slept.None? {
      return None, at, used';
    }
    match slept.value {
      case Notified(elapsed) =>
        SleptOn(initial, used, quad, elapsed);
        return Some(Some(Adjusted(quad, elapsed))), at, used + elapsed;
      case Left(_) =>
        return Some(None), at, used';
    }
  }

  /** How a call ends: it locks a mutex that it finds unlocked, is refused a locked one when all of
      its time has been slept away, or leaves while it is counted. */
  predicate Answers(how: Ending<Word>, quad: int, result: int)
  {
    match how
    case Tried(at, slept) => if at.locked then result == -1 && Adjusted(quad, slept) == 0 else result == 0
    case HadLeft(at, _) => result == -1 && at.nsleep > 0 && quad != INT64_MAX
  }

  /** A thread whose call has returned `result`. */
  function Answered(th: Thread, result: int): Thread
  {
    if result == 0 then Acquired else Thread(Idle(result), th.holds)
  }

  /** One attempt, by the first loop and by spinning: its result, or nothing if the thread has
      become a sleeper. */
  method Attempt(world: Shared, quad: int) returns (result: Option<Option<int>>, ghost at: Word)
    requires Ready(world) && world.Mine().pc.Trying? && world.Mine().pc.quad == quad
    modifies world
    ensures Ready(world)
    ensures result.None? ==> world.turns == []
    ensures old(world.Unhindered(2)) && !old(world.state.word.locked) ==> result == Some(Some(0))
    ensures old(world.Unhindered(2)) && old(world.state.word.locked) && quad == 0 ==> result == Some(Some(-1))
    ensures result.Some? ==> |world.turns| < |old(world.turns)| && world.Calls() == old(world.Calls())
    ensures result.Some? ==>
              match result.value
              case None => world.Mine() == Thread(Asleep(quad, quad == 0), old(world.Mine().holds))
              case Some(r) =>
                && world.Mine() == Answered(old(world.Mine()), r) && world.Found(at)
                && if at.locked then r == -1 && quad == 0 else r == 0
  {
    var attempt;
    attempt, at := TryLockLoop(world, quad);
    if attempt.None? {
      return None, at;
    }
    match attempt.value {
      case Locked =>
        return Some(Some(0)), at;
      case Refused =>
        return Some(Some(-1)), at;
      case SpinOn(budget, mask) =>
        var got;
        got, at := SpinLoop(world, budget, mask);
        return if got.None? then None else Some(if got.value then Some(0) else None), at;
      case GoToSleep =>
        return Some(None), at;
    }
  }

  /** The slow lock from its retry label on. */
  method LockFrom(world: Shared, initialQuad: int) returns (result: Option<int>, ghost how: Ending<Word>)
    requires Ready(world) && world.Mine().pc.Trying? && world.Mine().pc.quad == initialQuad
    modifies world
    ensures Ready(world)
    ensures result.None? ==> world.turns == []
    ensures old(world.Unhindered(2)) && !old(world.state.word.locked) ==> result == Some(0)
    ensures old(world.Unhindered(2)) && old(world.state.word.locked) && initialQuad == 0 ==> result == Some(-1)
    ensures result.Some? ==>
              && world.Calls() == old(world.Calls())
              && world.Mine() == Answered(old(world.Mine()), result.value)
              && world.Found(how.at) && Answers(how, initialQuad, result.value)
  {
    ghost var th, found := world.Mine(), world.state.word;
    ghost var sure := world.Unhindered(2) && (!found.locked || initialQuad == 0);
    ghost var used: nat := 0;
    var quad := initialQuad;
    while true
      invariant Ready(world) && world.Calls() == old(world.Calls())
      invariant world.Mine().pc.Trying? && world.Mine().pc.quad == quad && world.Mine().holds == th.holds
      invariant quad == Adjusted(initialQuad, used)
      invariant sure ==> world.Unhindered(2) && world.state.word == found && quad == initialQuad
      decreases |world.turns|
    {
      var attempt, at := Attempt(world, quad);
      how := Tried(at, used);
      if attempt.None? || attempt.value.Some? {
        return if attempt.None? then None else attempt.value, how;
      }
      var left;
      ghost var seen;
      left, seen, used := SleepOn(world, quad, initialQuad, used);
      if left.None? || left.value.None? {
        return if left.None? then None else Some(-1), HadLeft(seen, used);
      }
      quad := left.value.value;
    }
  }

  /** Locks the mutex: 0 when it has been locked, -1 when the time is over.  Whatever other
      threads do, all that this thread does are steps of the machine, and without a timeout it
      does not fail. */
  method LockSlow(world: Shared, msOpt: Option<int>) returns (result: Option<int>, ghost how: Ending<Word>)
    requires Ready(world) && world.Mine().pc.Idle?
    requires msOpt.Some? ==> IsInt64(msOpt.value)
    modifies world
    ensures Ready(world)
    ensures result.None? ==> world.turns == []
    ensures old(world.Unhindered(2)) && (msOpt == Some(0) || !old(world.state.word.locked)) ==>
              result == Some(if old(world.state.word.locked) then -1 else 0)
    ensures result.Some? ==>
              && world.Calls() == old(world.Calls()) + [Call(world.me, msOpt)]
              && (result.value == 0 || (result.value == -1 && msOpt.Some?))
              && world.Mine() == Answered(old(world.Mine()), result.value)
              && world.Found(how.at) && Answers(how, Converted(msOpt), result.value)
  {
    world.Step(Call(world.me, msOpt));
    result, how := LockFrom(world, Converted(msOpt));
  }

  /** The attempt inline: one exchange, if the mutex has been read as unlocked. */
  method LockFast(world: Shared) returns (ok: bool, ghost at: Word)
    requires Ready(world) && world.Mine().pc.Trying?
    modifies world
    ensures Ready(world) && world.Calls() == old(world.Calls())
    ensures ok ==> world.Found(at) && !at.locked && world.Mine() == Acquired
    ensures !ok ==> world.Mine() == old(world.Mine())
    ensures old(world.Unhindered(3)) ==>
              && ok == !old(world.state.word.locked)
              && (!ok ==> world.Unhindered(2) && world.state.word == old(world.state.word))
  {
    var seen := world.Load();
    at := world.state.word;
    ok := false;
    if seen.Some? && !seen.value.locked {
      TryLockAfter(seen.value, world.Mine(), world.me, world.cap);
      ok := TryOnce(world, seen.value, Taken(seen.value), TryLock(world.me));
    }
  }

  /** The fast path: one attempt to lock an unlocked mutex, then the slow lock. */
  method LockInline(world: Shared, msOpt: Option<int>) returns (result: Option<int>, ghost how: Ending<Word>)
    requires Ready(world) && world.Mine().pc.Idle?
    requires msOpt.Some? ==> IsInt64(msOpt.value)
    modifies world
    ensures Ready(world)
    ensures result.None? ==> world.turns == []
    ensures old(world.Unhindered(3)) && (msOpt == Some(0) || !old(world.state.word.locked)) ==>
              result == Some(if old(world.state.word.locked) then -1 else 0)
    ensures result.Some? ==>
              && world.Calls() == old(world.Calls()) + [Call(world.me, msOpt)]
              && (result.value == 0 || (result.value == -1 && msOpt.Some?))
              && world.Mine() == Answered(old(world.Mine()), result.value)
              && world.Found(how.at) && Answers(how, Converted(msOpt), result.value)
  {
    world.Step(Call(world.me, msOpt));
    var ok, at := LockFast(world);
    if ok {
      return Some(0), Tried(at, 0);
    }
    result, how := LockFrom(world, Converted(msOpt));
  }

  // ---------------------------------------------------------------- the slow unlock

  /** Releases waiters one at a time. */
  method ReleaseAll(world: Shared, count: nat) returns (done: bool)
    requires Ready(world) && world.Mine().pc == AfterRelease(count)
    modifies world
    ensures Ready(world) && world.Calls() == old(world.Calls()) && old(world.history) <= world.history
    ensures if done then world.Mine() == old(world.Mine()).(pc := Idle(0)) else world.turns == []
    ensures count == 0 ==> done
  {
    ReleaseIsLawful(world.me, world.cap);
    done := BatchRelease(world, RendezvousOf(world.me, world.cap), count, world.Mine());
  }

  /** Unlocks the mutex and releases a sleeping thread, if there is one. */
  method UnlockSlow(world: Shared) returns (done: bool)
    requires Ready(world) && world.Mine().pc.Idle? && world.Mine().holds
    modifies world
    ensures Ready(world)
    ensures done ==> world.Mine() == Thread(Idle(0), false)
    ensures done ==> world.Calls() == old(world.Calls()) + [Unlock(world.me)]
    ensures !done ==> world.turns == []
    ensures old(world.Unhindered(2)) && old(world.state.word.nsleep) == 0 ==> done
  {
    ghost var th := world.Mine();
    var cap := world.cap;
    forall w
      ensures After(w, th, Unlock(world.me), cap).0 == UnlockDecision(w, cap).next
    {
      UnlockAfter(w, th, world.me, cap);
    }
    ghost var at;
    var wake: Option<nat>;
    wake, at := Loop(world, Unlock(world.me), w => UnlockDecision(w, cap));
    UnlockAfter(at, th, world.me, cap);
    if wake.None? {
      return false;
    }
    done := ReleaseAll(world, wake.value);
  }

  lemma QuietUnlock(w: Word, cap: nat)
    requires cap > 0 && w.spMask == 0 && w.nsleep == 0
    ensures UnlockDecision(w, cap) == Exchange(w.(locked := false), 0)
  {
  }

  /** The fast path: one attempt to unlock a mutex that nobody waits for, then the slow unlock. */
  method UnlockInline(world: Shared) returns (done: bool)
    requires Ready(world) && world.Mine().pc.Idle? && world.Mine().holds
    modifies world
    ensures Ready(world)
    ensures done ==> world.Mine() == Thread(Idle(0), false)
    ensures done ==> world.Calls() == old(world.Calls()) + [Unlock(world.me)]
    ensures !done ==> world.turns == []
    ensures old(world.Unhindered(3)) && old(world.state.word.nsleep) == 0 ==> done
  {
    var seen := world.Load();
    if seen.Some? && seen.value.spMask == 0 && seen.value.nsleep == 0 {
      UnlockAfter(seen.value, world.Mine(), world.me, world.cap);
      QuietUnlock(seen.value, world.cap);
      var ok := TryOnce(world, seen.value, seen.value.(locked := false), Unlock(world.me));
      if ok {
        return true;
      }
    }
    done := UnlockSlow(world);
  }

  // ---------------------------------------------------------------- what a caller may rely on

  /** The code does what the machine does: in a world that began with an unlocked mutex, every
      theorem about reachable states holds. */
  lemma WorldIsReachable(world: Shared, n: nat)
    requires Ready(world) && world.origin == Initial(n, world.cap) && n < world.cap
    ensures Reachable(world.state)
  {
    ReplayIsExecution(world.me, world.cap, world.origin, world.history);
  }

  /** A thread to which `LockSlow` has returned 0 is alone in holding the mutex. */
  lemma AcquiredExcludesOthers(world: Shared, n: nat)
    requires Ready(world) && world.origin == Initial(n, world.cap) && n < world.cap
    requires world.Mine() == Acquired
    ensures world.state.word.locked
    ensures forall u :: 0 <= u < |world.state.threads| && u != world.me ==> !world.state.threads[u].holds
  {
    WorldIsReachable(world, n);
    assert world.Mine() == world.state.threads[world.me];
    MutualExclusion(world.state);
  }

  /** From an unlocked mutex: one thread locks it and unlocks it again, whatever the others do.
      In between nobody else holds it. */
  method CriticalSection(me: nat, count: nat, cap: nat, turns: seq<Turn<Event>>)
    returns (world: Shared, done: bool)
    requires me < count < cap
    ensures Ready(world) && Reachable(world.state) && (!done ==> world.turns == [])
    ensures done ==> world.Mine() == Thread(Idle(0), false) && world.Calls() == [Call(me, None), Unlock(me)]
  {
    MachineIsLawful(me, cap);
    world := new World(MachineOf(me, cap), me, cap, Initial(count, cap), turns);
    var result, how := LockInline(world, None);
    WorldIsReachable(world, count);
    if result.None? {
      return world, false;
    }
    AcquiredExcludesOthers(world, count);
    assert forall u :: 0 <= u < |world.state.threads| && u != me ==> !world.state.threads[u].holds;
    done := UnlockInline(world);
    WorldIsReachable(world, count);
  }
}
