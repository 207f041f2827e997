/** The recursive mutex as the statements that one thread runs, proved to take only steps of the
    machine in `RecursiveMutex` while any other threads do the same.  Between two statements the
    others have their turn; a statement that has to wait takes as many turns as it needs. */
module RecursiveMutexCode {
  import opened Wrappers
  import opened AtomicWord
  import opened Timeouts
  import opened RecursiveMutex
  import Mutex
  import Cond

  /** Everything but a call of thread `me` and its next statement: the other threads, and what
      goes on inside the inner mutex and in a wait on the condition variable. */
  predicate Foreign(e: Event, me: nat)
  {
    match e
    case Inner(_) => true
    case Signalling(signal) => !(signal.Signal? && signal.t == me)
    case _ => e.t != me
  }

  predicate IsEntry(e: Event) { e.Recurse? || e.Lock? || e.Release? || e.CondWait? }

  /** The machine as thread `me` sees it.  There is no single word that its steps depend on. */
  function MachineOf(me: nat): Machine<State, Pc, Event, ()>
  {
    Machine(
      (s: State, e: Event) => Enabled(s, e),
      (s: State, e: Event) => if Enabled(s, e) then Apply(s, e) else s,
      (s: State) => me < |s.pcs|,
      (e: Event) => Foreign(e, me),
      (e: Event) => IsEntry(e),
      (pc: Pc, e: Event) => false,
      (s: State) => (),
      (s: State) => if me < |s.pcs| then s.pcs[me] else Free(0),
      (w: (), pc: Pc, e: Event) => (w, pc))
  }

  lemma StepSize(s: State, e: Event, me: nat)
    requires Enabled(s, e) && me < |s.pcs|
    ensures |Apply(s, e).pcs| == |s.pcs|
    ensures Foreign(e, me) ==> Apply(s, e).pcs[me] == s.pcs[me]
  {
  }

  lemma MachineIsLawful(me: nat)
    ensures Lawful(MachineOf(me))
  {
    var m := MachineOf(me);
    forall s, e | m.fits(s) && m.enabled(s, e)
      ensures m.fits(m.apply(s, e)) && (m.foreign(e) ==> m.mine(m.apply(s, e)) == m.mine(s))
    {
      StepSize(s, e, me);
    }
  }

  /** A run of the machine as a thread sees it is a run of the recursive mutex. */
  lemma {:induction false} ReplayIsExecution(me: nat, s: State, es: seq<Event>)
    ensures Replay(MachineOf(me), s, es) == Execute(s, es)
  {
    if es != [] {
      ReplayIsExecution(me, s, es[..|es| - 1]);
    }
  }

  // ---------------------------------------------------------------- what others leave alone

  /** Thread `me` is the owner at this depth. */
  predicate Owns(s: State, me: nat, depth: int) { s.owner == me + 1 && s.depth == depth }

  /** What does not change while it is not this thread's turn: where it is, whether it is the
      owner, and if so the depth, and that it is in no call of the condition variable. */
  predicate Undisturbed(s: State, next: State, me: nat)
  {
    && me < |s.pcs| && me < |next.pcs| && next.pcs[me] == s.pcs[me]
    && (next.owner == me + 1 <==> s.owner == me + 1)
    && (s.owner == me + 1 ==> next.depth == s.depth)
    && (Unconcerned(s, me) ==> Unconcerned(next, me))
  }

  /** Thread `me` is in no call of the condition variable. */
  predicate Unconcerned(s: State, me: nat) { me < |s.cond.threads| && s.cond.threads[me].Idle? }

  lemma OneForeignStep(s: State, e: Event, me: nat)
    requires Inv(s) && Enabled(s, e) && Foreign(e, me) && me < |s.pcs|
    ensures Undisturbed(s, Apply(s, e), me)
  {
    StepSize(s, e, me);
    if s.owner != 0 {
      OwnerHolds(s);
    }
    if !e.Inner? && !e.Signalling? {
      assert Agree(s, e.t);
      Mutex.MutualExclusion(s.mutex);
    }
  }

  lemma {:induction false} ForeignSteps(s: State, es: seq<Event>, me: nat)
    requires Inv(s) && Execute(s, es).Some? && me < |s.pcs|
    requires forall e :: e in es ==> Foreign(e, me)
    ensures Undisturbed(s, Execute(s, es).value, me)
  {
    if es != [] {
      var init := es[..|es| - 1];
      ForeignSteps(s, init, me);
      RunKeepsInv(s, init);
      OneForeignStep(Execute(s, init).value, es[|es| - 1], me);
    }
  }

  type Shared = World<State, Pc, Event, ()>

  ghost predicate Ready(world: Shared)
    reads world
  {
    world.Valid() && world.machine == MachineOf(world.me) && Inv(world.origin)
  }

  /** The code does what the machine does, so the invariant of the machine holds. */
  lemma StateInv(world: Shared)
    requires Ready(world)
    ensures Inv(world.state) && world.me < |world.state.pcs| && world.Mine() == world.state.pcs[world.me]
  {
    ReplayIsExecution(world.me, world.origin, world.history);
    RunKeepsInv(world.origin, world.history);
  }

  lemma ForeignRun(me: nat, origin: State, past: seq<Event>, more: seq<Event>, s: State)
    requires Inv(origin) && Replay(MachineOf(me), origin, past) == Some(s) && me < |s.pcs|
    requires Replay(MachineOf(me), origin, past + more).Some?
    requires forall e :: e in more ==> Foreign(e, me)
    ensures Undisturbed(s, Replay(MachineOf(me), origin, past + more).value, me)
  {
    ReplayIsExecution(me, origin, past);
    RunKeepsInv(origin, past);
    ReplayOn(MachineOf(me), origin, past, more);
    ReplayIsExecution(me, s, more);
    ForeignSteps(s, more, me);
  }

  /** The others have their turn. */
  method Yield(world: Shared) returns (ok: bool)
    requires Ready(world)
    modifies world
    ensures Ready(world) && world.Calls() == old(world.Calls())
    ensures Undisturbed(old(world.state), world.state, world.me)
    ensures if ok then |world.turns| < |old(world.turns)| else world.turns == []
    ensures Onward(old(world.history), world.history, world.me)
  {
    ghost var past := world.history;
    StateInv(world);
    ghost var was := world.state;
    var turn := world.Begin();
    ghost var more := world.history[|past|..];
    assert world.history == past + more;
    ForeignRun(world.me, world.origin, past, more, was);
    ok := turn.Some?;
  }

  /** The run has gone on, and the thread has begun neither to signal nor to wait. */
  ghost predicate Onward(before: seq<Event>, after: seq<Event>, me: nat)
  {
    before <= after && forall e :: e in after[|before|..] ==> !OwnSignal(e, me)
  }

  lemma OnwardOn(a: seq<Event>, b: seq<Event>, c: seq<Event>, me: nat)
    requires Onward(a, b, me) && Onward(b, c, me)
    ensures Onward(a, c, me)
  {
    assert c[|a|..] == b[|a|..] + c[|b|..];
  }

  // ---------------------------------------------------------------- one statement

  /** What the next statement of a call does for its thread: `owner` and `depth` are what the
      thread finds if it is the owner. */
  predicate Did(pc: Pc, owned: bool, depth: int, next: State, me: nat)
  {
    && me < |next.pcs|
    && match pc
       case Free(_) => false
       case Locking(limited) =>
         || (next.pcs[me] == Claiming && !owned)
         || (next.pcs[me] == Free(-1) && limited && if owned then Owns(next, me, depth) else next.owner != me + 1)
       case Claiming => next.pcs[me] == Deepening
       case Deepening => next.pcs[me] == Free(0) && Owns(next, me, 1)
       case Clearing => next.pcs[me] == Unlocking && next.owner == 0
       case Unlocking => next.pcs[me] == Returning
       case Returning => next.pcs[me] == Free(0) && next.owner != me + 1
       case WaitSaving => next.pcs[me] == WaitClearing(depth) && next.depth == 0
       case WaitClearing(d) => next.pcs[me] == WaitUnlocking(d) && next.owner == 0
       case WaitUnlocking(d) => next.pcs[me] == WaitReleasing(d)
       case WaitReleasing(d) => next.pcs[me] == Waiting(d)
       case Waiting(d) => next.pcs[me] == Relocking(d)
       case Relocking(d) => next.pcs[me] == Reclaiming(d)
       case Reclaiming(d) => next.pcs[me] == Restoring(d) && next.owner == me + 1
       case Restoring(d) =>
         && (next.pcs[me] == Free(0) || next.pcs[me] == Free(-1)) && Owns(next, me, d)
         && me < |next.cond.threads| && next.cond.threads[me] == Cond.Idle(next.pcs[me].result)
  }

  /** Each statement does this, and the assertions of the source hold where they stand. */
  lemma Statement(s: State, me: nat)
    requires Inv(s) && me < |s.pcs| && CanAdvance(s, me)
    ensures Did(s.pcs[me], s.owner == me + 1, s.depth, AdvanceStep(s, me), me)
    ensures s.pcs[me].Claiming? || s.pcs[me].Reclaiming? ==> s.owner == 0
    ensures s.pcs[me].Deepening? ==> s.depth == 0
    ensures s.pcs[me].WaitSaving? ==> s.depth > 0
    ensures s.pcs[me].Restoring? ==> s.pcs[me].saved > 0
    ensures Unconcerned(s, me) ==> Unconcerned(AdvanceStep(s, me), me)
  {
    assert Agree(s, me);
    if s.owner != 0 {
      OwnerHolds(s);
    }
  }

  /** A thread that is about to save the depth is the owner. */
  lemma SaverOwns(s: State, me: nat)
    requires Inv(s) && me < |s.pcs| && s.pcs[me].WaitSaving?
    ensures s.owner == me + 1
  {
    assert Agree(s, me);
  }

  method Take(world: Shared)
    requires Ready(world) && world.me < |world.state.pcs| && SameSize(world.state)
    requires CanAdvance(world.state, world.me)
    modifies world`state, world`history
    ensures Ready(world) && world.Calls() == old(world.Calls())
    ensures var was := old(world.state);
            Did(old(world.Mine()), was.owner == world.me + 1, was.depth, world.state, world.me)
    ensures world.Mine() == world.state.pcs[world.me]
    ensures Unconcerned(old(world.state), world.me) ==> Unconcerned(world.state, world.me)
    ensures Onward(old(world.history), world.history, world.me)
  {
    StateInv(world);
    Statement(world.state, world.me);
    world.Step(Advance(world.me));
  }

  /** Runs the next statement of the call that the thread is in, once it can. */
  method Next(world: Shared) returns (ok: bool)
    requires Ready(world) && !world.Mine().Free?
    modifies world
    ensures Ready(world) && world.Calls() == old(world.Calls())
    ensures var was := old(world.state);
            ok ==> Did(old(world.Mine()), was.owner == world.me + 1, was.depth, world.state, world.me)
    ensures ok ==> world.Mine() == world.state.pcs[world.me]
    ensures Unconcerned(old(world.state), world.me) ==> Unconcerned(world.state, world.me)
    ensures Onward(old(world.history), world.history, world.me)
    ensures !ok ==> world.turns == []
  {
    StateInv(world);
    ghost var was, past := world.state, world.history;
    if was.pcs[world.me].WaitSaving? {
      SaverOwns(was, world.me);
    }
    while true
      invariant Ready(world) && world.Mine() == old(world.Mine()) && world.Calls() == old(world.Calls())
      invariant Undisturbed(was, world.state, world.me) && Onward(past, world.history, world.me)
      decreases |world.turns|
    {
      ghost var before := world.history;
      ok := Yield(world);
      OnwardOn(past, before, world.history, world.me);
      if !ok {
        return;
      }
      StateInv(world);
      if CanAdvance(world.state, world.me) {
        before := world.history;
        Take(world);
        OnwardOn(past, before, world.history, world.me);
        return;
      }
    }
  }

  // ---------------------------------------------------------------- calls

  lemma LockBegins(s: State, me: nat, msOpt: Option<int>)
    requires Inv(s) && me < |s.pcs| && s.pcs[me].Free?
    requires msOpt.Some? ==> IsInt64(msOpt.value)
    ensures Enabled(s, Lock(me, msOpt))
    ensures Apply(s, Lock(me, msOpt)) ==
            Put(s, me, Locking(msOpt.Some?)).(mutex := Mutex.Apply(s.mutex, Mutex.Call(me, msOpt)))
  {
    assert Agree(s, me);
    Mutex.ReachableInv(s.mutex);
  }

  lemma ReleaseBegins(s: State, me: nat)
    requires Inv(s) && me < |s.pcs| && s.pcs[me].Free? && s.owner == me + 1
    ensures Enabled(s, RecursiveMutex.Release(me)) && s.depth > 0
    ensures var next := Apply(s, RecursiveMutex.Release(me));
            && Owns(next, me, s.depth - 1)
            && next.pcs[me] == if s.depth > 1 then Free(0) else Clearing
  {
    assert Agree(s, me);
    OwnerHolds(s);
  }

  lemma WaitBeginsHere(s: State, me: nat, msOpt: Option<int>)
    requires Inv(s) && me < |s.pcs| && s.pcs[me].Free? && s.owner == me + 1 && s.cond.threads[me].Idle?
    requires msOpt.Some? ==> IsInt64(msOpt.value)
    ensures Enabled(s, CondWait(me, msOpt)) && Apply(s, CondWait(me, msOpt)).pcs[me] == WaitSaving
    ensures var next := Apply(s, CondWait(me, msOpt));
            SameSize(next) && next.cond.threads[me] == Cond.Unlocking(Converted(msOpt))
    ensures Owns(Apply(s, CondWait(me, msOpt)), me, s.depth)
  {
    Cond.ReachableInv(s.cond);
  }

  /** Deepens the ownership of a thread that already is the owner; -1 if it is not. */
  method Recurse(world: Shared) returns (err: int)
    requires Ready(world) && world.Mine().Free?
    requires Owns(world.state, world.me, world.state.depth) ==> world.state.depth < INT_MAX
    modifies world
    ensures Ready(world) && world.Mine() == Free(err)
    ensures err == if old(world.state).owner == world.me + 1 then 0 else -1
    ensures err == 0 ==> Owns(world.state, world.me, old(world.state).depth + 1)
    ensures err != 0 ==> world.state.owner == old(world.state).owner && world.state.depth == old(world.state).depth
    ensures world.Calls() == old(world.Calls()) + [RecursiveMutex.Recurse(world.me)]
    ensures Unconcerned(old(world.state), world.me) ==> Unconcerned(world.state, world.me)
  {
    StateInv(world);
    err := if world.state.owner != world.me + 1 then -1 else 0;
    world.Step(RecursiveMutex.Recurse(world.me));
  }

  /** Locks the inner mutex and becomes the owner at depth 1.  A thread that already is the owner
      stays the owner at its depth, and cannot succeed. */
  method Wait(world: Shared, msOpt: Option<int>) returns (err: Option<int>)
    requires Ready(world) && world.Mine().Free?
    requires msOpt.Some? ==> IsInt64(msOpt.value)
    modifies world
    ensures Ready(world) && (err.None? ==> world.turns == [])
    ensures world.Calls() == old(world.Calls()) + [Lock(world.me, msOpt)]
    ensures Unconcerned(old(world.state), world.me) ==> Unconcerned(world.state, world.me)
    ensures err.Some? ==> world.Mine() == Free(err.value) && (err.value == 0 || err.value == -1)
    ensures err == Some(0) ==> old(world.state).owner != world.me + 1 && Owns(world.state, world.me, 1)
    ensures err == Some(-1) ==>
              && msOpt.Some?
              && if old(world.state).owner == world.me + 1 then Owns(world.state, world.me, old(world.state).depth)
                 else world.state.owner != world.me + 1
  {
    StateInv(world);
    LockBegins(world.state, world.me, msOpt);
    world.Step(Lock(world.me, msOpt));
    var ok := Next(world);                      // the inner lock
    if !ok {
      return None;
    }
    if world.Mine().Free? {
      return Some(-1);
    }
    ok := Next(world);                          // the owner
    if !ok {
      return None;
    }
    ok := Next(world);                          // the depth
    return if ok then Some(0) else None;
  }

  /** Gives up one level of ownership, and the inner mutex with the last one. */
  method Release(world: Shared) returns (ok: bool)
    requires Ready(world) && world.Mine().Free? && world.state.owner == world.me + 1
    modifies world
    ensures Ready(world) && (!ok ==> world.turns == [])
    ensures world.Calls() == old(world.Calls()) + [RecursiveMutex.Release(world.me)]
    ensures Unconcerned(old(world.state), world.me) ==> Unconcerned(world.state, world.me)
    ensures ok ==> world.Mine() == Free(0)
    ensures ok ==> if old(world.state).depth > 1 then Owns(world.state, world.me, old(world.state).depth - 1)
                   else world.state.owner != world.me + 1
  {
    StateInv(world);
    ReleaseBegins(world.state, world.me);
    world.Step(RecursiveMutex.Release(world.me));
    if world.state.depth != 0 {
      return true;
    }
    ok := Next(world);                          // the owner
    if !ok {
      return;
    }
    ok := Next(world);                          // the inner unlock
    if !ok {
      return;
    }
    ok := Next(world);                          // until it returns
  }

  /** Two statements, one after the other. */
  method NextTwo(world: Shared) returns (ok: bool, ghost mid: State, ghost pc: Pc)
    requires Ready(world) && !world.Mine().Free?
    requires !world.Mine().Locking? && !world.Mine().Deepening?
    requires !world.Mine().Returning? && !world.Mine().Restoring?
    modifies world
    ensures Ready(world) && world.Calls() == old(world.Calls())
    ensures Onward(old(world.history), world.history, world.me)
    ensures var was := old(world.state);
            ok ==>
              && Did(old(world.Mine()), was.owner == world.me + 1, was.depth, mid, world.me)
              && pc == mid.pcs[world.me] && !pc.Free?
              && Did(pc, mid.owner == world.me + 1, mid.depth, world.state, world.me)
    ensures ok ==> world.Mine() == world.state.pcs[world.me]
    ensures !ok ==> world.turns == []
  {
    ghost var past := world.history;
    ok := Next(world);
    mid, pc := world.state, world.Mine();
    if ok {
      ghost var before := world.history;
      ok := Next(world);
      OnwardOn(past, before, world.history, world.me);
    }
  }

  /** The unlock callback: gives up all levels of ownership and remembers how many. */
  method UnlockCallback(world: Shared) returns (unlocked: Option<int>)
    requires Ready(world) && world.Mine().WaitSaving?
    modifies world
    ensures Ready(world) && world.Calls() == old(world.Calls())
    ensures Onward(old(world.history), world.history, world.me)
    ensures unlocked.None? ==> world.turns == []
    ensures unlocked.Some? ==> unlocked.value == old(world.state).depth && world.Mine() == Waiting(unlocked.value)
  {
    ghost var past := world.history;
    var ok, mid, pc := NextTwo(world);          // the depth, and the owner
    if !ok {
      return None;
    }
    var depth := world.Mine().saved;
    ghost var before := world.history;
    ok, mid, pc := NextTwo(world);              // the inner unlock, until it returns
    OnwardOn(past, before, world.history, world.me);
    return if ok then Some(depth) else None;
  }

  /** The relock callback: becomes the owner again, with as many levels as before. */
  method RelockCallback(world: Shared, unlocked: int) returns (ok: bool)
    requires Ready(world) && world.Mine() == Relocking(unlocked)
    modifies world
    ensures Ready(world) && world.Calls() == old(world.Calls())
    ensures Onward(old(world.history), world.history, world.me)
    ensures ok ==> Did(Restoring(unlocked), true, 0, world.state, world.me)
    ensures ok ==> world.Mine() == world.state.pcs[world.me]
    ensures !ok ==> world.turns == []
  {
    ghost var past, mid, pc := world.history, world.state, world.Mine();
    ok, mid, pc := NextTwo(world);              // the inner lock, and the owner
    if !ok {
      return;
    }
    ghost var before := world.history;
    ok := Next(world);                          // the depth
    OnwardOn(past, before, world.history, world.me);
  }

  /** The run since a wait began holds the event that its result stands for. */
  lemma ResultIsExplained(me: nat, origin: State, past: seq<Event>, all: seq<Event>, r: int)
    requires Onward(past, all, me)
    requires Replay(MachineOf(me), origin, past).Some? && Replay(MachineOf(me), origin, all).Some?
    requires var s, last := Replay(MachineOf(me), origin, past).value, Replay(MachineOf(me), origin, all).value;
             && SameSize(s) && me < |s.pcs| && s.cond.threads[me].Unlocking?
             && me < |last.cond.threads| && last.cond.threads[me] == Cond.Idle(r)
    ensures exists e :: e in all[|past|..] && Ends(e, me, r)
  {
    var s, more := Replay(MachineOf(me), origin, past).value, all[|past|..];
    assert all == past + more;
    ReplayOn(MachineOf(me), origin, past, more);
    ReplayIsExecution(me, s, more);
    WhyWaitsEnd(s, me, r, more);
  }

  /** What is left of a condition wait once it has begun: the unlock callback, the wait itself,
      and the relock callback. */
  method UnlockWaitRelock(world: Shared) returns (err: Option<int>)
    requires Ready(world) && world.Mine().WaitSaving?
    modifies world
    ensures Ready(world) && (err.None? ==> world.turns == [])
    ensures world.Calls() == old(world.Calls()) && Onward(old(world.history), world.history, world.me)
    ensures err.Some? ==>
              && Did(Restoring(old(world.state).depth), true, 0, world.state, world.me)
              && world.Mine() == world.state.pcs[world.me] == Free(err.value)
  {
    ghost var past := world.history;
    var unlocked := UnlockCallback(world);
    if unlocked.None? {
      return None;
    }
    ghost var before := world.history;
    var ok := Next(world);                      // until the wait is over
    OnwardOn(past, before, world.history, world.me);
    if !ok {
      return None;
    }
    before := world.history;
    ok := RelockCallback(world, unlocked.value);
    OnwardOn(past, before, world.history, world.me);
    return if ok then Some(world.Mine().result) else None;
  }

  /** Waits for a condition variable at any depth.  Signalled or not, the thread is the owner
      again, at the depth at which it began to wait; and it returns 0 only if a release has come
      since, and -1 only if its time was over and it has taken itself off the count. */
  method CondRecursiveMutexWait(world: Shared, msOpt: Option<int>) returns (err: Option<int>)
    requires Ready(world) && world.Mine().Free? && world.state.owner == world.me + 1
    requires Unconcerned(world.state, world.me)
    requires msOpt.Some? ==> IsInt64(msOpt.value)
    modifies world
    ensures Ready(world) && (err.None? ==> world.turns == [])
    ensures world.Calls() == old(world.Calls()) + [CondWait(world.me, msOpt)]
    ensures err.Some? ==> world.Mine() == Free(err.value) && Owns(world.state, world.me, old(world.state).depth)
    ensures err.Some? ==>
              && (err.value == 0 || err.value == -1) && old(world.history) <= world.history
              && exists e :: e in world.history[|old(world.history)|..] && Ends(e, world.me, err.value)
    ensures err.Some? ==> Unconcerned(world.state, world.me)
    ensures msOpt.None? ==> err != Some(-1)
  {
    StateInv(world);
    WaitBeginsHere(world.state, world.me, msOpt);
    world.Step(CondWait(world.me, msOpt));
    StateInv(world);
    ghost var past := world.history;
    err := UnlockWaitRelock(world);
    if err.Some? {
      ResultIsExplained(world.me, world.origin, past, world.history, err.value);
      ExplainedSince(world.history, |past| - 1, |past|, world.me, err.value);
      if msOpt.None? {
        UnlimitedUntilNow(world.me, world.origin, past, world.history);
      }
    }
  }

  lemma UnlimitedUntilNow(me: nat, origin: State, past: seq<Event>, all: seq<Event>)
    requires Onward(past, all, me)
    requires Replay(MachineOf(me), origin, past).Some? && Replay(MachineOf(me), origin, all).Some?
    requires var s := Replay(MachineOf(me), origin, past).value;
             SameSize(s) && me < |s.pcs| && Unlimited(s.cond.threads[me])
    ensures var last := Replay(MachineOf(me), origin, all).value;
            me < |last.cond.threads| && Unlimited(last.cond.threads[me])
  {
    var s, more := Replay(MachineOf(me), origin, past).value, all[|past|..];
    assert all == past + more;
    ReplayOn(MachineOf(me), origin, past, more);
    ReplayIsExecution(me, s, more);
    UnlimitedWaitsSucceed(s, me, more);
  }

  lemma ExplainedSince(history: seq<Event>, a: nat, b: nat, me: nat, r: int)
    requires a <= b <= |history| && exists e :: e in history[b..] && Ends(e, me, r)
    ensures exists e :: e in history[a..] && Ends(e, me, r)
  {
    var e :| e in history[b..] && Ends(e, me, r);
    assert history[a..] == history[a..b] + history[b..];
  }

  /** From a fresh recursive mutex: one thread locks it twice, waits for the condition variable
      at depth 2, and unlocks it twice, whatever the others do. */
  method LockTwiceAndWait(me: nat, count: nat, cap: nat, turns: seq<Turn<Event>>)
    returns (world: Shared, done: bool)
    requires me < count < cap
    ensures Ready(world) && (!done ==> world.turns == [])
    ensures done ==> world.Mine() == Free(0) && world.state.owner != me + 1
  {
    MachineIsLawful(me);
    InitialInv(count, cap);
    world := new World(MachineOf(me), me, cap, Initial(count, cap), turns);
    var err := Wait(world, None);
    if err.None? {
      return world, false;
    }
    var again := Recurse(world);
    assert again == 0 && Owns(world.state, me, 2);
    err := CondRecursiveMutexWait(world, None);
    if err.None? {
      return world, false;
    }
    assert Owns(world.state, me, 2);
    done := Release(world);
    if !done {
      return;
    }
    done := Release(world);
  }
}
