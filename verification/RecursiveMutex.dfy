/** The recursive mutex: an owner and a depth beside a plain mutex, and waiting for a condition
    variable at any depth.

    The machine is composed of the mutex machine, the condition variable machine and one program
    counter per thread.  Stores to `owner` and `depth` are separate steps, in the order of the
    source, so other threads see every state in between. */
module RecursiveMutex {
  import opened Wrappers
  import opened Timeouts
  import Mutex
  import Cond

  const INT_MAX := 0x7FFF_FFFF

  datatype Pc =
    | Free(result: int)            // outside; what the last call returned
    | Locking(limited: bool)       // in the inner lock, with or without a time limit
    | Claiming                     // has locked; about to store the owner
    | Deepening                    // about to store depth 1
    | Clearing                     // depth has become 0; about to clear the owner
    | Unlocking                    // about to unlock
    | Returning                    // in the inner unlock
    | WaitSaving                   // registered as a waiter; about to save and clear the depth
    | WaitClearing(saved: int)     // about to clear the owner
    | WaitUnlocking(saved: int)    // about to unlock
    | WaitReleasing(saved: int)    // in the inner unlock
    | Waiting(saved: int)          // asleep on the condition variable
    | Relocking(saved: int)        // in the inner lock
    | Reclaiming(saved: int)       // has locked; about to store the owner
    | Restoring(saved: int)        // about to store the depth

  /** The owner is zero or a thread identifier; thread `t` has the identifier `t + 1`. */
  datatype State = State(owner: nat, depth: int, pcs: seq<Pc>, mutex: Mutex.State, cond: Cond.State)

  datatype Event =
    | Recurse(t: nat)
    | Lock(t: nat, msOpt: Option<int>)
    | Release(t: nat)
    | CondWait(t: nat, msOpt: Option<int>)
    | Advance(t: nat)                 // the next statement of the call that thread `t` is in
    | Inner(inner: Mutex.Event)       // a step inside the inner lock or unlock
    | Signalling(signal: Cond.Event)  // a step inside the condition variable

  function Initial(n: nat, cap: nat): State
  {
    State(0, 0, seq(n, _ => Free(0)), Mutex.Initial(n, cap), Cond.Initial(n, cap))
  }

  predicate SameSize(s: State) { |s.pcs| == |s.mutex.threads| == |s.cond.threads| }

  /** Release and condition wait calls come from the owner; lock calls may come from anybody, and
      one that comes from the owner cannot succeed. */
  predicate Enabled(s: State, e: Event)
  {
    && SameSize(s)
    && match e
       case Recurse(t) => t < |s.pcs| && s.pcs[t].Free? && (s.owner == t + 1 ==> s.depth < INT_MAX)
       case Lock(t, msOpt) =>
         && t < |s.pcs| && s.pcs[t].Free?
         && Mutex.Enabled(s.mutex, Mutex.Call(t, msOpt))
       case Release(t) => t < |s.pcs| && s.pcs[t].Free? && s.owner == t + 1
       case CondWait(t, msOpt) =>
         && t < |s.pcs| && s.pcs[t].Free? && s.owner == t + 1
         && Cond.Enabled(s.cond, Cond.Enter(t, msOpt))
       case Advance(t) => t < |s.pcs| && CanAdvance(s, t)
       case Inner(inner) => !inner.Call? && !inner.Unlock? && !inner.Handoff? && Mutex.Enabled(s.mutex, inner)
       case Signalling(signal) =>
         && !signal.Enter? && !signal.Unlocked? && !signal.Relocked?
         && Cond.Enabled(s.cond, signal)
  }

  predicate CanAdvance(s: State, t: nat)
    requires SameSize(s) && t < |s.pcs|
  {
    var idle := s.mutex.threads[t].pc.Idle?;
    match s.pcs[t]
    case Free(_) => false
    case Locking(_) => idle
    case Unlocking => Mutex.Enabled(s.mutex, Mutex.Unlock(t))
    case Returning => idle
    case WaitUnlocking(_) => Mutex.Enabled(s.mutex, Mutex.Unlock(t))
    case WaitReleasing(_) => idle && Cond.Enabled(s.cond, Cond.Unlocked(t))
    case Waiting(_) => s.cond.threads[t].Relocking? && Mutex.Enabled(s.mutex, Mutex.Call(t, None))
    case Relocking(_) => idle
    case Restoring(_) => Cond.Enabled(s.cond, Cond.Relocked(t))
    case _ => true
  }

  function Put(s: State, t: nat, pc: Pc): State
    requires t < |s.pcs|
  {
    s.(pcs := s.pcs[t := pc])
  }

  /** The result of the inner lock is looked at in `Locking`, but not in
      `Relocking`. */
  function AdvanceStep(s: State, t: nat): State
    requires SameSize(s) && t < |s.pcs| && CanAdvance(s, t)
  {
    match s.pcs[t]
    case Locking(_) =>
      var err := s.mutex.threads[t].pc.result;
      Put(s, t, if err != 0 then Free(err) else Claiming)
    case Claiming => Put(s, t, Deepening).(owner := t + 1)
    case Deepening => Put(s, t, Free(0)).(depth := 1)
    case Clearing => Put(s, t, Unlocking).(owner := 0)
    case Unlocking => Put(s, t, Returning).(mutex := Mutex.Apply(s.mutex, Mutex.Unlock(t)))
    case Returning => Put(s, t, Free(0))
    case WaitSaving => Put(s, t, WaitClearing(s.depth)).(depth := 0)
    case WaitClearing(d) => Put(s, t, WaitUnlocking(d)).(owner := 0)
    case WaitUnlocking(d) => Put(s, t, WaitReleasing(d)).(mutex := Mutex.Apply(s.mutex, Mutex.Unlock(t)))
    case WaitReleasing(d) => Put(s, t, Waiting(d)).(cond := Cond.Apply(s.cond, Cond.Unlocked(t)))
    case Waiting(d) => Put(s, t, Relocking(d)).(mutex := Mutex.Apply(s.mutex, Mutex.Call(t, None)))
    case Relocking(d) => Put(s, t, Reclaiming(d))
    case Reclaiming(d) => Put(s, t, Restoring(d)).(owner := t + 1)
    case Restoring(d) =>
      var err := s.cond.threads[t].err;
      Put(s, t, Free(err)).(depth := d, cond := Cond.Apply(s.cond, Cond.Relocked(t)))
  }

  function Apply(s: State, e: Event): State
    requires Enabled(s, e)
  {
    match e
    case Recurse(t) =>
      if s.owner != t + 1 then Put(s, t, Free(-1)) else Put(s, t, Free(0)).(depth := s.depth + 1)
    case Lock(t, msOpt) => Put(s, t, Locking(msOpt.Some?)).(mutex := Mutex.Apply(s.mutex, Mutex.Call(t, msOpt)))
    case Release(t) => Put(s, t, if s.depth - 1 != 0 then Free(0) else Clearing).(depth := s.depth - 1)
    case CondWait(t, msOpt) => Put(s, t, WaitSaving).(cond := Cond.Apply(s.cond, Cond.Enter(t, msOpt)))
    case Advance(t) => AdvanceStep(s, t)
    case Inner(inner) => s.(mutex := Mutex.Apply(s.mutex, inner))
    case Signalling(signal) => s.(cond := Cond.Apply(s.cond, signal))
  }

  function Execute(s: State, es: seq<Event>): Option<State>
  {
    if es == [] then Some(s)
    else
      var before := Execute(s, es[..|es| - 1]);
      if before.Some? && Enabled(before.value, es[|es| - 1]) then Some(Apply(before.value, es[|es| - 1]))
      else None
  }

  // ---------------------------------------------------------------- the invariant

  predicate InLock(pc: Mutex.Pc) { pc.Trying? || pc.Spinning? || pc.Asleep? || pc.Expired? }

  predicate InUnlock(pc: Mutex.Pc) { pc.Idle? || pc.Releasing? }

  /** The thread takes part in no wait, though it may be signalling. */
  predicate NotWaiting(pc: Cond.Pc) { pc.Idle? || pc.Releasing? }

  /** Where a thread is agrees with where it is in the inner mutex. */
  predicate MutexAgrees(pc: Pc, m: Mutex.Thread)
  {
    match pc
    case Free(_) => m.pc.Idle?
    case Locking(limited) =>
      && (InLock(m.pc) || m == Mutex.Thread(Mutex.Idle(0), true) || m.pc == Mutex.Idle(-1))
      && (!limited ==> Mutex.WaitsForever(m.pc) || m == Mutex.Thread(Mutex.Idle(0), true))
    case Returning => InUnlock(m.pc) && !m.holds
    case WaitReleasing(_) => InUnlock(m.pc) && !m.holds
    case Waiting(_) => m.pc.Idle? && !m.holds
    case Relocking(_) => (Mutex.WaitsForever(m.pc) && !m.holds) || m == Mutex.Thread(Mutex.Idle(0), true)
    case _ => m.pc.Idle? && m.holds
  }

  /** The wait is over: with 0 if it was signalled, with -1 if its time was over. */
  predicate HasResult(pc: Cond.Pc) { pc == Cond.Relocking(0) || pc == Cond.Relocking(-1) }

  /** Where a thread is agrees with where it is in the condition variable. */
  predicate CondAgrees(pc: Pc, c: Cond.Pc)
  {
    match pc
    case WaitSaving => c.Unlocking?
    case WaitClearing(d) => c.Unlocking? && d > 0
    case WaitUnlocking(d) => c.Unlocking? && d > 0
    case WaitReleasing(d) => c.Unlocking? && d > 0
    case Waiting(d) => (c.Asleep? || c.Expired? || HasResult(c)) && d > 0
    case Relocking(d) => HasResult(c) && d > 0
    case Reclaiming(d) => HasResult(c) && d > 0
    case Restoring(d) => HasResult(c) && d > 0
    case _ => NotWaiting(c)
  }

  /** What `owner` and `depth` are while thread `t` holds the inner mutex. */
  predicate FieldsAgree(pc: Pc, m: Mutex.Thread, t: nat, owner: nat, depth: int)
  {
    if pc.Free? || pc.WaitSaving? || (pc.Locking? && m.pc != Mutex.Idle(0)) then owner == t + 1 && depth > 0
    else if pc.Deepening? || pc.Clearing? || pc.WaitClearing? || pc.Restoring? then owner == t + 1 && depth == 0
    else owner == 0 && depth == 0
  }

  ghost predicate Agree(s: State, t: nat)
    requires SameSize(s) && t < |s.pcs|
  {
    && MutexAgrees(s.pcs[t], s.mutex.threads[t])
    && CondAgrees(s.pcs[t], s.cond.threads[t])
    && (s.mutex.threads[t].holds ==> FieldsAgree(s.pcs[t], s.mutex.threads[t], t, s.owner, s.depth))
  }

  ghost predicate Inv(s: State)
  {
    && SameSize(s)
    && Mutex.Reachable(s.mutex) && Cond.Reachable(s.cond)
    && (!s.mutex.word.locked ==> s.owner == 0 && s.depth == 0)
    && forall t :: 0 <= t < |s.pcs| ==> Agree(s, t)
  }

  // ---------------------------------------------------------------- what a step of a part may do

  /** One step inside the inner lock: it goes on, or returns with the mutex, or without. */
  lemma InnerLockStep(m: Mutex.State, e: Mutex.Event)
    requires Mutex.Reachable(m) && Mutex.Enabled(m, e) && !e.Call? && !e.Unlock? && !e.Handoff?
    ensures InLock(m.threads[e.t].pc)
    ensures var th, th' := m.threads[e.t], Mutex.Apply(m, e).threads[e.t];
            || (InLock(th'.pc) && th'.holds == th.holds)
            || (th' == Mutex.Thread(Mutex.Idle(0), true) && !m.word.locked)
            || (th'.pc == Mutex.Idle(-1) && th'.holds == th.holds)
  {
    var th' := Mutex.Apply(m, e).threads[e.t];
    if th'.pc.Idle? {
      Mutex.LockResultMeansOwnership(m, e);
    }
  }

  /** Only the thread itself and, at the keyed event, a releasing thread change place. */
  lemma InnerOthers(m: Mutex.State, e: Mutex.Event, t: nat)
    requires Mutex.Reachable(m) && Mutex.Enabled(m, e) && !e.Handoff? && t < |m.threads| && t != e.t
    ensures var th, th' := m.threads[t], Mutex.Apply(m, e).threads[t];
            && th'.holds == th.holds
            && (th' == th || (th.pc.Releasing? && InUnlock(th'.pc)))
  {
    Mutex.OwnershipIsPrivate(m, e, t);
  }

  /** A step inside the condition variable keeps a waiter waiting and a caller calling. */
  lemma SignalStays(c: Cond.State, e: Cond.Event, t: nat)
    requires Cond.Enabled(c, e) && !e.Enter? && !e.Unlocked? && !e.Relocked? && t < |c.threads|
    ensures var pc, pc' := c.threads[t], Cond.Apply(c, e).threads[t];
            || pc' == pc
            || (NotWaiting(pc) && NotWaiting(pc'))
            || ((pc.Asleep? || pc.Expired?) && (pc'.Asleep? || pc'.Expired? || HasResult(pc')))
    ensures |Cond.Apply(c, e).threads| == |c.threads|
  {
  }

  /** A step inside the inner mutex does not free it. */
  lemma InnerKeepsLocked(m: Mutex.State, e: Mutex.Event)
    requires Mutex.Reachable(m) && Mutex.Enabled(m, e) && !e.Call? && !e.Unlock? && !e.Handoff?
    ensures |Mutex.Apply(m, e).threads| == |m.threads|
    ensures m.word.locked ==> Mutex.Apply(m, e).word.locked
  {
    if m.word.locked {
      Mutex.MutualExclusion(m);
      Mutex.StepReachable(m, e);
      Mutex.MutualExclusion(Mutex.Apply(m, e));
      var h :| 0 <= h < |m.threads| && m.threads[h].holds;
      if h == e.t {
        InnerLockStep(m, e);
      } else {
        InnerOthers(m, e, h);
      }
      assert Mutex.Apply(m, e).threads[h].holds;
    }
  }

  // ---------------------------------------------------------------- steps keep the invariant

  lemma InitialInv(n: nat, cap: nat)
    requires n < cap
    ensures Inv(Initial(n, cap))
  {
    Mutex.InitialReachable(n, cap);
    Cond.InitialReachable(n, cap);
  }

  /** Thread `u` is not the one that moves: it changes at most inside the parts, and the fields
      change only if the thread that moves holds the mutex. */
  lemma OtherAgrees(s: State, next: State, t: nat, u: nat)
    requires Inv(s) && SameSize(next) && |next.pcs| == |s.pcs|
    requires t < |s.pcs| && u < |s.pcs| && t != u && next.pcs[u] == s.pcs[u]
    requires next.cond.threads[u] == s.cond.threads[u]
    requires var th, th' := s.mutex.threads[u], next.mutex.threads[u];
             th'.holds == th.holds && (th' == th || (th.pc.Releasing? && InUnlock(th'.pc)))
    requires (next.owner == s.owner && next.depth == s.depth) || s.mutex.threads[t].holds
    ensures Agree(next, u)
  {
    Mutex.MutualExclusion(s.mutex);
    assert Agree(s, u);
  }

  /** The owner, if there is one, is the thread that holds the inner mutex. */
  lemma OwnerHolds(s: State)
    requires Inv(s) && s.owner != 0
    ensures s.owner <= |s.pcs| && s.mutex.threads[s.owner - 1].holds
  {
    Mutex.MutualExclusion(s.mutex);
    var h :| 0 <= h < |s.pcs| && s.mutex.threads[h].holds;
    assert Agree(s, h);
  }

  /** What is left to show about a step of thread `t` once the thread itself is dealt with. */
  lemma OnlyOneMoves(s: State, next: State, t: nat)
    requires Inv(s) && SameSize(next) && t < |s.pcs| && |next.pcs| == |s.pcs|
    requires Mutex.Reachable(next.mutex) && Cond.Reachable(next.cond)
    requires forall u :: 0 <= u < |s.pcs| && u != t ==>
                           && next.pcs[u] == s.pcs[u] && next.cond.threads[u] == s.cond.threads[u]
                           && next.mutex.threads[u] == s.mutex.threads[u]
    requires (next.owner == s.owner && next.depth == s.depth) || s.mutex.threads[t].holds
    requires Agree(next, t) && (!next.mutex.word.locked ==> next.owner == 0 && next.depth == 0)
    ensures Inv(next)
  {
    forall u | 0 <= u < |s.pcs| && u != t
      ensures Agree(next, u)
    {
      OtherAgrees(s, next, t, u);
    }
  }

  lemma RecurseKeepsInv(s: State, e: Event)
    requires Inv(s) && Enabled(s, e) && (e.Recurse? || e.Release?)
    ensures Inv(Apply(s, e))
  {
    assert Agree(s, e.t);
    if s.owner != 0 {
      OwnerHolds(s);
    }
    Mutex.MutualExclusion(s.mutex);
    OnlyOneMoves(s, Apply(s, e), e.t);
  }

  /** Steps of a call that touch neither part. */
  lemma FieldStepKeepsInv(s: State, t: nat)
    requires Inv(s) && Enabled(s, Advance(t))
    requires AdvanceStep(s, t).mutex == s.mutex && AdvanceStep(s, t).cond == s.cond
    ensures Inv(AdvanceStep(s, t))
  {
    assert Agree(s, t);
    Mutex.MutualExclusion(s.mutex);
    OnlyOneMoves(s, AdvanceStep(s, t), t);
  }

  /** Entering the inner lock, from outside or from a wait. */
  lemma LockKeepsInv(s: State, e: Event)
    requires Inv(s) && Enabled(s, e) && (e.Lock? || (e.Advance? && s.pcs[e.t].Waiting?))
    ensures Inv(Apply(s, e))
  {
    assert Agree(s, e.t);
    Mutex.StepReachable(s.mutex, Mutex.Call(e.t, if e.Lock? then e.msOpt else None));
    OnlyOneMoves(s, Apply(s, e), e.t);
  }

  lemma UnlockKeepsInv(s: State, t: nat)
    requires Inv(s) && Enabled(s, Advance(t)) && (s.pcs[t].Unlocking? || s.pcs[t].WaitUnlocking?)
    ensures Inv(AdvanceStep(s, t))
  {
    assert Agree(s, t);
    Mutex.StepReachable(s.mutex, Mutex.Unlock(t));
    OnlyOneMoves(s, AdvanceStep(s, t), t);
  }

  /** Entering a wait, going to sleep, and returning from it. */
  lemma CondStepKeepsInv(s: State, e: Event)
    requires Inv(s) && Enabled(s, e)
    requires e.CondWait? || (e.Advance? && (s.pcs[e.t].WaitReleasing? || s.pcs[e.t].Restoring?))
    ensures Inv(Apply(s, e))
  {
    assert Agree(s, e.t);
    Cond.StepReachable(s.cond, if e.CondWait? then Cond.Enter(e.t, e.msOpt)
                               else if s.pcs[e.t].Restoring? then Cond.Relocked(e.t) else Cond.Unlocked(e.t));
    if s.owner != 0 {
      OwnerHolds(s);
    }
    Mutex.MutualExclusion(s.mutex);
    OnlyOneMoves(s, Apply(s, e), e.t);
  }

  lemma InnerAgrees(s: State, e: Event)
    requires Inv(s) && Enabled(s, e) && e.Inner?
    ensures e.inner.t < |s.pcs| && Agree(Apply(s, e), e.inner.t)
  {
    var t := e.inner.t;
    assert Agree(s, t);
    InnerLockStep(s.mutex, e.inner);
    InnerKeepsLocked(s.mutex, e.inner);
    if Mutex.WaitsForever(s.mutex.threads[t].pc) {
      Mutex.NoTimeoutMeansSuccess(s.mutex, e.inner, t);
    }
  }

  lemma InnerKeepsInv(s: State, e: Event)
    requires Inv(s) && Enabled(s, e) && e.Inner?
    ensures Inv(Apply(s, e))
  {
    var next := Apply(s, e);
    InnerAgrees(s, e);
    InnerKeepsLocked(s.mutex, e.inner);
    Mutex.StepReachable(s.mutex, e.inner);
    forall u | 0 <= u < |s.pcs| && u != e.inner.t
      ensures Agree(next, u)
    {
      InnerOthers(s.mutex, e.inner, u);
      OtherAgrees(s, next, e.inner.t, u);
    }
  }

  lemma SignalKeepsInv(s: State, e: Event)
    requires Inv(s) && Enabled(s, e) && e.Signalling?
    ensures Inv(Apply(s, e))
  {
    Cond.StepReachable(s.cond, e.signal);
    forall u | 0 <= u < |s.pcs|
      ensures |Apply(s, e).cond.threads| == |s.pcs| && Agree(Apply(s, e), u)
    {
      assert Agree(s, u);
      SignalStays(s.cond, e.signal, u);
    }
  }

  lemma StepKeepsInv(s: State, e: Event)
    requires Inv(s) && Enabled(s, e)
    ensures Inv(Apply(s, e))
  {
    match e {
      case Recurse(_) => RecurseKeepsInv(s, e);
      case Release(_) => RecurseKeepsInv(s, e);
      case Lock(_, _) => LockKeepsInv(s, e);
      case CondWait(_, _) => CondStepKeepsInv(s, e);
      case Inner(_) => InnerKeepsInv(s, e);
      case Signalling(_) => SignalKeepsInv(s, e);
      case Advance(t) =>
        match s.pcs[t] {
          case Unlocking => UnlockKeepsInv(s, t);
          case WaitUnlocking(_) => UnlockKeepsInv(s, t);
          case Waiting(_) => LockKeepsInv(s, e);
          case WaitReleasing(_) => CondStepKeepsInv(s, e);
          case Restoring(_) => CondStepKeepsInv(s, e);
          case _ => FieldStepKeepsInv(s, t);
        }
    }
  }

  lemma {:induction false} RunKeepsInv(s: State, es: seq<Event>)
    requires Inv(s) && Execute(s, es).Some?
    ensures Inv(Execute(s, es).value)
  {
    if es != [] {
      RunKeepsInv(s, es[..|es| - 1]);
      StepKeepsInv(Execute(s, es[..|es| - 1]).value, es[|es| - 1]);
    }
  }

  // ---------------------------------------------------------------- theorems over all runs

  ghost predicate Reachable(s: State)
  {
    exists n: nat, cap: nat, es: seq<Event> :: n < cap && Execute(Initial(n, cap), es) == Some(s)
  }

  lemma ReachableInv(s: State)
    requires Reachable(s)
    ensures Inv(s)
  {
    var n: nat, cap: nat, es: seq<Event> :| n < cap && Execute(Initial(n, cap), es) == Some(s);
    InitialInv(n, cap);
    RunKeepsInv(Initial(n, cap), es);
  }

  /** While the inner mutex is unlocked there is no owner and no depth. */
  lemma UnlockedMeansNoOwner(s: State)
    requires Reachable(s) && !s.mutex.word.locked
    ensures s.owner == 0 && s.depth == 0
  {
    ReachableInv(s);
  }

  /** A thread that finds its own identifier as the owner holds the inner mutex and nobody
      else does, so recursion succeeds for that thread only, and deepens its ownership. */
  lemma RecurseOnlyByHolder(s: State, t: nat)
    requires Reachable(s) && Enabled(s, Recurse(t))
    ensures var next := Apply(s, Recurse(t));
            && (next.pcs[t] == Free(0) <==> s.mutex.threads[t].holds)
            && (next.pcs[t] == Free(0) ==> next.depth == s.depth + 1 > 1 && next.owner == s.owner == t + 1)
            && (next.pcs[t] != Free(0) ==> next.pcs[t] == Free(-1) && next.owner == s.owner && next.depth == s.depth)
            && (next.pcs[t] == Free(0) ==> forall u :: 0 <= u < |s.pcs| && u != t ==> !s.mutex.threads[u].holds)
  {
    ReachableInv(s);
    assert Agree(s, t);
    Mutex.MutualExclusion(s.mutex);
    if s.owner != 0 {
      OwnerHolds(s);
    }
  }

  /** Every assertion in the source about the owner and the depth holds when it is reached. */
  lemma AssertionsHold(s: State, t: nat)
    requires Reachable(s) && t < |s.pcs|
    ensures s.pcs[t].Claiming? || s.pcs[t].Reclaiming? ==> s.owner == 0
    ensures s.pcs[t].Deepening? ==> s.depth == 0
    ensures Enabled(s, Release(t)) ==> s.owner != 0 && s.depth > 0
    ensures s.pcs[t].WaitSaving? ==> s.depth > 0
    ensures s.pcs[t].Restoring? ==> s.pcs[t].saved > 0
  {
    ReachableInv(s);
    assert Agree(s, t);
    if s.owner != 0 {
      OwnerHolds(s);
    }
  }

  /** The relock callback does not look at the result of the inner lock; it need not, as that
      result is always success. */
  lemma RelockCannotFail(s: State, t: nat)
    requires Reachable(s) && Enabled(s, Advance(t)) && s.pcs[t].Relocking?
    ensures s.mutex.threads[t] == Mutex.Thread(Mutex.Idle(0), true)
  {
    ReachableInv(s);
    assert Agree(s, t);
  }

  // ---------------------------------------------------------------- waiting at any depth

  /** Thread `t` is in a condition wait that began at depth `d`. */
  predicate InWait(s: State, t: nat, d: int)
  {
    && t < |s.pcs|
    && match s.pcs[t]
       case WaitSaving => s.depth == d
       case WaitClearing(x) => x == d
       case WaitUnlocking(x) => x == d
       case WaitReleasing(x) => x == d
       case Waiting(x) => x == d
       case Relocking(x) => x == d
       case Reclaiming(x) => x == d
       case Restoring(x) => x == d
       case _ => false
  }

  /** Thread `t` has just come back as the owner at depth `d`. */
  predicate Back(s: State, t: nat, d: int)
  {
    && t < |s.pcs| && SameSize(s)
    && s.pcs[t].Free? && s.owner == t + 1 && s.depth == d
    && s.mutex.threads[t].holds
  }

  lemma WaitStep(s: State, e: Event, t: nat, d: int)
    requires Inv(s) && Enabled(s, e) && InWait(s, t, d)
    ensures InWait(Apply(s, e), t, d) || Back(Apply(s, e), t, d)
  {
    assert Agree(s, t);
    if s.pcs[t].WaitSaving? {
      Mutex.MutualExclusion(s.mutex);
      if !e.Inner? && !e.Signalling? && e.t != t {
        assert Agree(s, e.t);
      }
    }
  }

  /** A condition wait that began at depth `d` is still going on, or some earlier moment of the
      run saw it return with the same owner and the same depth. */
  lemma {:induction false} WaitRestoresDepth(s: State, t: nat, d: int, es: seq<Event>) returns (k: nat)
    requires Reachable(s) && InWait(s, t, d) && Execute(s, es).Some?
    ensures k <= |es| && Execute(s, es[..k]).Some?
    ensures InWait(Execute(s, es).value, t, d) || Back(Execute(s, es[..k]).value, t, d)
  {
    if es == [] {
      k := 0;
    } else {
      var init := es[..|es| - 1];
      k := WaitRestoresDepth(s, t, d, init);
      var before := Execute(s, init).value;
      ReachableInv(s);
      RunKeepsInv(s, init);
      if InWait(before, t, d) {
        WaitStep(before, es[|es| - 1], t, d);
        k := |es|;
        assert es[..k] == es;
      } else {
        assert init[..k] == es[..k];
      }
    }
  }

  /** What ends the condition wait of thread `t` with the result `r`: a release, or the thread
      taking itself off the count after a timeout. */
  predicate Ends(e: Event, t: nat, r: int)
  {
    e.Signalling? && e.signal.t == t && if r == 0 then e.signal.Meet? else e.signal.Settle?
  }

  /** Thread `t` itself begins to signal or to wait. */
  predicate OwnSignal(e: Event, t: nat)
  {
    (e.Signalling? && e.signal.Signal? && e.signal.t == t) || (e.CondWait? && e.t == t)
  }

  /** A condition wait without a time limit that has not ended, or has ended with 0. */
  predicate Unlimited(c: Cond.Pc)
  {
    || c == Cond.Unlocking(INT64_MAX) || c == Cond.Asleep(INT64_MAX, false)
    || c == Cond.Relocking(0) || c == Cond.Idle(0)
  }

  /** A condition wait without a time limit does not time out. */
  lemma {:induction false} UnlimitedWaitsSucceed(s: State, t: nat, es: seq<Event>)
    requires SameSize(s) && t < |s.pcs| && Unlimited(s.cond.threads[t])
    requires Execute(s, es).Some? && forall e :: e in es ==> !OwnSignal(e, t)
    ensures var last := Execute(s, es).value;
            SameSize(last) && |last.pcs| == |s.pcs| && Unlimited(last.cond.threads[t])
  {
    if es != [] {
      var init := es[..|es| - 1];
      UnlimitedWaitsSucceed(s, t, init);
      UnlimitedStep(Execute(s, init).value, es[|es| - 1], t);
    }
  }

  lemma UnlimitedStep(s: State, e: Event, t: nat)
    requires Enabled(s, e) && t < |s.pcs| && Unlimited(s.cond.threads[t]) && !OwnSignal(e, t)
    ensures var next := Apply(s, e);
            SameSize(next) && |next.pcs| == |s.pcs| && Unlimited(next.cond.threads[t])
  {
  }

  /** A thread finds a result of its wait only after the event that the result stands for. */
  lemma {:induction false} WhyWaitsEnd(s: State, t: nat, r: int, es: seq<Event>)
    requires SameSize(s) && t < |s.pcs| && s.cond.threads[t].Unlocking?
    requires Execute(s, es).Some? && forall e :: e in es ==> !OwnSignal(e, t)
    ensures var last := Execute(s, es).value;
            && SameSize(last) && |last.pcs| == |s.pcs| && !last.cond.threads[t].Releasing?
            && (last.cond.threads[t] == Cond.Relocking(r) || last.cond.threads[t] == Cond.Idle(r) ==>
                  exists e :: e in es && Ends(e, t, r))
  {
    if es != [] {
      var init, e := es[..|es| - 1], es[|es| - 1];
      WhyWaitsEnd(s, t, r, init);
      OneStepTowardsEnd(Execute(s, init).value, e, t, r);
      assert e in es;
    }
  }

  lemma OneStepTowardsEnd(s: State, e: Event, t: nat, r: int)
    requires Enabled(s, e) && t < |s.pcs| && !s.cond.threads[t].Releasing? && !OwnSignal(e, t)
    ensures var next := Apply(s, e);
            && SameSize(next) && |next.pcs| == |s.pcs| && !next.cond.threads[t].Releasing?
            && (next.cond.threads[t] == Cond.Relocking(r) || next.cond.threads[t] == Cond.Idle(r) ==>
                  || s.cond.threads[t] == Cond.Relocking(r) || s.cond.threads[t] == Cond.Idle(r)
                  || Ends(e, t, r))
  {
  }

  /** The time limits are passed on: a lock call has it for the inner lock, a condition wait for
      the condition variable, and the lock that ends a condition wait has none. */
  lemma TimeLimitsPassedOn(s: State, t: nat, msOpt: Option<int>)
    ensures var e := Lock(t, msOpt);
            Enabled(s, e) ==>
              var th := Apply(s, e).mutex.threads[t];
              th.pc.Trying? && th.pc.quad == Converted(msOpt) && th.holds == s.mutex.threads[t].holds
    ensures var e := CondWait(t, msOpt);
            Enabled(s, e) ==> Apply(s, e).cond.threads[t] == Cond.Unlocking(Converted(msOpt))
    ensures Enabled(s, Advance(t)) && s.pcs[t].Waiting? ==>
              Mutex.WaitsForever(Apply(s, Advance(t)).mutex.threads[t].pc)
  {
  }

  /** The wait begins at the current depth. */
  lemma WaitBegins(s: State, t: nat, msOpt: Option<int>)
    requires Enabled(s, CondWait(t, msOpt))
    ensures InWait(Apply(s, CondWait(t, msOpt)), t, s.depth)
  {
  }

  /** What the wait returns is what the condition variable said: 0 if signalled, -1 if the time
      was over; either way the thread is the owner again. */
  lemma WaitReturns(s: State, t: nat)
    requires Reachable(s) && Enabled(s, Advance(t)) && s.pcs[t].Restoring?
    ensures var next := Apply(s, Advance(t));
            && HasResult(s.cond.threads[t])
            && next.pcs[t] == Free(s.cond.threads[t].err)
            && next.cond.threads[t] == Cond.Idle(s.cond.threads[t].err)
            && Back(next, t, s.pcs[t].saved)
  {
    ReachableInv(s);
    assert Agree(s, t);
  }
}
