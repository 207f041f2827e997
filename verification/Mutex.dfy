/** The mutex as a transition system over any number of threads.

    One step is one successful exchange or one deciding load of the word, a timeout, or the
    meeting of a releasing thread with a sleeping one at the keyed event.  Failed exchanges
    change nothing and are not steps.  What a spin byte holds, and when a timeout fires, is
    left open. */
module Mutex {
  import opened Wrappers
  import opened Tally
  import opened AtomicWord
  import opened MutexWord
  import opened Timeouts

  datatype Pc =
    | Idle(result: int)                                // outside; what the last call returned
    | Trying(quad: int, woken: bool)                   // about to load the word at the retry label
    | Spinning(quad: int, budget: nat, slot: bv4)      // in the spinning loop
    | Asleep(quad: int, zero: bool)                    // blocked; `zero`: this wait has a zero timeout
    | Expired(quad: int)                               // the wait has timed out
    | Releasing(wake: nat)                             // owes this many releases

  /** `holds` is the ownership that the caller has; the code does not store it. */
  datatype Thread = Thread(pc: Pc, holds: bool)

  /** `cap` is 2 to the number of bits of the sleeping count. */
  datatype State = State(word: Word, threads: seq<Thread>, cap: nat)

  datatype Event =
    | Call(t: nat, msOpt: Option<int>)
    | TryLock(t: nat)
    | SpinIdle(t: nat)                   // the spin byte is still zero
    | SpinPoked(t: nat)                  // the spin byte has been set
    | GiveUp(t: nat)
    | Expire(t: nat)                     // the kernel wait times out
    | Settle(t: nat)                     // a timed-out waiter looks at the sleeping count
    | Meet(t: nat, u: nat, elapsed: nat) // the keyed event pairs waiter `t` with releaser `u`
    | Unlock(t: nat)
    | Handoff(t: nat, u: nat)            // ownership may be passed on; any thread may unlock

  // ---------------------------------------------------------------- per-thread weights

  function Registered(th: Thread): int { if th.pc.Asleep? || th.pc.Expired? then 1 else 0 }

  function Owed(th: Thread): int { if th.pc.Releasing? then th.pc.wake else 0 }

  function Woken(th: Thread): int { if th.pc.Trying? && th.pc.woken then 1 else 0 }

  function Held(th: Thread): int { if th.holds then 1 else 0 }

  // ---------------------------------------------------------------- steps

  function Initial(n: nat, cap: nat): State
  {
    State(Word(false, 0, 0, 0), seq(n, _ => Thread(Idle(0), false)), cap)
  }

  predicate Enabled(s: State, e: Event)
  {
    && e.t < |s.threads|
    && s.cap > 0
    && var th := s.threads[e.t];
    match e
    case Call(_, msOpt) => th.pc.Idle? && (msOpt.Some? ==> IsInt64(msOpt.value))
    case TryLock(_) => th.pc.Trying?
    case SpinIdle(_) => th.pc.Spinning? && th.pc.budget != 0 && th.pc.slot != 0
    case SpinPoked(_) => th.pc.Spinning? && th.pc.budget != 0 && th.pc.slot != 0
    case GiveUp(_) => th.pc.Spinning? && (th.pc.budget == 0 || th.pc.slot == 0)
    case Expire(_) => th.pc.Asleep? && (th.pc.zero || th.pc.quad != INT64_MAX)
    case Settle(_) => th.pc.Expired?
    case Meet(_, u, _) => th.pc.Asleep? && u < |s.threads| && Owed(s.threads[u]) > 0
    case Unlock(_) => th.pc.Idle? && th.holds
    case Handoff(_, u) => th.holds && u < |s.threads| && !s.threads[u].holds
  }

  /** Thread `t` moves on. */
  function Put(s: State, t: nat, th: Thread): State
    requires t < |s.threads|
  {
    s.(threads := s.threads[t := th])
  }

  function AfterRelease(wake: nat): Pc
  {
    if wake == 0 then Idle(0) else Releasing(wake)
  }

  function LockStep(s: State, t: nat, quad: int): State
    requires t < |s.threads| && s.cap > 0
  {
    var th := s.threads[t];
    match LockDecision(s.word, quad, s.cap)
    case Stop(_) => Put(s, t, th.(pc := Idle(-1)))
    case Exchange(w, r) =>
      var next := match r
        case SpinOn(budget, slot) => th.(pc := Spinning(quad, budget, slot))
        case GoToSleep => th.(pc := Asleep(quad, quad == 0))
        case _ => Thread(Idle(0), true);
      Put(s, t, next).(word := w)
  }

  function SpinStep(s: State, t: nat): State
    requires t < |s.threads| && s.threads[t].pc.Spinning? && s.threads[t].pc.budget > 0
  {
    var th := s.threads[t];
    var spun := th.pc.(budget := th.pc.budget - 1);
    match SpinDecision(s.word)
    case Stop(_) => Put(s, t, th.(pc := spun.(slot := 0)))
    case Exchange(w, r) =>
      var next := if r.Relocated? then th.(pc := spun.(slot := r.slot)) else Thread(Idle(0), true);
      Put(s, t, next).(word := w)
  }

  function GiveUpStep(s: State, t: nat): State
    requires t < |s.threads| && s.threads[t].pc.Spinning? && s.cap > 0
  {
    var th := s.threads[t];
    var d := GiveUpDecision(s.word, th.pc.slot, s.cap);
    var next := if d.result.LateLock? then Thread(Idle(0), true)
                else th.(pc := Asleep(th.pc.quad, th.pc.quad == 0));
    Put(s, t, next).(word := d.next)
  }

  function SettleStep(s: State, t: nat): State
    requires t < |s.threads| && s.threads[t].pc.Expired? && s.cap > 0
  {
    var th := s.threads[t];
    match LeaveDecision(s.word, s.cap)
    case Stop(_) => Put(s, t, th.(pc := Asleep(th.pc.quad, true)))
    case Exchange(w, _) => Put(s, t, th.(pc := Idle(-1))).(word := w)
  }

  function Apply(s: State, e: Event): State
    requires Enabled(s, e)
  {
    var th := s.threads[e.t];
    match e
    case Call(t, msOpt) => Put(s, t, th.(pc := Trying(Converted(msOpt), false)))
    case TryLock(t) => LockStep(s, t, th.pc.quad)
    case SpinIdle(t) => Put(s, t, th.(pc := th.pc.(budget := th.pc.budget - 1)))
    case SpinPoked(t) => SpinStep(s, t)
    case GiveUp(t) => GiveUpStep(s, t)
    case Expire(t) => Put(s, t, th.(pc := Expired(th.pc.quad)))
    case Settle(t) => SettleStep(s, t)
    case Meet(t, u, elapsed) =>
      var awake := Put(s, t, th.(pc := Trying(Adjusted(th.pc.quad, elapsed), true)));
      Put(awake, u, s.threads[u].(pc := AfterRelease(s.threads[u].pc.wake - 1)))
    case Unlock(t) =>
      var d := UnlockDecision(s.word, s.cap);
      Put(s, t, Thread(AfterRelease(d.result), false)).(word := d.next)
    case Handoff(t, u) =>
      Put(Put(s, t, th.(holds := false)), u, s.threads[u].(holds := true))
  }

  /** A run from `s`; `None` when some event is not possible. */
  function Execute(s: State, es: seq<Event>): Option<State>
  {
    if es == [] then Some(s)
    else
      var before := Execute(s, es[..|es| - 1]);
      if before.Some? && Enabled(before.value, es[|es| - 1]) then Some(Apply(before.value, es[|es| - 1]))
      else None
  }

  // ---------------------------------------------------------------- the invariant

  ghost predicate Inv(s: State)
  {
    && |s.threads| < s.cap
    && Total(s.threads, Held) == (if s.word.locked then 1 else 0)
    && Total(s.threads, Registered) == s.word.nsleep + Total(s.threads, Owed)
    && (!s.word.locked && s.word.nsleep > 0 ==>
          Total(s.threads, Owed) + Total(s.threads, Woken) > 0)
    && AllPatient(s.threads)
  }

  ghost predicate AllPatient(ths: seq<Thread>)
  {
    forall i :: 0 <= i < |ths| ==> Patient(ths[i])
  }

  /** A wait without a time limit never has a zero timeout and never expires. */
  predicate Patient(th: Thread)
  {
    && (th.pc.Asleep? && th.pc.zero ==> th.pc.quad != INT64_MAX)
    && (th.pc.Expired? ==> th.pc.quad != INT64_MAX)
  }

  lemma Retally(ths: seq<Thread>, t: nat, th: Thread)
    requires t < |ths|
    ensures Total(ths[t := th], Held) == Total(ths, Held) - Held(ths[t]) + Held(th)
    ensures Total(ths[t := th], Registered) == Total(ths, Registered) - Registered(ths[t]) + Registered(th)
    ensures Total(ths[t := th], Owed) == Total(ths, Owed) - Owed(ths[t]) + Owed(th)
    ensures Total(ths[t := th], Woken) == Total(ths, Woken) - Woken(ths[t]) + Woken(th)
  {
    TotalUpdate(ths, Held, t, th);
    TotalUpdate(ths, Registered, t, th);
    TotalUpdate(ths, Owed, t, th);
    TotalUpdate(ths, Woken, t, th);
  }

  /** What one thread contributes to each sum. */
  lemma Bounds(ths: seq<Thread>, t: nat)
    requires t < |ths|
    ensures Total(ths, Held) >= Held(ths[t])
    ensures Total(ths, Registered) >= Registered(ths[t])
    ensures Total(ths, Owed) >= Owed(ths[t])
    ensures Total(ths, Woken) >= Woken(ths[t])
    ensures Registered(ths[t]) == 0 ==> Total(ths, Registered) < |ths|
  {
    TotalAtLeast(ths, Held, t);
    TotalAtLeast(ths, Registered, t);
    TotalAtLeast(ths, Owed, t);
    TotalAtLeast(ths, Woken, t);
    var more := ths[t := Thread(Expired(0), false)];
    TotalUpdate(ths, Registered, t, more[t]);
    TotalAtMostLength(more, Registered);
  }

  lemma InitialInv(n: nat, cap: nat)
    requires n < cap
    ensures Inv(Initial(n, cap))
  {
    var ths := Initial(n, cap).threads;
    TotalZero(ths, Held);
    TotalZero(ths, Registered);
    TotalZero(ths, Owed);
  }

  /** The decisions seen by the accounting: the locked bit and the sleeping count. */
  lemma CountsMove(w: Word, quad: int, slot: bv4, cap: nat)
    requires w.nsleep + 1 < cap
    ensures var d := LockDecision(w, quad, cap);
            && (!w.locked ==> d.result.Locked?)
            && (d.result.Locked? ==> d.Exchange? && !w.locked && d.next.locked && d.next.nsleep == w.nsleep)
            && (d.Stop? ==> d.result.Refused? && w.locked && quad == 0)
            && (d.result.Refused? ==> d.Stop?)
            && (d.result.SpinOn? ==> d.Exchange? && w.locked && d.next.locked && d.next.nsleep == w.nsleep)
            && (d.result.GoToSleep? ==> d.Exchange? && w.locked && d.next.locked && d.next.nsleep == w.nsleep + 1)
    ensures var d := SpinDecision(w);
            && (d.Exchange? <==> !d.result.Crowded?)
            && (d.Exchange? ==> d.next.locked && d.next.nsleep == w.nsleep)
            && (d.result.SpinLocked? <==> !w.locked)
    ensures var d := GiveUpDecision(w, slot, cap);
            && d.Exchange? && d.next.locked
            && (d.result.LateLock? <==> !w.locked)
            && d.next.nsleep == w.nsleep + (if w.locked then 1 else 0)
  {
    SmallRemainder(w.nsleep + 1, cap);
  }

  lemma CountsDrop(w: Word, cap: nat)
    requires w.nsleep < cap
    ensures var d := LeaveDecision(w, cap);
            && (d.Stop? <==> w.nsleep == 0)
            && (d.Exchange? ==> d.next == w.(nsleep := w.nsleep - 1))
    ensures var d := UnlockDecision(w, cap);
            && d.Exchange? && !d.next.locked
            && d.result == (if w.nsleep == 0 then 0 else 1)
            && d.next.nsleep == w.nsleep - d.result
  {
    if w.nsleep > 0 {
      SmallRemainder(w.nsleep - 1, cap);
    }
  }

  /** The counts fit: there is room for one more sleeper than are registered. */
  lemma Room(s: State, t: nat)
    requires Inv(s) && t < |s.threads|
    ensures s.word.nsleep < s.cap
    ensures Registered(s.threads[t]) == 0 ==> s.word.nsleep + 1 < s.cap
  {
    Bounds(s.threads, t);
    TotalNonNegative(s.threads, Owed);
    TotalAtMostLength(s.threads, Registered);
  }

  lemma TryLockKeepsInv(s: State, e: Event)
    requires Inv(s) && Enabled(s, e) && e.TryLock?
    ensures Inv(Apply(s, e))
  {
    var next := Apply(s, e);
    Bounds(s.threads, e.t);
    Room(s, e.t);
    CountsMove(s.word, s.threads[e.t].pc.quad, 0, s.cap);
    Retally(s.threads, e.t, next.threads[e.t]);
    Bounds(next.threads, e.t);
  }

  lemma SpinKeepsInv(s: State, e: Event)
    requires Inv(s) && Enabled(s, e) && e.SpinPoked?
    ensures Inv(Apply(s, e))
  {
    var next := Apply(s, e);
    Bounds(s.threads, e.t);
    Room(s, e.t);
    CountsMove(s.word, 0, s.threads[e.t].pc.slot, s.cap);
    Retally(s.threads, e.t, next.threads[e.t]);
    Bounds(next.threads, e.t);
  }

  lemma GiveUpKeepsInv(s: State, e: Event)
    requires Inv(s) && Enabled(s, e) && e.GiveUp?
    ensures Inv(Apply(s, e))
  {
    var next := Apply(s, e);
    Bounds(s.threads, e.t);
    Room(s, e.t);
    CountsMove(s.word, 0, s.threads[e.t].pc.slot, s.cap);
    Retally(s.threads, e.t, next.threads[e.t]);
    Bounds(next.threads, e.t);
  }

  lemma SettleKeepsInv(s: State, e: Event)
    requires Inv(s) && Enabled(s, e) && e.Settle?
    ensures Inv(Apply(s, e))
  {
    var next := Apply(s, e);
    Bounds(s.threads, e.t);
    Room(s, e.t);
    CountsDrop(s.word, s.cap);
    Retally(s.threads, e.t, next.threads[e.t]);
  }

  lemma UnlockKeepsInv(s: State, e: Event)
    requires Inv(s) && Enabled(s, e) && e.Unlock?
    ensures Inv(Apply(s, e))
  {
    var next := Apply(s, e);
    Bounds(s.threads, e.t);
    Room(s, e.t);
    CountsDrop(s.word, s.cap);
    Retally(s.threads, e.t, next.threads[e.t]);
    Bounds(next.threads, e.t);
  }

  lemma OtherStepsKeepInv(s: State, e: Event)
    requires Inv(s) && Enabled(s, e) && (e.Call? || e.SpinIdle? || e.Expire?)
    ensures Inv(Apply(s, e))
  {
    var next := Apply(s, e);
    Bounds(s.threads, e.t);
    Retally(s.threads, e.t, next.threads[e.t]);
    Bounds(next.threads, e.t);
  }

  lemma MeetKeepsInv(s: State, e: Event)
    requires Inv(s) && Enabled(s, e) && e.Meet?
    ensures Inv(Apply(s, e))
  {
    var ths := s.threads;
    var next := Apply(s, e).threads;
    var awake := Thread(Trying(Adjusted(ths[e.t].pc.quad, e.elapsed), true), ths[e.t].holds);
    Retally(ths, e.t, awake);
    Retally(ths[e.t := awake], e.u, next[e.u]);
    Bounds(next, e.t);
    TotalNonNegative(next, Owed);
  }

  lemma HandoffKeepsInv(s: State, e: Event)
    requires Inv(s) && Enabled(s, e) && e.Handoff?
    ensures Inv(Apply(s, e))
  {
    var ths := s.threads;
    var next := Apply(s, e).threads;
    var freed := ths[e.t].(holds := false);
    Retally(ths, e.t, freed);
    Retally(ths[e.t := freed], e.u, next[e.u]);
    assert forall i :: 0 <= i < |next| ==> next[i].pc == ths[i].pc;
  }

  lemma StepKeepsInv(s: State, e: Event)
    requires Inv(s) && Enabled(s, e)
    ensures Inv(Apply(s, e))
  {
    match e {
      case TryLock(_) => TryLockKeepsInv(s, e);
      case SpinPoked(_) => SpinKeepsInv(s, e);
      case GiveUp(_) => GiveUpKeepsInv(s, e);
      case Meet(_, _, _) => MeetKeepsInv(s, e);
      case Handoff(_, _) => HandoffKeepsInv(s, e);
      case Settle(_) => SettleKeepsInv(s, e);
      case Unlock(_) => UnlockKeepsInv(s, e);
      case _ => OtherStepsKeepInv(s, e);
    }
  }

  lemma {:induction false} RunKeepsInv(s: State, es: seq<Event>)
    requires Inv(s) && Execute(s, es).Some?
    ensures Inv(Execute(s, es).value)
  {
    if es != [] {
      RunKeepsInv(s, es[..|es| - 1]);
      StepKeepsInv(Execute(s, es[..|es| - 1]).value, es[|es| - 1]);
    }
  }

  // ---------------------------------------------------------------- theorems over all runs

  /** `s` can be reached from an unlocked mutex by some run of fewer than `cap` threads. */
  ghost predicate Reachable(s: State)
  {
    exists n: nat, cap: nat, es: seq<Event> :: n < cap && Execute(Initial(n, cap), es) == Some(s)
  }

  lemma InitialReachable(n: nat, cap: nat)
    requires n < cap
    ensures Reachable(Initial(n, cap))
  {
    assert Execute(Initial(n, cap), []) == Some(Initial(n, cap));
  }

  lemma StepReachable(s: State, e: Event)
    requires Reachable(s) && Enabled(s, e)
    ensures Reachable(Apply(s, e))
  {
    var n: nat, cap: nat, es: seq<Event> :| n < cap && Execute(Initial(n, cap), es) == Some(s);
    assert (es + [e])[..|es|] == es;
    assert Execute(Initial(n, cap), es + [e]) == Some(Apply(s, e));
  }

  lemma ReachableInv(s: State)
    requires Reachable(s)
    ensures Inv(s)
  {
    var n: nat, cap: nat, es: seq<Event> :| n < cap && Execute(Initial(n, cap), es) == Some(s);
    InitialInv(n, cap);
    RunKeepsInv(Initial(n, cap), es);
  }

  /** Mutual exclusion: the locked bit is set exactly when some thread holds the mutex, and
      never do two. */
  lemma MutualExclusion(s: State)
    requires Reachable(s)
    ensures s.word.locked <==> exists t :: 0 <= t < |s.threads| && s.threads[t].holds
    ensures forall t, u :: 0 <= t < u < |s.threads| ==> !(s.threads[t].holds && s.threads[u].holds)
  {
    ReachableInv(s);
    if s.word.locked {
      var t := TotalWitness(s.threads, Held);
    }
    forall t, u | 0 <= t <= u < |s.threads|
      ensures !(s.threads[t].holds && s.threads[u].holds && (t != u || !s.word.locked))
    {
      TotalAtLeastTwo(s.threads, Held, t, u);
    }
  }

  /** The registered waiters are those counted in the word and those already owed a release,
      so the count never wraps. */
  lemma SleeperAccounting(s: State)
    requires Reachable(s)
    ensures Total(s.threads, Registered) == s.word.nsleep + Total(s.threads, Owed)
    ensures s.word.nsleep <= |s.threads| < s.cap
  {
    ReachableInv(s);
    TotalNonNegative(s.threads, Owed);
    TotalAtMostLength(s.threads, Registered);
  }

  /** A timed-out waiter that is not counted any more has a release on its way, so it is
      right to keep waiting. */
  lemma TimedOutWaiterMustStay(s: State, t: nat)
    requires Reachable(s) && t < |s.threads| && s.threads[t].pc.Expired? && s.word.nsleep == 0
    ensures exists u :: 0 <= u < |s.threads| && Owed(s.threads[u]) > 0
  {
    ReachableInv(s);
    Bounds(s.threads, t);
    var u := TotalWitness(s.threads, Owed);
  }

  /** A releasing thread always has a waiter to meet, so its loop cannot hang. */
  lemma ReleaserHasWaiter(s: State, u: nat)
    requires Reachable(s) && u < |s.threads| && Owed(s.threads[u]) > 0
    ensures exists t :: 0 <= t < |s.threads| && Registered(s.threads[t]) > 0
  {
    ReachableInv(s);
    Bounds(s.threads, u);
    var t := TotalWitness(s.threads, Registered);
  }

  /** No lost wake-up: when the mutex is free and a waiter is counted, a release is owed or a
      woken thread is on its way back to the lock attempt. */
  lemma NoLostWakeup(s: State)
    requires Reachable(s) && !s.word.locked && s.word.nsleep > 0
    ensures exists u :: 0 <= u < |s.threads| && (Owed(s.threads[u]) > 0 || Woken(s.threads[u]) > 0)
  {
    ReachableInv(s);
    if Total(s.threads, Owed) > 0 {
      var u := TotalWitness(s.threads, Owed);
    } else {
      var u := TotalWitness(s.threads, Woken);
    }
  }

  /** When nothing is left to do except sleeping, sleepers sleep because somebody holds the
      mutex. */
  lemma QuietMeansHeld(s: State, t: nat)
    requires Reachable(s) && t < |s.threads| && s.threads[t].pc.Asleep?
    requires forall th :: th in s.threads ==> th.pc.Idle? || th.pc.Asleep?
    ensures s.word.locked
    ensures exists u :: 0 <= u < |s.threads| && s.threads[u].holds
  {
    ReachableInv(s);
    Bounds(s.threads, t);
    TotalZero(s.threads, Owed);
    TotalZero(s.threads, Woken);
    var u := TotalWitness(s.threads, Held);
  }

  /** The sleeping count grows only in steps that find the mutex locked and leave it so. */
  lemma SleepersJoinOnlyWhileLocked(s: State, e: Event)
    requires Reachable(s) && Enabled(s, e) && Apply(s, e).word.nsleep > s.word.nsleep
    ensures s.word.locked && Apply(s, e).word.locked
    ensures Apply(s, e).threads[e.t].pc.Asleep?
  {
    ReachableInv(s);
    Room(s, e.t);
    CountsDrop(s.word, s.cap);
    var pc := s.threads[e.t].pc;
    if !pc.Asleep? && !pc.Expired? {
      CountsMove(s.word, if pc.Trying? then pc.quad else 0, if pc.Spinning? then pc.slot else 0, s.cap);
    }
  }

  /** A lock call returns 0 exactly when it has just acquired the mutex, which was free.  It
      returns -1 without touching ownership, either because it found the mutex locked with
      no time left, or as a waiter that took itself off the sleeping count. */
  lemma LockResultMeansOwnership(s: State, e: Event)
    requires Reachable(s) && Enabled(s, e)
    requires !s.threads[e.t].pc.Idle? && Apply(s, e).threads[e.t].pc.Idle?
    ensures var after := Apply(s, e);
            && (after.threads[e.t].pc.result == 0 || after.threads[e.t].pc.result == -1)
            && (after.threads[e.t].pc.result == 0 ==>
                  !s.word.locked && after.word.locked && after.threads[e.t].holds)
            && (after.threads[e.t].pc.result == -1 ==>
                  && after.threads[e.t].holds == s.threads[e.t].holds
                  && after.word.locked == s.word.locked
                  && (s.word.locked || after.word.nsleep == s.word.nsleep - 1))
  {
    ReachableInv(s);
    Room(s, e.t);
    CountsDrop(s.word, s.cap);
    var pc := s.threads[e.t].pc;
    if !pc.Asleep? && !pc.Expired? {
      CountsMove(s.word, if pc.Trying? then pc.quad else 0, if pc.Spinning? then pc.slot else 0, s.cap);
    }
  }

  /** A thread inside a lock call that has no time limit. */
  predicate WaitsForever(pc: Pc)
  {
    (pc.Trying? || pc.Spinning? || pc.Asleep? || pc.Expired?) && pc.quad == INT64_MAX
  }

  /** A call without a timeout waits forever, and a call that waits forever can only end by
      returning 0 with the mutex held. */
  lemma NoTimeoutMeansSuccess(s: State, e: Event, t: nat)
    requires Reachable(s) && Enabled(s, e) && t < |s.threads| && WaitsForever(s.threads[t].pc)
    ensures var th := Apply(s, e).threads[t];
            WaitsForever(th.pc) || th == Thread(Idle(0), true)
  {
    PatienceKept(s, t);
  }

  lemma PatienceKept(s: State, t: nat)
    requires Reachable(s) && t < |s.threads|
    ensures Patient(s.threads[t]) && s.cap > 0
  {
    ReachableInv(s);
  }

  /** Only a thread's own lock or unlock call and an explicit hand-over move ownership. */
  lemma OwnershipIsPrivate(s: State, e: Event, t: nat)
    requires Enabled(s, e) && t < |s.threads| && t != e.t && !e.Handoff?
    ensures Apply(s, e).threads[t].holds == s.threads[t].holds
  {
  }

  // ---------------------------------------------------------------- the time that is left

  /** A thread in a lock call that has not got anything yet. */
  predicate InCall(pc: Pc) { pc.Trying? || pc.Spinning? || pc.Asleep? || pc.Expired? }

  /** How long thread `t` has slept in a run, all its waits together. */
  function Slept(es: seq<Event>, t: nat): nat
  {
    if es == [] then 0
    else
      var e := es[|es| - 1];
      Slept(es[..|es| - 1], t) + if e.Meet? && e.t == t then e.elapsed else 0
  }

  lemma TimePasses(s: State, e: Event, t: nat)
    requires Enabled(s, e) && t < |s.threads| && !(e.Call? && e.t == t)
    ensures var pc, pc' := s.threads[t].pc, Apply(s, e).threads[t].pc;
            && |Apply(s, e).threads| == |s.threads|
            && (InCall(pc') ==>
                  && InCall(pc)
                  && pc'.quad == if e.Meet? && e.t == t then Adjusted(pc.quad, e.elapsed) else pc.quad)
  {
  }

  /** In every run, the time that a call has left is what its argument says, less all the time
      that it has slept. */
  lemma {:induction false} TimeLeft(s: State, e: Event, es: seq<Event>)
    requires Enabled(s, e) && e.Call? && Execute(Apply(s, e), es).Some?
    requires forall x :: x in es ==> !(x.Call? && x.t == e.t)
    ensures var last := Execute(Apply(s, e), es).value;
            && |last.threads| == |s.threads|
            && (InCall(last.threads[e.t].pc) ==>
                  last.threads[e.t].pc.quad == Adjusted(Converted(e.msOpt), Slept(es, e.t)))
  {
    AdjustedAgain(Converted(e.msOpt), 0, 0);
    if es != [] {
      var init, x := es[..|es| - 1], es[|es| - 1];
      TimeLeft(s, e, init);
      TimePasses(Execute(Apply(s, e), init).value, x, e.t);
      AdjustedAgain(Converted(e.msOpt), Slept(init, e.t), if x.Meet? && x.t == e.t then x.elapsed else 0);
    }
  }

  /** A lock attempt on a mutex that is locked returns -1 if and only if no time is left: the
      timeout was zero, or relative and all slept away.  The word is left alone then. */
  lemma RefusedExactly(s: State, e: Event, es: seq<Event>, now: State)
    requires Enabled(s, e) && e.Call? && Execute(Apply(s, e), es) == Some(now)
    requires forall x :: x in es ==> !(x.Call? && x.t == e.t)
    requires Enabled(now, TryLock(e.t))
    ensures var after := Apply(now, TryLock(e.t));
            && (after.threads[e.t].pc == Idle(-1) <==>
                  now.word.locked && Adjusted(Converted(e.msOpt), Slept(es, e.t)) == 0)
            && (after.threads[e.t].pc == Idle(0) <==> !now.word.locked)
            && (after.threads[e.t].pc == Idle(-1) ==> after == Put(now, e.t, after.threads[e.t]))
  {
    TimeLeft(s, e, es);
    LockChoices(now.word, now.threads[e.t].pc.quad, now.cap);
  }

  /** What a timed-out waiter does, exactly: it leaves with -1 if it is counted, and otherwise
      waits again, with a zero timeout. */
  lemma SettleOutcome(s: State, t: nat)
    requires Reachable(s) && Enabled(s, Settle(t))
    ensures var th, next := s.threads[t], Apply(s, Settle(t));
            next == if s.word.nsleep == 0 then Put(s, t, th.(pc := Asleep(th.pc.quad, true)))
                    else Put(s, t, th.(pc := Idle(-1))).(word := s.word.(nsleep := s.word.nsleep - 1))
  {
    SleeperAccounting(s);
    if s.word.nsleep > 0 {
      SmallRemainder(s.word.nsleep - 1, s.cap);
    }
  }
}
