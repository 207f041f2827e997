/** The condition variable as a transition system over any number of threads.  A waiter
    registers itself first, then calls the unlock callback, sleeps, and calls the relock
    callback. */
module Cond {
  import opened Wrappers
  import opened Tally
  import opened AtomicWord
  import opened Timeouts

  // ---------------------------------------------------------------- decisions on the sleeping count


  function EnterDecision(nsleep: nat, cap: nat): Decision<nat, ()>
    requires cap > 0
  {
    Exchange((nsleep + 1) % cap, ())
  }

  function LeaveDecision(nsleep: nat, cap: nat): Decision<nat, Option<int>>
    requires cap > 0
  {
    if nsleep == 0 then Stop(None) else Exchange((nsleep - 1) % cap, Some(-1))
  }

  /** Signalling with a limit that is not zero; the result is the number of threads to wake. */
  function SignalDecision(nsleep: nat, limit: nat, cap: nat): Decision<nat, nat>
    requires cap > 0
  {
    if nsleep == 0 then Stop(0)
    else
      var wake := if limit < nsleep then limit else nsleep;
      Exchange((nsleep - wake) % cap, wake)
  }

  // ---------------------------------------------------------------- the system

  datatype Pc =
    | Idle(result: int)
    | Unlocking(quad: int)                   // registered, about to call the unlock callback
    | Asleep(quad: int, zero: bool)
    | Expired(quad: int)
    | Relocking(err: int)                    // about to call the relock callback and return
    | Releasing(wake: nat, claimed: nat)     // a signal call that will return `claimed`

  /** `entered`, `woken`, `left` and `claimed` count the waits that began, that met a releaser
      and that timed out, and the wake-ups that signal calls have claimed so far. */
  datatype State = State(nsleep: nat, threads: seq<Pc>, cap: nat, entered: nat, woken: nat, left: nat, claimed: nat)

  datatype Event =
    | Enter(t: nat, msOpt: Option<int>)
    | Unlocked(t: nat)
    | Expire(t: nat)
    | Settle(t: nat)
    | Meet(t: nat, u: nat)
    | Relocked(t: nat)
    | Signal(t: nat, limit: nat)

  function Registered(pc: Pc): int { if pc.Unlocking? || pc.Asleep? || pc.Expired? then 1 else 0 }

  function Owed(pc: Pc): int { if pc.Releasing? then pc.wake else 0 }

  function Initial(n: nat, cap: nat): State
  {
    State(0, seq(n, _ => Idle(0)), cap, 0, 0, 0, 0)
  }

  predicate Enabled(s: State, e: Event)
  {
    && e.t < |s.threads|
    && s.cap > 0
    && var pc := s.threads[e.t];
    match e
    case Enter(_, msOpt) => pc.Idle? && (msOpt.Some? ==> IsInt64(msOpt.value))
    case Unlocked(_) => pc.Unlocking?
    case Expire(_) => pc.Asleep? && (pc.zero || pc.quad != INT64_MAX)
    case Settle(_) => pc.Expired?
    case Meet(_, u) => pc.Asleep? && u < |s.threads| && Owed(s.threads[u]) > 0
    case Relocked(_) => pc.Relocking?
    case Signal(_, _) => pc.Idle?
  }

  function Put(s: State, t: nat, pc: Pc): State
    requires t < |s.threads|
  {
    s.(threads := s.threads[t := pc])
  }

  function AfterRelease(wake: nat, claimed: nat): Pc
  {
    if wake == 0 then Idle(claimed) else Releasing(wake, claimed)
  }

  function SettleStep(s: State, t: nat): State
    requires t < |s.threads| && s.cap > 0 && s.threads[t].Expired?
  {
    match LeaveDecision(s.nsleep, s.cap)
    case Stop(_) => Put(s, t, Asleep(s.threads[t].quad, true))
    case Exchange(n, _) => Put(s, t, Relocking(-1)).(nsleep := n, left := s.left + 1)
  }

  function SignalStep(s: State, t: nat, limit: nat): State
    requires t < |s.threads| && s.cap > 0
  {
    if limit == 0 then Put(s, t, Idle(0))
    else
      match SignalDecision(s.nsleep, limit, s.cap)
      case Stop(_) => Put(s, t, Idle(0))
      case Exchange(n, wake) => Put(s, t, AfterRelease(wake, wake)).(nsleep := n, claimed := s.claimed + wake)
  }

  function Apply(s: State, e: Event): State
    requires Enabled(s, e)
  {
    match e
    case Enter(t, msOpt) =>
      Put(s, t, Unlocking(Converted(msOpt))).(nsleep := EnterDecision(s.nsleep, s.cap).next, entered := s.entered + 1)
    case Unlocked(t) => Put(s, t, Asleep(s.threads[t].quad, s.threads[t].quad == 0))
    case Expire(t) => Put(s, t, Expired(s.threads[t].quad))
    case Settle(t) => SettleStep(s, t)
    case Meet(t, u) =>
      var releaser := s.threads[u];
      Put(Put(s, t, Relocking(0)), u, AfterRelease(releaser.wake - 1, releaser.claimed)).(woken := s.woken + 1)
    case Relocked(t) => Put(s, t, Idle(s.threads[t].err))
    case Signal(t, limit) => SignalStep(s, t, limit)
  }

  function Execute(s: State, es: seq<Event>): Option<State>
  {
    if es == [] then Some(s)
    else
      var before := Execute(s, es[..|es| - 1]);
      if before.Some? && Enabled(before.value, es[|es| - 1]) then Some(Apply(before.value, es[|es| - 1]))
      else None
  }

  // ---------------------------------------------------------------- the invariant

  ghost predicate Inv(s: State)
  {
    && |s.threads| < s.cap
    && Total(s.threads, Registered) == s.nsleep + Total(s.threads, Owed)
    && s.entered == Total(s.threads, Registered) + s.woken + s.left
    && s.claimed == s.woken + Total(s.threads, Owed)
    && forall i :: 0 <= i < |s.threads| ==> Patient(s.threads[i])
  }

  predicate Patient(pc: Pc)
  {
    && (pc.Asleep? && pc.zero ==> pc.quad != INT64_MAX)
    && (pc.Expired? ==> pc.quad != INT64_MAX)
  }

  lemma Retally(pcs: seq<Pc>, t: nat, pc: Pc)
    requires t < |pcs|
    ensures Total(pcs[t := pc], Registered) == Total(pcs, Registered) - Registered(pcs[t]) + Registered(pc)
    ensures Total(pcs[t := pc], Owed) == Total(pcs, Owed) - Owed(pcs[t]) + Owed(pc)
  {
    TotalUpdate(pcs, Registered, t, pc);
    TotalUpdate(pcs, Owed, t, pc);
  }

  lemma Bounds(pcs: seq<Pc>, t: nat)
    requires t < |pcs|
    ensures Total(pcs, Registered) >= Registered(pcs[t])
    ensures Total(pcs, Owed) >= Owed(pcs[t])
    ensures Total(pcs, Registered) <= |pcs| - (if Registered(pcs[t]) == 0 then 1 else 0)
  {
    TotalAtLeast(pcs, Registered, t);
    TotalAtLeast(pcs, Owed, t);
    var more := pcs[t := Expired(0)];
    TotalUpdate(pcs, Registered, t, more[t]);
    TotalAtMostLength(more, Registered);
    TotalAtMostLength(pcs, Registered);
  }

  lemma InitialInv(n: nat, cap: nat)
    requires n < cap
    ensures Inv(Initial(n, cap))
  {
    TotalZero(Initial(n, cap).threads, Registered);
    TotalZero(Initial(n, cap).threads, Owed);
  }

  lemma EnterKeepsInv(s: State, e: Event)
    requires Inv(s) && Enabled(s, e) && e.Enter?
    ensures Inv(Apply(s, e))
    ensures Apply(s, e).nsleep == s.nsleep + 1
  {
    Bounds(s.threads, e.t);
    Retally(s.threads, e.t, Apply(s, e).threads[e.t]);
    SmallRemainder(s.nsleep + 1, s.cap);
  }

  lemma WaitStepsKeepInv(s: State, e: Event)
    requires Inv(s) && Enabled(s, e) && !e.Enter? && !e.Signal? && !e.Meet?
    ensures Inv(Apply(s, e))
  {
    Bounds(s.threads, e.t);
    Retally(s.threads, e.t, Apply(s, e).threads[e.t]);
    if s.nsleep > 0 {
      SmallRemainder(s.nsleep - 1, s.cap);
    }
  }

  lemma SignalKeepsInv(s: State, e: Event)
    requires Inv(s) && Enabled(s, e) && e.Signal?
    ensures Inv(Apply(s, e))
  {
    Bounds(s.threads, e.t);
    Retally(s.threads, e.t, Apply(s, e).threads[e.t]);
    SignallingCountsDown(s.nsleep, e.limit, s.cap);
  }

  lemma SignallingCountsDown(nsleep: nat, limit: nat, cap: nat)
    requires nsleep < cap
    ensures var wake := if limit < nsleep then limit else nsleep;
            SignalDecision(nsleep, limit, cap) == if nsleep == 0 then Stop(0) else Exchange(nsleep - wake, wake)
  {
    SmallRemainder(if limit < nsleep then nsleep - limit else 0, cap);
  }

  lemma MeetKeepsInv(s: State, e: Event)
    requires Inv(s) && Enabled(s, e) && e.Meet?
    ensures Inv(Apply(s, e))
  {
    Retally(s.threads, e.t, Relocking(0));
    Retally(s.threads[e.t := Relocking(0)], e.u, Apply(s, e).threads[e.u]);
  }

  lemma StepKeepsInv(s: State, e: Event)
    requires Inv(s) && Enabled(s, e)
    ensures Inv(Apply(s, e))
  {
    match e {
      case Enter(_, _) => EnterKeepsInv(s, e);
      case Signal(_, _) => SignalKeepsInv(s, e);
      case Meet(_, _) => MeetKeepsInv(s, e);
      case _ => WaitStepsKeepInv(s, e);
    }
  }

  lemma {:induction false} RunKeepsInv(s: State, es: seq<Event>)
    requires Inv(s) && Execute(s, es).Some?
    ensures Inv(Execute(s, es).value)
  {
    if es != [] {
      RunKeepsInv(s, es[..|es| - 1]);
      StepKeepsInv(Execute(s, es[..|es| - 1]).value, es[|es| - 1]);
    }
  }

  // ---------------------------------------------------------------- theorems over all runs

  ghost predicate Reachable(s: State)
  {
    exists n: nat, cap: nat, es: seq<Event> :: n < cap && Execute(Initial(n, cap), es) == Some(s)
  }

  lemma InitialReachable(n: nat, cap: nat)
    requires n < cap
    ensures Reachable(Initial(n, cap))
  {
    assert Execute(Initial(n, cap), []) == Some(Initial(n, cap));
  }

  lemma StepReachable(s: State, e: Event)
    requires Reachable(s) && Enabled(s, e)
    ensures Reachable(Apply(s, e))
  {
    var n: nat, cap: nat, es: seq<Event> :| n < cap && Execute(Initial(n, cap), es) == Some(s);
    assert (es + [e])[..|es|] == es;
    assert Execute(Initial(n, cap), es + [e]) == Some(Apply(s, e));
  }

  lemma ReachableInv(s: State)
    requires Reachable(s)
    ensures Inv(s)
  {
    var n: nat, cap: nat, es: seq<Event> :| n < cap && Execute(Initial(n, cap), es) == Some(s);
    InitialInv(n, cap);
    RunKeepsInv(Initial(n, cap), es);
  }

  /** Waiters and wake-ups balance in every state: registered waiters are counted or owed, every
      wait that began is under way, woken or timed out, and every wake-up claimed by a signal
      call has been delivered or is still owed. */
  lemma WaiterAccounting(s: State)
    requires Reachable(s)
    ensures Total(s.threads, Registered) == s.nsleep + Total(s.threads, Owed)
    ensures s.entered == Total(s.threads, Registered) + s.woken + s.left
    ensures s.claimed == s.woken + Total(s.threads, Owed)
    ensures s.nsleep <= |s.threads| < s.cap
  {
    ReachableInv(s);
    TotalNonNegative(s.threads, Owed);
    TotalAtMostLength(s.threads, Registered);
  }

  /** A signal call claims as many waiters as its limit allows of those that have no release
      coming yet; a waiter is one from its registration on, before it unlocks its mutex. */
  lemma SignalClaims(s: State, e: Event)
    requires Reachable(s) && Enabled(s, e) && e.Signal?
    ensures var free := Total(s.threads, Registered) - Total(s.threads, Owed);
            var count := if e.limit < free then e.limit else free;
            && Apply(s, e).claimed == s.claimed + count
            && Apply(s, e).nsleep == s.nsleep - count
            && Apply(s, e).threads[e.t] == if count == 0 then Idle(0) else Releasing(count, count)
  {
    ReachableInv(s);
    Bounds(s.threads, e.t);
    SmallRemainder(if e.limit < s.nsleep then s.nsleep - e.limit else 0, s.cap);
  }

  /** A wait ends with 0 only by meeting a releaser. */
  lemma WokenWaitsReturnZero(s: State, e: Event)
    requires Reachable(s) && Enabled(s, e)
    ensures Apply(s, e).woken == s.woken + (if e.Meet? then 1 else 0)
    ensures e.Meet? ==> Apply(s, e).threads[e.t] == Relocking(0) && Apply(s, e).nsleep == s.nsleep
  {
    if e.Meet? {
      assert s.threads[e.u].Releasing?;
    }
  }

  /** A wait ends with -1 only by taking itself off the count, which touches no wake-up that is
      owed to somebody else. */
  lemma TimedOutWaitsLeave(s: State, t: nat)
    requires Reachable(s) && Enabled(s, Settle(t)) && s.nsleep > 0
    ensures var next := SettleStep(s, t);
            && next == Apply(s, Settle(t))
            && next.threads == s.threads[t := Relocking(-1)]
            && next.nsleep == s.nsleep - 1 && next.left == s.left + 1
            && Total(next.threads, Owed) == Total(s.threads, Owed)
  {
    SleepersFit(s);
    LeavingCountsDown(s.nsleep, s.cap);
    Retally(s.threads, t, Relocking(-1));
  }

  lemma SleepersFit(s: State)
    requires Reachable(s)
    ensures s.nsleep < s.cap
  {
    ReachableInv(s);
    TotalNonNegative(s.threads, Owed);
    TotalAtMostLength(s.threads, Registered);
  }

  lemma LeavingCountsDown(nsleep: nat, cap: nat)
    requires 0 < nsleep < cap
    ensures LeaveDecision(nsleep, cap) == Exchange(nsleep - 1, Some(-1))
  {
    SmallRemainder(nsleep - 1, cap);
  }

  /** No other step counts a wait as timed out, and none ends a wait with -1. */
  lemma OnlyLeavingTimesOut(s: State, e: Event, t: nat)
    requires Enabled(s, e) && t < |s.threads| && !(e.Settle? && s.nsleep > 0)
    ensures Apply(s, e).left == s.left
    ensures Apply(s, e).threads[t] == Relocking(-1) ==> s.threads[t] == Relocking(-1)
  {
  }

  lemma TimedOutWaiterMustStay(s: State, t: nat)
    requires Reachable(s) && t < |s.threads| && s.threads[t].Expired? && s.nsleep == 0
    ensures exists u :: 0 <= u < |s.threads| && Owed(s.threads[u]) > 0
  {
    ReachableInv(s);
    Bounds(s.threads, t);
    var u := TotalWitness(s.threads, Owed);
  }

  lemma ReleaserHasWaiter(s: State, u: nat)
    requires Reachable(s) && u < |s.threads| && Owed(s.threads[u]) > 0
    ensures exists t :: 0 <= t < |s.threads| && Registered(s.threads[t]) > 0
  {
    ReachableInv(s);
    Bounds(s.threads, u);
    var t := TotalWitness(s.threads, Registered);
  }

  /** When nothing is left to do except sleeping, every wake-up that was ever claimed has been
      delivered. */
  lemma QuietMeansDelivered(s: State)
    requires Reachable(s)
    requires forall pc :: pc in s.threads ==> pc.Idle? || pc.Asleep?
    ensures s.claimed == s.woken && Total(s.threads, Registered) == s.nsleep
  {
    ReachableInv(s);
    TotalZero(s.threads, Owed);
  }

  // ---------------------------------------------------------------- the time that is left

  /** A thread in a wait that has not ended. */
  predicate InCall(pc: Pc) { pc.Unlocking? || pc.Asleep? || pc.Expired? }

  lemma TimeStays(s: State, e: Event, t: nat)
    requires Enabled(s, e) && t < |s.threads| && !(e.Enter? && e.t == t)
    ensures var pc, pc' := s.threads[t], Apply(s, e).threads[t];
            && |Apply(s, e).threads| == |s.threads|
            && (InCall(pc') ==> InCall(pc) && pc'.quad == pc.quad)
  {
  }

  /** In every run, a wait has the time limit that its argument says: it sleeps only once. */
  lemma {:induction false} TimeLeft(s: State, e: Event, es: seq<Event>)
    requires Enabled(s, e) && e.Enter? && Execute(Apply(s, e), es).Some?
    requires forall x :: x in es ==> !(x.Enter? && x.t == e.t)
    ensures var last := Execute(Apply(s, e), es).value;
            && |last.threads| == |s.threads|
            && (InCall(last.threads[e.t]) ==> last.threads[e.t].quad == Converted(e.msOpt))
  {
    if es != [] {
      var init, x := es[..|es| - 1], es[|es| - 1];
      TimeLeft(s, e, init);
      TimeStays(Execute(Apply(s, e), init).value, x, e.t);
    }
  }

  /** A wait that has unlocked sleeps with the time limit of its argument; a timed-out waiter that is
      not counted any more waits again, with a zero timeout. */
  lemma SleepsAsLongAsAsked(s: State, e: Event, es: seq<Event>, now: State)
    requires Enabled(s, e) && e.Enter? && Execute(Apply(s, e), es) == Some(now)
    requires forall x :: x in es ==> !(x.Enter? && x.t == e.t)
    ensures Enabled(now, Unlocked(e.t)) ==>
              Apply(now, Unlocked(e.t)) == Put(now, e.t, Asleep(Converted(e.msOpt), e.msOpt == Some(0)))
    ensures Enabled(now, Settle(e.t)) && now.nsleep == 0 ==>
              Apply(now, Settle(e.t)) == Put(now, e.t, Asleep(Converted(e.msOpt), true))
  {
    TimeLeft(s, e, es);
    ConversionKeepsClass(e.msOpt);
  }
}
