/** The counting semaphore as a transition system over any number of threads.  The word is
    one signed number; a negative value counts sleepers. */
module Semaphore {
  import opened Wrappers
  import opened Tally
  import opened AtomicWord
  import opened Timeouts

  // ---------------------------------------------------------------- decisions

  datatype WaitResult = Acquired | Refused | GoToSleep
  datatype SignalResult = Overflow | Wake(count: nat)

  function WaitDecision(value: int, quad: int): Decision<int, WaitResult>
  {
    if value > 0 then Exchange(value - 1, Acquired)
    else if quad == 0 then Stop(Refused)
    else Exchange(value - 1, GoToSleep)
  }

  function LeaveDecision(value: int): Decision<int, Option<int>>
  {
    if value >= 0 then Stop(None) else Exchange(value + 1, Some(-1))
  }

  function Sleepers(value: int): nat { if value < 0 then -value else 0 }

  function SignalDecision(value: int, add: int, max: nat): Decision<int, SignalResult>
    requires 0 < add
  {
    if value > max - add then Stop(Overflow)
    else
      var wake := if add < Sleepers(value) then add else Sleepers(value);
      Exchange(value + add, Wake(wake))
  }

  /** A first look at the value, exactly: a positive one yields a permit; otherwise the wait is
      refused if and only if no time is left, and the thread sleeps if not. */
  predicate WaitOutcome(value: int, next: int, quad: int, r: WaitResult)
  {
    if value > 0 then r == Acquired && next == value - 1
    else if quad == 0 then r == Refused && next == value
    else r == GoToSleep && next == value - 1
  }

  /** The number of threads to wake is exactly what the signal takes off the sleepers, and a
      signal that goes through stays within range. */
  lemma WakesTheDifference(value: int, add: int, max: nat)
    requires 0 < add <= max
    ensures var d := SignalDecision(value, add, max);
            && (d.Exchange? <==> value + add <= max)
            && (d.Exchange? ==> d.next <= max && d.result == Wake(Sleepers(value) - Sleepers(d.next)))
  {
  }

  // ---------------------------------------------------------------- the system

  datatype Pc =
    | Idle(result: int)
    | Trying(quad: int)
    | Asleep(quad: int, zero: bool)
    | Expired(quad: int)
    | Releasing(wake: nat)

  /** `taken` counts the permits that this thread's waits have got, and `added` those that its
      signals have added; the code does not store them. */
  datatype Thread = Thread(pc: Pc, taken: nat, added: nat)

  /** `max` is the largest value, and `initial` the one that the semaphore started with. */
  datatype State = State(value: int, threads: seq<Thread>, max: nat, initial: nat)

  datatype Event =
    | Call(t: nat, msOpt: Option<int>)
    | TryWait(t: nat)
    | Expire(t: nat)
    | Settle(t: nat)
    | Meet(t: nat, u: nat)
    | Signal(t: nat, add: int)

  function Registered(th: Thread): int { if th.pc.Asleep? || th.pc.Expired? then 1 else 0 }

  function Owed(th: Thread): int { if th.pc.Releasing? then th.pc.wake else 0 }

  function Taken(th: Thread): int { th.taken }

  function Added(th: Thread): int { th.added }

  function Initial(n: nat, max: nat, initial: nat): State
  {
    State(initial, seq(n, _ => Thread(Idle(0), 0, 0)), max, initial)
  }

  predicate Enabled(s: State, e: Event)
  {
    && e.t < |s.threads|
    && var pc := s.threads[e.t].pc;
    match e
    case Call(_, msOpt) => pc.Idle? && (msOpt.Some? ==> IsInt64(msOpt.value))
    case TryWait(_) => pc.Trying?
    case Expire(_) => pc.Asleep? && (pc.zero || pc.quad != INT64_MAX)
    case Settle(_) => pc.Expired?
    case Meet(_, u) => pc.Asleep? && u < |s.threads| && Owed(s.threads[u]) > 0
    case Signal(_, _) => pc.Idle?
  }

  function Put(s: State, t: nat, th: Thread): State
    requires t < |s.threads|
  {
    s.(threads := s.threads[t := th])
  }

  function AfterRelease(wake: nat): Pc
  {
    if wake == 0 then Idle(0) else Releasing(wake)
  }

  /** A wait of this thread has succeeded. */
  function WithPermit(th: Thread): Thread { th.(pc := Idle(0), taken := th.taken + 1) }

  function WaitStep(s: State, t: nat): State
    requires t < |s.threads| && s.threads[t].pc.Trying?
  {
    var th := s.threads[t];
    match WaitDecision(s.value, th.pc.quad)
    case Stop(_) => Put(s, t, th.(pc := Idle(-1)))
    case Exchange(v, r) =>
      Put(s, t, if r.Acquired? then WithPermit(th) else th.(pc := Asleep(th.pc.quad, th.pc.quad == 0))).(value := v)
  }

  function SettleStep(s: State, t: nat): State
    requires t < |s.threads| && s.threads[t].pc.Expired?
  {
    var th := s.threads[t];
    match LeaveDecision(s.value)
    case Stop(_) => Put(s, t, th.(pc := Asleep(th.pc.quad, true)))
    case Exchange(v, _) => Put(s, t, th.(pc := Idle(-1))).(value := v)
  }

  function SignalStep(s: State, t: nat, add: int): State
    requires t < |s.threads|
  {
    var th := s.threads[t];
    if add < 0 || add > s.max then Put(s, t, th.(pc := Idle(-1)))
    else if add == 0 then Put(s, t, th.(pc := Idle(0)))
    else
      match SignalDecision(s.value, add, s.max)
      case Exchange(v, Wake(wake)) =>
        Put(s, t, th.(pc := AfterRelease(wake), added := th.added + add)).(value := v)
      case _ => Put(s, t, th.(pc := Idle(-2)))
  }

  function Apply(s: State, e: Event): State
    requires Enabled(s, e)
  {
    var th := s.threads[e.t];
    match e
    case Call(t, msOpt) => Put(s, t, th.(pc := Trying(Converted(msOpt))))
    case TryWait(t) => WaitStep(s, t)
    case Expire(t) => Put(s, t, th.(pc := Expired(th.pc.quad)))
    case Settle(t) => SettleStep(s, t)
    case Meet(t, u) =>
      Put(Put(s, t, WithPermit(th)), u, s.threads[u].(pc := AfterRelease(s.threads[u].pc.wake - 1)))
    case Signal(t, add) => SignalStep(s, t, add)
  }

  function Execute(s: State, es: seq<Event>): Option<State>
  {
    if es == [] then Some(s)
    else
      var before := Execute(s, es[..|es| - 1]);
      if before.Some? && Enabled(before.value, es[|es| - 1]) then Some(Apply(before.value, es[|es| - 1]))
      else None
  }

  // ---------------------------------------------------------------- the invariant

  ghost predicate Inv(s: State)
  {
    && |s.threads| <= s.max
    && s.value <= s.max
    && s.value + Total(s.threads, Registered) + Total(s.threads, Taken) == s.initial + Total(s.threads, Added)
    && Total(s.threads, Registered) == Sleepers(s.value) + Total(s.threads, Owed)
    && forall i :: 0 <= i < |s.threads| ==> Patient(s.threads[i])
  }

  predicate Patient(th: Thread)
  {
    && (th.pc.Asleep? && th.pc.zero ==> th.pc.quad != INT64_MAX)
    && (th.pc.Expired? ==> th.pc.quad != INT64_MAX)
  }

  lemma Retally(ths: seq<Thread>, t: nat, th: Thread)
    requires t < |ths|
    ensures Total(ths[t := th], Registered) == Total(ths, Registered) - Registered(ths[t]) + Registered(th)
    ensures Total(ths[t := th], Owed) == Total(ths, Owed) - Owed(ths[t]) + Owed(th)
    ensures Total(ths[t := th], Taken) == Total(ths, Taken) - Taken(ths[t]) + Taken(th)
    ensures Total(ths[t := th], Added) == Total(ths, Added) - Added(ths[t]) + Added(th)
  {
    TotalUpdate(ths, Registered, t, th);
    TotalUpdate(ths, Owed, t, th);
    TotalUpdate(ths, Taken, t, th);
    TotalUpdate(ths, Added, t, th);
  }

  lemma InitialInv(n: nat, max: nat, initial: nat)
    requires n <= max && initial <= max
    ensures Inv(Initial(n, max, initial))
  {
    var ths := Initial(n, max, initial).threads;
    TotalZero(ths, Registered);
    TotalZero(ths, Owed);
    TotalZero(ths, Taken);
    TotalZero(ths, Added);
  }

  lemma WaitStepsKeepInv(s: State, e: Event)
    requires Inv(s) && Enabled(s, e) && !e.Meet? && !e.Signal?
    ensures Inv(Apply(s, e))
  {
    Retally(s.threads, e.t, Apply(s, e).threads[e.t]);
  }

  lemma SignalKeepsInv(s: State, e: Event)
    requires Inv(s) && Enabled(s, e) && e.Signal?
    ensures Inv(Apply(s, e))
  {
    Retally(s.threads, e.t, Apply(s, e).threads[e.t]);
    if 0 < e.add <= s.max {
      WakesTheDifference(s.value, e.add, s.max);
    }
  }

  lemma MeetKeepsInv(s: State, e: Event)
    requires Inv(s) && Enabled(s, e) && e.Meet?
    ensures Inv(Apply(s, e))
  {
    var ths, served := s.threads, WithPermit(s.threads[e.t]);
    Retally(ths, e.t, served);
    Retally(ths[e.t := served], e.u, Apply(s, e).threads[e.u]);
  }

  lemma StepKeepsInv(s: State, e: Event)
    requires Inv(s) && Enabled(s, e)
    ensures Inv(Apply(s, e))
  {
    match e {
      case Meet(_, _) => MeetKeepsInv(s, e);
      case Signal(_, _) => SignalKeepsInv(s, e);
      case _ => WaitStepsKeepInv(s, e);
    }
  }

  lemma {:induction false} RunKeepsInv(s: State, es: seq<Event>)
    requires Inv(s) && Execute(s, es).Some?
    ensures Inv(Execute(s, es).value)
  {
    if es != [] {
      RunKeepsInv(s, es[..|es| - 1]);
      StepKeepsInv(Execute(s, es[..|es| - 1]).value, es[|es| - 1]);
    }
  }

  // ---------------------------------------------------------------- theorems over all runs

  ghost predicate Reachable(s: State)
  {
    exists n: nat, max: nat, initial: nat, es: seq<Event> ::
      n <= max && initial <= max && Execute(Initial(n, max, initial), es) == Some(s)
  }

  lemma ReachableInv(s: State)
    requires Reachable(s)
    ensures Inv(s)
  {
    var n: nat, max: nat, initial: nat, es: seq<Event> :|
      n <= max && initial <= max && Execute(Initial(n, max, initial), es) == Some(s);
    InitialInv(n, max, initial);
    RunKeepsInv(Initial(n, max, initial), es);
  }

  /** Permits are conserved: what is in the word, what waiters have reserved and what has been
      taken add up to what was put in; so no more waits succeed than permits were issued. */
  lemma PermitsAreConserved(s: State)
    requires Reachable(s)
    ensures var taken, issued := Total(s.threads, Taken), s.initial + Total(s.threads, Added);
            && s.value + Total(s.threads, Registered) + taken == issued
            && taken + Total(s.threads, Owed) + (if s.value > 0 then s.value else 0) == issued
            && taken <= issued
  {
    ReachableInv(s);
    TotalNonNegative(s.threads, Owed);
  }

  /** The value never leaves the range of the machine word. */
  lemma ValueInRange(s: State)
    requires Reachable(s)
    ensures 0 - s.max <= s.value <= s.max
  {
    ReachableInv(s);
    TotalNonNegative(s.threads, Owed);
    TotalAtMostLength(s.threads, Registered);
  }

  /** A step gets a thread a permit exactly if it is a wait on a positive value or a meeting with
      a releaser, and then the wait returns 0. */
  lemma PermitsAreEarned(s: State, e: Event, t: nat)
    requires Enabled(s, e) && t < |s.threads|
    ensures var th, th' := s.threads[t], Apply(s, e).threads[t];
            && th'.taken == th.taken + (if t == e.t && ((e.TryWait? && s.value > 0) || e.Meet?) then 1 else 0)
            && (th'.taken != th.taken ==> th'.pc == Idle(0))
  {
    if e.Meet? {
      assert s.threads[e.u].pc.Releasing? && e.u != e.t;
    }
  }

  /** What a signal returns, exactly: -1 for a bad argument, -2 if the sum does not fit, both with
      no effect; otherwise all permits are added, and 0 is returned once all releases are made. */
  lemma SignalResults(s: State, e: Event)
    requires Enabled(s, e) && e.Signal?
    ensures var th, th', bad := s.threads[e.t], Apply(s, e).threads[e.t], e.add < 0 || e.add > s.max;
            && (th'.pc == Idle(-1) <==> bad)
            && (th'.pc == Idle(-2) <==> !bad && e.add > 0 && s.value + e.add > s.max)
            && (th'.pc == Idle(-1) || th'.pc == Idle(-2) ==> Apply(s, e) == Put(s, e.t, th.(pc := th'.pc)))
            && (th'.pc != Idle(-1) && th'.pc != Idle(-2) ==>
                  && Apply(s, e).value == s.value + e.add && th'.added == th.added + e.add
                  && th'.pc == AfterRelease(Sleepers(s.value) - Sleepers(s.value + e.add)))
  {
    if 0 < e.add <= s.max {
      WakesTheDifference(s.value, e.add, s.max);
    }
  }

  lemma TimedOutWaiterMustStay(s: State, t: nat)
    requires Reachable(s) && t < |s.threads| && s.threads[t].pc.Expired? && s.value >= 0
    ensures exists u :: 0 <= u < |s.threads| && Owed(s.threads[u]) > 0
  {
    ReachableInv(s);
    TotalAtLeast(s.threads, Registered, t);
    var u := TotalWitness(s.threads, Owed);
  }

  lemma ReleaserHasWaiter(s: State, u: nat)
    requires Reachable(s) && u < |s.threads| && Owed(s.threads[u]) > 0
    ensures exists t :: 0 <= t < |s.threads| && Registered(s.threads[t]) > 0
  {
    ReachableInv(s);
    TotalAtLeast(s.threads, Owed, u);
    var t := TotalWitness(s.threads, Registered);
  }

  /** When nothing is left to do except sleeping, there is no permit that a sleeper could
      have had, and every one of them is counted. */
  lemma QuietMeansEmpty(s: State, t: nat)
    requires Reachable(s) && t < |s.threads| && s.threads[t].pc.Asleep?
    requires forall th :: th in s.threads ==> th.pc.Idle? || th.pc.Asleep?
    ensures s.value < 0 && Total(s.threads, Registered) == -s.value
    ensures Total(s.threads, Taken) == s.initial + Total(s.threads, Added)
  {
    ReachableInv(s);
    TotalAtLeast(s.threads, Registered, t);
    TotalZero(s.threads, Owed);
  }

  // ---------------------------------------------------------------- reading the value

  /** The reading function promises that a negative value tells the number of threads that
      wait.  That is so exactly when no release is owed at that moment. */
  lemma NegativeValueCountsWaiters(s: State)
    requires Reachable(s) && s.value < 0
    ensures Total(s.threads, Registered) == -s.value <==> forall th :: th in s.threads ==> Owed(th) == 0
  {
    ReachableInv(s);
    if forall th :: th in s.threads ==> Owed(th) == 0 {
      TotalZero(s.threads, Owed);
    } else {
      var i :| 0 <= i < |s.threads| && Owed(s.threads[i]) != 0;
      TotalAtLeast(s.threads, Owed, i);
    }
  }

  lemma Extend(s0: State, es: seq<Event>, s: State, e: Event)
    requires Execute(s0, es) == Some(s) && Enabled(s, e)
    ensures Execute(s0, es + [e]) == Some(Apply(s, e))
  {
    assert (es + [e])[..|es + [e]| - 1] == es;
  }

  /** Two threads wait, and a third signals once: the value reads -1 while both still wait. */
  lemma NegativeValueCanMiscount() returns (s: State)
    ensures Reachable(s) && s.value == -1 && Total(s.threads, Registered) >= 2
  {
    var s0 := Initial(3, 3, 0);
    var es: seq<Event> := [];
    Extend(s0, es, s0, Call(0, None));
    var s1 := Apply(s0, Call(0, None));
    es := es + [Call(0, None)];
    Extend(s0, es, s1, TryWait(0));
    var s2 := Apply(s1, TryWait(0));
    es := es + [TryWait(0)];
    assert s2.threads[2].pc == s2.threads[1].pc == Idle(0) && s2.value == -1;
    Extend(s0, es, s2, Call(1, None));
    var s3 := Apply(s2, Call(1, None));
    es := es + [Call(1, None)];
    Extend(s0, es, s3, TryWait(1));
    var s4 := Apply(s3, TryWait(1));
    es := es + [TryWait(1)];
    assert s4.threads[2].pc == Idle(0) && s4.value == -2 && s4.max == 3;
    Extend(s0, es, s4, Signal(2, 1));
    s := Apply(s4, Signal(2, 1));
    assert s.threads[2].pc == Releasing(1) && s.value == -1;
    ReachableInv(s);
    TotalAtLeast(s.threads, Owed, 2);
  }

  // ---------------------------------------------------------------- the time that is left

  /** A thread in a wait that has not ended. */
  predicate InCall(pc: Pc) { pc.Trying? || pc.Asleep? || pc.Expired? }

  lemma TimeStays(s: State, e: Event, t: nat)
    requires Enabled(s, e) && t < |s.threads| && !(e.Call? && e.t == t)
    ensures var pc, pc' := s.threads[t].pc, Apply(s, e).threads[t].pc;
            && |Apply(s, e).threads| == |s.threads|
            && (InCall(pc') ==> InCall(pc) && pc'.quad == pc.quad)
  {
  }

  /** In every run, a wait has the time limit that its argument says: it sleeps only once. */
  lemma {:induction false} TimeLeft(s: State, e: Event, es: seq<Event>)
    requires Enabled(s, e) && e.Call? && Execute(Apply(s, e), es).Some?
    requires forall x :: x in es ==> !(x.Call? && x.t == e.t)
    ensures var last := Execute(Apply(s, e), es).value;
            && |last.threads| == |s.threads|
            && (InCall(last.threads[e.t].pc) ==> last.threads[e.t].pc.quad == Converted(e.msOpt))
  {
    if es != [] {
      var init, x := es[..|es| - 1], es[|es| - 1];
      TimeLeft(s, e, init);
      TimeStays(Execute(Apply(s, e), init).value, x, e.t);
    }
  }

  /** A first look at the value, exactly: a positive value yields a permit; otherwise the wait is
      refused if and only if its timeout is zero, which leaves the value alone, and sleeps if not. */
  lemma AnsweredExactly(s: State, e: Event, es: seq<Event>, now: State)
    requires Enabled(s, e) && e.Call? && Execute(Apply(s, e), es) == Some(now)
    requires forall x :: x in es ==> !(x.Call? && x.t == e.t)
    requires Enabled(now, TryWait(e.t))
    ensures var th, after := now.threads[e.t], Apply(now, TryWait(e.t));
            && (now.value > 0 ==> after == Put(now, e.t, WithPermit(th)).(value := now.value - 1))
            && (now.value <= 0 && e.msOpt == Some(0) ==> after == Put(now, e.t, th.(pc := Idle(-1))))
            && (now.value <= 0 && e.msOpt != Some(0) ==>
                  after == Put(now, e.t, th.(pc := Asleep(Converted(e.msOpt), false))).(value := now.value - 1))
  {
    TimeLeft(s, e, es);
    ConversionKeepsClass(e.msOpt);
  }

  /** What a timed-out waiter does, exactly: it leaves with -1 if the value is negative, and
      otherwise waits again, with a zero timeout. */
  lemma SettleOutcome(s: State, t: nat)
    requires Enabled(s, Settle(t))
    ensures var th, next := s.threads[t], Apply(s, Settle(t));
            next == if s.value >= 0 then Put(s, t, th.(pc := Asleep(th.pc.quad, true)))
                    else Put(s, t, th.(pc := Idle(-1))).(value := s.value + 1)
  {
  }
}
