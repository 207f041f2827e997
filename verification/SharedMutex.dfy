/** The shared mutex as a transition system over any number of threads.

    Steps are as for the mutex: one successful exchange or deciding load, a timeout, or the
    meeting of a releaser with a sleeper. */
module SharedMutex {
  import opened Wrappers
  import opened Tally
  import opened AtomicWord
  import opened SharedMutexWord
  import opened Timeouts

  datatype Pc =
    | Idle(result: int)
    | Trying(quad: int, shared: bool)
    | Asleep(quad: int, shared: bool, zero: bool)
    | Expired(quad: int, shared: bool)
    | Releasing(wake: nat)

  /** The shares and the exclusive ownership that callers have; the code does not store them. */
  datatype Thread = Thread(pc: Pc, shares: nat, exclusive: bool)

  datatype State = State(word: Word, threads: seq<Thread>, cap: nat)

  datatype Event =
    | Call(t: nat, wantShare: bool, msOpt: Option<int>)
    | TryLock(t: nat)
    | Expire(t: nat)
    | Settle(t: nat)
    | Meet(t: nat, u: nat, elapsed: nat)
    | Unlock(t: nat)
    | Handoff(t: nat, u: nat)            // pass on one share, or the exclusive ownership

  function Registered(th: Thread): int { if th.pc.Asleep? || th.pc.Expired? then 1 else 0 }

  function Owed(th: Thread): int { if th.pc.Releasing? then th.pc.wake else 0 }

  function Shares(th: Thread): int { th.shares }

  function Exclusive(th: Thread): int { if th.exclusive then 1 else 0 }

  function Initial(n: nat, cap: nat): State
  {
    State(Word(0, 0), seq(n, _ => Thread(Idle(0), 0, false)), cap)
  }

  predicate Owns(th: Thread) { th.exclusive || th.shares > 0 }

  /** One ownership less, or one more of the kind that `from` gives up. */
  function Without(th: Thread): Thread
    requires Owns(th)
  {
    if th.exclusive then th.(exclusive := false) else th.(shares := th.shares - 1)
  }

  function With(th: Thread, from: Thread): Thread
  {
    if from.exclusive then th.(exclusive := true) else th.(shares := th.shares + 1)
  }

  predicate Enabled(s: State, e: Event)
  {
    && e.t < |s.threads|
    && s.cap > 0
    && var th := s.threads[e.t];
    match e
    case Call(_, _, msOpt) => th.pc.Idle? && (msOpt.Some? ==> IsInt64(msOpt.value))
    case TryLock(_) => th.pc.Trying?
    case Expire(_) => th.pc.Asleep? && (th.pc.zero || th.pc.quad != INT64_MAX)
    case Settle(_) => th.pc.Expired?
    case Meet(_, u, _) => th.pc.Asleep? && u < |s.threads| && Owed(s.threads[u]) > 0
    case Unlock(_) => th.pc.Idle? && Owns(th)
    case Handoff(_, u) => Owns(th) && u < |s.threads| && u != e.t && !s.threads[u].exclusive
  }

  function Put(s: State, t: nat, th: Thread): State
    requires t < |s.threads|
  {
    s.(threads := s.threads[t := th])
  }

  function AfterRelease(wake: nat): Pc
  {
    if wake == 0 then Idle(0) else Releasing(wake)
  }

  function LockStep(s: State, t: nat): State
    requires t < |s.threads| && s.cap > 0 && s.threads[t].pc.Trying?
  {
    var th := s.threads[t];
    var quad, shared := th.pc.quad, th.pc.shared;
    match LockDecision(s.word, shared, quad, s.cap)
    case Stop(_) => Put(s, t, th.(pc := Idle(-1)))
    case Exchange(w, r) =>
      var next := if r.GoToSleep? then th.(pc := Asleep(quad, shared, quad == 0))
                  else if shared then Thread(Idle(0), th.shares + 1, th.exclusive)
                  else Thread(Idle(0), th.shares, true);
      Put(s, t, next).(word := w)
  }

  function SettleStep(s: State, t: nat): State
    requires t < |s.threads| && s.threads[t].pc.Expired? && s.cap > 0
  {
    var th := s.threads[t];
    match LeaveDecision(s.word, s.cap)
    case Stop(_) => Put(s, t, th.(pc := Asleep(th.pc.quad, th.pc.shared, true)))
    case Exchange(w, _) => Put(s, t, th.(pc := Idle(-1))).(word := w)
  }

  function Apply(s: State, e: Event): State
    requires Enabled(s, e)
  {
    var th := s.threads[e.t];
    match e
    case Call(t, wantShare, msOpt) => Put(s, t, th.(pc := Trying(Converted(msOpt), wantShare)))
    case TryLock(t) => LockStep(s, t)
    case Expire(t) => Put(s, t, th.(pc := Expired(th.pc.quad, th.pc.shared)))
    case Settle(t) => SettleStep(s, t)
    case Meet(t, u, elapsed) =>
      var awake := Put(s, t, th.(pc := Trying(Adjusted(th.pc.quad, elapsed), th.pc.shared)));
      Put(awake, u, s.threads[u].(pc := AfterRelease(s.threads[u].pc.wake - 1)))
    case Unlock(t) =>
      var d := UnlockDecision(s.word);
      Put(s, t, Without(th).(pc := AfterRelease(d.result))).(word := d.next)
    case Handoff(t, u) =>
      Put(Put(s, t, Without(th)), u, With(s.threads[u], th))
  }

  function Execute(s: State, es: seq<Event>): Option<State>
  {
    if es == [] then Some(s)
    else
      var before := Execute(s, es[..|es| - 1]);
      if before.Some? && Enabled(before.value, es[|es| - 1]) then Some(Apply(before.value, es[|es| - 1]))
      else None
  }

  // ---------------------------------------------------------------- the invariant

  /** Readers only, counted one by one, or a single writer. */
  ghost predicate Consistent(s: State)
  {
    || (s.word.nshare <= MAX_SHARE && Total(s.threads, Shares) == s.word.nshare && Total(s.threads, Exclusive) == 0)
    || (s.word.nshare == EXCLUSIVE && Total(s.threads, Shares) == 0 && Total(s.threads, Exclusive) == 1)
  }

  ghost predicate Inv(s: State)
  {
    && |s.threads| < s.cap
    && Consistent(s)
    && Total(s.threads, Registered) == s.word.nsleep + Total(s.threads, Owed)
    && (s.word.nshare == 0 ==> s.word.nsleep == 0)
    && AllPatient(s.threads)
  }

  predicate Patient(th: Thread)
  {
    && (th.pc.Asleep? && th.pc.zero ==> th.pc.quad != INT64_MAX)
    && (th.pc.Expired? ==> th.pc.quad != INT64_MAX)
  }

  ghost predicate AllPatient(ths: seq<Thread>)
  {
    forall i :: 0 <= i < |ths| ==> Patient(ths[i])
  }

  lemma Retally(ths: seq<Thread>, t: nat, th: Thread)
    requires t < |ths|
    ensures Total(ths[t := th], Shares) == Total(ths, Shares) - Shares(ths[t]) + Shares(th)
    ensures Total(ths[t := th], Exclusive) == Total(ths, Exclusive) - Exclusive(ths[t]) + Exclusive(th)
    ensures Total(ths[t := th], Registered) == Total(ths, Registered) - Registered(ths[t]) + Registered(th)
    ensures Total(ths[t := th], Owed) == Total(ths, Owed) - Owed(ths[t]) + Owed(th)
  {
    TotalUpdate(ths, Shares, t, th);
    TotalUpdate(ths, Exclusive, t, th);
    TotalUpdate(ths, Registered, t, th);
    TotalUpdate(ths, Owed, t, th);
  }

  lemma Bounds(ths: seq<Thread>, t: nat)
    requires t < |ths|
    ensures Total(ths, Shares) >= Shares(ths[t])
    ensures Total(ths, Exclusive) >= Exclusive(ths[t])
    ensures Total(ths, Registered) >= Registered(ths[t])
    ensures Total(ths, Owed) >= Owed(ths[t])
    ensures Total(ths, Registered) <= |ths| - (if Registered(ths[t]) == 0 then 1 else 0)
  {
    TotalAtLeast(ths, Shares, t);
    TotalAtLeast(ths, Exclusive, t);
    TotalAtLeast(ths, Registered, t);
    TotalAtLeast(ths, Owed, t);
    var more := ths[t := Thread(Expired(0, false), 0, false)];
    TotalUpdate(ths, Registered, t, more[t]);
    TotalAtMostLength(more, Registered);
    TotalAtMostLength(ths, Registered);
  }

  lemma InitialInv(n: nat, cap: nat)
    requires n < cap
    ensures Inv(Initial(n, cap))
  {
    var ths := Initial(n, cap).threads;
    TotalZero(ths, Shares);
    TotalZero(ths, Exclusive);
    TotalZero(ths, Registered);
    TotalZero(ths, Owed);
  }

  /** The sleeping count has room for thread `t`, and does not wrap. */
  lemma Room(s: State, t: nat)
    requires Inv(s) && t < |s.threads|
    ensures s.word.nsleep < s.cap
    ensures Registered(s.threads[t]) == 0 ==> (s.word.nsleep + 1) % s.cap == s.word.nsleep + 1
    ensures s.word.nsleep > 0 ==> (s.word.nsleep - 1) % s.cap == s.word.nsleep - 1
  {
    Bounds(s.threads, t);
    if Registered(s.threads[t]) == 0 {
      SmallRemainder(s.word.nsleep + 1, s.cap);
    }
    if s.word.nsleep > 0 {
      SmallRemainder(s.word.nsleep - 1, s.cap);
    }
  }

  lemma TryLockKeepsInv(s: State, e: Event)
    requires Inv(s) && Enabled(s, e) && e.TryLock?
    ensures Inv(Apply(s, e))
  {
    Bounds(s.threads, e.t);
    Room(s, e.t);
    Retally(s.threads, e.t, Apply(s, e).threads[e.t]);
  }

  lemma UnlockKeepsInv(s: State, e: Event)
    requires Inv(s) && Enabled(s, e) && e.Unlock?
    ensures Inv(Apply(s, e))
  {
    Bounds(s.threads, e.t);
    Retally(s.threads, e.t, Apply(s, e).threads[e.t]);
  }

  lemma SettleKeepsInv(s: State, e: Event)
    requires Inv(s) && Enabled(s, e) && e.Settle?
    ensures Inv(Apply(s, e))
  {
    Bounds(s.threads, e.t);
    Room(s, e.t);
    Retally(s.threads, e.t, Apply(s, e).threads[e.t]);
  }

  lemma WaitStepsKeepInv(s: State, e: Event)
    requires Inv(s) && Enabled(s, e) && (e.Call? || e.Expire?)
    ensures Inv(Apply(s, e))
  {
    Bounds(s.threads, e.t);
    Room(s, e.t);
    Retally(s.threads, e.t, Apply(s, e).threads[e.t]);
  }

  lemma MeetKeepsInv(s: State, e: Event)
    requires Inv(s) && Enabled(s, e) && e.Meet?
    ensures Inv(Apply(s, e))
  {
    var ths := s.threads;
    var next := Apply(s, e).threads;
    var awake := ths[e.t].(pc := Trying(Adjusted(ths[e.t].pc.quad, e.elapsed), ths[e.t].pc.shared));
    Retally(ths, e.t, awake);
    Retally(ths[e.t := awake], e.u, next[e.u]);
  }

  /** Handing over moves one ownership and nothing else. */
  lemma HandoffMovesOne(from: Thread, to: Thread)
    requires Owns(from) && !to.exclusive
    ensures Shares(Without(from)) + Shares(With(to, from)) == Shares(from) + Shares(to)
    ensures Exclusive(Without(from)) + Exclusive(With(to, from)) == Exclusive(from) + Exclusive(to)
    ensures Without(from).pc == from.pc && With(to, from).pc == to.pc
  {
  }

  lemma HandoffKeepsInv(s: State, e: Event)
    requires Inv(s) && Enabled(s, e) && e.Handoff?
    ensures Inv(Apply(s, e))
  {
    var ths := s.threads;
    var next := Apply(s, e).threads;
    var poorer := Without(ths[e.t]);
    Retally(ths, e.t, poorer);
    Retally(ths[e.t := poorer], e.u, next[e.u]);
    HandoffMovesOne(ths[e.t], ths[e.u]);
    assert forall i :: 0 <= i < |next| ==> next[i].pc == ths[i].pc;
  }

  lemma StepKeepsInv(s: State, e: Event)
    requires Inv(s) && Enabled(s, e)
    ensures Inv(Apply(s, e))
  {
    match e {
      case Meet(_, _, _) => MeetKeepsInv(s, e);
      case Handoff(_, _) => HandoffKeepsInv(s, e);
      case TryLock(_) => TryLockKeepsInv(s, e);
      case Unlock(_) => UnlockKeepsInv(s, e);
      case Settle(_) => SettleKeepsInv(s, e);
      case _ => WaitStepsKeepInv(s, e);
    }
  }

  lemma {:induction false} RunKeepsInv(s: State, es: seq<Event>)
    requires Inv(s) && Execute(s, es).Some?
    ensures Inv(Execute(s, es).value)
  {
    if es != [] {
      RunKeepsInv(s, es[..|es| - 1]);
      StepKeepsInv(Execute(s, es[..|es| - 1]).value, es[|es| - 1]);
    }
  }

  // ---------------------------------------------------------------- theorems over all runs

  ghost predicate Reachable(s: State)
  {
    exists n: nat, cap: nat, es: seq<Event> :: n < cap && Execute(Initial(n, cap), es) == Some(s)
  }

  lemma ReachableInv(s: State)
    requires Reachable(s)
    ensures Inv(s)
  {
    var n: nat, cap: nat, es: seq<Event> :| n < cap && Execute(Initial(n, cap), es) == Some(s);
    InitialInv(n, cap);
    RunKeepsInv(Initial(n, cap), es);
  }

  /** The packed count is the number of shares given out, at most 16382, or the mark of the
      one writer, and a writer excludes every reader and every other writer. */
  lemma ReadersOrOneWriter(s: State, t: nat, u: nat)
    requires Reachable(s) && t < |s.threads| && u < |s.threads|
    ensures s.word.nshare == EXCLUSIVE || (s.word.nshare <= MAX_SHARE && s.word.nshare == Total(s.threads, Shares))
    ensures s.threads[t].exclusive ==> s.word.nshare == EXCLUSIVE
    ensures s.threads[t].exclusive ==> s.threads[u].shares == 0 && (s.threads[u].exclusive ==> t == u)
    ensures s.threads[t].shares > 0 ==> 0 < s.word.nshare <= MAX_SHARE
  {
    ReachableInv(s);
    Bounds(s.threads, t);
    Bounds(s.threads, u);
    TotalAtLeastTwo(s.threads, Exclusive, t, u);
  }

  /** A count that is not zero has an owner behind it. */
  lemma CountHasOwner(s: State)
    requires Reachable(s)
    ensures s.word.nshare != 0 <==> exists t :: 0 <= t < |s.threads| && Owns(s.threads[t])
  {
    ReachableInv(s);
    if s.word.nshare == EXCLUSIVE {
      var t := TotalWitness(s.threads, Exclusive);
    } else if s.word.nshare != 0 {
      var t := TotalWitness(s.threads, Shares);
    }
    forall t | 0 <= t < |s.threads| && Owns(s.threads[t])
      ensures s.word.nshare != 0
    {
      ReadersOrOneWriter(s, t, t);
    }
  }

  lemma SleeperAccounting(s: State)
    requires Reachable(s)
    ensures Total(s.threads, Registered) == s.word.nsleep + Total(s.threads, Owed)
    ensures s.word.nsleep <= |s.threads| < s.cap
  {
    ReachableInv(s);
    TotalNonNegative(s.threads, Owed);
    TotalAtMostLength(s.threads, Registered);
  }

  /** Once the mutex is free, every registered waiter is owed a release: none is left to a
      later unlock. */
  lemma FreeMeansAllOwed(s: State)
    requires Reachable(s) && s.word.nshare == 0
    ensures s.word.nsleep == 0
    ensures Total(s.threads, Registered) == Total(s.threads, Owed)
  {
    ReachableInv(s);
  }

  lemma TimedOutWaiterMustStay(s: State, t: nat)
    requires Reachable(s) && t < |s.threads| && s.threads[t].pc.Expired? && s.word.nsleep == 0
    ensures exists u :: 0 <= u < |s.threads| && Owed(s.threads[u]) > 0
  {
    ReachableInv(s);
    Bounds(s.threads, t);
    var u := TotalWitness(s.threads, Owed);
  }

  lemma ReleaserHasWaiter(s: State, u: nat)
    requires Reachable(s) && u < |s.threads| && Owed(s.threads[u]) > 0
    ensures exists t :: 0 <= t < |s.threads| && Registered(s.threads[t]) > 0
  {
    ReachableInv(s);
    Bounds(s.threads, u);
    var t := TotalWitness(s.threads, Registered);
  }

  /** When nothing is left to do except sleeping, sleepers sleep because somebody owns the
      mutex. */
  lemma QuietMeansOwned(s: State, t: nat)
    requires Reachable(s) && t < |s.threads| && s.threads[t].pc.Asleep?
    requires forall th :: th in s.threads ==> th.pc.Idle? || th.pc.Asleep?
    ensures exists u :: 0 <= u < |s.threads| && Owns(s.threads[u])
  {
    ReachableInv(s);
    Bounds(s.threads, t);
    TotalZero(s.threads, Owed);
    CountHasOwner(s);
  }

  /** A call returns 0 exactly when it has just been given what it asked for, which nobody
      stood in the way of; otherwise it returns -1 and ownership is as before. */
  lemma LockResultMeansOwnership(s: State, e: Event)
    requires Reachable(s) && Enabled(s, e)
    requires !s.threads[e.t].pc.Idle? && Apply(s, e).threads[e.t].pc.Idle?
    ensures var was, now := s.threads[e.t], Apply(s, e).threads[e.t];
            && (now.pc.result == 0 || now.pc.result == -1)
            && (now.pc.result == 0 ==>
                  && e.TryLock?
                  && (was.pc.shared ==> now == Thread(Idle(0), was.shares + 1, false))
                  && (!was.pc.shared ==> now == Thread(Idle(0), 0, true) && s.word.nshare == 0))
            && (now.pc.result == -1 ==>
                  && now.shares == was.shares && now.exclusive == was.exclusive
                  && Apply(s, e).word.nshare == s.word.nshare)
  {
    ReachableInv(s);
    ReadersOrOneWriter(s, e.t, e.t);
  }

  predicate WaitsForever(pc: Pc)
  {
    (pc.Trying? || pc.Asleep? || pc.Expired?) && pc.quad == INT64_MAX
  }

  /** A call without a timeout can only end by returning 0. */
  lemma NoTimeoutMeansSuccess(s: State, e: Event, t: nat)
    requires Reachable(s) && Enabled(s, e) && t < |s.threads| && WaitsForever(s.threads[t].pc)
    ensures var th := Apply(s, e).threads[t];
            WaitsForever(th.pc) || (th.pc == Idle(0) && Owns(th))
  {
    PatienceKept(s, t);
  }

  lemma PatienceKept(s: State, t: nat)
    requires Reachable(s) && t < |s.threads|
    ensures Patient(s.threads[t]) && s.cap > 0
  {
    ReachableInv(s);
  }

  /** While a thread is counted as sleeping, no new reader gets in, so a writer that waits is
      not overtaken by readers that come later. */
  lemma NoNewReadersPastSleepers(s: State, e: Event)
    requires Reachable(s) && Enabled(s, e) && s.word.nsleep > 0 && !e.Handoff?
    ensures Total(Apply(s, e).threads, Shares) <= Total(s.threads, Shares)
  {
    ReachableInv(s);
    StepKeepsInv(s, e);
    if e.Meet? {
      var ths := s.threads;
      var awake := ths[e.t].(pc := Trying(Adjusted(ths[e.t].pc.quad, e.elapsed), ths[e.t].pc.shared));
      Retally(ths, e.t, awake);
      Retally(ths[e.t := awake], e.u, Apply(s, e).threads[e.u]);
    } else {
      Retally(s.threads, e.t, Apply(s, e).threads[e.t]);
    }
  }

  // ---------------------------------------------------------------- the time that is left

  /** A thread in a lock call that has not got anything yet. */
  predicate InCall(pc: Pc) { pc.Trying? || pc.Asleep? || pc.Expired? }

  /** How long thread `t` has slept in a run, all its waits together. */
  function Slept(es: seq<Event>, t: nat): nat
  {
    if es == [] then 0
    else
      var e := es[|es| - 1];
      Slept(es[..|es| - 1], t) + if e.Meet? && e.t == t then e.elapsed else 0
  }

  lemma TimePasses(s: State, e: Event, t: nat)
    requires Enabled(s, e) && t < |s.threads| && !(e.Call? && e.t == t)
    ensures var pc, pc' := s.threads[t].pc, Apply(s, e).threads[t].pc;
            && |Apply(s, e).threads| == |s.threads|
            && (InCall(pc') ==>
                  && InCall(pc) && pc'.shared == pc.shared
                  && pc'.quad == if e.Meet? && e.t == t then Adjusted(pc.quad, e.elapsed) else pc.quad)
  {
  }

  /** In every run, the time that a call has left is what its argument says, less all the time
      that it has slept. */
  lemma {:induction false} TimeLeft(s: State, e: Event, es: seq<Event>)
    requires Enabled(s, e) && e.Call? && Execute(Apply(s, e), es).Some?
    requires forall x :: x in es ==> !(x.Call? && x.t == e.t)
    ensures var last := Execute(Apply(s, e), es).value;
            && |last.threads| == |s.threads|
            && (InCall(last.threads[e.t].pc) ==>
                  && last.threads[e.t].pc.shared == e.wantShare
                  && last.threads[e.t].pc.quad == Adjusted(Converted(e.msOpt), Slept(es, e.t)))
  {
    AdjustedAgain(Converted(e.msOpt), 0, 0);
    if es != [] {
      var init, x := es[..|es| - 1], es[|es| - 1];
      TimeLeft(s, e, init);
      TimePasses(Execute(Apply(s, e), init).value, x, e.t);
      AdjustedAgain(Converted(e.msOpt), Slept(init, e.t), if x.Meet? && x.t == e.t then x.elapsed else 0);
    }
  }

  /** A lock attempt returns 0 if and only if what is wanted can be had at once, and -1 if and only
      if it cannot and no time is left.  The word is left alone then. */
  lemma AnsweredExactly(s: State, e: Event, es: seq<Event>, now: State)
    requires Enabled(s, e) && e.Call? && Execute(Apply(s, e), es) == Some(now)
    requires forall x :: x in es ==> !(x.Call? && x.t == e.t)
    requires Enabled(now, TryLock(e.t))
    ensures var after := Apply(now, TryLock(e.t));
            && (after.threads[e.t].pc == Idle(0) <==> Grantable(now.word, e.wantShare))
            && (after.threads[e.t].pc == Idle(-1) <==>
                  !Grantable(now.word, e.wantShare) && Adjusted(Converted(e.msOpt), Slept(es, e.t)) == 0)
            && (after.threads[e.t].pc == Idle(-1) ==> after == Put(now, e.t, after.threads[e.t]))
  {
    TimeLeft(s, e, es);
    LockChoices(now.word, e.wantShare, now.threads[e.t].pc.quad, now.cap);
  }

  /** What a timed-out waiter does, exactly: it leaves with -1 if it is counted, and otherwise
      waits again, with a zero timeout. */
  lemma SettleOutcome(s: State, t: nat)
    requires Reachable(s) && Enabled(s, Settle(t))
    ensures var th, next := s.threads[t], Apply(s, Settle(t));
            next == if s.word.nsleep == 0 then Put(s, t, th.(pc := Asleep(th.pc.quad, th.pc.shared, true)))
                    else Put(s, t, th.(pc := Idle(-1))).(word := s.word.(nsleep := s.word.nsleep - 1))
  {
    SleeperAccounting(s);
    if s.word.nsleep > 0 {
      SmallRemainder(s.word.nsleep - 1, s.cap);
    }
  }
}
