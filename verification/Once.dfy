/** The once-initialization flag as a transition system over any number of threads.

    The Itanium C++ ABI, section 3.3.3, asks that exactly one thread runs the initialiser
    at a time, that the others wait, and that nobody runs it again once it has completed. */
module Once {
  import opened Wrappers
  import opened Tally
  import opened AtomicWord
  import opened Timeouts

  datatype Word = Word(ready: nat, locked: bool, nsleep: nat)

  // ---------------------------------------------------------------- decisions

  datatype WaitResult = Return(value: int) | GoToSleep

  function WaitDecision(w: Word, quad: int, cap: nat): Decision<Word, WaitResult>
    requires cap > 0
  {
    if w.ready != 0 then
      Stop(Return(0))
    else if !w.locked then
      Exchange(Word(0, true, w.nsleep), Return(1))
    else if quad == 0 then
      Stop(Return(-1))
    else
      Exchange(Word(0, true, (w.nsleep + 1) % cap), GoToSleep)
  }

  function LeaveDecision(w: Word, cap: nat): Decision<Word, Option<int>>
    requires cap > 0
  {
    if w.nsleep == 0 then Stop(None)
    else Exchange(w.(nsleep := (w.nsleep - 1) % cap), Some(w.ready - 1))
  }

  function AbortDecision(w: Word, cap: nat): Decision<Word, nat>
    requires cap > 0
  {
    var wake := if w.nsleep != 0 then 1 else 0;
    Exchange(Word(w.ready, false, (w.nsleep - wake) % cap), wake)
  }

  function ReleaseDecision(w: Word): Decision<Word, nat>
  {
    Exchange(Word(1, false, 0), w.nsleep)
  }

  // ---------------------------------------------------------------- the system

  datatype Pc =
    | Idle(result: int)
    | Trying(quad: int, woken: bool)
    | Asleep(quad: int, zero: bool)
    | Expired(quad: int)
    | Releasing(wake: nat)

  /** `role`: this thread has been told to run the initialiser and has not reported back. */
  datatype Thread = Thread(pc: Pc, role: bool)

  datatype State = State(word: Word, threads: seq<Thread>, cap: nat)

  datatype Event =
    | Call(t: nat, msOpt: Option<int>)
    | TryWait(t: nat)
    | Expire(t: nat)
    | Settle(t: nat)
    | Meet(t: nat, u: nat, elapsed: nat)
    | Abort(t: nat)
    | Release(t: nat)
    | Handoff(t: nat, u: nat)

  function Registered(th: Thread): int { if th.pc.Asleep? || th.pc.Expired? then 1 else 0 }

  function Owed(th: Thread): int { if th.pc.Releasing? then th.pc.wake else 0 }

  function Woken(th: Thread): int { if th.pc.Trying? && th.pc.woken then 1 else 0 }

  function Role(th: Thread): int { if th.role then 1 else 0 }

  function Initial(n: nat, cap: nat): State
  {
    State(Word(0, false, 0), seq(n, _ => Thread(Idle(0), false)), cap)
  }

  predicate Enabled(s: State, e: Event)
  {
    && e.t < |s.threads|
    && s.cap > 0
    && var th := s.threads[e.t];
    match e
    case Call(_, msOpt) => th.pc.Idle? && (msOpt.Some? ==> IsInt64(msOpt.value))
    case TryWait(_) => th.pc.Trying?
    case Expire(_) => th.pc.Asleep? && (th.pc.zero || th.pc.quad != INT64_MAX)
    case Settle(_) => th.pc.Expired?
    case Meet(_, u, _) => th.pc.Asleep? && u < |s.threads| && Owed(s.threads[u]) > 0
    case Abort(_) => th.pc.Idle? && th.role
    case Release(_) => th.pc.Idle? && th.role
    case Handoff(_, u) => th.role && u < |s.threads| && !s.threads[u].role
  }

  function Put(s: State, t: nat, th: Thread): State
    requires t < |s.threads|
  {
    s.(threads := s.threads[t := th])
  }

  function AfterRelease(wake: nat): Pc
  {
    if wake == 0 then Idle(0) else Releasing(wake)
  }

  function WaitStep(s: State, t: nat): State
    requires t < |s.threads| && s.cap > 0 && s.threads[t].pc.Trying?
  {
    var th := s.threads[t];
    var d := WaitDecision(s.word, th.pc.quad, s.cap);
    var next := if d.result.GoToSleep? then th.(pc := Asleep(th.pc.quad, th.pc.quad == 0))
                else Thread(Idle(d.result.value), th.role || d.result.value == 1);
    Put(s, t, next).(word := if d.Exchange? then d.next else s.word)
  }

  function SettleStep(s: State, t: nat): State
    requires t < |s.threads| && s.threads[t].pc.Expired? && s.cap > 0
  {
    var th := s.threads[t];
    match LeaveDecision(s.word, s.cap)
    case Stop(_) => Put(s, t, th.(pc := Asleep(th.pc.quad, true)))
    case Exchange(w, r) => Put(s, t, th.(pc := Idle(if r.Some? then r.value else 0))).(word := w)
  }

  function Apply(s: State, e: Event): State
    requires Enabled(s, e)
  {
    var th := s.threads[e.t];
    match e
    case Call(t, msOpt) => Put(s, t, th.(pc := Trying(Converted(msOpt), false)))
    case TryWait(t) => WaitStep(s, t)
    case Expire(t) => Put(s, t, th.(pc := Expired(th.pc.quad)))
    case Settle(t) => SettleStep(s, t)
    case Meet(t, u, elapsed) =>
      var awake := Put(s, t, th.(pc := Trying(Adjusted(th.pc.quad, elapsed), true)));
      Put(awake, u, s.threads[u].(pc := AfterRelease(s.threads[u].pc.wake - 1)))
    case Abort(t) =>
      var d := AbortDecision(s.word, s.cap);
      Put(s, t, Thread(AfterRelease(d.result), false)).(word := d.next)
    case Release(t) =>
      var d := ReleaseDecision(s.word);
      Put(s, t, Thread(AfterRelease(d.result), false)).(word := d.next)
    case Handoff(t, u) =>
      Put(Put(s, t, th.(role := false)), u, s.threads[u].(role := true))
  }

  function Execute(s: State, es: seq<Event>): Option<State>
  {
    if es == [] then Some(s)
    else
      var before := Execute(s, es[..|es| - 1]);
      if before.Some? && Enabled(before.value, es[|es| - 1]) then Some(Apply(before.value, es[|es| - 1]))
      else None
  }

  /** How often a run completes the initialisation. */
  function Completions(es: seq<Event>): nat
  {
    if es == [] then 0 else Completions(es[..|es| - 1]) + if es[|es| - 1].Release? then 1 else 0
  }

  // ---------------------------------------------------------------- the invariant

  ghost predicate Inv(s: State)
  {
    && |s.threads| < s.cap
    && s.word.ready <= 1
    && (s.word.ready == 1 ==> !s.word.locked && s.word.nsleep == 0)
    && Total(s.threads, Role) == (if s.word.locked then 1 else 0)
    && Total(s.threads, Registered) == s.word.nsleep + Total(s.threads, Owed)
    && (s.word.ready == 0 && !s.word.locked && s.word.nsleep > 0 ==>
          Total(s.threads, Owed) + Total(s.threads, Woken) > 0)
    && AllPatient(s.threads)
  }

  predicate Patient(th: Thread)
  {
    && (th.pc.Asleep? && th.pc.zero ==> th.pc.quad != INT64_MAX)
    && (th.pc.Expired? ==> th.pc.quad != INT64_MAX)
  }

  ghost predicate AllPatient(ths: seq<Thread>)
  {
    forall i :: 0 <= i < |ths| ==> Patient(ths[i])
  }

  lemma Retally(ths: seq<Thread>, t: nat, th: Thread)
    requires t < |ths|
    ensures Total(ths[t := th], Role) == Total(ths, Role) - Role(ths[t]) + Role(th)
    ensures Total(ths[t := th], Registered) == Total(ths, Registered) - Registered(ths[t]) + Registered(th)
    ensures Total(ths[t := th], Owed) == Total(ths, Owed) - Owed(ths[t]) + Owed(th)
    ensures Total(ths[t := th], Woken) == Total(ths, Woken) - Woken(ths[t]) + Woken(th)
  {
    TotalUpdate(ths, Role, t, th);
    TotalUpdate(ths, Registered, t, th);
    TotalUpdate(ths, Owed, t, th);
    TotalUpdate(ths, Woken, t, th);
  }

  lemma Bounds(ths: seq<Thread>, t: nat)
    requires t < |ths|
    ensures Total(ths, Role) >= Role(ths[t])
    ensures Total(ths, Registered) >= Registered(ths[t])
    ensures Total(ths, Owed) >= Owed(ths[t])
    ensures Total(ths, Woken) >= Woken(ths[t])
    ensures Total(ths, Registered) <= |ths| - (if Registered(ths[t]) == 0 then 1 else 0)
  {
    TotalAtLeast(ths, Role, t);
    TotalAtLeast(ths, Registered, t);
    TotalAtLeast(ths, Owed, t);
    TotalAtLeast(ths, Woken, t);
    var more := ths[t := Thread(Expired(0), false)];
    TotalUpdate(ths, Registered, t, more[t]);
    TotalAtMostLength(more, Registered);
    TotalAtMostLength(ths, Registered);
  }

  lemma InitialInv(n: nat, cap: nat)
    requires n < cap
    ensures Inv(Initial(n, cap))
  {
    var ths := Initial(n, cap).threads;
    TotalZero(ths, Role);
    TotalZero(ths, Registered);
    TotalZero(ths, Owed);
  }

  /** The sleeping count has room for thread `t`, and does not wrap. */
  lemma Room(s: State, t: nat)
    requires Inv(s) && t < |s.threads|
    ensures s.word.nsleep < s.cap
    ensures Registered(s.threads[t]) == 0 ==> (s.word.nsleep + 1) % s.cap == s.word.nsleep + 1
    ensures s.word.nsleep > 0 ==> (s.word.nsleep - 1) % s.cap == s.word.nsleep - 1
    ensures s.word.nsleep % s.cap == s.word.nsleep
  {
    Bounds(s.threads, t);
    SmallRemainder(s.word.nsleep, s.cap);
    if Registered(s.threads[t]) == 0 {
      SmallRemainder(s.word.nsleep + 1, s.cap);
    }
    if s.word.nsleep > 0 {
      SmallRemainder(s.word.nsleep - 1, s.cap);
    }
  }

  lemma TryWaitKeepsInv(s: State, e: Event)
    requires Inv(s) && Enabled(s, e) && e.TryWait?
    ensures Inv(Apply(s, e))
  {
    Bounds(s.threads, e.t);
    Room(s, e.t);
    Retally(s.threads, e.t, Apply(s, e).threads[e.t]);
  }

  lemma ReportsKeepInv(s: State, e: Event)
    requires Inv(s) && Enabled(s, e) && (e.Abort? || e.Release?)
    ensures Inv(Apply(s, e))
  {
    Bounds(s.threads, e.t);
    Room(s, e.t);
    Retally(s.threads, e.t, Apply(s, e).threads[e.t]);
    Bounds(Apply(s, e).threads, e.t);
  }

  lemma SettleKeepsInv(s: State, e: Event)
    requires Inv(s) && Enabled(s, e) && e.Settle?
    ensures Inv(Apply(s, e))
  {
    Bounds(s.threads, e.t);
    Room(s, e.t);
    Retally(s.threads, e.t, Apply(s, e).threads[e.t]);
  }

  lemma WaitStepsKeepInv(s: State, e: Event)
    requires Inv(s) && Enabled(s, e) && (e.Call? || e.Expire?)
    ensures Inv(Apply(s, e))
  {
    Bounds(s.threads, e.t);
    Room(s, e.t);
    Retally(s.threads, e.t, Apply(s, e).threads[e.t]);
  }

  lemma MeetKeepsInv(s: State, e: Event)
    requires Inv(s) && Enabled(s, e) && e.Meet?
    ensures Inv(Apply(s, e))
  {
    var ths := s.threads;
    var next := Apply(s, e).threads;
    var awake := Thread(Trying(Adjusted(ths[e.t].pc.quad, e.elapsed), true), ths[e.t].role);
    Retally(ths, e.t, awake);
    Retally(ths[e.t := awake], e.u, next[e.u]);
    Bounds(next, e.t);
    TotalNonNegative(next, Owed);
  }

  lemma HandoffKeepsInv(s: State, e: Event)
    requires Inv(s) && Enabled(s, e) && e.Handoff?
    ensures Inv(Apply(s, e))
  {
    var ths := s.threads;
    var next := Apply(s, e).threads;
    var freed := ths[e.t].(role := false);
    Retally(ths, e.t, freed);
    Retally(ths[e.t := freed], e.u, next[e.u]);
    assert forall i :: 0 <= i < |next| ==> next[i].pc == ths[i].pc;
  }

  lemma StepKeepsInv(s: State, e: Event)
    requires Inv(s) && Enabled(s, e)
    ensures Inv(Apply(s, e))
  {
    match e {
      case TryWait(_) => TryWaitKeepsInv(s, e);
      case Abort(_) => ReportsKeepInv(s, e);
      case Release(_) => ReportsKeepInv(s, e);
      case Meet(_, _, _) => MeetKeepsInv(s, e);
      case Handoff(_, _) => HandoffKeepsInv(s, e);
      case Settle(_) => SettleKeepsInv(s, e);
      case _ => WaitStepsKeepInv(s, e);
    }
  }

  lemma {:induction false} RunKeepsInv(s: State, es: seq<Event>)
    requires Inv(s) && Execute(s, es).Some?
    ensures Inv(Execute(s, es).value)
  {
    if es != [] {
      RunKeepsInv(s, es[..|es| - 1]);
      StepKeepsInv(Execute(s, es[..|es| - 1]).value, es[|es| - 1]);
    }
  }

  // ---------------------------------------------------------------- theorems over all runs

  ghost predicate Reachable(s: State)
  {
    exists n: nat, cap: nat, es: seq<Event> :: n < cap && Execute(Initial(n, cap), es) == Some(s)
  }

  lemma ReachableInv(s: State)
    requires Reachable(s)
    ensures Inv(s)
  {
    var n: nat, cap: nat, es: seq<Event> :| n < cap && Execute(Initial(n, cap), es) == Some(s);
    InitialInv(n, cap);
    RunKeepsInv(Initial(n, cap), es);
  }

  /** At most one thread has the initialiser role, one has it exactly when the flag is
      locked, and none has it once the flag is ready. */
  lemma OneInitialiser(s: State, t: nat, u: nat)
    requires Reachable(s) && t < |s.threads| && u < |s.threads|
    ensures s.threads[t].role && s.threads[u].role ==> t == u
    ensures s.word.locked <==> exists i :: 0 <= i < |s.threads| && s.threads[i].role
    ensures s.threads[t].role ==> s.word.ready == 0
  {
    ReachableInv(s);
    TotalAtLeastTwo(s.threads, Role, t, u);
    if s.word.locked {
      var i := TotalWitness(s.threads, Role);
    }
    forall i | 0 <= i < |s.threads| && s.threads[i].role
      ensures s.word.locked
    {
      TotalAtLeast(s.threads, Role, i);
    }
  }

  /** Over any whole run the initialisation completes at most once, and the ready byte says
      whether it has. */
  lemma {:induction false} CompletesAtMostOnce(n: nat, cap: nat, es: seq<Event>)
    requires n < cap && Execute(Initial(n, cap), es).Some?
    ensures Completions(es) == Execute(Initial(n, cap), es).value.word.ready <= 1
  {
    InitialInv(n, cap);
    RunKeepsInv(Initial(n, cap), es);
    if es != [] {
      var init, e := es[..|es| - 1], es[|es| - 1];
      CompletesAtMostOnce(n, cap, init);
      RunKeepsInv(Initial(n, cap), init);
      var s := Execute(Initial(n, cap), init).value;
      Bounds(s.threads, e.t);
      Room(s, e.t);
    }
  }

  lemma SleeperAccounting(s: State)
    requires Reachable(s)
    ensures Total(s.threads, Registered) == s.word.nsleep + Total(s.threads, Owed)
    ensures s.word.nsleep <= |s.threads| < s.cap
  {
    ReachableInv(s);
    TotalNonNegative(s.threads, Owed);
    TotalAtMostLength(s.threads, Registered);
  }

  lemma TimedOutWaiterMustStay(s: State, t: nat)
    requires Reachable(s) && t < |s.threads| && s.threads[t].pc.Expired? && s.word.nsleep == 0
    ensures exists u :: 0 <= u < |s.threads| && Owed(s.threads[u]) > 0
  {
    ReachableInv(s);
    Bounds(s.threads, t);
    var u := TotalWitness(s.threads, Owed);
  }

  lemma ReleaserHasWaiter(s: State, u: nat)
    requires Reachable(s) && u < |s.threads| && Owed(s.threads[u]) > 0
    ensures exists t :: 0 <= t < |s.threads| && Registered(s.threads[t]) > 0
  {
    ReachableInv(s);
    Bounds(s.threads, u);
    var t := TotalWitness(s.threads, Registered);
  }

  /** When nothing is left to do except sleeping, the sleepers wait for a running initialiser. */
  lemma QuietMeansInitialising(s: State, t: nat)
    requires Reachable(s) && t < |s.threads| && s.threads[t].pc.Asleep?
    requires forall th :: th in s.threads ==> th.pc.Idle? || th.pc.Asleep?
    ensures s.word.ready == 0 && exists u :: 0 <= u < |s.threads| && s.threads[u].role
  {
    ReachableInv(s);
    Bounds(s.threads, t);
    TotalZero(s.threads, Owed);
    TotalZero(s.threads, Woken);
    var u := TotalWitness(s.threads, Role);
  }

  /** The three results: 1 hands over the role on a flag that was free, 0 means the flag is
      ready, and -1 is returned only while it is not.  A waiter that leaves by taking itself
      off the count always returns -1. */
  lemma WaitResultMeaning(s: State, e: Event)
    requires Reachable(s) && Enabled(s, e) && (e.TryWait? || e.Settle?) && Apply(s, e).threads[e.t].pc.Idle?
    ensures var now := Apply(s, e).threads[e.t];
            && now.pc.result in {-1, 0, 1}
            && (now.pc.result == 1 <==> !s.threads[e.t].role && now.role)
            && (now.pc.result == 1 ==> s.word.ready == 0 && !s.word.locked)
            && (now.pc.result == 0 <==> s.word.ready == 1)
            && (e.Settle? ==> now.pc.result == -1)
  {
    ReachableInv(s);
    Bounds(s.threads, e.t);
  }

  /** A thread inside a wait, or one whose wait has returned 0. */
  predicate WillReturnZero(pc: Pc)
  {
    pc.Trying? || pc.Asleep? || pc.Expired? || pc == Idle(0)
  }

  /** From the moment the flag is ready it stays ready, free and without counted sleepers, and
      every wait that was under way - its timeout expired or not - can only return 0. */
  lemma ReadyIsFinal(s: State, e: Event, t: nat)
    requires Inv(s) && Enabled(s, e) && s.word.ready == 1
    requires t < |s.threads| && WillReturnZero(s.threads[t].pc)
    ensures Apply(s, e).word == s.word == Word(1, false, 0)
    ensures WillReturnZero(Apply(s, e).threads[t].pc)
  {
    Bounds(s.threads, e.t);
  }

  lemma {:induction false} ReadyWordStays(s: State, es: seq<Event>)
    requires Inv(s) && s.word.ready == 1 && Execute(s, es).Some?
    ensures Execute(s, es).value.word == Word(1, false, 0)
  {
    if es != [] {
      var init, e := es[..|es| - 1], es[|es| - 1];
      ReadyWordStays(s, init);
      RunKeepsInv(s, init);
      var before := Execute(s, init).value;
      Bounds(before.threads, e.t);
    }
  }

  lemma {:induction false} ReadyRunsReturnZero(s: State, es: seq<Event>, t: nat)
    requires Reachable(s) && s.word.ready == 1 && Execute(s, es).Some?
    requires t < |s.threads| && WillReturnZero(s.threads[t].pc)
    ensures var last := Execute(s, es).value;
            && last.word == Word(1, false, 0)
            && |last.threads| == |s.threads|
            && WillReturnZero(last.threads[t].pc)
            && forall u :: 0 <= u < |s.threads| ==> !last.threads[u].role
  {
    ReachableInv(s);
    RunKeepsInv(s, es);
    if es != [] {
      var init := es[..|es| - 1];
      ReadyRunsReturnZero(s, init, t);
      RunKeepsInv(s, init);
      ReadyIsFinal(Execute(s, init).value, es[|es| - 1], t);
    }
    var last := Execute(s, es).value;
    forall u | 0 <= u < |s.threads|
      ensures !last.threads[u].role
    {
      Bounds(last.threads, u);
    }
  }

  predicate WaitsForever(pc: Pc)
  {
    (pc.Trying? || pc.Asleep? || pc.Expired?) && pc.quad == INT64_MAX
  }

  /** A wait without a timeout returns 0 or 1, never -1. */
  lemma NoTimeoutMeansSuccess(s: State, e: Event, t: nat)
    requires Reachable(s) && Enabled(s, e) && t < |s.threads| && WaitsForever(s.threads[t].pc)
    ensures var pc := Apply(s, e).threads[t].pc;
            WaitsForever(pc) || pc == Idle(0) || pc == Idle(1)
  {
    ReachableInv(s);
    assert Patient(s.threads[t]);
  }

  // ---------------------------------------------------------------- the inline fast path

  /** The ready byte is the first byte of the word, so the fast path tests its lowest bit. */
  function ReadyByte(bits: bv64): bv64 { bits & 0xFF }

  /** For the two values that the byte ever has, that test is the test of the slow path. */
  lemma FastReadyTest(bits: bv64)
    ensures ReadyByte(bits) <= 1 ==> (bits & 1 != 0 <==> ReadyByte(bits) != 0)
    ensures bits & 1 != 0 ==> ReadyByte(bits) != 0
  {
  }

  // ---------------------------------------------------------------- the time that is left

  /** A thread in a wait that has not got anything yet. */
  predicate InCall(pc: Pc) { pc.Trying? || pc.Asleep? || pc.Expired? }

  /** How long thread `t` has slept in a run, all its waits together. */
  function Slept(es: seq<Event>, t: nat): nat
  {
    if es == [] then 0
    else
      var e := es[|es| - 1];
      Slept(es[..|es| - 1], t) + if e.Meet? && e.t == t then e.elapsed else 0
  }

  lemma TimePasses(s: State, e: Event, t: nat)
    requires Enabled(s, e) && t < |s.threads| && !(e.Call? && e.t == t)
    ensures var pc, pc' := s.threads[t].pc, Apply(s, e).threads[t].pc;
            && |Apply(s, e).threads| == |s.threads|
            && (InCall(pc') ==>
                  && InCall(pc)
                  && pc'.quad == if e.Meet? && e.t == t then Adjusted(pc.quad, e.elapsed) else pc.quad)
  {
  }

  /** In every run, the time that a call has left is what its argument says, less all the time
      that it has slept. */
  lemma {:induction false} TimeLeft(s: State, e: Event, es: seq<Event>)
    requires Enabled(s, e) && e.Call? && Execute(Apply(s, e), es).Some?
    requires forall x :: x in es ==> !(x.Call? && x.t == e.t)
    ensures var last := Execute(Apply(s, e), es).value;
            && |last.threads| == |s.threads|
            && (InCall(last.threads[e.t].pc) ==>
                  last.threads[e.t].pc.quad == Adjusted(Converted(e.msOpt), Slept(es, e.t)))
  {
    AdjustedAgain(Converted(e.msOpt), 0, 0);
    if es != [] {
      var init, x := es[..|es| - 1], es[|es| - 1];
      TimeLeft(s, e, init);
      TimePasses(Execute(Apply(s, e), init).value, x, e.t);
      AdjustedAgain(Converted(e.msOpt), Slept(init, e.t), if x.Meet? && x.t == e.t then x.elapsed else 0);
    }
  }

  /** What a wait finds decides what it returns, exactly: 0 on a flag that is ready, 1 on one that
      is not and that nobody initialises, and -1 if somebody does and no time is left. */
  predicate AnsweredBy(w: Word, quad: int, result: int)
  {
    if w.ready != 0 then result == 0
    else if !w.locked then result == 1
    else result == -1 && quad == 0
  }

  /** The first loop, exactly: the word is written when the role is handed over or the thread
      becomes a sleeper, which it does only if somebody initialises and time is left. */
  predicate WaitOutcome(w: Word, next: Word, quad: int, cap: nat, r: WaitResult)
    requires cap > 0
  {
    match r
    case Return(value) =>
      AnsweredBy(w, quad, value) && next == if value == 1 then Word(0, true, w.nsleep) else w
    case GoToSleep =>
      w.ready == 0 && w.locked && quad != 0 && next == Word(0, true, (w.nsleep + 1) % cap)
  }

  lemma WaitChoices(w: Word, quad: int, cap: nat)
    requires cap > 0
    ensures var d := WaitDecision(w, quad, cap);
            && WaitOutcome(w, Outcome(w, d), quad, cap, d.result)
            && (d.Stop? <==> d.result == Return(0) || d.result == Return(-1))
  {
  }

  /** One sleeper less. */
  predicate LeavesCount(w: Word, next: Word, cap: nat)
    requires cap > 0
  {
    w.ready == 0 && w.nsleep > 0 && next == Word(0, w.locked, (w.nsleep - 1) % cap)
  }

  /** In every state: an attempt returns 1 if and only if the flag is neither ready nor locked, and
      -1 if and only if it is locked and no time is left. */
  lemma TryWaitResult(s: State, t: nat)
    requires Enabled(s, TryWait(t))
    ensures var w, pc := s.word, Apply(s, TryWait(t)).threads[t].pc;
            && (pc == Idle(0) <==> w.ready != 0)
            && (pc == Idle(1) <==> w.ready == 0 && !w.locked)
            && (pc == Idle(-1) <==> w.ready == 0 && w.locked && s.threads[t].pc.quad == 0)
            && (pc.Asleep? <==> w.ready == 0 && w.locked && s.threads[t].pc.quad != 0)
  {
    WaitChoices(s.word, s.threads[t].pc.quad, s.cap);
  }

  /** The same for the whole call: with -1 exactly if somebody initialises and the timeout was zero,
      or relative and all slept away.  The role goes with 1 alone. */
  lemma AnsweredExactly(s: State, e: Event, es: seq<Event>, now: State)
    requires Enabled(s, e) && e.Call? && Execute(Apply(s, e), es) == Some(now)
    requires forall x :: x in es ==> !(x.Call? && x.t == e.t)
    requires Enabled(now, TryWait(e.t))
    ensures var th, after := now.threads[e.t], Apply(now, TryWait(e.t));
            var pc := after.threads[e.t].pc;
            && (pc == Idle(0) <==> now.word.ready != 0)
            && (pc == Idle(1) <==> now.word.ready == 0 && !now.word.locked)
            && (pc == Idle(-1) <==>
                  && now.word.ready == 0 && now.word.locked
                  && Adjusted(Converted(e.msOpt), Slept(es, e.t)) == 0)
            && (pc == Idle(0) || pc == Idle(-1) ==> after == Put(now, e.t, th.(pc := pc)))
            && (pc == Idle(1) ==> after == Put(now, e.t, Thread(Idle(1), true)).(word := now.word.(locked := true)))
  {
    TimeLeft(s, e, es);
    WaitChoices(now.word, now.threads[e.t].pc.quad, now.cap);
  }

  /** Giving up, exactly: the flag is free again, and one sleeper is to be released if there is
      one.  Completing, exactly: the flag is ready, and all sleepers are to be released. */
  lemma ReportOutcome(s: State, t: nat)
    requires Reachable(s) && t < |s.threads| && s.threads[t].pc.Idle? && s.threads[t].role
    ensures var wake := if s.word.nsleep == 0 then 0 else 1;
            Apply(s, Abort(t)) ==
            Put(s, t, Thread(AfterRelease(wake), false)).(word := Word(0, false, s.word.nsleep - wake))
    ensures Apply(s, Release(t)) == Put(s, t, Thread(AfterRelease(s.word.nsleep), false)).(word := Word(1, false, 0))
  {
    ReachableInv(s);
    Bounds(s.threads, t);
    SleeperAccounting(s);
    SmallRemainder(s.word.nsleep - (if s.word.nsleep == 0 then 0 else 1), s.cap);
  }

  /** What a timed-out waiter does, exactly: it leaves with -1 if it is counted, and otherwise
      waits again, with a zero timeout. */
  lemma SettleOutcome(s: State, t: nat)
    requires Reachable(s) && Enabled(s, Settle(t))
    ensures var th, next := s.threads[t], Apply(s, Settle(t));
            next == if s.word.nsleep == 0 then Put(s, t, th.(pc := Asleep(th.pc.quad, true)))
                    else Put(s, t, th.(pc := Idle(-1))).(word := s.word.(nsleep := s.word.nsleep - 1))
  {
    SleeperAccounting(s);
    ReachableInv(s);
    if s.word.nsleep > 0 {
      SmallRemainder(s.word.nsleep - 1, s.cap);
    }
  }
}
