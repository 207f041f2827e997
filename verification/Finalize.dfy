/** Finalisation: which callbacks run, and in which order, when a library or the process goes
    away (Itanium C++ ABI, section 3.3.6.3).

    A destructor queue is a sequence here; that the chain of blocks is one is proved in
    `DtorQueue`.  A callback may register more callbacks.  `script[k]` lists what is registered
    while the k-th invoked callback runs, by that callback or by another thread; invocations
    past the end of the script register nothing. */
module Finalize {
  import opened Wrappers
  import opened DtorSpec
  import opened DtorQueue

  // ---------------------------------------------------------------- draining one queue

  datatype Outcome = Outcome(log: seq<Element>, rest: seq<Element>)

  function First<T>(script: seq<seq<T>>): seq<T> { if script == [] then [] else script[0] }

  function Later<T>(script: seq<T>): seq<T> { if script == [] then [] else script[1..] }

  /** Pops and invokes until nothing matches. */
  function Drain(q: seq<Element>, dso: nat, script: seq<seq<Element>>): Outcome
    decreases |script|, |q|
  {
    var i := NewestMatch(q, dso);
    if i < 0 then Outcome([], q)
    else
      var more := Drain(Without(q, i) + First(script), dso, Later(script));
      Outcome([q[i]] + more.log, more.rest)
  }

  function Concat<T>(parts: seq<seq<T>>): seq<T>
  {
    if parts == [] then [] else parts[0] + Concat(parts[1..])
  }

  /** The part of a script that `n` invocations use up, and the part they leave. */
  function Used<T>(script: seq<T>, n: nat): seq<T> { if n < |script| then script[..n] else script }

  function Left<T>(script: seq<T>, n: nat): seq<T> { if n < |script| then script[n..] else [] }

  lemma UsedSteps<T>(script: seq<seq<T>>, n: nat)
    ensures Concat(Used(script, n + 1)) == First(script) + Concat(Used(Later(script), n))
  {
    if script != [] {
      var used := Used(script, n + 1);
      assert used[1..] == Used(Later(script), n);
    }
  }

  lemma LeftSteps<T>(script: seq<T>, n: nat)
    ensures Left(script, n + 1) == Left(Later(script), n)
  {
  }

  /** The queue after the newest match has been taken and its callback has run. */
  function Next(q: seq<Element>, dso: nat, script: seq<seq<Element>>): seq<Element>
    requires NewestMatch(q, dso) >= 0
  {
    Without(q, NewestMatch(q, dso)) + First(script)
  }

  /** The end of a drain: nothing matches. */
  lemma DrainStops(q: seq<Element>, dso: nat, script: seq<seq<Element>>)
    requires NewestMatch(q, dso) < 0
    ensures Drain(q, dso, script) == Outcome([], q)
    ensures Keep(q, dso) == q && Matching(q, dso) == []
    ensures Concat(Used(script, 0)) == []
  {
    NothingMatches(q, dso);
    assert Used(script, 0) == [];
  }

  /** One turn of a drain. */
  lemma DrainTurns(q: seq<Element>, dso: nat, script: seq<seq<Element>>)
    requires NewestMatch(q, dso) >= 0
    ensures var next, e := Next(q, dso, script), q[NewestMatch(q, dso)];
            var more := Drain(next, dso, Later(script));
            && Drain(q, dso, script) == Outcome([e] + more.log, more.rest)
            && |next| == |q| - 1 + |First(script)|
            && Keep(next, dso) == Keep(q, dso) + Keep(First(script), dso)
            && Matching(q, dso) == [e] + Matching(Without(q, NewestMatch(q, dso)), dso)
            && Matching(next, dso) == Matching(First(script), dso) + Matching(Without(q, NewestMatch(q, dso)), dso)
            && Concat(Used(script, |more.log| + 1)) == First(script) + Concat(Used(Later(script), |more.log|))
  {
    var i := NewestMatch(q, dso);
    TakingTheNewest(q, dso);
    KeepOfConcat(Without(q, i), First(script), dso);
    MatchingOfConcat(Without(q, i), First(script), dso);
    UsedSteps(script, |Drain(Next(q, dso, script), dso, Later(script)).log|);
  }

  lemma Reassociate<T>(a: seq<T>, b: seq<T>, c: seq<T>)
    ensures (a + b) + c == a + (b + c)
  {
  }

  /** Entries that do not match stay, in the order in which they were registered, whether
      before or during the drain. */
  lemma {:induction false} DrainKeepsTheOthers(q: seq<Element>, dso: nat, script: seq<seq<Element>>)
    ensures var d := Drain(q, dso, script);
            d.rest == Keep(q, dso) + Keep(Concat(Used(script, |d.log|)), dso)
    decreases |script|, |q|
  {
    if NewestMatch(q, dso) < 0 {
      DrainStops(q, dso, script);
    } else {
      DrainTurns(q, dso, script);
      var next := Next(q, dso, script);
      DrainKeepsTheOthers(next, dso, Later(script));
      var later := Concat(Used(Later(script), |Drain(next, dso, Later(script)).log|));
      KeepOfConcat(First(script), later, dso);
      Reassociate(Keep(q, dso), Keep(First(script), dso), Keep(later, dso));
    }
  }

  lemma OneMoreRun(e: Element, more: seq<Element>, rest: seq<Element>, first: seq<Element>, later: seq<Element>)
    requires multiset(more) == multiset(first + rest) + multiset(later)
    ensures multiset([e] + more) == multiset([e] + rest) + multiset(later + first)
  {
  }

  /** Every matching entry, whether registered before or during the drain, runs exactly once,
      and nothing else runs. */
  lemma {:induction false} DrainRunsEachOnce(q: seq<Element>, dso: nat, script: seq<seq<Element>>)
    ensures var d := Drain(q, dso, script);
            multiset(d.log) == multiset(Matching(q, dso))
                             + multiset(Matching(Concat(Used(script, |d.log|)), dso))
    decreases |script|, |q|
  {
    if NewestMatch(q, dso) < 0 {
      DrainStops(q, dso, script);
    } else {
      DrainTurns(q, dso, script);
      var next, e := Next(q, dso, script), q[NewestMatch(q, dso)];
      var more := Drain(next, dso, Later(script)).log;
      var later := Concat(Used(Later(script), |more|));
      DrainRunsEachOnce(next, dso, Later(script));
      MatchingOfConcat(First(script), later, dso);
      var rest := Without(q, NewestMatch(q, dso));
      OneMoreRun(e, more, Matching(rest, dso), Matching(First(script), dso), Matching(later, dso));
    }
  }

  /** When callbacks register nothing, the matching entries run newest first. */
  lemma {:induction false} DrainIsNewestFirst(q: seq<Element>, dso: nat)
    ensures Drain(q, dso, []) == Outcome(Matching(q, dso), Keep(q, dso))
    decreases |q|
  {
    if NewestMatch(q, dso) < 0 {
      DrainStops(q, dso, []);
    } else {
      DrainTurns(q, dso, []);
      var next, e, rest := Next(q, dso, []), q[NewestMatch(q, dso)], Without(q, NewestMatch(q, dso));
      DrainIsNewestFirst(next, dso);
      assert Keep(next, dso) == Keep(q, dso) + [] == Keep(q, dso);
      assert Matching(next, dso) == [] + Matching(rest, dso) == Matching(rest, dso);
      assert Drain(q, dso, []) == Outcome([e] + Matching(rest, dso), Keep(q, dso));
    }
  }

  lemma SameHeadAndTail<T>(x: T, a: seq<T>, y: T, b: seq<T>)
    requires [x] + a == [y] + b
    ensures x == y && a == b
  {
    assert ([x] + a)[0] == x && ([y] + b)[0] == y;
    assert ([x] + a)[1..] == a && ([y] + b)[1..] == b;
  }

  /** What runs depends on the matching entries only. */
  lemma {:induction false} DrainSeesOnlyMatching(
    a: seq<Element>, b: seq<Element>, dso: nat, script: seq<seq<Element>>)
    requires Matching(a, dso) == Matching(b, dso)
    ensures Drain(a, dso, script).log == Drain(b, dso, script).log
    decreases |script|, |a|
  {
    if NewestMatch(a, dso) < 0 {
      DrainStops(a, dso, script);
      if NewestMatch(b, dso) >= 0 {
        DrainTurns(b, dso, script);
      }
    } else {
      DrainTurns(a, dso, script);
      if NewestMatch(b, dso) < 0 {
        DrainStops(b, dso, script);
      } else {
        DrainTurns(b, dso, script);
        var i, j := NewestMatch(a, dso), NewestMatch(b, dso);
        SameHeadAndTail(a[i], Matching(Without(a, i), dso), b[j], Matching(Without(b, j), dso));
        DrainSeesOnlyMatching(Next(a, dso, script), Next(b, dso, script), dso, Later(script));
      }
    }
  }

  lemma NextOfConcat(older: seq<Element>, newer: seq<Element>, dso: nat, script: seq<seq<Element>>)
    requires NewestMatch(newer, dso) >= 0
    ensures NewestMatch(older + newer, dso) == |older| + NewestMatch(newer, dso)
    ensures (older + newer)[NewestMatch(older + newer, dso)] == newer[NewestMatch(newer, dso)]
    ensures Next(older + newer, dso, script) == older + Next(newer, dso, script)
  {
    NewestMatchOfConcat(older, newer, dso);
  }

  lemma DrainLog(q: seq<Element>, dso: nat, script: seq<seq<Element>>)
    requires NewestMatch(q, dso) >= 0
    ensures Drain(q, dso, script).log
            == [q[NewestMatch(q, dso)]] + Drain(Next(q, dso, script), dso, Later(script)).log
  {
  }

  lemma NewerWithoutMatch(older: seq<Element>, newer: seq<Element>, dso: nat, script: seq<seq<Element>>)
    requires NewestMatch(newer, dso) < 0
    ensures Drain(older + newer, dso, script).log ==
            Drain(newer, dso, script).log + Drain(older, dso, Left(script, |Drain(newer, dso, script).log|)).log
  {
    DrainStops(newer, dso, script);
    MatchingOfConcat(older, newer, dso);
    DrainSeesOnlyMatching(older + newer, older, dso, script);
    assert Left(script, 0) == script;
  }

  lemma JoinedLogs(whole: seq<Element>, mine: seq<Element>, e: Element, more: seq<Element>, after: seq<Element>)
    requires whole == [e] + (more + after) && mine == [e] + more
    ensures whole == mine + after && |mine| == |more| + 1
  {
  }

  lemma DrainLogOfConcat(older: seq<Element>, newer: seq<Element>, dso: nat, script: seq<seq<Element>>)
    requires NewestMatch(newer, dso) >= 0
    ensures Drain(older + newer, dso, script).log
            == [newer[NewestMatch(newer, dso)]] + Drain(older + Next(newer, dso, script), dso, Later(script)).log
  {
    NextOfConcat(older, newer, dso, script);
    DrainLog(older + newer, dso, script);
  }

  lemma NewerTurns(older: seq<Element>, newer: seq<Element>, next: seq<Element>, later: seq<seq<Element>>,
                   dso: nat, script: seq<seq<Element>>)
    requires NewestMatch(newer, dso) >= 0 && next == Next(newer, dso, script) && later == Later(script)
    requires Drain(older + next, dso, later).log ==
             Drain(next, dso, later).log + Drain(older, dso, Left(later, |Drain(next, dso, later).log|)).log
    ensures Drain(older + newer, dso, script).log ==
            Drain(newer, dso, script).log + Drain(older, dso, Left(script, |Drain(newer, dso, script).log|)).log
  {
    var more := Drain(next, dso, later).log;
    DrainLogOfConcat(older, newer, dso, script);
    DrainLog(newer, dso, script);
    LeftSteps(script, |more|);
    JoinedLogs(Drain(older + newer, dso, script).log, Drain(newer, dso, script).log,
               newer[NewestMatch(newer, dso)], more, Drain(older, dso, Left(later, |more|)).log);
  }

  /** Stack discipline: the newer entries, together with everything that their callbacks
      register, run before any older entry. */
  lemma {:induction false} NewerEntriesRunFirst(older: seq<Element>, newer: seq<Element>, dso: nat,
                                                script: seq<seq<Element>>)
    ensures Drain(older + newer, dso, script).log ==
            Drain(newer, dso, script).log + Drain(older, dso, Left(script, |Drain(newer, dso, script).log|)).log
    decreases |script|, |newer|
  {
    if NewestMatch(newer, dso) < 0 {
      NewerWithoutMatch(older, newer, dso, script);
    } else {
      var next, later := Next(newer, dso, script), Later(script);
      NewerEntriesRunFirst(older, next, dso, later);
      NewerTurns(older, newer, next, later, dso, script);
    }
  }

  // ---------------------------------------------------------------- the three queues

  /** What is registered while one callback runs, queue by queue. */
  datatype Registrations = Registrations(thread: seq<Element>, exit: seq<Element>, quick: seq<Element>)

  function ThreadPart(script: seq<Registrations>): (r: seq<seq<Element>>)
    ensures |r| == |script|
  {
    seq(|script|, i requires 0 <= i < |script| => script[i].thread)
  }

  function ExitPart(script: seq<Registrations>): (r: seq<seq<Element>>)
    ensures |r| == |script|
  {
    seq(|script|, i requires 0 <= i < |script| => script[i].exit)
  }

  function QuickPart(script: seq<Registrations>): (r: seq<seq<Element>>)
    ensures |r| == |script|
  {
    seq(|script|, i requires 0 <= i < |script| => script[i].quick)
  }

  lemma {:induction false} ConcatJoins<T>(a: seq<seq<T>>, b: seq<seq<T>>)
    ensures Concat(a + b) == Concat(a) + Concat(b)
  {
    if a == [] {
      assert a + b == b;
    } else {
      assert (a + b)[1..] == a[1..] + b;
      ConcatJoins(a[1..], b);
      Reassociate(a[0], Concat(a[1..]), Concat(b));
    }
  }

  /** What `n + m` invocations use up is what the first `n` do and then what `m` more do. */
  lemma UsedJoins<T>(script: seq<seq<T>>, n: nat, m: nat)
    ensures Concat(Used(script, n + m)) == Concat(Used(script, n)) + Concat(Used(Left(script, n), m))
  {
    ConcatJoins(Used(script, n), Used(Left(script, n), m));
    assert Used(script, n + m) == Used(script, n) + Used(Left(script, n), m);
  }

  lemma UsedGrows<T>(script: seq<seq<T>>, n: nat)
    ensures Concat(Used(script, n + 1)) == Concat(Used(script, n)) + First(Left(script, n))
  {
    var left := Left(script, n);
    UsedJoins(script, n, 1);
    UsedSteps(left, 0);
    assert Used(Later(left), 0) == [];
  }

  /** Taking a queue's part of a script and dropping what is used up commute. */
  lemma PartsOfLeft(script: seq<Registrations>, n: nat)
    ensures ThreadPart(Left(script, n)) == Left(ThreadPart(script), n)
    ensures ExitPart(Left(script, n)) == Left(ExitPart(script), n)
    ensures QuickPart(Left(script, n)) == Left(QuickPart(script), n)
    ensures Later(Left(script, n)) == Left(script, n + 1)
  {
  }

  /** What the n-th invocation registers, queue by queue. */
  lemma TurnRegisters(script: seq<Registrations>, n: nat)
    ensures Later(Left(script, n)) == Left(script, n + 1)
    ensures First(ThreadPart(Left(script, n))) == First(Left(ThreadPart(script), n))
    ensures First(ExitPart(Left(script, n))) == First(Left(ExitPart(script), n))
    ensures Concat(Used(ThreadPart(script), n + 1))
            == Concat(Used(ThreadPart(script), n)) + First(ThreadPart(Left(script, n)))
    ensures Concat(Used(ExitPart(script), n + 1))
            == Concat(Used(ExitPart(script), n)) + First(ExitPart(Left(script, n)))
    ensures Concat(Used(QuickPart(script), n + 1))
            == Concat(Used(QuickPart(script), n)) + First(QuickPart(Left(script, n)))
  {
    PartsOfLeft(script, n);
    UsedGrows(ThreadPart(script), n);
    UsedGrows(ExitPart(script), n);
    UsedGrows(QuickPart(script), n);
  }

  /** Draining `q` is what is left of the drain `d` after its first `n` invocations. */
  ghost predicate Remaining(d: Outcome, n: nat, q: seq<Element>, dso: nat, part: seq<seq<Element>>)
  {
    n <= |d.log| && Drain(q, dso, Left(part, n)) == Outcome(d.log[n..], d.rest)
  }

  lemma RemainingTurns(d: Outcome, n: nat, q: seq<Element>, dso: nat, part: seq<seq<Element>>)
    requires Remaining(d, n, q, dso, part) && NewestMatch(q, dso) >= 0
    ensures n < |d.log| && d.log[n] == q[NewestMatch(q, dso)]
    ensures d.log[..n + 1] == d.log[..n] + [q[NewestMatch(q, dso)]]
    ensures Remaining(d, n + 1, Next(q, dso, Left(part, n)), dso, part)
  {
    var more := Drain(Next(q, dso, Left(part, n)), dso, Left(part, n + 1));
    LeftDrops(part, n);
    DrainStep(q, dso, Left(part, n));
    TailOfLog(d.log, n, q[NewestMatch(q, dso)], more.log);
  }

  lemma DrainStep(q: seq<Element>, dso: nat, script: seq<seq<Element>>)
    requires NewestMatch(q, dso) >= 0
    ensures var more := Drain(Next(q, dso, script), dso, Later(script));
            Drain(q, dso, script) == Outcome([q[NewestMatch(q, dso)]] + more.log, more.rest)
  {
  }

  lemma TailOfLog(log: seq<Element>, n: nat, e: Element, more: seq<Element>)
    requires n <= |log| && log[n..] == [e] + more
    ensures n < |log| && log[n] == e && log[..n + 1] == log[..n] + [e] && log[n + 1..] == more
  {
    assert log[n..][0] == e && log[n..][1..] == more;
    assert log[n + 1..] == log[n..][1..];
  }

  lemma RemainingStops(d: Outcome, n: nat, q: seq<Element>, dso: nat, part: seq<seq<Element>>)
    requires Remaining(d, n, q, dso, part) && NewestMatch(q, dso) < 0
    ensures n == |d.log| && q == d.rest && d.log[..n] == d.log
  {
    DrainStops(q, dso, Left(part, n));
  }

  lemma LeftDrops<T>(script: seq<T>, n: nat)
    ensures Later(Left(script, n)) == Left(script, n + 1)
    ensures Left(script, 0) == script
  {
  }

  datatype Queues = Queues(thread: seq<Element>, exit: seq<Element>, quick: seq<Element>)

  /** What draining this thread's queue invokes, the queues it leaves, and what of the script it
      leaves; then the same for the global queue. */
  function ThreadDrained(q: Queues, dso: nat, script: seq<Registrations>): (seq<Element>, Queues, seq<Registrations>)
  {
    var d := Drain(q.thread, dso, ThreadPart(script));
    var n := |d.log|;
    (d.log,
     Queues(d.rest, q.exit + Concat(Used(ExitPart(script), n)), q.quick + Concat(Used(QuickPart(script), n))),
     Left(script, n))
  }

  function FirstDrained(q: Queues, dso: nat, hasThread: bool, script: seq<Registrations>)
    : (seq<Element>, Queues, seq<Registrations>)
  {
    if hasThread then ThreadDrained(q, dso, script) else ([], q, script)
  }

  function StaticDrained(q: Queues, dso: nat, script: seq<Registrations>): (seq<Element>, Queues, seq<Registrations>)
  {
    var d := Drain(q.exit, dso, ExitPart(script));
    var n := |d.log|;
    (d.log,
     Queues(q.thread + Concat(Used(ThreadPart(script), n)), d.rest, q.quick + Concat(Used(QuickPart(script), n))),
     Left(script, n))
  }

  /** All of a finalisation: what it invokes, in order, and the queues it leaves. */
  function Finalized(q: Queues, dso: nat, hasThread: bool, script: seq<Registrations>): (seq<Element>, Queues)
  {
    var (first, mid, left) := FirstDrained(q, dso, hasThread, script);
    var (second, last, _) := StaticDrained(mid, dso, left);
    (first + second, last.(quick := Keep(last.quick, dso)))
  }

  /** When no callback registers anything: the matching thread entries run newest first, then
      the matching global ones newest first, each once; everything else stays in order, and the
      quick-exit queue loses exactly its matching entries.  A thread without a control structure
      runs the global ones alone. */
  lemma QuietFinalization(q: Queues, dso: nat, hasThread: bool)
    ensures Finalized(q, dso, hasThread, []) ==
            ((if hasThread then Matching(q.thread, dso) else []) + Matching(q.exit, dso),
             Queues(if hasThread then Keep(q.thread, dso) else q.thread, Keep(q.exit, dso), Keep(q.quick, dso)))
  {
    DrainIsNewestFirst(q.thread, dso);
    DrainIsNewestFirst(q.exit, dso);
    assert ThreadPart([]) == [] && ExitPart([]) == [] && QuickPart([]) == [];
    assert q.exit + [] == q.exit && q.quick + [] + [] == q.quick && q.quick + [] == q.quick;
    assert Keep(q.thread, dso) + [] == Keep(q.thread, dso) && q.thread + [] == q.thread;
  }

  /** What happens first: the drain of this thread's queue, if there is one. */
  function FirstDrain(q: Queues, dso: nat, hasThread: bool, script: seq<Registrations>): Outcome
  {
    if hasThread then Drain(q.thread, dso, ThreadPart(script)) else Outcome([], q.thread)
  }

  /** Whatever callbacks register: every matching entry of the thread's queue runs before any
      global one, nothing that matches is left in the global queue, and a thread entry that is
      registered by a global callback is not run. */
  lemma FinalizationOrder(q: Queues, dso: nat, hasThread: bool, script: seq<Registrations>)
    ensures var (log, after) := Finalized(q, dso, hasThread, script);
            var first := FirstDrain(q, dso, hasThread, script);
            && first.log <= log
            && Matching(after.exit, dso) == [] && Matching(after.quick, dso) == []
            && (hasThread ==> Matching(first.rest, dso) == [])
            && first.rest <= after.thread
  {
    var (_, mid, left) := FirstDrained(q, dso, hasThread, script);
    var second := Drain(mid.exit, dso, ExitPart(left));
    DrainLeavesNoMatch(q.thread, dso, ThreadPart(script));
    DrainLeavesNoMatch(mid.exit, dso, ExitPart(left));
    KeepHasNoMatch(mid.quick + Concat(Used(QuickPart(left), |second.log|)), dso);
  }

  /** All that a queue ever holds during `n` invocations. */
  function AllOf(q: seq<Element>, part: seq<seq<Element>>, n: nat): seq<Element>
  {
    q + Concat(Used(part, n))
  }

  /** The account of one queue: of `all` the entries that it ever holds the matching ones make up
      `log`, each once, and the others make up `rest`, in order. */
  ghost predicate Balanced(all: seq<Element>, dso: nat, log: seq<Element>, rest: seq<Element>)
  {
    multiset(log) == multiset(Matching(all, dso)) && rest == Keep(all, dso)
  }

  /** A drain runs the matching entries of all that its queue ever holds, and leaves the others. */
  lemma DrainBalances(q: seq<Element>, dso: nat, script: seq<seq<Element>>)
    ensures var d := Drain(q, dso, script);
            Balanced(AllOf(q, script, |d.log|), dso, d.log, d.rest)
  {
    var more := Concat(Used(script, |Drain(q, dso, script).log|));
    DrainRunsEachOnce(q, dso, script);
    DrainKeepsTheOthers(q, dso, script);
    MatchingOfConcat(q, more, dso);
    KeepOfConcat(q, more, dso);
  }

  lemma FirstPart(q: Queues, dso: nat, hasThread: bool, script: seq<Registrations>)
    ensures var (log, mid, left) := FirstDrained(q, dso, hasThread, script);
            && (if hasThread then Balanced(AllOf(q.thread, ThreadPart(script), |log|), dso, log, mid.thread)
                else log == [] && mid.thread == q.thread)
            && mid.exit == AllOf(q.exit, ExitPart(script), |log|)
            && mid.quick == AllOf(q.quick, QuickPart(script), |log|)
            && left == Left(script, |log|)
  {
    if hasThread {
      DrainBalances(q.thread, dso, ThreadPart(script));
    } else {
      assert Used(ExitPart(script), 0) == [] && Used(QuickPart(script), 0) == [] && Left(script, 0) == script;
      assert q.exit + [] == q.exit && q.quick + [] == q.quick;
    }
  }

  lemma SecondPart(q: Queues, dso: nat, script: seq<Registrations>)
    ensures var (log, last, _) := StaticDrained(q, dso, script);
            && Balanced(AllOf(q.exit, ExitPart(script), |log|), dso, log, last.exit)
            && last.thread == AllOf(q.thread, ThreadPart(script), |log|)
            && last.quick == AllOf(q.quick, QuickPart(script), |log|)
  {
    DrainBalances(q.exit, dso, ExitPart(script));
  }

  /** A finalisation balances, whatever its callbacks register, with a thread and without.  First
      the matching ones of all thread entries run that are registered before or meanwhile, if
      there is a thread; then the matching ones of all global entries, registered before, during
      the first part or during the second; and of all quick-exit entries the matching ones are
      dropped. */
  lemma FinalizationAccount(q: Queues, dso: nat, hasThread: bool, script: seq<Registrations>)
    returns (first: seq<Element>, second: seq<Element>, mid: Queues)
    ensures var (log, after) := Finalized(q, dso, hasThread, script);
            var left := Left(script, |first|);
            && log == first + second
            && (if hasThread then Balanced(AllOf(q.thread, ThreadPart(script), |first|), dso, first, mid.thread)
                else first == [] && mid.thread == q.thread)
            && mid.exit == AllOf(q.exit, ExitPart(script), |first|)
            && mid.quick == AllOf(q.quick, QuickPart(script), |first|)
            && Balanced(AllOf(mid.exit, ExitPart(left), |second|), dso, second, after.exit)
            && after.thread == AllOf(mid.thread, ThreadPart(left), |second|)
            && after.quick == Keep(AllOf(mid.quick, QuickPart(left), |second|), dso)
  {
    var (log1, between, left) := FirstDrained(q, dso, hasThread, script);
    FirstPart(q, dso, hasThread, script);
    SecondPart(between, dso, left);
    first, second, mid := log1, StaticDrained(between, dso, left).0, between;
  }

  lemma {:induction false} DrainLeavesNoMatch(q: seq<Element>, dso: nat, script: seq<seq<Element>>)
    ensures Matching(Drain(q, dso, script).rest, dso) == []
    decreases |script|, |q|
  {
    if NewestMatch(q, dso) < 0 {
      DrainStops(q, dso, script);
    } else {
      DrainTurns(q, dso, script);
      DrainLeavesNoMatch(Next(q, dso, script), dso, Later(script));
    }
  }

  lemma {:induction false} KeepHasNoMatch(q: seq<Element>, dso: nat)
    ensures Matching(Keep(q, dso), dso) == []
  {
    if q != [] {
      var init := q[..|q| - 1];
      KeepHasNoMatch(init, dso);
      if !Matches(q[|q| - 1], dso) {
        assert Keep(q, dso)[..|Keep(q, dso)| - 1] == Keep(init, dso);
      }
    }
  }

  /** A registration needs a callback. */
  ghost predicate Proper(r: Registrations)
  {
    forall e :: e in r.thread || e in r.exit || e in r.quick ==> e.dtor != 0
  }

  ghost predicate AllProper(script: seq<Registrations>) { forall k :: 0 <= k < |script| ==> Proper(script[k]) }

  function WithMore(q: Queues, thread: seq<Element>, exit: seq<Element>, quick: seq<Element>): Queues
  {
    Queues(q.thread + thread, q.exit + exit, q.quick + quick)
  }

  /** A drain ends: the script gets shorter, or else the queue does. */
  lemma TurnShrinks(q: seq<Element>, i: nat, script: seq<Registrations>)
    requires i < |q|
    ensures script == [] ==>
              && |Without(q, i) + First(ThreadPart(script))| < |q|
              && |Without(q, i) + First(ExitPart(script))| < |q|
    ensures script != [] ==> |Later(script)| < |script|
  {
  }

  /** What one invocation makes of the queues. */
  function AfterInvoke(q: Queues, script: seq<Registrations>): Queues
  {
    WithMore(q, First(ThreadPart(script)), First(ExitPart(script)), First(QuickPart(script)))
  }

  lemma LaterIsProper(script: seq<Registrations>)
    requires AllProper(script)
    ensures AllProper(Later(script))
  {
  }

  /** What popping makes of a queue. */
  predicate Popped(was: seq<Element>, now: seq<Element>, dso: nat, err: int, elem: Element)
  {
    var i := NewestMatch(was, dso);
    if i < 0 then err == -1 && now == was else err == 0 && elem == was[i] && now == Without(was, i)
  }

  /** A drain of the thread queue after `n` invocations: `d` is the whole of it, `was` and `log` are
      what there was at first, and `done` is what has been invoked since. */
  ghost predicate ThreadDrain(
    d: Outcome, n: nat, was: Queues, now: Queues, done: seq<Element>,
    script: seq<Registrations>, left: seq<Registrations>, dso: nat)
  {
    && Remaining(d, n, now.thread, dso, ThreadPart(script))
    && done == d.log[..n] && left == Left(script, n)
    && now.exit == was.exit + Concat(Used(ExitPart(script), n))
    && now.quick == was.quick + Concat(Used(QuickPart(script), n))
  }

  lemma ThreadDrainBegins(was: Queues, script: seq<Registrations>, dso: nat)
    ensures ThreadDrain(Drain(was.thread, dso, ThreadPart(script)), 0, was, was, [], script, script, dso)
  {
    LeftDrops(script, 0);
    LeftDrops(ThreadPart(script), 0);
    assert Used(ExitPart(script), 0) == [] && Used(QuickPart(script), 0) == [];
  }

  /** One pop and one invocation. */
  lemma ThreadDrainTurns(
    d: Outcome, n: nat, was: Queues, now: Queues, done: seq<Element>,
    script: seq<Registrations>, left: seq<Registrations>, dso: nat)
    requires ThreadDrain(d, n, was, now, done, script, left, dso) && NewestMatch(now.thread, dso) >= 0
    ensures var i := NewestMatch(now.thread, dso);
            var next := AfterInvoke(now.(thread := Without(now.thread, i)), left);
            ThreadDrain(d, n + 1, was, next, done + [now.thread[i]], script, Later(left), dso)
  {
    RemainingTurns(d, n, now.thread, dso, ThreadPart(script));
    TurnRegisters(script, n);
    Reassociate(was.exit, Concat(Used(ExitPart(script), n)), First(ExitPart(left)));
    Reassociate(was.quick, Concat(Used(QuickPart(script), n)), First(QuickPart(left)));
  }

  lemma ThreadDrainStops(
    d: Outcome, n: nat, was: Queues, now: Queues, done: seq<Element>,
    script: seq<Registrations>, left: seq<Registrations>, dso: nat)
    requires ThreadDrain(d, n, was, now, done, script, left, dso) && NewestMatch(now.thread, dso) < 0
    requires d == Drain(was.thread, dso, ThreadPart(script))
    ensures (done, now, left) == ThreadDrained(was, dso, script)
  {
    RemainingStops(d, n, now.thread, dso, ThreadPart(script));
  }

  /** A drain of the global queue after `n` invocations: `d` is the whole of it, `was` and `log` are
      what there was at first, and `done` is what has been invoked since. */
  ghost predicate StaticDrain(
    d: Outcome, n: nat, was: Queues, now: Queues, done: seq<Element>,
    script: seq<Registrations>, left: seq<Registrations>, dso: nat)
  {
    && Remaining(d, n, now.exit, dso, ExitPart(script))
    && done == d.log[..n] && left == Left(script, n)
    && now.thread == was.thread + Concat(Used(ThreadPart(script), n))
    && now.quick == was.quick + Concat(Used(QuickPart(script), n))
  }

  lemma StaticDrainBegins(was: Queues, script: seq<Registrations>, dso: nat)
    ensures StaticDrain(Drain(was.exit, dso, ExitPart(script)), 0, was, was, [], script, script, dso)
  {
    LeftDrops(script, 0);
    LeftDrops(ExitPart(script), 0);
    assert Used(ThreadPart(script), 0) == [] && Used(QuickPart(script), 0) == [];
  }

  /** One pop and one invocation. */
  lemma StaticDrainTurns(
    d: Outcome, n: nat, was: Queues, now: Queues, done: seq<Element>,
    script: seq<Registrations>, left: seq<Registrations>, dso: nat)
    requires StaticDrain(d, n, was, now, done, script, left, dso) && NewestMatch(now.exit, dso) >= 0
    ensures var i := NewestMatch(now.exit, dso);
            var next := AfterInvoke(now.(exit := Without(now.exit, i)), left);
            StaticDrain(d, n + 1, was, next, done + [now.exit[i]], script, Later(left), dso)
  {
    RemainingTurns(d, n, now.exit, dso, ExitPart(script));
    TurnRegisters(script, n);
    Reassociate(was.thread, Concat(Used(ThreadPart(script), n)), First(ThreadPart(left)));
    Reassociate(was.quick, Concat(Used(QuickPart(script), n)), First(QuickPart(left)));
  }

  lemma StaticDrainStops(
    d: Outcome, n: nat, was: Queues, now: Queues, done: seq<Element>,
    script: seq<Registrations>, left: seq<Registrations>, dso: nat)
    requires StaticDrain(d, n, was, now, done, script, left, dso) && NewestMatch(now.exit, dso) < 0
    requires d == Drain(was.exit, dso, ExitPart(script))
    ensures (done, now, left) == StaticDrained(was, dso, script)
  {
    RemainingStops(d, n, now.exit, dso, ExitPart(script));
  }

  /** The queues of a thread and of the process, each a chain of blocks. */
  class Registry {
    const thread: Queue        // this thread's queue
    const exit: Queue          // the global queue
    const quick: Queue         // the quick-exit queue
    var log: seq<Element>      // callbacks invoked so far

    ghost predicate Valid()
      reads this, thread, exit, quick, thread.repr, exit.repr, quick.repr
    {
      && thread.Valid() && exit.Valid() && quick.Valid()
      && thread.repr !! exit.repr && thread.repr !! quick.repr && exit.repr !! quick.repr
      && this !in thread.repr && this !in exit.repr && this !in quick.repr
    }

    /** What the queues hold, oldest entries first. */
    ghost function Now(): Queues
      reads thread, exit, quick
    {
      Queues(thread.Contents(), exit.Contents(), quick.Contents())
    }

    constructor ()
      ensures Valid() && Now() == Queues([], [], []) && log == []
      ensures fresh(thread.repr) && fresh(exit.repr) && fresh(quick.repr)
    {
      thread := new Queue();
      exit := new Queue();
      quick := new Queue();
      log := [];
    }

    /** Pops the newest match from this thread's queue. */
    method PopThread(dso: nat) returns (err: int, elem: Element)
      requires Valid()
      modifies thread, thread.repr
      ensures Valid() && thread.repr == old(thread.repr)
      ensures Popped(old(thread.Contents()), thread.Contents(), dso, err, elem)
      ensures Now() == old(Now()).(thread := thread.Contents())
    {
      err, elem := thread.Pop(dso);
    }

    /** Pops the newest match from the global queue. */
    method PopExit(dso: nat) returns (err: int, elem: Element)
      requires Valid()
      modifies exit, exit.repr
      ensures Valid() && exit.repr == old(exit.repr)
      ensures Popped(old(exit.Contents()), exit.Contents(), dso, err, elem)
      ensures Now() == old(Now()).(exit := exit.Contents())
    {
      err, elem := exit.Pop(dso);
    }

    /** Drops every match from the quick-exit queue. */
    method RemoveQuick(dso: nat)
      requires Valid()
      modifies quick, quick.repr
      ensures Valid() && quick.repr == old(quick.repr)
      ensures Now() == old(Now()).(quick := Keep(old(quick.Contents()), dso))
    {
      var count := quick.Remove(dso);
    }

    method RegisterThread(elems: seq<Element>)
      requires Valid() && forall e :: e in elems ==> e.dtor != 0
      modifies thread, thread.repr
      ensures Valid() && forall o :: o in thread.repr ==> o in old(thread.repr) || fresh(o)
      ensures Now() == old(Now()).(thread := old(thread.Contents()) + elems)
    {
      PushAll(thread, elems);
    }

    method RegisterExit(elems: seq<Element>)
      requires Valid() && forall e :: e in elems ==> e.dtor != 0
      modifies exit, exit.repr
      ensures Valid() && forall o :: o in exit.repr ==> o in old(exit.repr) || fresh(o)
      ensures Now() == old(Now()).(exit := old(exit.Contents()) + elems)
    {
      PushAll(exit, elems);
    }

    method RegisterQuick(elems: seq<Element>)
      requires Valid() && forall e :: e in elems ==> e.dtor != 0
      modifies quick, quick.repr
      ensures Valid() && forall o :: o in quick.repr ==> o in old(quick.repr) || fresh(o)
      ensures Now() == old(Now()).(quick := old(quick.Contents()) + elems)
    {
      PushAll(quick, elems);
    }

    /** Invokes `elem`, during which the first entry of the script is registered. */
    method Invoke(elem: Element, script: seq<Registrations>) returns (later: seq<Registrations>)
      requires Valid() && AllProper(script)
      modifies this, thread, exit, quick, thread.repr, exit.repr, quick.repr
      ensures Valid()
      ensures forall o :: o in thread.repr ==> o in old(thread.repr) || fresh(o)
      ensures forall o :: o in exit.repr ==> o in old(exit.repr) || fresh(o)
      ensures forall o :: o in quick.repr ==> o in old(quick.repr) || fresh(o)
      ensures log == old(log) + [elem] && later == Later(script)
      ensures Now() == AfterInvoke(old(Now()), script)
    {
      log := log + [elem];
      if script == [] {
        later := [];
      } else {
        assert Proper(script[0]);
        RegisterThread(script[0].thread);
        RegisterExit(script[0].exit);
        RegisterQuick(script[0].quick);
        later := script[1..];
      }
    }

    /** Pops one callback and invokes it. */
    method ThreadTurn(dso: nat, script: seq<Registrations>)
      returns (more: bool, elem: Element, left: seq<Registrations>)
      requires Valid() && AllProper(script)
      modifies this, thread, exit, quick, thread.repr, exit.repr, quick.repr
      ensures Valid() && AllProper(left)
      ensures forall o :: o in thread.repr ==> o in old(thread.repr) || fresh(o)
      ensures forall o :: o in exit.repr ==> o in old(exit.repr) || fresh(o)
      ensures forall o :: o in quick.repr ==> o in old(quick.repr) || fresh(o)
      ensures more <==> NewestMatch(old(Now()).thread, dso) >= 0
      ensures !more ==> Now() == old(Now()) && log == old(log) && left == script
      ensures more ==>
                var q, i := old(Now()).thread, NewestMatch(old(Now()).thread, dso);
                && elem == q[i] && log == old(log) + [elem] && left == Later(script)
                && Now() == AfterInvoke(old(Now()).(thread := Without(q, i)), script)
    {
      var err;
      err, elem := PopThread(dso);
      more, left := err == 0, script;
      if more {
        left := Invoke(elem, script);
        LaterIsProper(script);
      }
    }

    /** Drains this thread's queue. */
    method FinalizeThread(dso: nat, script: seq<Registrations>) returns (left: seq<Registrations>)
      requires Valid() && AllProper(script)
      modifies this, thread, exit, quick, thread.repr, exit.repr, quick.repr
      ensures Valid() && AllProper(left)
      ensures forall o :: o in thread.repr ==> o in old(thread.repr) || fresh(o)
      ensures forall o :: o in exit.repr ==> o in old(exit.repr) || fresh(o)
      ensures forall o :: o in quick.repr ==> o in old(quick.repr) || fresh(o)
      ensures var (done, now, later) := ThreadDrained(old(Now()), dso, script);
              log == old(log) + done && Now() == now && left == later
    {
      left := script;
      ghost var was, log0, done := Now(), log, [];
      ghost var d := Drain(was.thread, dso, ThreadPart(script));
      ghost var n := 0;
      ThreadDrainBegins(was, script, dso);
      while true
        invariant Valid() && AllProper(left)
        invariant forall o :: o in thread.repr ==> o in old(thread.repr) || fresh(o)
        invariant forall o :: o in exit.repr ==> o in old(exit.repr) || fresh(o)
        invariant forall o :: o in quick.repr ==> o in old(quick.repr) || fresh(o)
        invariant ThreadDrain(d, n, was, Now(), done, script, left, dso) && log == log0 + done
        decreases |left|, |Now().thread|
      {
        ghost var now, before := Now(), left;
        var more, elem;
        more, elem, left := ThreadTurn(dso, left);
        if !more {
          ThreadDrainStops(d, n, was, now, done, script, before, dso);
          return;
        }
        ThreadDrainTurns(d, n, was, now, done, script, before, dso);
        TurnShrinks(now.thread, NewestMatch(now.thread, dso), before);
        Reassociate(log0, done, [elem]);
        n, done := n + 1, done + [elem];
      }
    }

    /** Pops one callback and invokes it. */
    method ExitTurn(dso: nat, script: seq<Registrations>)
      returns (more: bool, elem: Element, left: seq<Registrations>)
      requires Valid() && AllProper(script)
      modifies this, thread, exit, quick, thread.repr, exit.repr, quick.repr
      ensures Valid() && AllProper(left)
      ensures forall o :: o in thread.repr ==> o in old(thread.repr) || fresh(o)
      ensures forall o :: o in exit.repr ==> o in old(exit.repr) || fresh(o)
      ensures forall o :: o in quick.repr ==> o in old(quick.repr) || fresh(o)
      ensures more <==> NewestMatch(old(Now()).exit, dso) >= 0
      ensures !more ==> Now() == old(Now()) && log == old(log) && left == script
      ensures more ==>
                var q, i := old(Now()).exit, NewestMatch(old(Now()).exit, dso);
                && elem == q[i] && log == old(log) + [elem] && left == Later(script)
                && Now() == AfterInvoke(old(Now()).(exit := Without(q, i)), script)
    {
      var err;
      err, elem := PopExit(dso);
      more, left := err == 0, script;
      if more {
        left := Invoke(elem, script);
        LaterIsProper(script);
      }
    }

    /** Drains the global queue. */
    method RunStatic(dso: nat, script: seq<Registrations>) returns (left: seq<Registrations>)
      requires Valid() && AllProper(script)
      modifies this, thread, exit, quick, thread.repr, exit.repr, quick.repr
      ensures Valid() && AllProper(left)
      ensures forall o :: o in thread.repr ==> o in old(thread.repr) || fresh(o)
      ensures forall o :: o in exit.repr ==> o in old(exit.repr) || fresh(o)
      ensures forall o :: o in quick.repr ==> o in old(quick.repr) || fresh(o)
      ensures var (done, now, later) := StaticDrained(old(Now()), dso, script);
              log == old(log) + done && Now() == now && left == later
    {
      left := script;
      ghost var was, log0, done := Now(), log, [];
      ghost var d := Drain(was.exit, dso, ExitPart(script));
      ghost var n := 0;
      StaticDrainBegins(was, script, dso);
      while true
        invariant Valid() && AllProper(left)
        invariant forall o :: o in thread.repr ==> o in old(thread.repr) || fresh(o)
        invariant forall o :: o in exit.repr ==> o in old(exit.repr) || fresh(o)
        invariant forall o :: o in quick.repr ==> o in old(quick.repr) || fresh(o)
        invariant StaticDrain(d, n, was, Now(), done, script, left, dso) && log == log0 + done
        decreases |left|, |Now().exit|
      {
        ghost var now, before := Now(), left;
        var more, elem;
        more, elem, left := ExitTurn(dso, left);
        if !more {
          StaticDrainStops(d, n, was, now, done, script, before, dso);
          return;
        }
        StaticDrainTurns(d, n, was, now, done, script, before, dso);
        TurnShrinks(now.exit, NewestMatch(now.exit, dso), before);
        Reassociate(log0, done, [elem]);
        n, done := n + 1, done + [elem];
      }
    }

    /** Drains this thread's queue if there is one: a thread without a control structure has
        none. */
    method FinalizeThreadIfAny(dso: nat, hasThread: bool, script: seq<Registrations>)
      returns (left: seq<Registrations>)
      requires Valid() && AllProper(script)
      modifies this, thread, exit, quick, thread.repr, exit.repr, quick.repr
      ensures Valid() && AllProper(left)
      ensures forall o :: o in thread.repr ==> o in old(thread.repr) || fresh(o)
      ensures forall o :: o in exit.repr ==> o in old(exit.repr) || fresh(o)
      ensures forall o :: o in quick.repr ==> o in old(quick.repr) || fresh(o)
      ensures var (done, now, later) := FirstDrained(old(Now()), dso, hasThread, script);
              log == old(log) + done && Now() == now && left == later
    {
      left := script;
      if hasThread {
        left := FinalizeThread(dso, script);
      }
    }

    /** Finalises `dso`: the thread's callbacks, then the global ones, then the quick-exit
        callbacks are dropped. */
    method Finalize(dso: nat, hasThread: bool, script: seq<Registrations>)
      requires Valid() && AllProper(script)
      modifies this, thread, exit, quick, thread.repr, exit.repr, quick.repr
      ensures Valid()
      ensures var (invoked, after) := Finalized(old(Now()), dso, hasThread, script);
              log == old(log) + invoked && Now() == after
    {
      var left := FinalizeThreadIfAny(dso, hasThread, script);
      ghost var (first, mid, later) := FirstDrained(old(Now()), dso, hasThread, script);
      left := RunStatic(dso, left);
      Reassociate(old(log), first, StaticDrained(mid, dso, later).0);
      RemoveQuick(dso);
    }
  }

  /** With a null handle a drain leaves nothing behind, whatever its callbacks register. */
  lemma NullHandleDrainsAll(q: seq<Element>, script: seq<seq<Element>>)
    ensures Drain(q, 0, script).rest == []
  {
    DrainKeepsTheOthers(q, 0, script);
    KeepsNothing(q);
    KeepsNothing(Concat(Used(script, |Drain(q, 0, script).log|)));
  }
}
