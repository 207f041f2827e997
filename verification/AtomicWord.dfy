/** One shared machine word, the retry loops around it, and what it means that the code of one
    thread takes only steps of a machine.

    All the loops in the source have one shape: load the word, decide from its value either to
    stop or to replace it, attempt a weak compare-and-exchange, and look at the reloaded value
    when that fails.  `World.Retry` is that loop.  It is proved to act as one step of the
    machine, on the value that the word really has at one instant, whatever other threads do
    between two accesses. */
module AtomicWord {
  import opened Wrappers

  /** What a loop body decides about the value it has loaded. */
  datatype Decision<+W, +R> =
    | Stop(result: R)                // leave the loop without touching the word
    | Exchange(next: W, result: R)   // leave the loop once the word has been replaced

  /** The word once a decision has been carried out on it. */
  function Outcome<W, R>(value: W, d: Decision<W, R>): W
  {
    if d.Stop? then value else d.next
  }

  /** A transition system seen from one thread.  `foreign` events are those in which the thread
      has no part; `entry` events begin an operation; `own` steps are those that it takes alone,
      and `after` is what they make of the word and of the thread. */
  datatype Machine<!S, !T, !E, !W> = Machine(
    enabled: (S, E) -> bool,
    apply: (S, E) -> S,
    fits: S -> bool,
    foreign: E -> bool,
    entry: E -> bool,
    own: (T, E) -> bool,
    word: S -> W,
    mine: S -> T,
    after: (W, T, E) -> (W, T))

  /** Foreign events leave the thread alone, and its own steps look at nothing but the word and
      the thread itself. */
  ghost predicate Lawful<S(!new), T(!new), E(!new), W(!new)>(m: Machine<S, T, E, W>)
  {
    && (forall s, e :: m.fits(s) && m.enabled(s, e) ==> m.fits(m.apply(s, e)))
    && (forall s, e :: m.fits(s) && m.enabled(s, e) && m.foreign(e) ==> m.mine(m.apply(s, e)) == m.mine(s))
    && (forall s, e :: m.fits(s) && m.own(m.mine(s), e) ==>
                         && m.enabled(s, e) && !m.foreign(e)
                         && m.after(m.word(s), m.mine(s), e) == (m.word(m.apply(s, e)), m.mine(m.apply(s, e))))
  }

  /** A run of the machine; `None` when some event is not possible. */
  function Replay<S, T, E, W>(m: Machine<S, T, E, W>, s: S, es: seq<E>): Option<S>
  {
    if es == [] then Some(s)
    else
      var before := Replay(m, s, es[..|es| - 1]);
      if before.Some? && m.enabled(before.value, es[|es| - 1]) then Some(m.apply(before.value, es[|es| - 1]))
      else None
  }

  /** Running on from where a run has come to. */
  lemma {:induction false} ReplayOn<S, T, E, W>(m: Machine<S, T, E, W>, s: S, es: seq<E>, more: seq<E>)
    requires Replay(m, s, es).Some?
    ensures Replay(m, s, es + more) == Replay(m, Replay(m, s, es).value, more)
  {
    if more == [] {
      assert es + more == es;
    } else {
      assert (es + more)[..|es + more| - 1] == es + more[..|more| - 1];
      ReplayOn(m, s, es, more[..|more| - 1]);
    }
  }

  /** Every beginning of a run is a run. */
  lemma {:induction false} ReplayPrefix<S, T, E, W>(m: Machine<S, T, E, W>, s: S, es: seq<E>, n: nat)
    requires n <= |es| && Replay(m, s, es).Some?
    ensures Replay(m, s, es[..n]).Some?
  {
    if n == |es| {
      assert es[..n] == es;
    } else {
      assert es[..|es| - 1][..n] == es[..n];
      ReplayPrefix(m, s, es[..|es| - 1], n);
    }
  }

  /** A run in which the thread has no part. */
  ghost predicate RunOfOthers<S, T, E, W>(m: Machine<S, T, E, W>, s: S, es: seq<E>)
  {
    Replay(m, s, es).Some? && forall i :: 0 <= i < |es| ==> m.foreign(es[i])
  }

  lemma RunGoesOn<S, T, E, W>(m: Machine<S, T, E, W>, s: S, es: seq<E>, n: nat)
    requires RunOfOthers(m, s, es) && n < |es|
    ensures Replay(m, s, es[..n]).Some? && m.foreign(es[n]) && m.enabled(Replay(m, s, es[..n]).value, es[n])
    ensures Replay(m, s, es[..n + 1]) == Some(m.apply(Replay(m, s, es[..n]).value, es[n]))
  {
    ReplayPrefix(m, s, es, n + 1);
    assert es[..n + 1][..n] == es[..n];
  }

  /** The events of a run in which the thread has a part, in order. */
  function Own<S, T, E, W>(m: Machine<S, T, E, W>, es: seq<E>): seq<E>
  {
    if es == [] then []
    else
      var e := es[|es| - 1];
      Own(m, es[..|es| - 1]) + if m.foreign(e) then [] else [e]
  }

  /** The operations that the thread has begun in a run, in order. */
  function Begun<S, T, E, W>(m: Machine<S, T, E, W>, es: seq<E>): seq<E>
  {
    if es == [] then []
    else
      var e := es[|es| - 1];
      Begun(m, es[..|es| - 1]) + if m.entry(e) && !m.foreign(e) then [e] else []
  }

  /** A run has gone on, and the thread had no part in it. */
  ghost predicate OnlyOthers<S, T, E, W>(m: Machine<S, T, E, W>, before: seq<E>, after: seq<E>)
  {
    before <= after && forall e :: e in after[|before|..] ==> m.foreign(e)
  }

  /** At the end of the run `es` the word was `w`. */
  ghost predicate WordAt<S, T, E, W>(m: Machine<S, T, E, W>, origin: S, es: seq<E>, w: W)
  {
    Replay(m, origin, es).Some? && m.word(Replay(m, origin, es).value) == w
  }

  /** A run has gone on with steps of others and then, as its last step, with `e`, which found
      the word `at`. */
  ghost predicate TookStep<S, T, E, W>(
    m: Machine<S, T, E, W>, origin: S, before: seq<E>, after: seq<E>, e: E, at: W)
  {
    && |before| < |after| && after[|after| - 1] == e
    && OnlyOthers(m, before, after[..|after| - 1])
    && WordAt(m, origin, after[..|after| - 1], at)
  }

  /** At some moment while a run went on from `before` to `after` the word was `w`. */
  ghost predicate WordWas<S, T, E, W>(m: Machine<S, T, E, W>, origin: S, before: seq<E>, after: seq<E>, w: W)
  {
    exists k :: |before| <= k <= |after| && WordAt(m, origin, after[..k], w)
  }

  lemma StepSawWord<S, T, E, W>(
    m: Machine<S, T, E, W>, origin: S, before: seq<E>, middle: seq<E>, after: seq<E>, e: E, w: W)
    requires TookStep(m, origin, before, middle, e, w) && middle <= after
    ensures WordWas(m, origin, before, after, w)
  {
    var k := |middle| - 1;
    assert after[..k] == middle[..k];
  }

  /** What happens just before one access of the thread to shared state, and how everything
      falls out that the thread cannot control. */
  datatype Turn<E> = Turn(
    others: seq<E>,     // what other threads do first; impossible events are left out
    spurious: bool,     // a weak exchange fails for no reason
    poked: bool,        // the spin byte was set
    partner: nat,       // which thread is met at the keyed event, if it is ready
    elapsed: nat)       // how long a wait took

  /** The turns in which others do something or the processor fails an exchange. */
  function Disturbed<E>(turns: seq<Turn<E>>): nat
  {
    if turns == [] then 0
    else Disturbed(turns[1..]) + if turns[0].others != [] || turns[0].spurious then 1 else 0
  }

  /** The shared state, as the thread `me` and everybody else change it.  A call whose turns
      run out has no result yet. */
  class World<S(!new), T(!new), E(!new), W(!new, ==)> {
    const machine: Machine<S, T, E, W>
    const me: nat
    const cap: nat
    var state: S
    var turns: seq<Turn<E>>
    ghost const origin: S
    ghost var history: seq<E>

    /** Whatever has happened is a run of the machine. */
    ghost predicate Valid() reads this
    {
      && Lawful(machine)
      && machine.fits(state)
      && Replay(machine, origin, history) == Some(state)
    }

    function Mine(): T reads this { machine.mine(state) }

    ghost function Calls(): seq<E> reads this { Begun(machine, history) }

    ghost function Steps(): seq<E> reads this { Own(machine, history) }

    /** The last event of the run found the word `w`. */
    ghost predicate Found(w: W) reads this
    {
      history != [] && WordAt(machine, origin, history[..|history| - 1], w)
    }

    /** At least `n` turns are left, and nobody interferes in any of them. */
    ghost predicate Unhindered(n: nat) reads this
    {
      |turns| >= n && Disturbed(turns) == 0
    }

    constructor (machine: Machine<S, T, E, W>, me: nat, cap: nat, state: S, turns: seq<Turn<E>>)
      requires Lawful(machine) && machine.fits(state)
      ensures Valid() && this.machine == machine && this.me == me && this.cap == cap
      ensures this.state == state == origin && this.turns == turns && history == []
    {
      this.machine, this.me, this.cap := machine, me, cap;
      this.state, this.turns := state, turns;
      origin, history := state, [];
    }

    /** One step of the machine. */
    method Step(e: E)
      requires Valid() && machine.enabled(state, e)
      modifies this`state, this`history
      ensures Valid() && state == machine.apply(old(state), e)
      ensures Calls() == old(Calls()) + if machine.entry(e) && !machine.foreign(e) then [e] else []
      ensures Steps() == old(Steps()) + if machine.foreign(e) then [] else [e]
      ensures history == old(history) + [e]
      ensures machine.foreign(e) ==> Mine() == old(Mine())
      ensures machine.own(old(Mine()), e) ==>
                (machine.word(state), Mine()) == machine.after(old(machine.word(state)), old(Mine()), e)
    {
      assert (history + [e])[..|history|] == history;
      state := machine.apply(state, e);
      history := history + [e];
    }

    /** An event of other threads, if it is one and possible. */
    method LetOther(e: E)
      requires Valid()
      modifies this`state, this`history
      ensures Valid() && Mine() == old(Mine()) && Calls() == old(Calls()) && Steps() == old(Steps())
      ensures state == if machine.foreign(e) && machine.enabled(old(state), e) then machine.apply(old(state), e)
                       else old(state)
      ensures OnlyOthers(machine, old(history), history)
    {
      if machine.foreign(e) && machine.enabled(state, e) {
        Step(e);
      }
    }

    /** Begins an access to shared state: the others have their turn, and any run of theirs may
        happen. */
    method Begin() returns (turn: Option<Turn<E>>)
      requires Valid()
      modifies this
      ensures Valid() && Mine() == old(Mine()) && Calls() == old(Calls()) && Steps() == old(Steps())
      ensures turn.None? ==> turns == [] && old(turns) == [] && state == old(state)
      ensures turn.Some? ==> old(turns) == [turn.value] + turns
      ensures turn.Some? && turn.value.others == [] ==> state == old(state)
      ensures var es := if turn.Some? then turn.value.others else [];
              RunOfOthers(machine, old(state), es) ==> Replay(machine, old(state), es) == Some(state)
      ensures OnlyOthers(machine, old(history), history)
    {
      if turns == [] {
        return None;
      }
      turn, turns := Some(turns[0]), turns[1..];
      var events := turn.value.others;
      for i := 0 to |events|
        modifies this`state, this`history
        invariant Valid() && Mine() == old(Mine()) && Calls() == old(Calls()) && Steps() == old(Steps())
        invariant OnlyOthers(machine, old(history), history)
        invariant i == 0 ==> state == old(state)
        invariant RunOfOthers(machine, old(state), events) ==>
                    Replay(machine, old(state), events[..i]) == Some(state)
      {
        if RunOfOthers(machine, old(state), events) {
          RunGoesOn(machine, old(state), events, i);
        }
        ghost var past := history;
        LetOther(events[i]);
        OthersCompose(machine, old(history), past, history);
      }
      assert events[..|events|] == events;
    }

    method Load() returns (seen: Option<W>)
      requires Valid()
      modifies this
      ensures Valid() && Mine() == old(Mine()) && Calls() == old(Calls()) && Steps() == old(Steps())
      ensures OnlyOthers(machine, old(history), history)
      ensures seen.None? ==> turns == []
      ensures seen.Some? ==> |turns| < |old(turns)| && seen.value == machine.word(state)
      ensures old(turns) != [] ==> seen.Some? && turns == old(turns)[1..]
      ensures Disturbed(old(turns)) == 0 ==> state == old(state)
    {
      var turn := Begin();
      seen := if turn.None? then None else Some(machine.word(state));
    }

    /** A weak exchange, which is the step `e` if it succeeds; if it fails, the current value is
        returned. */
    method CompareExchangeWeak(expected: W, desired: W, e: E) returns (ok: bool, seen: Option<W>)
      requires Valid() && machine.own(Mine(), e)
      requires machine.after(expected, Mine(), e).0 == desired
      modifies this
      ensures Valid()
      ensures ok ==>
                && (machine.word(state), Mine()) == machine.after(expected, old(Mine()), e)
                && TookStep(machine, origin, old(history), history, e, expected)
                && Calls() == old(Calls()) + (if machine.entry(e) then [e] else [])
                && Steps() == old(Steps()) + [e]
      ensures !ok ==>
                && Mine() == old(Mine()) && Calls() == old(Calls()) && Steps() == old(Steps())
                && OnlyOthers(machine, old(history), history)
      ensures ok || seen.Some? ==> |turns| < |old(turns)|
      ensures !ok && seen.None? ==> turns == []
      ensures !ok && seen.Some? ==> seen.value == machine.word(state)
      ensures old(turns) != [] ==> (ok || seen.Some?) && turns == old(turns)[1..]
      ensures old(turns) != [] && !ok && old(machine.word(state)) == expected ==>
                Disturbed(old(turns)) == Disturbed(turns) + 1
    {
      var turn := Begin();
      ok := turn.Some? && !turn.value.spurious && machine.word(state) == expected;
      seen := if turn.None? then None else Some(machine.word(state));
      if ok {
        Take(e);
      }
    }

    /** The thread takes a step on its own. */
    method Take(e: E)
      requires Valid() && machine.own(Mine(), e)
      modifies this`state, this`history
      ensures Valid()
      ensures (machine.word(state), Mine()) == machine.after(old(machine.word(state)), old(Mine()), e)
      ensures Calls() == old(Calls()) + (if machine.entry(e) then [e] else [])
      ensures Steps() == old(Steps()) + [e]
      ensures history == old(history) + [e]
      ensures forall before :: OnlyOthers(machine, before, old(history)) ==>
                TookStep(machine, origin, before, history, e, old(machine.word(state)))
    {
      ghost var was := history;
      Step(e);
      assert history[..|history| - 1] == was;
    }

    /** The retry loop around the step `e`; `decide` is what the loop body makes of the value it
        has read.  The step is taken exactly once, as the last thing that happens, on the value
        that the word has at that moment.  Besides one turn to load and one to exchange, each
        further turn is somebody else's fault. */
    method Retry<R>(e: E, decide: W -> Decision<W, R>) returns (result: Option<R>, ghost at: W)
      requires Valid() && machine.own(Mine(), e)
      requires forall w :: machine.after(w, Mine(), e).0 == Outcome(w, decide(w))
      modifies this
      ensures Valid()
      ensures result.None? ==>
                && turns == [] && Mine() == old(Mine()) && Calls() == old(Calls()) && Steps() == old(Steps())
                && OnlyOthers(machine, old(history), history)
                && |old(turns)| <= 1 + Disturbed(old(turns))
      ensures result.Some? && Disturbed(old(turns)) == 0 ==>
                at == old(machine.word(state)) && |turns| >= |old(turns)| - 2 && Disturbed(turns) == 0
      ensures result.Some? ==>
                && Found(at)
                && |turns| < |old(turns)|
                && result.value == decide(at).result
                && (machine.word(state), Mine()) == machine.after(at, old(Mine()), e)
                && TookStep(machine, origin, old(history), history, e, at)
                && Calls() == old(Calls()) + (if machine.entry(e) then [e] else [])
                && Steps() == old(Steps()) + [e]
    {
      at := machine.word(state);
      var seen := Load();
      while seen.Some?
        invariant Valid() && Mine() == old(Mine()) && Calls() == old(Calls()) && Steps() == old(Steps())
        invariant OnlyOthers(machine, old(history), history)
        invariant seen.Some? ==> seen.value == machine.word(state) && |turns| < |old(turns)|
        invariant seen.None? ==> turns == []
        invariant |old(turns)| - |turns| <= 1 + Disturbed(old(turns)) - Disturbed(turns)
        invariant Disturbed(turns) <= Disturbed(old(turns))
        invariant Disturbed(old(turns)) == 0 && seen.Some? ==>
                    seen.value == old(machine.word(state)) && |turns| == |old(turns)| - 1
        decreases seen.Some?, |turns|
      {
        var value := seen.value;
        ghost var past := history;
        match decide(value) {
          case Stop(outcome) =>
            Take(e);
            return Some(outcome), value;
          case Exchange(next, outcome) =>
            var ok, current := CompareExchangeWeak(value, next, e);
            if ok {
              OthersFirst(machine, origin, old(history), past, history, e, value);
              return Some(outcome), value;
            }
            seen := current;
        }
      }
      return None, at;
    }
  }

  lemma OthersFirst<S, T, E, W>(
    m: Machine<S, T, E, W>, origin: S, before: seq<E>, middle: seq<E>, after: seq<E>, e: E, at: W)
    requires OnlyOthers(m, before, middle) && TookStep(m, origin, middle, after, e, at)
    ensures TookStep(m, origin, before, after, e, at)
  {
    OthersCompose(m, before, middle, after[..|after| - 1]);
  }

  lemma OthersCompose<S, T, E, W>(m: Machine<S, T, E, W>, before: seq<E>, middle: seq<E>, after: seq<E>)
    requires OnlyOthers(m, before, middle) && OnlyOthers(m, middle, after)
    ensures OnlyOthers(m, before, after)
  {
    forall e | e in after[|before|..]
      ensures m.foreign(e)
    {
      var i :| |before| <= i < |after| && after[i] == e;
      if i < |middle| {
        assert middle[i] == e && e in middle[|before|..];
      } else {
        assert e in after[|middle|..];
      }
    }
  }
}
