/** What a thread's exit does to its values, as a plain account of rounds: each round takes one
    value away and runs the destructor of its key, which may set values again. */
module TlsDrain {
  import opened Wrappers
  import opened TlsSlots

  /** A call by a destructor that sets another value. */
  datatype Call = Call(key: nat, value: nat, room: Option<nat>)

  /** A call that has been made, and whether it has stored its value. */
  datatype Answer = Answer(call: Call, stored: bool)

  datatype Pair = Pair(key: nat, value: nat)

  datatype Invocation = Invocation(dtor: nat, value: nat)

  /** What callers see before, what is left of the script, the pair that is popped, and the calls
      by its destructor. */
  datatype Round = Round(view: map<nat, nat>, script: seq<seq<Call>>, pop: Pair, calls: seq<Answer>)

  function CountCalls(script: seq<seq<Call>>): nat
  {
    if script == [] then 0 else |script[0]| + CountCalls(script[1..])
  }

  /** The destructors set nothing. */
  predicate Quiet(script: seq<seq<Call>>) { forall k :: 0 <= k < |script| ==> script[k] == [] }

  /** The calls by a destructor, if there is one, and the script for those after it. */
  function CallsMade(dtor: nat, script: seq<seq<Call>>): seq<Call>
  {
    if dtor == 0 || script == [] then [] else script[0]
  }

  function Later(dtor: nat, script: seq<seq<Call>>): seq<seq<Call>>
  {
    if dtor == 0 || script == [] then script else script[1..]
  }

  function MapOf(pops: seq<Pair>): map<nat, nat>
  {
    if pops == [] then map[]
    else
      var p := pops[|pops| - 1];
      MapOf(pops[..|pops| - 1])[p.key := p.value]
  }

  function OneInvocation(dtor: nat, value: nat): seq<Invocation>
  {
    if dtor == 0 then [] else [Invocation(dtor, value)]
  }

  /** The destructor calls for these values, in order; keys without destructor have none. */
  function Invocations(keys: map<nat, Key>, pops: seq<Pair>): seq<Invocation>
  {
    if pops == [] then []
    else
      var p := pops[|pops| - 1];
      Invocations(keys, pops[..|pops| - 1]) + OneInvocation(if p.key in keys then keys[p.key].dtor else 0, p.value)
  }

  // ---------------------------------------------------------------- rounds

  /** These are the answers to the calls: a deleted key takes no value, and another takes a null
      value, and any value if there is memory. */
  ghost predicate AllAnswered(keys: map<nat, Key>, calls: seq<Call>, answers: seq<Answer>)
  {
    && |answers| == |calls|
    && forall i :: 0 <= i < |calls| ==> IsAnswer(keys, calls[i], answers[i])
  }

  ghost predicate IsAnswer(keys: map<nat, Key>, call: Call, answer: Answer)
  {
    && answer.call == call && call.key in keys
    && (keys[call.key].deleted ==> !answer.stored)
    && (!keys[call.key].deleted && (call.value == 0 || call.room.Some?) ==> answer.stored)
  }

  function AfterCall(view: map<nat, nat>, a: Answer): map<nat, nat>
  {
    if a.stored then WithValue(view, a.call.key, a.call.value) else view
  }

  /** What callers see after these calls. */
  function AfterCalls(view: map<nat, nat>, answers: seq<Answer>): map<nat, nat>
  {
    if answers == [] then view
    else AfterCall(AfterCalls(view, answers[..|answers| - 1]), answers[|answers| - 1])
  }

  /** One round: a value that is there is popped, and its destructor makes its calls. */
  ghost predicate IsRound(keys: map<nat, Key>, r: Round)
  {
    && r.pop.key in r.view && r.pop.value == r.view[r.pop.key] && r.pop.key in keys
    && AllAnswered(keys, CallsMade(keys[r.pop.key].dtor, r.script), r.calls)
  }

  function AfterRound(r: Round): map<nat, nat> { AfterCalls(r.view - {r.pop.key}, r.calls) }

  /** What callers see after `n` of the rounds. */
  function ViewAt(view: map<nat, nat>, rounds: seq<Round>, n: nat): map<nat, nat>
    requires n <= |rounds|
  {
    if n == 0 then view else AfterRound(rounds[n - 1])
  }

  /** What is left of the script after `n` of the rounds. */
  function ScriptAt(keys: map<nat, Key>, script: seq<seq<Call>>, rounds: seq<Round>, n: nat): seq<seq<Call>>
    requires n <= |rounds|
  {
    if n == 0 then script
    else
      var r := rounds[n - 1];
      Later(if r.pop.key in keys then keys[r.pop.key].dtor else 0, r.script)
  }

  /** The i-th round goes on from where the one before has come to. */
  ghost predicate Follows(
    view: map<nat, nat>, keys: map<nat, Key>, script: seq<seq<Call>>, rounds: seq<Round>, i: nat)
    requires i < |rounds|
  {
    && IsRound(keys, rounds[i])
    && rounds[i].view == ViewAt(view, rounds, i)
    && rounds[i].script == ScriptAt(keys, script, rounds, i)
  }

  ghost predicate AreRounds(view: map<nat, nat>, keys: map<nat, Key>, script: seq<seq<Call>>, rounds: seq<Round>)
  {
    forall i :: 0 <= i < |rounds| ==> Follows(view, keys, script, rounds, i)
  }

  function PopsOf(rounds: seq<Round>): (pops: seq<Pair>)
    ensures |pops| == |rounds|
  {
    seq(|rounds|, i requires 0 <= i < |rounds| => rounds[i].pop)
  }

  lemma RoundsOneMore(
    view: map<nat, nat>, keys: map<nat, Key>, script: seq<seq<Call>>, rounds: seq<Round>, r: Round)
    requires AreRounds(view, keys, script, rounds) && IsRound(keys, r)
    requires r.view == ViewAt(view, rounds, |rounds|) && r.script == ScriptAt(keys, script, rounds, |rounds|)
    ensures AreRounds(view, keys, script, rounds + [r])
    ensures PopsOf(rounds + [r]) == PopsOf(rounds) + [r.pop]
    ensures Invocations(keys, PopsOf(rounds + [r])) ==
            Invocations(keys, PopsOf(rounds)) + OneInvocation(keys[r.pop.key].dtor, r.pop.value)
  {
    var more := rounds + [r];
    forall i | 0 <= i < |more|
      ensures Follows(view, keys, script, more, i)
    {
      assert i < |rounds| ==> Follows(view, keys, script, rounds, i);
    }
    assert PopsOf(more) == PopsOf(rounds) + [r.pop];
    assert PopsOf(more)[..|rounds|] == PopsOf(rounds);
  }

  /** The flags of the keys are all that a round looks at. */
  lemma RoundUnderFlags(before: map<nat, Key>, keys: map<nat, Key>, r: Round)
    requires SameFlags(before, keys) && IsRound(keys, r)
    ensures IsRound(before, r)
  {
  }

  lemma OneMoreAnswer(
    keys: map<nat, Key>, calls: seq<Call>, answers: seq<Answer>, n: nat, a: Answer, view: map<nat, nat>)
    requires n < |calls| && AllAnswered(keys, calls[..n], answers) && IsAnswer(keys, calls[n], a)
    ensures AllAnswered(keys, calls[..n + 1], answers + [a])
    ensures AfterCalls(view, answers + [a]) == AfterCall(AfterCalls(view, answers), a)
  {
    assert (answers + [a])[..n] == answers;
    forall i | 0 <= i <= n
      ensures IsAnswer(keys, calls[..n + 1][i], (answers + [a])[i])
    {
      assert i < n ==> IsAnswer(keys, calls[..n][i], answers[i]);
    }
  }

  lemma SizeWithValue(view: map<nat, nat>, key: nat, value: nat)
    ensures |WithValue(view, key, value)| <= |view| + 1
  {
    if value == 0 {
      assert (view - {key}).Keys == view.Keys - {key};
    } else {
      assert view[key := value].Keys == view.Keys + {key};
    }
  }

  lemma OneLess(left: map<nat, nat>, key: nat)
    requires key in left
    ensures |left - {key}| == |left| - 1
  {
    assert (left - {key}).Keys == left.Keys - {key};
  }

  // ---------------------------------------------------------------- nothing is lost

  /** Some of the calls, from the `from`-th on, sets this key. */
  ghost predicate Overwrites(answers: seq<Answer>, from: nat, key: nat)
  {
    exists i :: from <= i < |answers| && answers[i].stored && answers[i].call.key == key
  }

  lemma {:induction false} OtherKeysStay(view: map<nat, nat>, answers: seq<Answer>, from: nat, key: nat)
    requires from <= |answers| && !Overwrites(answers, from, key)
    ensures Lookup(AfterCalls(view, answers), key) == Lookup(AfterCalls(view, answers[..from]), key)
    ensures key in AfterCalls(view, answers) <==> key in AfterCalls(view, answers[..from])
  {
    if from == |answers| {
      assert answers[..from] == answers;
    } else {
      var init := answers[..|answers| - 1];
      assert init[..from] == answers[..from];
      assert forall i :: from <= i < |init| ==> init[i] == answers[i];
      OtherKeysStay(view, init, from, key);
      assert answers[|answers| - 1].stored ==> answers[|answers| - 1].call.key != key;
    }
  }

  /** A value that a call has stored is seen after the calls, unless a later one overwrites it. */
  lemma StoredIsSeen(view: map<nat, nat>, answers: seq<Answer>, i: nat)
    requires i < |answers| && answers[i].stored && answers[i].call.value != 0
    requires !Overwrites(answers, i + 1, answers[i].call.key)
    ensures var after := AfterCalls(view, answers);
            answers[i].call.key in after && after[answers[i].call.key] == answers[i].call.value
  {
    OtherKeysStay(view, answers, i + 1, answers[i].call.key);
    assert answers[..i + 1][..i] == answers[..i];
  }

  /** In the round `m` the value is popped, or a call overwrites the value of the key. */
  ghost predicate Delivered(rounds: seq<Round>, m: nat, key: nat, value: nat)
    requires m < |rounds|
  {
    rounds[m].pop == Pair(key, value) || (rounds[m].pop.key != key && Overwrites(rounds[m].calls, 0, key))
  }

  /** The round neither pops the key nor sets it. */
  ghost predicate Passes(r: Round, key: nat)
  {
    r.pop.key != key && !Overwrites(r.calls, 0, key)
  }

  /** The rounds went on until nothing was left. */
  ghost predicate Complete(view: map<nat, nat>, keys: map<nat, Key>, script: seq<seq<Call>>, rounds: seq<Round>)
  {
    AreRounds(view, keys, script, rounds) && ViewAt(view, rounds, |rounds|) == map[]
  }

  /** No value is lost: one that is there after `n` rounds is popped, or a call overwrites it, in
      the first of the later rounds that has to do with its key. */
  lemma {:induction false} NothingIsLost(
    view: map<nat, nat>, keys: map<nat, Key>, script: seq<seq<Call>>, rounds: seq<Round>, n: nat, key: nat)
    returns (m: nat)
    requires Complete(view, keys, script, rounds)
    requires n <= |rounds| && key in ViewAt(view, rounds, n)
    ensures n <= m < |rounds| && Delivered(rounds, m, key, ViewAt(view, rounds, n)[key])
    ensures forall k :: n <= k < m ==> Passes(rounds[k], key)
    decreases |rounds| - n
  {
    var r := rounds[n];
    assert Follows(view, keys, script, rounds, n);
    if r.pop.key == key || Overwrites(r.calls, 0, key) {
      m := n;
    } else {
      assert r.calls[..0] == [];
      OtherKeysStay(r.view - {r.pop.key}, r.calls, 0, key);
      m := NothingIsLost(view, keys, script, rounds, n + 1, key);
    }
  }

  /** A value that the i-th call in round `n` stores is overwritten by a later call in the same
      round, or is popped or overwritten in a later one. */
  lemma StoredIsDelivered(
    view: map<nat, nat>, keys: map<nat, Key>, script: seq<seq<Call>>, rounds: seq<Round>, n: nat, i: nat)
    returns (m: nat)
    requires Complete(view, keys, script, rounds)
    requires n < |rounds| && i < |rounds[n].calls|
    requires rounds[n].calls[i].stored && rounds[n].calls[i].call.value != 0
    ensures var call := rounds[n].calls[i].call;
            || Overwrites(rounds[n].calls, i + 1, call.key)
            || (n < m < |rounds| && Delivered(rounds, m, call.key, call.value)
                && forall k :: n < k < m ==> Passes(rounds[k], call.key))
  {
    var call := rounds[n].calls[i].call;
    m := n;
    if !Overwrites(rounds[n].calls, i + 1, call.key) {
      StoredIsSeen(rounds[n].view - {rounds[n].pop.key}, rounds[n].calls, i);
      m := NothingIsLost(view, keys, script, rounds, n + 1, call.key);
    }
  }

  /** Some call in the script is about this key. */
  ghost predicate Mentions(script: seq<seq<Call>>, key: nat)
  {
    exists k, i :: 0 <= k < |script| && 0 <= i < |script[k]| && script[k][i].key == key
  }

  /** What a round has of the script is the end of it. */
  lemma {:induction false} ScriptIsSuffix(
    view: map<nat, nat>, keys: map<nat, Key>, script: seq<seq<Call>>, rounds: seq<Round>, n: nat) returns (k: nat)
    requires AreRounds(view, keys, script, rounds) && n <= |rounds|
    ensures k <= |script| && ScriptAt(keys, script, rounds, n) == script[k..]
  {
    k := 0;
    if n > 0 {
      k := ScriptIsSuffix(view, keys, script, rounds, n - 1);
      var r := rounds[n - 1];
      assert Follows(view, keys, script, rounds, n - 1);
      if Later(keys[r.pop.key].dtor, r.script) != r.script {
        assert script[k..][1..] == script[k + 1..];
        k := k + 1;
      }
    }
  }

  /** A value whose key no destructor sets is popped. */
  lemma UntouchedIsPopped(
    view: map<nat, nat>, keys: map<nat, Key>, script: seq<seq<Call>>, rounds: seq<Round>, key: nat)
    requires Complete(view, keys, script, rounds) && key in view && !Mentions(script, key)
    ensures Pair(key, view[key]) in PopsOf(rounds)
  {
    var m := NothingIsLost(view, keys, script, rounds, 0, key);
    var r := rounds[m];
    if Overwrites(r.calls, 0, key) {
      SetsOnlyMentioned(view, keys, script, rounds, m, key);
    }
    assert PopsOf(rounds)[m] == r.pop;
  }

  lemma SetsOnlyMentioned(
    view: map<nat, nat>, keys: map<nat, Key>, script: seq<seq<Call>>, rounds: seq<Round>, n: nat, key: nat)
    requires AreRounds(view, keys, script, rounds) && n < |rounds| && Overwrites(rounds[n].calls, 0, key)
    ensures Mentions(script, key)
  {
    var r := rounds[n];
    var i :| 0 <= i < |r.calls| && r.calls[i].stored && r.calls[i].call.key == key;
    var k := ScriptIsSuffix(view, keys, script, rounds, n);
    assert Follows(view, keys, script, rounds, n);
    assert IsAnswer(keys, CallsMade(keys[r.pop.key].dtor, r.script)[i], r.calls[i]);
    assert script[k][i].key == key;
  }

  // ---------------------------------------------------------------- quiet destructors

  /** What has been popped and what is still there make up what there was at first. */
  ghost predicate Shared(pops: seq<Pair>, left: map<nat, nat>, total: map<nat, nat>)
  {
    && |pops| + |left| == |total|
    && MapOf(pops) == total - left.Keys
    && (forall k :: k in left ==> k in total && left[k] == total[k])
  }

  /** Popping moves a pair from the one to the other. */
  lemma SharedAfterPop(pops: seq<Pair>, left: map<nat, nat>, total: map<nat, nat>)
    requires pops != [] && Shared(pops[..|pops| - 1], left, total)
    requires var p := pops[|pops| - 1];
             p.key in left && left[p.key] == p.value
    ensures Shared(pops, left - {pops[|pops| - 1].key}, total)
  {
    OneLess(left, pops[|pops| - 1].key);
  }

  lemma QuietRound(view: map<nat, nat>, keys: map<nat, Key>, script: seq<seq<Call>>, rounds: seq<Round>, n: nat)
    requires AreRounds(view, keys, script, rounds) && Quiet(script) && n < |rounds|
    ensures var r := rounds[n];
            && r.view == ViewAt(view, rounds, n) && r.pop.key in r.view && r.pop.value == r.view[r.pop.key]
            && AfterRound(r) == r.view - {r.pop.key}
  {
    var k := ScriptIsSuffix(view, keys, script, rounds, n);
    assert Follows(view, keys, script, rounds, n);
  }

  lemma SharedAtFirst(view: map<nat, nat>)
    ensures Shared([], view, view)
  {
    assert view - view.Keys == map[];
  }

  lemma {:induction false} QuietRounds(
    view: map<nat, nat>, keys: map<nat, Key>, script: seq<seq<Call>>, rounds: seq<Round>, n: nat, pops: seq<Pair>)
    requires AreRounds(view, keys, script, rounds) && Quiet(script) && n <= |rounds|
    requires |pops| == n && forall i :: 0 <= i < n ==> pops[i] == rounds[i].pop
    ensures Shared(pops, ViewAt(view, rounds, n), view)
  {
    if n == 0 {
      SharedAtFirst(view);
    } else {
      QuietRounds(view, keys, script, rounds, n - 1, pops[..n - 1]);
      QuietRound(view, keys, script, rounds, n - 1);
      SharedAfterPop(pops, rounds[n - 1].view, view);
    }
  }

  /** If no destructor sets anything, what is popped is what there was at first, each key once. */
  lemma QuietDrain(view: map<nat, nat>, keys: map<nat, Key>, script: seq<seq<Call>>, rounds: seq<Round>)
    requires Complete(view, keys, script, rounds) && Quiet(script)
    ensures MapOf(PopsOf(rounds)) == view && |rounds| == |view|
  {
    QuietRounds(view, keys, script, rounds, |rounds|, PopsOf(rounds));
  }
}
