/** Destructor queues as plain sequences, oldest entry first: what popping and removing mean. */
module DtorSpec {

  /** A registered callback.  Zero is the null pointer. */
  datatype Element = Element(dtor: nat, self: nat, dso: nat)

  /** A null handle matches every entry. */
  predicate Matches(e: Element, dso: nat) { dso == 0 || e.dso == dso }

  /** Index of the newest matching entry, or -1. */
  function NewestMatch(q: seq<Element>, dso: nat): (i: int)
    ensures -1 <= i < |q|
    ensures i >= 0 ==> Matches(q[i], dso)
    ensures forall j :: i < j < |q| ==> !Matches(q[j], dso)
  {
    if q == [] then -1
    else if Matches(q[|q| - 1], dso) then |q| - 1
    else NewestMatch(q[..|q| - 1], dso)
  }

  function Without(q: seq<Element>, i: nat): seq<Element>
    requires i < |q|
  {
    q[..i] + q[i + 1..]
  }

  /** The entries that do not match, in order. */
  function Keep(q: seq<Element>, dso: nat): (k: seq<Element>)
    ensures |k| <= |q|
  {
    if q == [] then []
    else
      var init := Keep(q[..|q| - 1], dso);
      if Matches(q[|q| - 1], dso) then init else init + [q[|q| - 1]]
  }

  /** The entries that match, newest first. */
  function Matching(q: seq<Element>, dso: nat): seq<Element>
  {
    if q == [] then []
    else
      var older := Matching(q[..|q| - 1], dso);
      if Matches(q[|q| - 1], dso) then [q[|q| - 1]] + older else older
  }

  /** An entry is kept exactly when it is in the queue and does not match; likewise for the
      matching ones. */
  lemma {:induction false} KeepAndMatchingMembers(q: seq<Element>, dso: nat, e: Element)
    ensures e in Keep(q, dso) <==> e in q && dso != 0 && e.dso != dso
    ensures e in Matching(q, dso) <==> e in q && (dso == 0 || e.dso == dso)
  {
    if q != [] {
      KeepAndMatchingMembers(q[..|q| - 1], dso, e);
      assert q == q[..|q| - 1] + [q[|q| - 1]];
    }
  }

  lemma {:induction false} NewestMatchOfConcat(a: seq<Element>, b: seq<Element>, dso: nat)
    ensures NewestMatch(a + b, dso) ==
            if NewestMatch(b, dso) >= 0 then |a| + NewestMatch(b, dso) else NewestMatch(a, dso)
  {
    if b == [] {
      assert a + b == a;
    } else {
      assert (a + b)[..|a + b| - 1] == a + b[..|b| - 1];
      NewestMatchOfConcat(a, b[..|b| - 1], dso);
    }
  }

  lemma {:induction false} KeepOfConcat(a: seq<Element>, b: seq<Element>, dso: nat)
    ensures Keep(a + b, dso) == Keep(a, dso) + Keep(b, dso)
  {
    if b == [] {
      assert a + b == a;
    } else {
      assert (a + b)[..|a + b| - 1] == a + b[..|b| - 1];
      KeepOfConcat(a, b[..|b| - 1], dso);
    }
  }

  lemma {:induction false} MatchingOfConcat(a: seq<Element>, b: seq<Element>, dso: nat)
    ensures Matching(a + b, dso) == Matching(b, dso) + Matching(a, dso)
  {
    if b == [] {
      assert a + b == a;
    } else {
      assert (a + b)[..|a + b| - 1] == a + b[..|b| - 1];
      MatchingOfConcat(a, b[..|b| - 1], dso);
    }
  }

  /** Without a match, everything is kept. */
  lemma {:induction false} NothingMatches(q: seq<Element>, dso: nat)
    requires NewestMatch(q, dso) < 0
    ensures Keep(q, dso) == q && Matching(q, dso) == []
  {
    if q != [] {
      NothingMatches(q[..|q| - 1], dso);
      assert q == q[..|q| - 1] + [q[|q| - 1]];
    }
  }

  /** An entry that does not match changes neither what matches nor where. */
  lemma NonmatchingLast(q: seq<Element>, e: Element, dso: nat)
    requires !Matches(e, dso)
    ensures NewestMatch(q + [e], dso) == NewestMatch(q, dso)
    ensures Matching(q + [e], dso) == Matching(q, dso)
    ensures Keep(q + [e], dso) == Keep(q, dso) + [e]
  {
    assert (q + [e])[..|q|] == q;
  }

  lemma WithoutEarlier(q: seq<Element>, e: Element, i: nat)
    requires i < |q|
    ensures Without(q + [e], i) == Without(q, i) + [e]
  {
  }

  /** Taking the newest match takes the first of the matching entries and keeps the rest. */
  lemma {:induction false} TakingTheNewest(q: seq<Element>, dso: nat)
    requires NewestMatch(q, dso) >= 0
    ensures var i := NewestMatch(q, dso);
            && Matching(q, dso) == [q[i]] + Matching(Without(q, i), dso)
            && Keep(Without(q, i), dso) == Keep(q, dso)
  {
    var n, i := |q| - 1, NewestMatch(q, dso);
    var init, last := q[..n], q[n];
    assert q == init + [last];
    if i == n {
      assert Without(q, i) == init;
    } else {
      TakingTheNewest(init, dso);
      NonmatchingLast(init, last, dso);
      WithoutEarlier(init, last, i);
      NonmatchingLast(Without(init, i), last, dso);
    }
  }

  /** Nothing is lost or made up: kept and matching entries together are the queue. */
  lemma {:induction false} KeepAndMatchingSplit(q: seq<Element>, dso: nat)
    ensures multiset(Keep(q, dso)) + multiset(Matching(q, dso)) == multiset(q)
    ensures |Keep(q, dso)| + |Matching(q, dso)| == |q|
  {
    if q != [] {
      KeepAndMatchingSplit(q[..|q| - 1], dso);
      assert q == q[..|q| - 1] + [q[|q| - 1]];
    }
  }

  /** Popping undoes the last push whose handle matches. */
  lemma PopUndoesPush(q: seq<Element>, e: Element, dso: nat)
    requires Matches(e, dso)
    ensures NewestMatch(q + [e], dso) == |q|
    ensures Without(q + [e], |q|) == q
  {
  }

  /** The newest match of a queue whose newest part has none lies in the middle part. */
  lemma NewestMatchInMiddle(
    q: seq<Element>, less: seq<Element>, older: seq<Element>, part: seq<Element>, newer: seq<Element>, dso: nat)
    requires NewestMatch(newer, dso) < 0 && NewestMatch(part, dso) >= 0
    requires q == older + part + newer && less == older + Without(part, NewestMatch(part, dso)) + newer
    ensures var i := NewestMatch(part, dso);
            && NewestMatch(q, dso) == |older| + i
            && q[|older| + i] == part[i]
            && Without(q, |older| + i) == less
  {
    NewestMatchOfConcat(older + part, newer, dso);
    NewestMatchOfConcat(older, part, dso);
    WithoutInMiddle(older, part, newer, NewestMatch(part, dso));
  }

  lemma WithoutInMiddle(older: seq<Element>, part: seq<Element>, newer: seq<Element>, i: nat)
    requires i < |part|
    ensures (older + part + newer)[|older| + i] == part[i]
    ensures Without(older + part + newer, |older| + i) == older + Without(part, i) + newer
  {
  }

  /** A null handle matches everything. */
  lemma {:induction false} KeepsNothing(q: seq<Element>)
    ensures Keep(q, 0) == []
  {
    if q != [] {
      KeepsNothing(q[..|q| - 1]);
    }
  }
}
