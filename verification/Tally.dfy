/** Sums over the threads of a system.

    Every lock is modelled as a word plus a sequence of threads, and every accounting
    property is a linear equation between fields of the word and sums of a per-thread
    weight.  The lemmas below say how such a sum moves when one thread takes a step. */
module Tally {

  function Total<T>(s: seq<T>, f: T -> int): int
  {
    if s == [] then 0 else Total(s[..|s| - 1], f) + f(s[|s| - 1])
  }

  lemma {:induction false} TotalUpdate<T>(s: seq<T>, f: T -> int, i: nat, x: T)
    requires i < |s|
    ensures Total(s[i := x], f) == Total(s, f) - f(s[i]) + f(x)
  {
    var n := |s| - 1;
    if i == n {
      assert s[i := x][..n] == s[..n];
    } else {
      TotalUpdate(s[..n], f, i, x);
      assert s[i := x][..n] == s[..n][i := x];
    }
  }

  lemma {:induction false} TotalNonNegative<T>(s: seq<T>, f: T -> int)
    requires forall x :: x in s ==> f(x) >= 0
    ensures Total(s, f) >= 0
  {
    if s != [] {
      TotalNonNegative(s[..|s| - 1], f);
    }
  }

  /** No single weight exceeds the sum. */
  lemma TotalAtLeast<T>(s: seq<T>, f: T -> int, i: nat)
    requires i < |s|
    requires forall x :: x in s ==> f(x) >= 0
    ensures Total(s, f) >= f(s[i]) >= 0
  {
    TotalAtLeastTwo(s, f, i, i);
  }

  /** Two different threads contribute separately. */
  lemma {:induction false} TotalAtLeastTwo<T>(s: seq<T>, f: T -> int, i: nat, j: nat)
    requires i < |s| && j < |s|
    requires forall x :: x in s ==> f(x) >= 0
    ensures Total(s, f) >= f(s[i]) + (if i == j then 0 else f(s[j]))
  {
    var n := |s| - 1;
    if i < n && j < n {
      TotalAtLeastTwo(s[..n], f, i, j);
    } else if i < n {
      TotalAtLeastTwo(s[..n], f, i, i);
    } else if j < n {
      TotalAtLeastTwo(s[..n], f, j, j);
    } else {
      TotalNonNegative(s[..n], f);
    }
  }

  /** Weights of at most one add up to at most the number of threads. */
  lemma {:induction false} TotalAtMostLength<T>(s: seq<T>, f: T -> int)
    requires forall x :: x in s ==> f(x) <= 1
    ensures Total(s, f) <= |s|
  {
    if s != [] {
      TotalAtMostLength(s[..|s| - 1], f);
    }
  }

  /** A positive sum has a positive member. */
  lemma {:induction false} TotalWitness<T>(s: seq<T>, f: T -> int) returns (i: nat)
    requires Total(s, f) > 0
    ensures i < |s| && f(s[i]) > 0
  {
    var n := |s| - 1;
    if f(s[n]) > 0 {
      i := n;
    } else {
      i := TotalWitness(s[..n], f);
    }
  }

  /** If every member weighs nothing, so does the whole. */
  lemma {:induction false} TotalZero<T>(s: seq<T>, f: T -> int)
    requires forall x :: x in s ==> f(x) == 0
    ensures Total(s, f) == 0
  {
    if s != [] {
      TotalZero(s[..|s| - 1], f);
    }
  }

  /** A count below its modulus does not wrap. */
  lemma SmallRemainder(x: nat, m: nat)
    requires x < m
    ensures x % m == x
  {
  }
}
