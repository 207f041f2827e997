/** Timeouts: conversion of a millisecond argument into the 100-nanosecond value that the
    kernel takes, and its adjustment each time a waiter is woken and has to wait again.

    A kernel timeout is a signed 64-bit number: positive is an absolute time point,
    negative is a relative duration, zero means "do not wait". */
module Timeouts {
  import opened Wrappers

  const TWO_63 := 0x8000_0000_0000_0000
  const TWO_64 := 0x1_0000_0000_0000_0000
  const INT64_MAX := 0x7FFF_FFFF_FFFF_FFFF
  const NT_EPOCH_OFFSET_MS := 11644473600000
  const MAX_ABSOLUTE_MS := 910692730085477
  const MAX_RELATIVE_MS := 922337203685477

  predicate IsInt64(x: int) { -TWO_63 <= x < TWO_63 }

  predicate IsUint64(x: int) { 0 <= x < TWO_64 }

  /** Reinterprets the low 64 bits of `x` as a signed number. */
  function Wrap64(x: int): int
  {
    var low := x % TWO_64;
    if low < TWO_63 then low else low - TWO_64
  }

  /** The exact kernel value of a millisecond argument, on unbounded integers. */
  function Exact(ms: int): int
  {
    if ms > 0 then (ms + NT_EPOCH_OFFSET_MS) * 10000 else ms * 10000
  }

  /** What a caller asks for: the exact value, or an infinite wait when there is no
      argument or when the exact value does not fit in 64 bits. */
  function Converted(msOpt: Option<int>): int
  {
    if msOpt.Some? && IsInt64(Exact(msOpt.value)) then Exact(msOpt.value) else INT64_MAX
  }

  /** A relative timeout shrinks by the time that has passed and stops at zero. */
  function Adjusted(quad: int, elapsed: nat): int
  {
    if quad >= 0 then quad else if quad + elapsed < 0 then quad + elapsed else 0
  }

  class WinntTimeout {
    var quad: int    // the kernel value, `li.QuadPart`
    var since: int   // interrupt time of the last reading, for relative timeouts

    predicate Valid() reads this { IsInt64(quad) && IsUint64(since) }

    constructor ()
      ensures Valid() && quad == 0 && since == 0
    {
      quad, since := 0, 0;
    }

    /** `now` is what the interrupt clock reads, should it be read. */
    method Initialize(msOpt: Option<int>, now: int)
      requires msOpt.Some? ==> IsInt64(msOpt.value)
      requires IsUint64(now)
      modifies this
      ensures Valid()
      ensures quad == Converted(msOpt)
      ensures since == if quad < 0 then now else 0
    {
      quad := INT64_MAX;
      since := 0;
      if msOpt.None? {
        return;
      }
      var ms := msOpt.value;
      if ms > 0 {
        if ms > MAX_ABSOLUTE_MS {
          return;
        }
        quad := Wrap64(Wrap64(NT_EPOCH_OFFSET_MS + ms) * 10000);
        assert quad > 0;
      } else if ms < 0 {
        if ms < -MAX_RELATIVE_MS {
          return;
        }
        quad := Wrap64(ms * 10000);
        assert quad < 0;
        since := now;
      } else {
        quad := 0;
      }
    }

    /** `elapsed` is how far the clock has moved on, modulo 2^64.  The result is the adjusted
        timeout if and only if the sum stays below 2^63, as it does unless the clock moves on by
        2^63 ticks at once; otherwise the timeout comes out longer than it was. */
    method Adjust(now: int)
      requires Valid() && IsUint64(now)
      modifies this
      ensures Valid()
      ensures since == if old(quad) < 0 then now else old(since)
      ensures old(quad) >= 0 ==> quad == old(quad)
      ensures var elapsed := (now - old(since)) % TWO_64;
              old(quad) < 0 ==>
                && (quad == Adjusted(old(quad), elapsed) <==> old(quad) + elapsed < TWO_63)
                && (old(quad) + elapsed >= TWO_63 ==> quad == old(quad) + elapsed - TWO_64 < old(quad))
      ensures old(since) <= now < TWO_63 ==> quad == Adjusted(old(quad), now - old(since))
    {
      if quad >= 0 {
        return;
      }
      var oldSince := since;
      since := now;
      var elapsed := Wrap64((since - oldSince) % TWO_64);
      quad := Wrap64(quad + elapsed);
      quad := if quad < 0 then quad else 0;   // q & (q >> 63)
    }
  }

  /** Saturation happens exactly at the two thresholds that the code tests. */
  lemma SaturationThresholds(ms: int)
    ensures IsInt64(Exact(ms)) <==> -MAX_RELATIVE_MS <= ms <= MAX_ABSOLUTE_MS
  {
  }

  /** The conversion keeps the sign class of its argument. */
  lemma ConversionKeepsClass(msOpt: Option<int>)
    ensures IsInt64(Converted(msOpt))
    ensures Converted(msOpt) == 0 <==> msOpt == Some(0)
    ensures Converted(msOpt) < 0 <==> msOpt.Some? && -MAX_RELATIVE_MS <= msOpt.value < 0
    ensures 0 < Converted(msOpt) < INT64_MAX <==> msOpt.Some? && 0 < msOpt.value <= MAX_ABSOLUTE_MS
  {
  }

  /** Later deadlines and longer waits never convert to earlier or shorter ones. */
  lemma ConversionIsMonotone(a: int, b: int)
    requires 0 < a <= b || b <= a < 0
    ensures 0 < a ==> Converted(Some(a)) <= Converted(Some(b))
    ensures a < 0 && Converted(Some(b)) < 0 ==> Converted(Some(b)) <= Converted(Some(a)) < 0
  {
  }

  /** Adjusting twice is adjusting by the sum. */
  lemma AdjustedAgain(quad: int, a: nat, b: nat)
    ensures Adjusted(Adjusted(quad, a), b) == Adjusted(quad, a + b)
    ensures Adjusted(quad, 0) == quad
  {
  }

  /** A call that has slept `used` and then sleeps `elapsed` more. */
  lemma SleptOn(initial: int, used: nat, quad: int, elapsed: nat)
    requires quad == Adjusted(initial, used)
    ensures Adjusted(quad, elapsed) == Adjusted(initial, used + elapsed)
  {
  }

  /** No time is left at first only for a timeout of zero, and later only if the waits have used
      a relative one up. */
  lemma WhenNoTimeIsLeft(msOpt: Option<int>, elapsed: nat)
    ensures Adjusted(Converted(msOpt), elapsed) == 0 <==>
            || msOpt == Some(0)
            || (msOpt.Some? && -MAX_RELATIVE_MS <= msOpt.value < 0 && elapsed >= -msOpt.value * 10000)
  {
  }

  /** The clock readings at successive wake-ups, on a clock that never runs backwards. */
  predicate Readings(since: int, nows: seq<int>)
    decreases |nows|
  {
    nows == [] || (since <= nows[0] && Readings(nows[0], nows[1..]))
  }

  /** The timeout that is left after adjusting at every reading in turn. */
  function AdjustedAt(quad: int, since: int, nows: seq<int>): int
    requires Readings(since, nows)
    decreases |nows|
  {
    if nows == [] then quad
    else if quad >= 0 then AdjustedAt(quad, nows[0], nows[1..])
    else AdjustedAt(Adjusted(quad, nows[0] - since), nows[0], nows[1..])
  }

  /** However often a waiter is woken, a relative timeout is the original one plus all the
      time that has passed, clipped at zero: it never turns positive, which would read as
      a time point, and once zero it stays zero.  Other timeouts never move. */
  lemma {:induction false} AdjustmentsAddUp(quad: int, since: int, nows: seq<int>)
    requires Readings(since, nows)
    ensures AdjustedAt(quad, since, nows) ==
            if quad >= 0 || nows == [] then quad
            else
              var left := quad + (nows[|nows| - 1] - since);
              if left < 0 then left else 0
    decreases |nows|
  {
    if nows != [] {
      var q := if quad >= 0 then quad else Adjusted(quad, nows[0] - since);
      AdjustmentsAddUp(q, nows[0], nows[1..]);
      LastReadingIsLatest(nows[0], nows[1..]);
    }
  }

  lemma {:induction false} LastReadingIsLatest(since: int, nows: seq<int>)
    requires Readings(since, nows)
    ensures nows != [] ==> since <= nows[|nows| - 1]
    decreases |nows|
  {
    if nows != [] {
      LastReadingIsLatest(nows[0], nows[1..]);
    }
  }
}
