/** The shared mutex word: its two fields, the decisions of its retry loops, and the raw-bit
    forms of those decisions. */
module SharedMutexWord {
  import opened Wrappers
  import opened AtomicWord
  import opened Bits

  const MAX_SHARE := 16382
  const EXCLUSIVE := 0x3FFF

  datatype Word = Word(nshare: nat, nsleep: nat)

  datatype LockResult = Granted | Refused | GoToSleep

  function LockDecision(w: Word, shared: bool, quad: int, cap: nat): Decision<Word, LockResult>
    requires cap > 0
  {
    if shared && w.nshare < MAX_SHARE && w.nsleep == 0 then
      Exchange(w.(nshare := w.nshare + 1), Granted)
    else if !shared && w.nshare == 0 then
      Exchange(w.(nshare := EXCLUSIVE), Granted)
    else if quad == 0 then
      Stop(Refused)
    else
      Exchange(w.(nsleep := (w.nsleep + 1) % cap), GoToSleep)
  }

  function LeaveDecision(w: Word, cap: nat): Decision<Word, Option<int>>
    requires cap > 0
  {
    if w.nsleep == 0 then Stop(None)
    else Exchange(w.(nsleep := (w.nsleep - 1) % cap), Some(-1))
  }

  /** The last reader and the writer wake everybody; other readers wake nobody. */
  function UnlockDecision(w: Word): Decision<Word, nat>
  {
    var share := if w.nshare == EXCLUSIVE || w.nshare == 0 then 0 else w.nshare - 1;
    var wake := if share == 0 then w.nsleep else 0;
    Exchange(Word(share, w.nsleep - wake), wake)
  }

  // ---------------------------------------------------------------- what the decisions do

  /** What a caller wants can be had at once: a share as long as there are few readers and nobody
      sleeps, the exclusive ownership as long as there is no owner. */
  predicate Grantable(w: Word, shared: bool)
  {
    if shared then w.nshare < 16382 && w.nsleep == 0 else w.nshare == 0
  }

  /** The first loop, exactly: what can be had is granted; the rest is refused if and only if no
      time is left, and otherwise the thread becomes a sleeper. */
  predicate LockOutcome(w: Word, next: Word, shared: bool, quad: int, cap: nat, r: LockResult)
    requires cap > 0
  {
    if Grantable(w, shared) then r == Granted && next == Word(if shared then w.nshare + 1 else 0x3FFF, w.nsleep)
    else if quad == 0 then r == Refused && next == w
    else r == GoToSleep && next == Word(w.nshare, (w.nsleep + 1) % cap)
  }

  lemma LockChoices(w: Word, shared: bool, quad: int, cap: nat)
    requires cap > 0
    ensures var d := LockDecision(w, shared, quad, cap);
            LockOutcome(w, Outcome(w, d), shared, quad, cap, d.result) && (d.Stop? <==> d.result.Refused?)
  {
  }

  /** One sleeper less. */
  predicate LeavesCount(w: Word, next: Word, cap: nat)
    requires cap > 0
  {
    w.nsleep > 0 && next == Word(w.nshare, (w.nsleep - 1) % cap)
  }

  /** Unlocking, exactly: a writer or the last reader leaves a free mutex without sleepers, who
      are all to be released; another reader takes one off the count. */
  lemma UnlockChoices(w: Word)
    requires 0 < w.nshare <= 0x3FFF
    ensures var d := UnlockDecision(w);
            && d.Exchange?
            && (w.nshare == 0x3FFF || w.nshare == 1 ==> d.next == Word(0, 0) && d.result == w.nsleep)
            && (1 < w.nshare < 0x3FFF ==> d.next == Word(w.nshare - 1, w.nsleep) && d.result == 0)
  {
  }

  // ---------------------------------------------------------------- raw bits, 64-bit layout

  const CAP64: nat := 0x4_0000_0000_0000   // 2^50

  function Share(bits: bv64): (share: bv64)
    ensures share <= 0x3FFF
  {
    bits & 0x3FFF
  }

  function Sleep(bits: bv64): bv64 { bits >> 14 }

  function Fields(bits: bv64): Word { Word(Number(Share(bits)), Sleep(bits) as nat) }

  /** `(nshare - 1) & ((uint32(nshare) - 0x3FFF) >> 14)`. */
  function ShareAfterUnlock(share: bv64): bv64
  {
    (share - 1) & (((share - 0x3FFF) & 0xFFFF_FFFF) >> 14)
  }

  /** The number of threads to wake, and the word with `left` readers and the others asleep. */
  function WakeBits(left: bv64, sleep: bv64): bv64 { sleep & ((left - 1) >> 14) }

  function PackBits(left: bv64, sleep: bv64): bv64
  {
    (left & 0x3FFF) | ((sleep & (0xFFFF_FFFF_FFFF_FFFF >> 14)) << 14)
  }

  /** The slow unlock, bit by bit as the source computes it from the two fields. */
  function UnlockSlowBits(share: bv64, sleep: bv64): (bv64, bv64)
  {
    var left := ShareAfterUnlock(share);
    var wake := WakeBits(left, sleep);
    (PackBits(left, sleep - wake), wake)
  }

  function UnlockFastGuard(bits: bv64): bool { bits <= 0x3FFF }

  function UnlockFastBits(bits: bv64): bv64
  {
    (bits - 1) & ((((bits & 0xFFFF_FFFF) - 0x3FFF) & 0xFFFF_FFFF) >> 14)
  }

  function LockSharedFastGuard(bits: bv64): bool { bits < 16382 }

  function LockExclusiveFastGuard(bits: bv64): bool { bits & 0x3FFF == 0 }

  /** The masked decrement subtracts one from a reader count and clears a writer mark. */
  lemma MaskedDecrement(share: bv64)
    requires 0 < share <= 0x3FFF
    ensures ShareAfterUnlock(share) == if share == 0x3FFF then 0 else share - 1
  {
  }

  /** The last one out wakes the whole sleeping count; any other reader wakes nobody. */
  lemma MaskedWake(left: bv64, sleep: bv64)
    requires left <= 0x3FFF && sleep <= 0x3_FFFF_FFFF_FFFF
    ensures WakeBits(left, sleep) == if left == 0 then sleep else 0
  {
    if left == 0 {
      assert (left - 1) >> 14 == 0x3_FFFF_FFFF_FFFF;
    } else {
      assert (left - 1) >> 14 == 0;
    }
  }

  /** The two fields survive being put together. */
  lemma PackedFields(left: bv64, sleep: bv64)
    requires left <= 0x3FFF && sleep <= 0x3_FFFF_FFFF_FFFF
    ensures Share(PackBits(left, sleep)) == left && Sleep(PackBits(left, sleep)) == sleep
  {
  }

  /** The fields that the slow unlock leaves behind. */
  lemma UnlockSlowFields(share: bv64, sleep: bv64)
    requires 0 < share <= 0x3FFF && sleep <= 0x3_FFFF_FFFF_FFFF
    ensures var (next, wake) := UnlockSlowBits(share, sleep);
            var left := if share == 0x3FFF then 0 else share - 1;
            && Share(next) == left
            && wake == (if left == 0 then sleep else 0)
            && Sleep(next) == (if left == 0 then 0 else sleep)
  {
    var left := ShareAfterUnlock(share);
    MaskedDecrement(share);
    MaskedWake(left, sleep);
    PackedFields(left, if left == 0 then 0 else sleep);
    assert sleep - sleep == 0 && sleep - 0 == sleep;
  }

  lemma SameSleepers(x: bv64, y: bv64)
    ensures x as nat == 0 <==> x == 0
    ensures x == y ==> x as nat == y as nat
  {
  }

  /** Writing `next` and waking `wake` threads is the unlock decision about these two fields. */
  predicate IsUnlock(share: bv64, sleep: bv64, next: bv64, wake: bv64)
  {
    share <= 0x3FFF && UnlockDecision(Word(Number(share), sleep as nat)) == Exchange(Fields(next), wake as nat)
  }

  lemma UnlockOfFields(share: bv64, sleep: bv64, next: bv64, wake: bv64)
    requires 0 < share <= 0x3FFF
    requires Share(next) == if share == 0x3FFF then 0 else share - 1
    requires wake == if Share(next) == 0 then sleep else 0
    requires Sleep(next) == if Share(next) == 0 then 0 else sleep
    ensures IsUnlock(share, sleep, next, wake)
  {
    SleepersAfterUnlock(sleep, Share(next) == 0, Sleep(next), wake);
    UnlockNumbers(share, Share(next), sleep as nat, Sleep(next) as nat, wake as nat);
  }

  /** The bit arithmetic of the slow unlock computes the unlock decision. */
  lemma UnlockSlowIsDecision(share: bv64, sleep: bv64, next: bv64, wake: bv64)
    requires 0 < share <= 0x3FFF && sleep <= 0x3_FFFF_FFFF_FFFF
    requires (next, wake) == UnlockSlowBits(share, sleep)
    ensures IsUnlock(share, sleep, next, wake)
  {
    UnlockSlowFields(share, sleep);
    UnlockOfFields(share, sleep, next, wake);
  }

  /** The unlock decision in numbers. */
  lemma UnlockInNumbers(share: nat, sleep: nat, nextShare: nat, nextSleep: nat, wake: nat)
    requires 0 < share <= EXCLUSIVE
    requires nextShare == if share == EXCLUSIVE then 0 else share - 1
    requires wake == if nextShare == 0 then sleep else 0
    requires nextSleep == if nextShare == 0 then 0 else sleep
    ensures UnlockDecision(Word(share, sleep)) == Exchange(Word(nextShare, nextSleep), wake)
  {
  }

  lemma NumberOfWriter()
    ensures Number(0x3FFF) == EXCLUSIVE && Number(0) == 0
  {
    NumberLandmarks(0x3FFF);
    NumberLandmarks(0);
  }

  lemma NumberOfReaders(share: bv64, nextShare: bv64)
    requires nextShare < 0x3FFE && share == nextShare + 1
    ensures Number(nextShare) == Number(share) - 1 && Number(share) < EXCLUSIVE
    ensures Number(nextShare) == 0 <==> nextShare == 0
  {
    NumberOfSuccessor(nextShare, share);
    NumberLandmarks(share);
    NumberLandmarks(nextShare);
  }

  lemma NumberAfterUnlock(share: bv64, nextShare: bv64)
    requires 0 < share <= 0x3FFF
    requires nextShare == if share == 0x3FFF then 0 else share - 1
    ensures nextShare <= 0x3FFF && 0 < Number(share) <= EXCLUSIVE
    ensures Number(nextShare) == if Number(share) == EXCLUSIVE then 0 else Number(share) - 1
    ensures Number(nextShare) == 0 <==> nextShare == 0
  {
    if share == 0x3FFF {
      NumberOfWriter();
    } else {
      NumberOfReaders(share, nextShare);
    }
  }

  lemma SleepersAfterUnlock(sleep: bv64, last: bool, nextSleep: bv64, wake: bv64)
    requires wake == if last then sleep else 0
    requires nextSleep == if last then 0 else sleep
    ensures wake as nat == if last then sleep as nat else 0
    ensures nextSleep as nat == if last then 0 else sleep as nat
  {
  }

  lemma UnlockNumbers(share: bv64, nextShare: bv64, sleep: nat, nextSleep: nat, wake: nat)
    requires 0 < share <= 0x3FFF
    requires nextShare == if share == 0x3FFF then 0 else share - 1
    requires wake == if nextShare == 0 then sleep else 0
    requires nextSleep == if nextShare == 0 then 0 else sleep
    ensures nextShare <= 0x3FFF
    ensures UnlockDecision(Word(Number(share), sleep)) == Exchange(Word(Number(nextShare), nextSleep), wake)
  {
    NumberAfterUnlock(share, nextShare);
    UnlockInNumbers(Number(share), sleep, Number(nextShare), nextSleep, wake);
  }

  lemma UnlockGuardFields(bits: bv64)
    ensures UnlockFastGuard(bits) <==> Sleep(bits) == 0
    ensures UnlockFastGuard(bits) ==> Share(bits) == bits && UnlockFastBits(bits) == ShareAfterUnlock(bits)
  {
  }

  lemma UnlockWithoutSleepers(share: bv64)
    requires 0 < share <= 0x3FFF
    ensures UnlockSlowBits(share, 0) == (ShareAfterUnlock(share), 0)
  {
    MaskedDecrement(share);
  }

  /** The fast unlock applies to exactly the words without sleepers, writes the word that
      the slow one writes, and has nobody to wake. */
  lemma UnlockFastRefinesSlow(bits: bv64)
    requires Share(bits) != 0
    ensures UnlockFastGuard(bits) <==> Fields(bits).nsleep == 0
    ensures UnlockFastGuard(bits) ==> UnlockSlowBits(Share(bits), Sleep(bits)) == (UnlockFastBits(bits), 0)
  {
    UnlockGuardFields(bits);
    SameSleepers(Sleep(bits), 0);
    if UnlockFastGuard(bits) {
      UnlockWithoutSleepers(bits);
    }
  }

  lemma SharedNumbers(share: bv64, nextShare: bv64, quad: int)
    requires share < 16382 && nextShare == share + 1
    ensures nextShare <= 0x3FFF
    ensures LockDecision(Word(Number(share), 0), true, quad, CAP64) == Exchange(Word(Number(nextShare), 0), Granted)
  {
    NumberLandmarks(share);
    NumberOfSuccessor(share, nextShare);
  }

  /** The fast shared lock applies to exactly the words that the slow path would grant, and
      writes the word that the slow path writes. */
  lemma LockSharedFastRefinesSlow(bits: bv64, quad: int)
    ensures LockSharedFastGuard(bits) <==> LockDecision(Fields(bits), true, quad, CAP64).result == Granted
    ensures LockSharedFastGuard(bits) ==>
              LockDecision(Fields(bits), true, quad, CAP64) == Exchange(Fields(bits + 1), Granted)
  {
    SharedGuardFields(bits);
    if LockSharedFastGuard(bits) {
      SharedNumbers(Share(bits), Share(bits + 1), quad);
      SameSleepers(Sleep(bits), 0);
      SameSleepers(Sleep(bits + 1), 0);
    } else {
      NumberLandmarks(Share(bits));
      SameSleepers(Sleep(bits), 0);
    }
  }

  lemma SharedGuardFields(bits: bv64)
    ensures LockSharedFastGuard(bits) <==> Share(bits) < 16382 && Sleep(bits) == 0
    ensures LockSharedFastGuard(bits) ==> Share(bits + 1) == Share(bits) + 1 && Sleep(bits + 1) == Sleep(bits)
  {
  }

  /** Likewise for the fast exclusive lock. */
  lemma LockExclusiveFastRefinesSlow(bits: bv64, quad: int)
    ensures LockExclusiveFastGuard(bits) <==> LockDecision(Fields(bits), false, quad, CAP64).result == Granted
    ensures LockExclusiveFastGuard(bits) ==>
              LockDecision(Fields(bits), false, quad, CAP64) == Exchange(Fields(bits + 0x3FFF), Granted)
  {
    NumberLandmarks(Share(bits));
    if LockExclusiveFastGuard(bits) {
      ExclusiveGuardFields(bits);
      NumberLandmarks(Share(bits + 0x3FFF));
      SameSleepers(Sleep(bits), Sleep(bits + 0x3FFF));
    }
  }

  lemma ExclusiveGuardFields(bits: bv64)
    requires LockExclusiveFastGuard(bits)
    ensures Share(bits + 0x3FFF) == 0x3FFF && Sleep(bits + 0x3FFF) == Sleep(bits)
  {
  }
}
