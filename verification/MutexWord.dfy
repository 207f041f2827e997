/** The mutex word: its four fields, the decision that each retry loop takes about it, the
    raw-bit fast paths, and the table of spin bytes. */
module MutexWord {
  import opened Wrappers
  import opened AtomicWord

  const NFAIL_THRESHOLD: bv4 := 10
  const FULL_MASK: bv4 := 0xF
  const SPIN_TABLE_SIZE := 2048

  datatype Word = Word(locked: bool, spMask: bv4, spNfail: bv4, nsleep: nat)

  // ---------------------------------------------------------------- field arithmetic

  /** The spinning failure counter after adding one (`add == 1`) or subtracting one
      (`add == 0xFFFF_FFFF`), in the 32-bit arithmetic of the source. */
  function AdjustNfail(nfail: bv4, add: bv32): bv4
  {
    var temp := (nfail as bv32) + add;
    ((temp - (temp >> 4)) & 0xF) as bv4
  }

  /** The lowest spinning slot that is free, as a one-bit mask; zero if there is none. */
  function FreeSlot(mask: bv4): bv4
  {
    ((0xFFFF_FFFF ^ (mask as bv32)) & ((mask as bv32) + 1) & 0xF) as bv4
  }

  function WithoutLowestSlot(mask: bv4): bv4
  {
    mask & (mask - 1)
  }

  /** The counter saturates at both ends. */
  lemma NfailSaturates(nfail: bv4)
    ensures AdjustNfail(nfail, 1) == if nfail == 15 then 15 else nfail + 1
    ensures AdjustNfail(nfail, 0xFFFF_FFFF) == if nfail == 0 then 0 else nfail - 1
  {
  }

  /** A slot is taken exactly when one is free; it is one bit, it was free, and every
      lower slot was in use. */
  lemma FreeSlotIsLowest(mask: bv4)
    ensures FreeSlot(mask) != 0 <==> mask != FULL_MASK
    ensures mask & FreeSlot(mask) == 0
    ensures FreeSlot(mask) & (FreeSlot(mask) - 1) == 0
    ensures mask != FULL_MASK ==> mask & (FreeSlot(mask) - 1) == FreeSlot(mask) - 1
  {
  }

  // ---------------------------------------------------------------- decisions

  datatype LockResult = Locked | Refused | SpinOn(budget: nat, slot: bv4) | GoToSleep
  datatype SpinResult = SpinLocked | Relocated(slot: bv4) | Crowded
  datatype GiveUpResult = LateLock | LateSleep

  function Taken(w: Word): Word
  {
    w.(locked := true, spNfail := AdjustNfail(w.spNfail, 0xFFFF_FFFF))
  }

  /** The first loop of the slow lock: `quad` is the timeout, `cap` bounds the sleeping count. */
  function LockDecision(w: Word, quad: int, cap: nat): Decision<Word, LockResult>
    requires cap > 0
  {
    if !w.locked then
      Exchange(Taken(w), Locked)
    else if quad == 0 then
      Stop(Refused)
    else if w.spMask != FULL_MASK && w.spNfail < NFAIL_THRESHOLD then
      var slot := FreeSlot(w.spMask);
      Exchange(w.(spMask := w.spMask | slot), SpinOn((10 - w.spNfail as nat) * 16, slot))
    else
      Exchange(w.(spNfail := AdjustNfail(w.spNfail, 1), nsleep := (w.nsleep + 1) % cap), GoToSleep)
  }

  /** What a spinning thread does once its byte has been poked. */
  function SpinDecision(w: Word): Decision<Word, SpinResult>
  {
    if !w.locked then
      Exchange(Taken(w), SpinLocked)
    else if w.spMask != FULL_MASK then
      var slot := FreeSlot(w.spMask);
      Exchange(w.(spMask := w.spMask | slot), Relocated(slot))
    else
      Stop(Crowded)
  }

  /** What a thread does after spinning in vain; `slot` is the slot it believes it has. */
  function GiveUpDecision(w: Word, slot: bv4, cap: nat): Decision<Word, GiveUpResult>
    requires cap > 0
  {
    var mask := w.spMask & (FULL_MASK ^ slot);
    if !w.locked then
      Exchange(Taken(w).(spMask := mask), LateLock)
    else
      Exchange(Word(true, mask, AdjustNfail(w.spNfail, 1), (w.nsleep + 1) % cap), LateSleep)
  }

  /** What a waiter does after its wait has timed out: it leaves with a result, or stays. */
  function LeaveDecision(w: Word, cap: nat): Decision<Word, Option<int>>
    requires cap > 0
  {
    if w.nsleep == 0 then Stop(None)
    else Exchange(w.(nsleep := (w.nsleep - 1) % cap), Some(-1))
  }

  /** Unlocking; the result is the number of sleeping threads to release. */
  function UnlockDecision(w: Word, cap: nat): Decision<Word, nat>
    requires cap > 0
  {
    var wake := if w.nsleep != 0 then 1 else 0;
    Exchange(Word(false, WithoutLowestSlot(w.spMask), w.spNfail, (w.nsleep - wake) % cap), wake)
  }

  // ---------------------------------------------------------------- what the decisions do

  /** One failure more or less, saturating. */
  function OneMore(nfail: bv4): bv4 { if nfail == 15 then 15 else nfail + 1 }

  function OneLess(nfail: bv4): bv4 { if nfail == 0 then 0 else nfail - 1 }

  /** `slot` is the lowest bit that is clear in `mask`. */
  predicate IsLowestFree(mask: bv4, slot: bv4)
  {
    slot != 0 && slot & (slot - 1) == 0 && mask & slot == 0 && mask & (slot - 1) == slot - 1
  }

  lemma FailuresCounted(nfail: bv4)
    ensures AdjustNfail(nfail, 1) == OneMore(nfail) && AdjustNfail(nfail, 0xFFFF_FFFF) == OneLess(nfail)
  {
    NfailSaturates(nfail);
  }

  /** The mutex gets locked, and one failure is forgiven. */
  predicate Locks(w: Word, next: Word)
  {
    !w.locked && next == Word(true, w.spMask, OneLess(w.spNfail), w.nsleep)
  }

  /** A slot is taken, and nothing else changes. */
  predicate TakesSlot(w: Word, next: Word, slot: bv4)
  {
    w.locked && IsLowestFree(w.spMask, slot) && next == Word(true, w.spMask | slot, w.spNfail, w.nsleep)
  }

  /** A slot is returned: its bit is clear afterwards, and every other bit is as before. */
  predicate ReturnsSlot(mask: bv4, next: bv4, slot: bv4)
  {
    next & slot == 0 && next | slot == mask | slot
  }

  /** The lowest slot in use, if there is one, is taken away; no other bit changes. */
  predicate DropsLowest(mask: bv4, next: bv4)
  {
    var freed := mask ^ next;
    if mask == 0 then next == 0
    else freed & (freed - 1) == 0 && mask & freed == freed != 0 && mask & (freed - 1) == 0
  }

  /** The first loop, exactly: an unlocked mutex is locked; a locked one is refused if and only if
      no time is left; otherwise the thread spins if a slot is free and there have been few
      failures, and else becomes a sleeper.  `w` is the word found and `next` the one left. */
  predicate LockOutcome(w: Word, next: Word, quad: int, cap: nat, r: LockResult)
    requires cap > 0
  {
    if !w.locked then
      r == Locked && Locks(w, next)
    else if quad == 0 then
      r == Refused && next == w
    else if w.spMask != 0xF && w.spNfail < 10 then
      r.SpinOn? && TakesSlot(w, next, r.slot) && r.budget == 160 - 16 * (w.spNfail as nat)
    else
      r == GoToSleep && next == Word(true, w.spMask, OneMore(w.spNfail), (w.nsleep + 1) % cap)
  }

  lemma LockChoices(w: Word, quad: int, cap: nat)
    requires cap > 0
    ensures var d := LockDecision(w, quad, cap);
            LockOutcome(w, Outcome(w, d), quad, cap, d.result) && (d.Stop? <==> d.result.Refused?)
  {
    NfailSaturates(w.spNfail);
    FreeSlotIsLowest(w.spMask);
  }

  /** A poked spinner, exactly: it locks an unlocked mutex, moves to the lowest free slot of a
      locked one, or finds none. */
  predicate SpinOutcome(w: Word, next: Word, r: SpinResult)
  {
    if !w.locked then r == SpinLocked && Locks(w, next)
    else if w.spMask != 0xF then r.Relocated? && TakesSlot(w, next, r.slot)
    else r == Crowded && next == w
  }

  lemma SpinChoices(w: Word)
    ensures var d := SpinDecision(w);
            SpinOutcome(w, Outcome(w, d), d.result) && (d.Stop? <==> d.result.Crowded?)
  {
    NfailSaturates(w.spNfail);
    FreeSlotIsLowest(w.spMask);
  }

  /** Giving up, exactly: the slot is returned either way; an unlocked mutex is locked, and
      otherwise the thread becomes a sleeper. */
  predicate GiveUpOutcome(w: Word, next: Word, slot: bv4, cap: nat, r: GiveUpResult)
    requires cap > 0
  {
    && next.locked && ReturnsSlot(w.spMask, next.spMask, slot)
    && if !w.locked then r == LateLock && next.spNfail == OneLess(w.spNfail) && next.nsleep == w.nsleep
       else r == LateSleep && next.spNfail == OneMore(w.spNfail) && next.nsleep == (w.nsleep + 1) % cap
  }

  lemma GiveUpChoices(w: Word, slot: bv4, cap: nat)
    requires cap > 0
    ensures var d := GiveUpDecision(w, slot, cap);
            d.Exchange? && GiveUpOutcome(w, d.next, slot, cap, d.result)
  {
    MaskReturned(w.spMask, slot);
    FailuresCounted(w.spNfail);
  }

  lemma MaskReturned(mask: bv4, slot: bv4)
    ensures ReturnsSlot(mask, mask & (0xF ^ slot), slot)
  {
  }

  /** One sleeper less. */
  predicate LeavesCount(w: Word, next: Word, cap: nat)
    requires cap > 0
  {
    w.nsleep > 0 && next == Word(w.locked, w.spMask, w.spNfail, (w.nsleep - 1) % cap)
  }

  lemma LessThanModulus(x: nat, m: nat)
    requires x < m
    ensures x % m == x
  {
  }

  /** Unlocking, exactly: one slot is taken away and one sleeper is to be released, if there
      are any. */
  lemma UnlockChoices(w: Word, cap: nat)
    requires w.nsleep < cap
    ensures var d := UnlockDecision(w, cap);
            && d.Exchange? && d.result == (if w.nsleep == 0 then 0 else 1)
            && !d.next.locked && d.next.spNfail == w.spNfail && d.next.nsleep == w.nsleep - d.result
            && DropsLowest(w.spMask, d.next.spMask)
  {
    LessThanModulus(w.nsleep - (if w.nsleep == 0 then 0 else 1), cap);
    LowestDropped(w.spMask);
  }

  lemma LowestDropped(mask: bv4)
    ensures DropsLowest(mask, WithoutLowestSlot(mask))
  {
  }

  // ---------------------------------------------------------------- raw-bit fast paths

  /** The layout on a 64-bit target. */
  function Fields(bits: bv64): Word
  {
    Word(bits & 1 != 0, ((bits >> 1) & 0xF) as bv4, ((bits >> 5) & 0xF) as bv4, (bits >> 9) as nat)
  }

  const CAP64: nat := 0x80_0000_0000_0000   // 2^55

  function LockFastGuard(bits: bv64): bool { bits & 1 == 0 }

  function LockFastBits(bits: bv64): bv64
  {
    bits + 1 - (((((bits & 0xFFFF_FFFF) >> 4) & 0x1E) + 0x1E) & 0x20)
  }

  function UnlockFastGuard(bits: bv64): bool { bits & (0xFFFF_FFFF_FFFF_FFFF - 0x1E1) == 0 }

  function UnlockFastBits(bits: bv64): bv64 { bits - 1 }

  /** The carry out of the shifted counter is set exactly when the counter is not zero. */
  lemma LockFastBorrow(bits: bv64)
    ensures ((((bits & 0xFFFF_FFFF) >> 4) & 0x1E) + 0x1E) & 0x20 ==
            if (bits >> 5) & 0xF == 0 then 0 else 0x20
  {
  }

  lemma LockFastFields(bits: bv64)
    requires bits & 1 == 0
    ensures LockFastBits(bits) & 1 == 1
    ensures (LockFastBits(bits) >> 1) & 0xF == (bits >> 1) & 0xF
    ensures (LockFastBits(bits) >> 5) & 0xF == if (bits >> 5) & 0xF == 0 then 0 else ((bits >> 5) & 0xF) - 1
    ensures LockFastBits(bits) >> 9 == bits >> 9
  {
    LockFastBorrow(bits);
  }

  lemma NarrowDecrement(x: bv64)
    requires x < 16
    ensures (if x == 0 then 0 else x - 1) < 16
    ensures (if x == 0 then 0 else x - 1) as bv4 == AdjustNfail(x as bv4, 0xFFFF_FFFF)
  {
    NfailSaturates(x as bv4);
  }

  lemma SameNumber(a: bv64, b: bv64)
    requires a >> 9 == b >> 9
    ensures (a >> 9) as nat == (b >> 9) as nat
  {
  }

  lemma DecrementedField(bits: bv64, next: bv64)
    requires (next >> 5) & 0xF == if (bits >> 5) & 0xF == 0 then 0 else ((bits >> 5) & 0xF) - 1
    ensures ((next >> 5) & 0xF) as bv4 == AdjustNfail(((bits >> 5) & 0xF) as bv4, 0xFFFF_FFFF)
  {
    NarrowDecrement((bits >> 5) & 0xF);
  }

  /** Bits that differ as the fast path makes them differ denote the word that was taken. */
  lemma TakenFields(bits: bv64, next: bv64)
    requires bits & 1 == 0 && next & 1 == 1
    requires (next >> 1) & 0xF == (bits >> 1) & 0xF
    requires (next >> 5) & 0xF == if (bits >> 5) & 0xF == 0 then 0 else ((bits >> 5) & 0xF) - 1
    requires next >> 9 == bits >> 9
    ensures Fields(next) == Taken(Fields(bits))
  {
    SameNumber(bits, next);
    DecrementedField(bits, next);
  }

  /** The fast path applies to exactly the words that the slow path locks at once, and
      writes the same word. */
  lemma LockFastRefinesSlow(bits: bv64, quad: int)
    ensures LockFastGuard(bits) <==> LockDecision(Fields(bits), quad, CAP64).result == Locked
    ensures LockFastGuard(bits) ==>
              LockDecision(Fields(bits), quad, CAP64) == Exchange(Fields(LockFastBits(bits)), Locked)
  {
    if LockFastGuard(bits) {
      LockFastFields(bits);
      TakenFields(bits, LockFastBits(bits));
    } else {
      var w := Fields(bits);
      assert w.locked;
    }
  }

  /** The fast unlock applies to exactly the locked words without a spinning or sleeping
      thread, writes the word that the slow path writes, and has nobody to wake. */
  lemma UnlockFastRefinesSlow(bits: bv64)
    requires Fields(bits).locked
    ensures UnlockFastGuard(bits) <==> Fields(bits).spMask == 0 && Fields(bits).nsleep == 0
    ensures UnlockFastGuard(bits) ==>
              UnlockDecision(Fields(bits), CAP64) == Exchange(Fields(UnlockFastBits(bits)), 0)
  {
    assert bits >> 9 == 0 <==> (bits >> 9) as nat == 0;
    assert UnlockFastGuard(bits) <==> (bits >> 1) & 0xF == 0 && bits >> 9 == 0;
    if UnlockFastGuard(bits) {
      var next := UnlockFastBits(bits);
      assert next & 1 == 0 && (next >> 1) & 0xF == 0 && next >> 9 == 0;
      assert (next >> 5) & 0xF == (bits >> 5) & 0xF;
    }
  }

  // ---------------------------------------------------------------- spin bytes

  /** Index of the lowest set bit. */
  function LowestBit(mask: bv4): nat
    requires mask != 0
  {
    if mask & 1 != 0 then 0 else if mask & 2 != 0 then 1 else if mask & 4 != 0 then 2 else 3
  }

  /** Offset in the global table of the byte that the slot `mask` of the mutex at
      `address` spins on (64-bit target). */
  function SpinByte(address: nat, mask: bv4): nat
    requires mask != 0
  {
    var base := (address / 8 * 0x9E37_79B9) % 0x1_0000_0000 / (0x1_0000_0000 / SPIN_TABLE_SIZE);
    (base + LowestBit(mask) * (SPIN_TABLE_SIZE / 4)) % SPIN_TABLE_SIZE
  }

  /** The slots of one mutex have separate bytes inside the table. */
  lemma SpinBytesAreSeparate(address: nat, a: bv4, b: bv4)
    requires a != 0 && b != 0
    ensures SpinByte(address, a) < SPIN_TABLE_SIZE
    ensures SpinByte(address, a) == SpinByte(address, b) <==> LowestBit(a) == LowestBit(b)
  {
  }

  /** Unlocking pokes the byte of precisely the slot that it takes out of the mask. */
  lemma UnlockPokesFreedSlot(address: nat, w: Word, cap: nat)
    requires cap > 0 && w.spMask != 0
    ensures var freed := w.spMask ^ UnlockDecision(w, cap).next.spMask;
            && freed != 0 && freed & (freed - 1) == 0 && freed & w.spMask == freed
            && SpinByte(address, w.spMask) == SpinByte(address, freed)
  {
    var freed := w.spMask ^ WithoutLowestSlot(w.spMask);
    assert freed != 0 && LowestBit(freed) == LowestBit(w.spMask);
  }
}
