/** The collection of CPUs: kept sorted by identifier with insertion sort, searched with a
    guess and then binary search. */
module CpuCollection {
  const UINT32_MAX := 0xFFFF_FFFF
  const FIRST_ID := 256

  datatype Cpu = Cpu(id: nat, group: nat, coreIdx: nat, efficClass: nat, schedClass: nat, selected: bool)

  /** One record that the system returns; only some of them describe a CPU set. */
  datatype Record = CpuSet(id: nat, group: nat, coreIdx: nat, efficClass: nat, schedClass: nat) | Other

  ghost predicate Sorted(s: seq<Cpu>)
  {
    forall i, j :: 0 <= i < j < |s| ==> s[i].id <= s[j].id
  }

  /** Where a CPU with this identifier goes: after every one that is not greater. */
  function UpperBound(s: seq<Cpu>, id: nat): (k: nat)
    ensures k <= |s|
    ensures forall j :: k <= j < |s| ==> s[j].id > id
    ensures k > 0 ==> s[k - 1].id <= id
  {
    if s == [] then 0
    else if s[|s| - 1].id <= id then |s|
    else UpperBound(s[..|s| - 1], id)
  }

  lemma UpperBoundIs(s: seq<Cpu>, id: nat, k: nat)
    requires k <= |s| && (k > 0 ==> s[k - 1].id <= id)
    requires forall j :: k <= j < |s| ==> s[j].id > id
    ensures UpperBound(s, id) == k
  {
    if k < |s| {
      UpperBoundIs(s[..|s| - 1], id, k);
    }
  }

  function Inserted(s: seq<Cpu>, c: Cpu): seq<Cpu>
  {
    var k := UpperBound(s, c.id);
    s[..k] + [c] + s[k..]
  }

  /** The CPUs among the records, in the order in which the system lists them. */
  function Listed(records: seq<Record>): (l: seq<Cpu>)
    ensures |l| <= |records|
  {
    if records == [] then []
    else
      var init := Listed(records[..|records| - 1]);
      match records[|records| - 1]
      case CpuSet(id, group, core, effic, sched) => init + [Cpu(id, group, core, effic, sched, false)]
      case Other => init
  }

  function InsertedAll(l: seq<Cpu>): (s: seq<Cpu>)
    ensures |s| == |l|
  {
    if l == [] then [] else Inserted(InsertedAll(l[..|l| - 1]), l[|l| - 1])
  }

  /** The CPUs with one identifier, in order. */
  function WithId(s: seq<Cpu>, id: nat): seq<Cpu>
  {
    if s == [] then []
    else WithId(s[..|s| - 1], id) + if s[|s| - 1].id == id then [s[|s| - 1]] else []
  }

  // ---------------------------------------------------------------- what insertion achieves

  /** Splitting a sorted sequence around an identifier and putting it in between. */
  lemma SortedAround(a: seq<Cpu>, c: Cpu, b: seq<Cpu>)
    requires Sorted(a) && Sorted(b)
    requires forall i :: 0 <= i < |a| ==> a[i].id <= c.id
    requires forall j :: 0 <= j < |b| ==> c.id <= b[j].id
    ensures Sorted(a + [c] + b)
  {
    var r := a + [c] + b;
    forall i, j | 0 <= i < j < |r|
      ensures r[i].id <= r[j].id
    {
      if i < |a| {
        assert r[i] == a[i] && a[i].id <= c.id;
      }
      if j > |a| {
        assert r[j] == b[j - |a| - 1] && c.id <= b[j - |a| - 1].id;
      }
    }
  }

  lemma SplitIsSorted(s: seq<Cpu>, k: nat)
    requires Sorted(s) && k <= |s|
    ensures Sorted(s[..k]) && Sorted(s[k..])
  {
  }

  lemma InsertedIsSorted(s: seq<Cpu>, c: Cpu)
    requires Sorted(s)
    ensures Sorted(Inserted(s, c))
  {
    var k := UpperBound(s, c.id);
    SplitIsSorted(s, k);
    forall i | 0 <= i < k
      ensures s[..k][i].id <= c.id
    {
      assert s[..k][i] == s[i] && s[i].id <= s[k - 1].id;
    }
    SortedAround(s[..k], c, s[k..]);
  }

  lemma {:induction false} WithIdOfConcat(a: seq<Cpu>, b: seq<Cpu>, id: nat)
    ensures WithId(a + b, id) == WithId(a, id) + WithId(b, id)
  {
    if b == [] {
      assert a + b == a;
    } else {
      assert (a + b)[..|a + b| - 1] == a + b[..|b| - 1];
      WithIdOfConcat(a, b[..|b| - 1], id);
    }
  }

  lemma {:induction false} NoneWithId(s: seq<Cpu>, id: nat)
    requires forall i :: 0 <= i < |s| ==> s[i].id != id
    ensures WithId(s, id) == []
  {
    if s != [] {
      NoneWithId(s[..|s| - 1], id);
    }
  }

  /** Insertion puts the new CPU after all those with the same identifier. */
  lemma InsertedIsStable(s: seq<Cpu>, c: Cpu, id: nat)
    ensures WithId(Inserted(s, c), id) == WithId(s + [c], id)
  {
    var k := UpperBound(s, c.id);
    assert s == s[..k] + s[k..];
    WithIdOfConcat(s[..k] + [c], s[k..], id);
    WithIdOfConcat(s[..k], [c], id);
    WithIdOfConcat(s[..k], s[k..], id);
    WithIdOfConcat(s, [c], id);
    assert [c][..0] == [];
    if id == c.id {
      NoneWithId(s[k..], id);
    }
  }

  /** Whatever the order of the records, the result is sorted, holds the same CPUs, and keeps
      the order of CPUs with equal identifiers. */
  lemma {:induction false} InsertionSorts(l: seq<Cpu>, id: nat)
    ensures Sorted(InsertedAll(l))
    ensures multiset(InsertedAll(l)) == multiset(l)
    ensures WithId(InsertedAll(l), id) == WithId(l, id)
  {
    if l != [] {
      var init, c := l[..|l| - 1], l[|l| - 1];
      var s := InsertedAll(init);
      InsertionSorts(init, id);
      InsertedIsSorted(s, c);
      InsertedIsStable(s, c, id);
      WithIdOfConcat(s, [c], id);
      WithIdOfConcat(init, [c], id);
      assert l == init + [c];
      InsertedKeepsAll(s, c);
    }
  }

  lemma InsertedKeepsAll(s: seq<Cpu>, c: Cpu)
    ensures multiset(Inserted(s, c)) == multiset(s) + multiset{c}
  {
    var k := UpperBound(s, c.id);
    assert s == s[..k] + s[k..];
  }

  lemma Assembled(before: seq<Cpu>, after: seq<Cpu>, c: Cpu, k: nat)
    requires k <= |before| && |after| == |before| + 1 && after[k] == c
    requires forall j :: 0 <= j < k ==> after[j] == before[j]
    requires forall j :: k < j < |after| ==> after[j] == before[j - 1]
    ensures after == before[..k] + [c] + before[k..]
  {
  }

  /** The elements are the CPUs of the first `n` records, in order of identifiers and then of
      records; `pos` tells where each comes from. */
  ghost predicate Placed(s: seq<Cpu>, pos: seq<nat>, records: seq<Record>, n: nat)
  {
    && |pos| == |s| && n <= |records|
    && (forall i :: 0 <= i < |s| ==> pos[i] < n && IsCpuOf(s[i], records[pos[i]]))
    && (forall i, j :: 0 <= i < j < |s| ==> InOrder(s[i], pos[i], s[j], pos[j]))
    && (forall m :: 0 <= m < n && records[m].CpuSet? ==> m in pos)
  }

  predicate IsCpuOf(c: Cpu, r: Record)
  {
    r.CpuSet? && c == Cpu(r.id, r.group, r.coreIdx, r.efficClass, r.schedClass, false)
  }

  predicate InOrder(a: Cpu, m: nat, b: Cpu, n: nat)
  {
    m != n && a.id <= b.id && (a.id == b.id ==> m < n)
  }

  lemma ListedOneMore(records: seq<Record>, n: nat)
    requires n < |records|
    ensures var before, after := InsertedAll(Listed(records[..n])), InsertedAll(Listed(records[..n + 1]));
            match records[n]
            case CpuSet(id, group, core, effic, sched) =>
              after == Inserted(before, Cpu(id, group, core, effic, sched, false))
            case Other => after == before
  {
    assert records[..n + 1][..n] == records[..n];
    var l, more := Listed(records[..n]), Listed(records[..n + 1]);
    assert records[n].CpuSet? ==> more[..|l|] == l;
  }

  /** An element put between the first `k` and the others. */
  function Between<T>(s: seq<T>, k: nat, x: T): (r: seq<T>)
    requires k <= |s|
    ensures |r| == |s| + 1 && r[k] == x
    ensures forall i :: 0 <= i < k ==> r[i] == s[i]
    ensures forall i :: k < i < |r| ==> r[i] == s[i - 1]
  {
    s[..k] + [x] + s[k..]
  }

  lemma OrderedBetween(s: seq<Cpu>, pos: seq<nat>, k: nat, c: Cpu, n: nat)
    requires |pos| == |s| && k <= |s|
    requires forall i, j :: 0 <= i < j < |s| ==> InOrder(s[i], pos[i], s[j], pos[j])
    requires forall i :: 0 <= i < k ==> InOrder(s[i], pos[i], c, n)
    requires forall j :: k <= j < |s| ==> InOrder(c, n, s[j], pos[j])
    ensures var t, to := Between(s, k, c), Between(pos, k, n);
            forall i, j :: 0 <= i < j < |t| ==> InOrder(t[i], to[i], t[j], to[j])
  {
  }

  lemma OrderedAfterInsert(s: seq<Cpu>, pos: seq<nat>, c: Cpu, n: nat)
    requires |pos| == |s| && forall i :: 0 <= i < |s| ==> pos[i] < n
    requires forall i, j :: 0 <= i < j < |s| ==> InOrder(s[i], pos[i], s[j], pos[j])
    ensures var k := UpperBound(s, c.id);
            var t, to := Between(s, k, c), Between(pos, k, n);
            forall i, j :: 0 <= i < j < |t| ==> InOrder(t[i], to[i], t[j], to[j])
  {
    var k := UpperBound(s, c.id);
    forall i | 0 <= i < k
      ensures InOrder(s[i], pos[i], c, n)
    {
      assert i < k - 1 ==> InOrder(s[i], pos[i], s[k - 1], pos[k - 1]);
    }
    OrderedBetween(s, pos, k, c, n);
  }

  lemma PlacedOneMore(s: seq<Cpu>, pos: seq<nat>, records: seq<Record>, n: nat, c: Cpu)
    requires Placed(s, pos, records, n) && n < |records| && IsCpuOf(c, records[n])
    ensures var k := UpperBound(s, c.id);
            Placed(Inserted(s, c), Between(pos, k, n), records, n + 1)
  {
    var k := UpperBound(s, c.id);
    OrderedAfterInsert(s, pos, c, n);
    assert Inserted(s, c) == Between(s, k, c);
    forall m | 0 <= m <= n && records[m].CpuSet?
      ensures m in Between(pos, k, n)
    {
      StillThere(pos, k, n, m);
    }
  }

  lemma StillThere(pos: seq<nat>, k: nat, n: nat, m: nat)
    requires k <= |pos| && (m in pos || m == n)
    ensures m in Between(pos, k, n)
  {
    if m == n {
      assert Between(pos, k, n)[k] == m;
    } else {
      var i :| 0 <= i < |pos| && pos[i] == m;
      assert Between(pos, k, n)[if i < k then i else i + 1] == m;
    }
  }

  // ---------------------------------------------------------------- the collection

  class Collection {
    const data: array<Cpu>
    var size: nat

    predicate Valid() reads this { size <= data.Length < UINT32_MAX - FIRST_ID }

    function Contents(): seq<Cpu>
      requires Valid()
      reads this, data
    {
      data[..size]
    }

    constructor (capacity: nat)
      requires capacity < UINT32_MAX - FIRST_ID
      ensures Valid() && Contents() == [] && data.Length == capacity && fresh(data)
    {
      data := new Cpu[capacity](_ => Cpu(0, 0, 0, 0, 0, false));
      size := 0;
    }

    /** Moves the elements with a greater identifier up by one and tells where the gap is. */
    method OpenGap(id: nat) returns (k: nat)
      requires Valid() && size < data.Length
      modifies data
      ensures k <= size && (k > 0 ==> old(Contents())[k - 1].id <= id)
      ensures forall j :: 0 <= j < k ==> data[j] == old(Contents())[j]
      ensures forall j :: k < j <= size ==> data[j] == old(Contents())[j - 1]
      ensures forall j :: k <= j < size ==> old(Contents())[j].id > id
    {
      ghost var was := Contents();
      var i: int;
      i, k := size, size;
      while i != 0
        modifies data
        invariant i == k <= size
        invariant forall j :: 0 <= j < k ==> data[j] == was[j]
        invariant forall j :: k < j <= size ==> data[j] == was[j - 1]
        invariant forall j :: k <= j < size ==> was[j].id > id
      {
        i := i - 1;
        if !(data[i].id > id) {
          break;
        }
        data[k] := data[i];
        k := k - 1;
      }
    }

    method Insert(cpu: Cpu)
      requires Valid() && size < data.Length
      modifies this, data
      ensures Valid() && Contents() == Inserted(old(Contents()), cpu)
      ensures size == old(size) + 1
    {
      ghost var was := Contents();
      var k := OpenGap(cpu.id);
      UpperBoundIs(was, cpu.id, k);
      size := size + 1;
      data[k] := cpu;
      Assembled(was, Contents(), cpu, k);
    }

    /** The CPUs of the first `n` records are there. */
    ghost predicate Filled(records: seq<Record>, n: nat, pos: seq<nat>)
      reads this, data
    {
      && Valid() && n <= |records|
      && Contents() == InsertedAll(Listed(records[..n])) && Placed(Contents(), pos, records, n)
    }

    /** One record more. */
    method Add(records: seq<Record>, n: nat, ghost pos: seq<nat>) returns (ghost pos': seq<nat>)
      requires n < |records| && Filled(records, n, pos) && size < data.Length
      modifies this, data
      ensures Filled(records, n + 1, pos') && size <= old(size) + 1
    {
      pos' := pos;
      ListedOneMore(records, n);
      match records[n] {
        case CpuSet(id, group, core, effic, sched) =>
          var cpu := Cpu(id, group, core, effic, sched, false);
          PlacedOneMore(Contents(), pos, records, n, cpu);
          pos' := Between(pos, UpperBound(Contents(), id), n);
          Insert(cpu);
        case Other =>
      }
    }

    /** Adds the CPUs that the system lists.  `pos` tells which record each element comes from:
        every record of a CPU set is there once, none of its fields changed and not selected; the
        identifiers are in order, and those that are equal in the order of their records. */
    method Fill(records: seq<Record>) returns (ghost pos: seq<nat>)
      requires Valid() && size == 0 && |records| <= data.Length
      modifies this, data
      ensures Valid() && Contents() == InsertedAll(Listed(records))
      ensures |pos| == size && forall n :: 0 <= n < |records| && records[n].CpuSet? ==> n in pos
      ensures forall i :: 0 <= i < size ==>
                            && pos[i] < |records|
                            && var r, c := records[pos[i]], data[i];
                               && r == CpuSet(c.id, c.group, c.coreIdx, c.efficClass, c.schedClass)
                               && !c.selected
      ensures forall i, j :: 0 <= i < j < size ==>
                               && pos[i] != pos[j] && data[i].id <= data[j].id
                               && (data[i].id == data[j].id ==> pos[i] < pos[j])
    {
      pos := [];
      for n := 0 to |records|
        invariant Filled(records, n, pos) && size <= n
      {
        pos := Add(records, n, pos);
      }
      assert records[..|records|] == records;
      assert forall i :: 0 <= i < size ==> Contents()[i] == data[i];
      assert forall i, j :: 0 <= i < j < size ==> InOrder(Contents()[i], pos[i], Contents()[j], pos[j]);
    }

    /** The index of a CPU with identifier `id`, or the greatest 32-bit number. */
    method Find(id: nat) returns (index: nat)
      requires Valid() && Sorted(Contents())
      ensures index == UINT32_MAX <==> forall i :: 0 <= i < size ==> data[i].id != id
      ensures index != UINT32_MAX ==> index < size && data[index].id == id
    {
      if id >= FIRST_ID && id < FIRST_ID + size {
        if id == data[id - FIRST_ID].id {
          return id - FIRST_ID;
        }
      }
      var bpos, epos := 0, size;
      while true
        invariant bpos <= epos <= size
        invariant forall i :: 0 <= i < bpos ==> Contents()[i].id < id
        invariant forall i :: epos <= i < size ==> Contents()[i].id > id
        decreases epos - bpos
      {
        if bpos == epos {
          assert forall i :: 0 <= i < size ==> Contents()[i] == data[i];
          return UINT32_MAX;
        }
        var mpos := bpos + (epos - bpos) / 2;
        var elem := data[mpos];
        assert Contents()[mpos] == elem;
        if id == elem.id {
          return mpos;
        }
        if id < elem.id {
          epos := mpos;
        } else {
          bpos := mpos + 1;
        }
      }
    }

    /** Selects or deselects a CPU: -1 if there is none with this identifier, otherwise the
        previous state.  The rest of the collection is as before. */
    method SetSelection(id: nat, selected: bool) returns (before: int)
      requires Valid() && Sorted(Contents())
      modifies data
      ensures Valid() && Sorted(Contents())
      ensures before == -1 <==> forall i :: 0 <= i < size ==> old(data[i].id) != id
      ensures before == -1 ==> Contents() == old(Contents())
      ensures before != -1 ==>
                exists k :: 0 <= k < size && old(data[k]).id == id
                            && before == (if old(data[k]).selected then 1 else 0)
                            && Contents() == old(Contents())[k := old(data[k]).(selected := selected)]
    {
      var index := Find(id);
      if index == UINT32_MAX {
        return -1;
      }
      ghost var was := Contents();
      before := if data[index].selected then 1 else 0;
      data[index] := data[index].(selected := selected);
      assert Contents() == was[index := was[index].(selected := selected)];
    }
  }

  // ---------------------------------------------------------------- systems without CPU sets

  /** The positions of the bits set in `mask`, from the lowest up, counted from `base`. */
  function BitIds(mask: bv64, base: nat): seq<nat>
    decreases mask
  {
    if mask == 0 then []
    else if mask & 1 == 1 then [base] + BitIds(mask >> 1, base + 1)
    else BitIds(mask >> 1, base + 1)
  }

  function BitScanForward(mask: bv64): nat
    requires mask != 0
    decreases mask
  {
    if mask & 1 == 1 then 0 else 1 + BitScanForward(mask >> 1)
  }

  lemma OddMask(mask: bv64)
    requires mask & 1 == 1
    ensures (mask & (mask - 1)) & 1 == 0 && (mask & (mask - 1)) >> 1 == mask >> 1
  {
  }

  lemma EvenMask(mask: bv64)
    requires mask & 1 == 0 && mask != 0
    ensures (mask & (mask - 1)) & 1 == 0 && (mask & (mask - 1)) >> 1 == (mask >> 1) & ((mask >> 1) - 1)
  {
  }

  lemma HalfOfEven(mask: bv64)
    requires mask & 1 == 0 && mask != 0
    ensures mask >> 1 != 0 && mask >> 1 < mask
  {
  }

  lemma LowerMask(mask: bv64)
    requires mask != 0
    ensures mask & (mask - 1) < mask
  {
  }

  /** One bit of the list at a time; also for the empty mask. */
  lemma FirstBit(mask: bv64, base: nat)
    ensures BitIds(mask, base) == (if mask & 1 == 1 then [base] else []) + BitIds(mask >> 1, base + 1)
  {
    if mask == 0 {
      assert mask >> 1 == 0;
    }
  }

  lemma ClearingOdd(mask: bv64, rest: bv64, base: nat)
    requires mask & 1 == 1 && rest & 1 == 0 && rest >> 1 == mask >> 1
    ensures BitIds(mask, base) == [base + BitScanForward(mask)] + BitIds(rest, base)
  {
    FirstBit(mask, base);
    FirstBit(rest, base);
  }

  lemma ClearingEven(mask: bv64, half: bv64, rest: bv64, halfRest: bv64, base: nat)
    requires mask != 0 && half == mask >> 1 != 0 && mask & 1 == 0
    requires rest & 1 == 0 && halfRest == rest >> 1
    requires BitIds(half, base + 1) == [base + 1 + BitScanForward(half)] + BitIds(halfRest, base + 1)
    ensures BitIds(mask, base) == [base + BitScanForward(mask)] + BitIds(rest, base)
  {
    FirstBit(mask, base);
    FirstBit(rest, base);
  }

  ghost predicate LowestBitFirst(mask: bv64, base: nat)
    requires mask != 0
  {
    BitIds(mask, base) == [base + BitScanForward(mask)] + BitIds(mask & (mask - 1), base)
  }

  lemma LowestBitOfOdd(mask: bv64, base: nat)
    requires mask & 1 == 1
    ensures LowestBitFirst(mask, base)
  {
    OddMask(mask);
    ClearingOdd(mask, mask & (mask - 1), base);
  }

  lemma LowestBitOfEven(mask: bv64, half: bv64, base: nat)
    requires mask != 0 && mask & 1 == 0 && half == mask >> 1 != 0
    requires LowestBitFirst(half, base + 1)
    ensures LowestBitFirst(mask, base)
  {
    EvenMask(mask);
    ClearingEven(mask, half, mask & (mask - 1), half & (half - 1), base);
  }

  /** Scanning for the lowest bit and clearing it takes the first position off the list. */
  lemma {:induction false} ClearingLowestBit(mask: bv64, base: nat)
    requires mask != 0
    ensures LowestBitFirst(mask, base)
    decreases mask
  {
    if mask & 1 == 1 {
      LowestBitOfOdd(mask, base);
    } else {
      HalfOfEven(mask);
      ClearingLowestBit(mask >> 1, base + 1);
      LowestBitOfEven(mask, mask >> 1, base);
    }
  }

  /** Positions come out in strictly increasing order, so the result is sorted. */
  lemma {:induction false} BitIdsIncrease(mask: bv64, base: nat)
    ensures forall i :: 0 <= i < |BitIds(mask, base)| ==> BitIds(mask, base)[i] >= base
    ensures forall i, j :: 0 <= i < j < |BitIds(mask, base)| ==> BitIds(mask, base)[i] < BitIds(mask, base)[j]
    decreases mask
  {
    if mask != 0 {
      BitIdsIncrease(mask >> 1, base + 1);
    }
  }

  /** The i-th bit is set. */
  predicate Bit(mask: bv64, i: nat)
  {
    if i == 0 then mask & 1 == 1 else Bit(mask >> 1, i - 1)
  }

  lemma {:induction false} NoBits(i: nat)
    ensures !Bit(0, i)
  {
    if i > 0 {
      NoBits(i - 1);
    }
  }

  /** The list has the positions of the bits that are set, and no others. */
  lemma {:induction false} BitIdsAreBits(mask: bv64, base: nat, x: nat)
    ensures x in BitIds(mask, base) <==> x >= base && Bit(mask, x - base)
    decreases mask
  {
    BitIdsIncrease(mask, base);
    if mask != 0 {
      BitIdsAreBits(mask >> 1, base + 1, x);
    } else if x >= base {
      NoBits(x - base);
    }
  }

  /** The identifiers of the CPUs of a process, from its affinity mask. */
  method IdsFromMask(mask: bv64) returns (ids: seq<nat>)
    ensures ids == BitIds(mask, FIRST_ID)
    ensures forall x: nat :: x in ids <==> x >= 256 && Bit(mask, x - 256)
    ensures forall i, j :: 0 <= i < j < |ids| ==> ids[i] < ids[j]
  {
    ids := [];
    var reg := mask;
    while reg != 0
      invariant BitIds(mask, FIRST_ID) == ids + BitIds(reg, FIRST_ID)
      decreases reg
    {
      ClearingLowestBit(reg, FIRST_ID);
      LowerMask(reg);
      ids := ids + [FIRST_ID + BitScanForward(reg)];
      reg := reg & (reg - 1);
    }
    BitIdsIncrease(mask, FIRST_ID);
    forall x: nat
      ensures x in ids <==> x >= 256 && Bit(mask, x - 256)
    {
      BitIdsAreBits(mask, FIRST_ID, x);
    }
  }
}
