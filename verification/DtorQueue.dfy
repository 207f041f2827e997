/** The destructor queue: a chain of blocks with room for 63 callbacks each, the newest block
    first.  The first block is part of the queue itself and never moves; when it is full, its
    contents move to a new block behind it.  The chain is proved to behave as one sequence. */
module DtorQueue {
  import opened Wrappers
  import opened DtorSpec

  const BLOCK_SIZE := 63
  const UINT32_MAX := 0xFFFF_FFFF

  /** `index - 1` on a 32-bit unsigned number. */
  function Before(index: nat): nat { if index == 0 then UINT32_MAX else index - 1 }

  /** One entry is gone and the later ones have moved down. */
  lemma ClosedGap(before: seq<Element>, after: seq<Element>, index: nat)
    requires index < |before| && |after| == |before| - 1
    requires forall j :: 0 <= j < index ==> after[j] == before[j]
    requires forall j :: index <= j < |after| ==> after[j] == before[j + 1]
    ensures after == Without(before, index)
  {
  }

  lemma KeepNext(q: seq<Element>, i: nat, dso: nat)
    requires i < |q|
    ensures Keep(q[..i + 1], dso) == Keep(q[..i], dso) + if Matches(q[i], dso) then [] else [q[i]]
  {
    assert q[..i + 1][..i] == q[..i];
  }

  class Block {
    var prev: Block?
    var size: nat
    const data: array<Element>

    predicate Valid() reads this { size <= BLOCK_SIZE == data.Length }

    function Live(): seq<Element>
      requires Valid()
      reads this, data
    {
      data[..size]
    }

    constructor ()
      ensures Valid() && size == 0 && prev == null && fresh(data)
    {
      prev, size := null, 0;
      data := new Element[BLOCK_SIZE](_ => Element(0, 0, 0));
    }

    /** Copies a whole block, as a structure assignment. */
    method CopyFrom(other: Block)
      requires Valid() && other.Valid() && other != this && other.data != data
      modifies this, data
      ensures Valid() && prev == other.prev && Live() == other.Live() && size == other.size
    {
      prev, size := other.prev, other.size;
      forall i | 0 <= i < BLOCK_SIZE {
        data[i] := other.data[i];
      }
    }

    method Append(elem: Element)
      requires Valid() && size < BLOCK_SIZE
      modifies this`size, data
      ensures Valid() && Live() == old(Live()) + [elem]
    {
      data[size] := elem;
      size := size + 1;
    }

    /** Searches backwards for an entry matching `dso`. */
    method FindNewest(dso: nat) returns (index: nat)
      requires Valid()
      ensures index == if NewestMatch(Live(), dso) < 0 then UINT32_MAX else NewestMatch(Live(), dso)
    {
      index := Before(size);
      if dso != 0 {
        while index != UINT32_MAX && dso != data[index].dso
          invariant index == UINT32_MAX || index < size
          invariant NewestMatch(Live(), dso) < if index == UINT32_MAX then 0 else index + 1
          decreases if index == UINT32_MAX then 0 else index + 1
        {
          index := Before(index);
        }
      }
    }

    /** Takes out the entry at `index`, moving the later ones down. */
    method TakeAt(index: nat) returns (elem: Element)
      requires Valid() && index < size
      modifies this`size, data
      ensures Valid() && elem == old(Live())[index] && Live() == Without(old(Live()), index)
    {
      ghost var was := data[..];
      elem := data[index];
      size := size - 1;
      var countToMove := size - index;
      var k := 0;
      while k < countToMove
        modifies data
        invariant k <= countToMove
        invariant forall j :: 0 <= j < index ==> data[j] == was[j]
        invariant forall j :: index <= j < index + k ==> data[j] == was[j + 1]
        invariant forall j :: index + k <= j < BLOCK_SIZE ==> data[j] == was[j]
      {
        data[index + k] := data[index + k + 1];
        k := k + 1;
      }
      ClosedGap(was[..size + 1], Live(), index);
    }

    /** Keeps the entries that do not match, moving them down. */
    method Compact(dso: nat) returns (removed: nat)
      requires Valid()
      modifies this`size, data
      ensures Valid() && Live() == Keep(old(Live()), dso)
      ensures removed == old(size) - size
    {
      var newSize := 0;
      if dso != 0 {
        ghost var was := Live();
        var index := 0;
        while index != size
          modifies data
          invariant newSize <= index <= size
          invariant data[..newSize] == Keep(was[..index], dso)
          invariant forall j :: index <= j < size ==> data[j] == was[j]
        {
          KeepNext(was, index, dso);
          if dso != data[index].dso {
            ghost var kept := data[..newSize];
            data[newSize] := data[index];
            newSize := newSize + 1;
            assert data[..newSize] == kept + [was[index]];
          }
          index := index + 1;
        }
        assert was[..index] == was;
      } else {
        KeepsNothing(Live());
      }
      removed := size - newSize;
      size := newSize;
    }
  }

  /** The entries of a chain whose blocks hold `parts`, the newest block first. */
  ghost function Flat(parts: seq<seq<Element>>): seq<Element>
  {
    if parts == [] then [] else Flat(parts[1..]) + parts[0]
  }

  lemma {:induction false} FlatOfConcat(newer: seq<seq<Element>>, older: seq<seq<Element>>)
    ensures Flat(newer + older) == Flat(older) + Flat(newer)
  {
    if newer == [] {
      assert newer + older == older;
    } else {
      assert (newer + older)[1..] == newer[1..] + older;
      FlatOfConcat(newer[1..], older);
    }
  }

  /** Contents of a chain around its block `k`. */
  lemma FlatAround(parts: seq<seq<Element>>, k: nat)
    requires k < |parts|
    ensures Flat(parts) == Flat(parts[k..]) + Flat(parts[..k])
    ensures Flat(parts[k..]) == Flat(parts[k + 1..]) + parts[k]
    ensures Flat(parts[..k + 1]) == parts[k] + Flat(parts[..k])
  {
    assert parts == parts[..k] + parts[k..];
    FlatOfConcat(parts[..k], parts[k..]);
    assert parts[k..][1..] == parts[k + 1..];
    assert parts[..k + 1] == parts[..k] + [parts[k]];
    FlatOfConcat(parts[..k], [parts[k]]);
    assert Flat([parts[k]]) == parts[k];
  }

  /** The block behind the one at `i`. */
  ghost function Behind(chain: seq<Block>, i: nat): Block?
    requires i < |chain|
  {
    if i + 1 < |chain| then chain[i + 1] else null
  }

  ghost predicate Separate(chain: seq<Block>)
  {
    forall i, j :: 0 <= i < |chain| && 0 <= j < |chain| && i != j ==>
      chain[i] != chain[j] && chain[i].data != chain[j].data
  }

  ghost predicate Owned(repr: set<object>, chain: seq<Block>)
  {
    forall b :: b in chain ==> b in repr && b.data in repr
  }

  /** Block `b` holds `part` and is followed by `behind`. */
  ghost predicate Holds(b: Block, part: seq<Element>, behind: Block?)
    reads b, b.data
  {
    b.Valid() && b.Live() == part && b.prev == behind
  }

  ghost predicate Linked(chain: seq<Block>, parts: seq<seq<Element>>)
    reads chain, set b | b in chain :: b.data
  {
    && |chain| == |parts|
    && Separate(chain)
    && forall i :: 0 <= i < |chain| ==> Holds(chain[i], parts[i], Behind(chain, i))
  }

  lemma OwnedAfterInsert(repr: set<object>, chain: seq<Block>, b: Block)
    requires Owned(repr, chain) && chain != [] && b in repr && b.data in repr
    ensures Owned(repr, [chain[0], b] + chain[1..])
  {
  }

  /** A new block `b`, put behind the first one, takes over what that one held. */
  lemma LinkedAfterInsert(chain: seq<Block>, parts: seq<seq<Element>>, b: Block)
    requires |chain| == |parts| > 0 && Separate(chain)
    requires forall i :: 0 <= i < |chain| ==> chain[i] != b && chain[i].data != b.data
    requires Holds(chain[0], [], b)
    requires Holds(b, parts[0], Behind(chain, 0))
    requires forall i :: 0 < i < |chain| ==> Holds(chain[i], parts[i], Behind(chain, i))
    ensures Linked([chain[0], b] + chain[1..], [[]] + parts)
  {
    var longer, more := [chain[0], b] + chain[1..], [[]] + parts;
    forall i | 2 <= i < |longer|
      ensures Holds(longer[i], more[i], Behind(longer, i))
      ensures longer[i] == chain[i - 1]
    {
      assert Holds(chain[i - 1], parts[i - 1], Behind(chain, i - 1));
    }
  }

  lemma FlatWithEmpty(parts: seq<seq<Element>>)
    ensures Flat([[]] + parts) == Flat(parts)
  {
    assert ([[]] + parts)[1..] == parts;
  }

  lemma FlatWithHead(parts: seq<seq<Element>>, part: seq<Element>)
    requires parts != []
    ensures Flat(parts[0 := part]) == Flat(parts[1..]) + part
  {
    assert parts[0 := part][1..] == parts[1..];
  }

  /** One block has come to hold something else. */
  lemma LinkedAfterChange(chain: seq<Block>, parts: seq<seq<Element>>, k: nat, part: seq<Element>)
    requires |chain| == |parts| && k < |chain| && Separate(chain)
    requires Holds(chain[k], part, Behind(chain, k))
    requires forall i :: 0 <= i < |chain| && i != k ==> Holds(chain[i], parts[i], Behind(chain, i))
    ensures Linked(chain, parts[k := part])
  {
  }

  lemma SeparateAfterRemove(chain: seq<Block>, k: nat)
    requires Separate(chain) && k + 1 < |chain|
    ensures Separate(chain[..k + 1] + chain[k + 2..])
  {
    var shorter := chain[..k + 1] + chain[k + 2..];
    forall i, j | 0 <= i < |shorter| && 0 <= j < |shorter| && i != j
      ensures shorter[i] != shorter[j] && shorter[i].data != shorter[j].data
    {
      var x, y := if i <= k then i else i + 1, if j <= k then j else j + 1;
      assert shorter[i] == chain[x] && shorter[j] == chain[y];
    }
  }

  /** A block that has taken over what the next one held takes its place in the chain. */
  lemma LinkedAfterRemove(chain: seq<Block>, parts: seq<seq<Element>>, k: nat)
    requires |chain| == |parts| && k + 1 < |chain| && Separate(chain)
    requires Holds(chain[k], parts[k + 1], Behind(chain, k + 1))
    requires forall i :: 0 <= i < |chain| && i != k && i != k + 1 ==> Holds(chain[i], parts[i], Behind(chain, i))
    ensures Linked(chain[..k + 1] + chain[k + 2..], parts[..k] + parts[k + 1..])
  {
    var shorter, fewer := chain[..k + 1] + chain[k + 2..], parts[..k] + parts[k + 1..];
    SeparateAfterRemove(chain, k);
    forall i | 0 <= i < |shorter|
      ensures Holds(shorter[i], fewer[i], Behind(shorter, i))
    {
      assert shorter[i] == if i <= k then chain[i] else chain[i + 1];
      if i < k {
        assert Holds(chain[i], parts[i], Behind(chain, i));
      } else if i > k {
        assert Holds(chain[i + 1], parts[i + 1], Behind(chain, i + 1));
      }
    }
  }

  /** How far a walk has come: `newer` is what the blocks behind it held, `now` what they hold. */
  ghost predicate Progress(out: bool, dso: nat, newer: seq<Element>, now: seq<Element>, npopped: nat)
  {
    if out then now == newer && NewestMatch(newer, dso) < 0 && npopped == 0
    else now == Keep(newer, dso) && npopped == |newer| - |now|
  }

  /** The newest match of the whole is the newest match of the first block that has one. */
  lemma FoundInBlock(parts: seq<seq<Element>>, k: nat, dso: nat)
    requires k < |parts| && NewestMatch(Flat(parts[..k]), dso) < 0 && NewestMatch(parts[k], dso) >= 0
    ensures var q, i := Flat(parts), NewestMatch(parts[k], dso);
            && NewestMatch(q, dso) == |Flat(parts[k + 1..])| + i
            && q[NewestMatch(q, dso)] == parts[k][i]
            && Flat(parts[k := Without(parts[k], i)]) == Without(q, NewestMatch(q, dso))
  {
    var part := Without(parts[k], NewestMatch(parts[k], dso));
    FlatAround(parts, k);
    FlatWithPart(parts, k, part);
    NewestMatchInMiddle(
      Flat(parts), Flat(parts[k := part]), Flat(parts[k + 1..]), parts[k], Flat(parts[..k]), dso);
  }

  lemma FlatWithPart(parts: seq<seq<Element>>, k: nat, part: seq<Element>)
    requires k < |parts|
    ensures Flat(parts[k := part]) == Flat(parts[k + 1..]) + part + Flat(parts[..k])
  {
    var other := parts[k := part];
    FlatAround(other, k);
    assert other[k + 1..] == parts[k + 1..] && other[..k] == parts[..k];
  }

  /** One more block is behind the walk. */
  lemma BlockDone(out: bool, dso: nat, before: seq<seq<Element>>, parts: seq<seq<Element>>, k: nat,
                  newer: seq<Element>, npopped: nat)
    requires k < |before| && Progress(out, dso, newer, Flat(before[..k]), npopped)
    requires parts == if out then before else before[k := Keep(before[k], dso)]
    requires out ==> NewestMatch(before[k], dso) < 0
    ensures Flat(before[k..]) + newer == Flat(parts[k + 1..]) + (before[k] + newer)
    ensures Progress(out, dso, before[k] + newer, Flat(parts[..k + 1]),
                     npopped + if out then 0 else |before[k]| - |parts[k]|)
  {
    FlatAround(before, k);
    FlatAround(parts, k);
    assert parts[k + 1..] == before[k + 1..] && parts[..k] == before[..k];
    AssociateAgain(Flat(before[k + 1..]), before[k], newer);
    if out {
      NewestMatchOfConcat(before[k], newer, dso);
    } else {
      KeepOfConcat(before[k], newer, dso);
    }
  }

  lemma AssociateAgain(a: seq<Element>, b: seq<Element>, c: seq<Element>)
    ensures (a + b) + c == a + (b + c)
  {
  }

  /** Dropping an empty block changes neither side of the walk. */
  lemma DropEmpty(parts: seq<seq<Element>>, k: nat)
    requires k < |parts| && parts[k] == []
    ensures var fewer := parts[..k] + parts[k + 1..];
            Flat(fewer[..k]) == Flat(parts[..k + 1]) && fewer[k..] == parts[k + 1..]
  {
    var fewer := parts[..k] + parts[k + 1..];
    assert fewer[..k] == parts[..k] && fewer[k..] == parts[k + 1..];
    FlatAround(parts, k);
  }

  lemma AllVisited(all: seq<Element>, newer: seq<Element>, rest: seq<Element>)
    requires all == rest + newer && rest == []
    ensures all == newer
  {
  }

  class Queue {
    const head: Block
    ghost var chain: seq<Block>             // the blocks, newest first
    ghost var parts: seq<seq<Element>>      // what each of them holds
    ghost var repr: set<object>             // every object that belongs to the queue

    ghost predicate Valid()
      reads this, repr
    {
      && this in repr && Owned(repr, chain)
      && chain != []
      && chain[0] == head
      && Linked(chain, parts)
    }

    /** All entries, oldest first. */
    ghost function Contents(): seq<Element>
      reads this
    {
      Flat(parts)
    }

    constructor ()
      ensures Valid() && Contents() == [] && fresh(repr) && head.size == 0
    {
      head := new Block();
      new;
      chain, parts, repr := [head], [[]], {this, head, head.data};
      assert Flat(parts[1..]) == [];
    }

    /** Makes room for `reservation` entries and appends one.  `oom`: an allocation would fail. */
    method ReserveAndPush(reservation: nat, elemOpt: Option<Element>, oom: bool) returns (err: int)
      requires Valid()
      modifies this, head, head.data
      ensures Valid()
      ensures err == -1 <==> !(1 <= reservation <= BLOCK_SIZE && elemOpt.Some? && elemOpt.value.dtor != 0)
      ensures err == -2 <==> err != -1 && oom && reservation > BLOCK_SIZE - old(head.size)
      ensures err == 0 || err == -1 || err == -2
      ensures Contents() == if err == 0 then old(Contents()) + [elemOpt.value] else old(Contents())
      ensures err == 0 ==> BLOCK_SIZE - head.size >= reservation - 1
      ensures err == 0 && reservation <= BLOCK_SIZE - old(head.size) ==> head.size == old(head.size) + 1
      ensures fresh(repr - old(repr)) && old(repr) <= repr
    {
      var capacity := BLOCK_SIZE;
      if reservation < 1 || reservation > capacity || elemOpt.None? || elemOpt.value.dtor == 0 {
        return -1;
      }
      if reservation > capacity - head.size {
        if oom {
          return -2;
        }
        Spill();
      }
      AppendToHead(elemOpt.value);
      return 0;
    }

    method AppendToHead(elem: Element)
      requires Valid() && head.size < BLOCK_SIZE
      modifies this`parts, head`size, head.data
      ensures Valid() && head.size == old(head.size) + 1
      ensures Contents() == old(Contents()) + [elem]
    {
      ghost var was := parts;
      assert Holds(head, was[0], Behind(chain, 0));
      FlatWithHead(was, was[0] + [elem]);
      FlatAround(was, 0);
      parts := was[0 := was[0] + [elem]];
      head.Append(elem);
      LinkedAfterChange(chain, was, 0, parts[0]);
    }

    /** Moves the contents of the first block to a new one behind it. */
    method Spill()
      requires Valid()
      modifies this, head, head.data
      ensures Valid() && head.size == 0
      ensures Contents() == old(Contents())
      ensures fresh(repr - old(repr)) && old(repr) <= repr
    {
      var prev := CopyOfHead();
      head.prev := prev;
      head.size := 0;
      InsertBehind(prev);
    }

    method CopyOfHead() returns (copy: Block)
      requires Valid()
      ensures fresh(copy) && fresh(copy.data) && Valid() && Holds(copy, parts[0], Behind(chain, 0))
    {
      copy := new Block();
      assert Holds(head, parts[0], Behind(chain, 0));
      copy.CopyFrom(head);
    }

    /** The first block has become empty, and the new block `b` behind it holds what that held. */
    ghost method InsertBehind(b: Block)
      requires this in repr && Owned(repr, chain) && chain != [] && chain[0] == head
      requires b !in repr && b.data !in repr && Separate(chain) && |chain| == |parts|
      requires Holds(head, [], b) && Holds(b, parts[0], Behind(chain, 0))
      requires forall i :: 0 < i < |chain| ==> Holds(chain[i], parts[i], Behind(chain, i))
      modifies this`chain, this`parts, this`repr
      ensures Valid() && Contents() == old(Contents()) && repr == old(repr) + {b, b.data}
    {
      var longer, more := [chain[0], b] + chain[1..], [[]] + parts;
      LinkedAfterInsert(chain, parts, b);
      OwnedAfterInsert(repr + {b, b.data}, chain, b);
      FlatWithEmpty(parts);
      chain, parts, repr := longer, more, repr + {b, b.data};
      assert Linked(chain, parts);
    }

    method Push(elemOpt: Option<Element>, oom: bool) returns (err: int)
      requires Valid()
      modifies this, head, head.data
      ensures Valid()
      ensures err == -1 <==> elemOpt.None? || elemOpt.value.dtor == 0
      ensures err == -2 <==> err != -1 && oom && old(head.size) == BLOCK_SIZE
      ensures err == 0 || err == -1 || err == -2
      ensures Contents() == if err == 0 then old(Contents()) + [elemOpt.value] else old(Contents())
      ensures err == 0 && old(head.size) < BLOCK_SIZE ==> head.size == old(head.size) + 1
      ensures fresh(repr - old(repr)) && old(repr) <= repr
    {
      err := ReserveAndPush(1, elemOpt, oom);
    }

    method TakeIn(cur: Block, ghost k: nat, index: nat) returns (elem: Element)
      requires Valid() && k < |chain| && cur == chain[k] && index < cur.size
      modifies this`parts, cur`size, cur.data
      ensures Valid() && elem == old(parts[k])[index]
      ensures parts == old(parts)[k := Without(old(parts[k]), index)]
    {
      ghost var was := parts;
      assert Holds(cur, was[k], Behind(chain, k));
      parts := was[k := Without(was[k], index)];
      elem := cur.TakeAt(index);
      LinkedAfterChange(chain, was, k, parts[k]);
    }

    method CompactIn(cur: Block, ghost k: nat, dso: nat) returns (removed: nat)
      requires Valid() && k < |chain| && cur == chain[k]
      modifies this`parts, cur`size, cur.data
      ensures Valid() && removed == |old(parts[k])| - |parts[k]|
      ensures parts == old(parts)[k := Keep(old(parts[k]), dso)]
    {
      ghost var was := parts;
      assert Holds(cur, was[k], Behind(chain, k));
      parts := was[k := Keep(was[k], dso)];
      removed := cur.Compact(dso);
      LinkedAfterChange(chain, was, k, parts[k]);
    }

    /** Replaces an empty block by the one behind it, which is then gone from the chain. */
    method Absorb(cur: Block, ghost k: nat, prev: Block)
      requires Valid() && k < |chain| && cur == chain[k] && cur.size == 0 && cur.prev == prev
      modifies this, cur, cur.data
      ensures Valid() && |chain| == old(|chain|) - 1 && k < |chain| && cur == chain[k]
      ensures parts == old(parts)[..k] + old(parts)[k + 1..]
      ensures repr == old(repr)
    {
      assert Holds(chain[k], parts[k], Behind(chain, k));
      assert Holds(chain[k + 1], parts[k + 1], Behind(chain, k + 1));
      cur.CopyFrom(prev);
      RemoveBehind(k);
    }

    /** The k-th block has taken over what the next one held. */
    ghost method RemoveBehind(k: nat)
      requires this in repr && Owned(repr, chain) && k + 1 < |chain| && chain[0] == head
      requires Separate(chain) && |chain| == |parts|
      requires Holds(chain[k], parts[k + 1], Behind(chain, k + 1))
      requires forall i :: 0 <= i < |chain| && i != k && i != k + 1 ==> Holds(chain[i], parts[i], Behind(chain, i))
      modifies this`chain, this`parts
      ensures Valid() && |chain| == old(|chain|) - 1 && chain[k] == old(chain[k])
      ensures parts == old(parts)[..k] + old(parts)[k + 1..]
    {
      LinkedAfterRemove(chain, parts, k);
      chain, parts := chain[..k + 1] + chain[k + 2..], parts[..k] + parts[k + 1..];
    }

    /** The work on one block: takes the newest match in it, or removes every match in it. */
    method Visit(cur: Block, out: bool, dso: nat, ghost k: nat, ghost newer: seq<Element>, ghost popped: nat)
      returns (n: nat, elem: Element)
      requires Valid() && k < |chain| && cur == chain[k]
      requires Progress(out, dso, newer, Flat(parts[..k]), popped)
      modifies this`parts, cur`size, cur.data
      ensures Valid() && |parts| == old(|parts|)
      ensures out && n > 0 ==>
                var q, i := old(Contents()), NewestMatch(old(Contents()), dso);
                i >= 0 && n == 1 && elem == q[i] && Contents() == Without(q, i)
      ensures !(out && n > 0) ==>
                && Flat(old(parts)[k..]) + newer == Flat(parts[k + 1..]) + (old(parts)[k] + newer)
                && Progress(out, dso, old(parts)[k] + newer, Flat(parts[..k + 1]), popped + n)
    {
      n, elem := 0, Element(0, 0, 0);
      assert Holds(cur, parts[k], Behind(chain, k));
      ghost var before := parts;
      if out {
        var index := cur.FindNewest(dso);
        if index != UINT32_MAX {
          FoundInBlock(before, k, dso);
          elem := TakeIn(cur, k, index);
          n := 1;
          return;
        }
      } else {
        n := CompactIn(cur, k, dso);
      }
      BlockDone(out, dso, before, parts, k, newer, popped);
    }

    /** Goes on to the block behind `cur`, if there is one; when `cur` is empty, that block
        is moved into its place. */
    method Leave(cur: Block, ghost k: nat) returns (next: Block?, ghost at: nat)
      requires Valid() && k < |chain| && cur == chain[k]
      modifies this, cur, cur.data
      ensures Valid() && repr == old(repr)
      ensures next == null ==> parts == old(parts) && Flat(parts[k + 1..]) == [] && parts[..k + 1] == parts
      ensures next != null ==>
                && at < |chain| && next == chain[at]
                && |chain| - at < old(|chain|) - k
                && Flat(parts[..at]) == Flat(old(parts)[..k + 1])
                && parts[at..] == old(parts)[k + 1..]
    {
      assert Holds(cur, parts[k], Behind(chain, k));
      next, at := cur.prev, k;
      if next != null {
        if cur.size != 0 {
          at := k + 1;
        } else {
          DropEmpty(parts, k);
          Absorb(cur, k, next);
          next := cur;
        }
      }
    }

    /** Walks the chain from the newest block on.  With `out`, takes the newest match; without,
        removes every match.  Blocks that are empty when the walk leaves them are dropped. */
    method PopCommon(out: bool, dso: nat) returns (npopped: nat, elem: Element)
      requires Valid()
      modifies this, repr
      ensures Valid() && repr == old(repr)
      ensures out ==> var q, i := old(Contents()), NewestMatch(old(Contents()), dso);
                      if i < 0 then npopped == 0 && Contents() == q
                      else npopped == 1 && elem == q[i] && Contents() == Without(q, i)
      ensures !out ==> Contents() == Keep(old(Contents()), dso) && npopped == |old(Contents())| - |Contents()|
    {
      npopped, elem := 0, Element(0, 0, 0);
      var cur := head;
      ghost var k: nat, newer := 0, [];   // `newer`: what the blocks before `k` held at the start
      ghost var all := Contents();
      while true
        invariant Valid() && k < |chain| && cur == chain[k]
        invariant repr == old(repr)
        invariant all == Flat(parts[k..]) + newer
        invariant Progress(out, dso, newer, Flat(parts[..k]), npopped)
        decreases |chain| - k
      {
        FlatAround(parts, k);
        assert out ==> Contents() == all;
        ghost var part := parts[k];
        var n, e := Visit(cur, out, dso, k, newer, npopped);
        npopped := npopped + n;
        if out && n > 0 {
          elem := e;
          return;
        }
        newer := part + newer;
        var next, at := Leave(cur, k);
        if next == null {
          AllVisited(all, newer, Flat(parts[k + 1..]));
          return;
        }
        cur, k := next, at;
      }
    }

    /** Takes the newest entry that matches: 0 with the entry, or -1 when there is none. */
    method Pop(dso: nat) returns (err: int, elem: Element)
      requires Valid()
      modifies this, repr
      ensures Valid() && repr == old(repr)
      ensures var q, i := old(Contents()), NewestMatch(old(Contents()), dso);
              if i < 0 then err == -1 && Contents() == q
              else err == 0 && elem == q[i] && Contents() == Without(q, i)
    {
      var npopped: int;
      npopped, elem := PopCommon(true, dso);
      err := npopped - 1;
    }

    /** Removes every entry that matches and tells how many there were. */
    method Remove(dso: nat) returns (count: nat)
      requires Valid()
      modifies this, repr
      ensures Valid() && repr == old(repr)
      ensures Contents() == Keep(old(Contents()), dso)
      ensures count == |Matching(old(Contents()), dso)|
    {
      KeepAndMatchingSplit(Contents(), dso);
      var elem;
      count, elem := PopCommon(false, dso);
    }
  }

  lemma PrefixGrows(start: seq<Element>, more: seq<Element>, k: nat)
    requires k < |more|
    ensures start + more[..k] + [more[k]] == start + more[..k + 1]
  {
    assert more[..k + 1] == more[..k] + [more[k]];
  }

  /** While there is room in the first block, a push cannot fail. */
  method PushInRoom(q: Queue, elem: Element)
    requires q.Valid() && q.head.size < BLOCK_SIZE && elem.dtor != 0
    modifies q, q.head, q.head.data
    ensures q.Valid() && q.Contents() == old(q.Contents()) + [elem] && q.head.size == old(q.head.size) + 1
  {
    var err := q.Push(Some(elem), true);
    assert err == 0;
  }

  method PushMore(q: Queue, more: seq<Element>)
    requires q.Valid() && |more| <= BLOCK_SIZE - q.head.size && forall e :: e in more ==> e.dtor != 0
    modifies q, q.head, q.head.data
    ensures q.Valid() && q.Contents() == old(q.Contents()) + more
  {
    ghost var start := q.Contents();
    var k := 0;
    while k < |more|
      invariant k <= |more| && q.Valid()
      invariant BLOCK_SIZE - q.head.size >= |more| - k
      invariant q.Contents() == start + more[..k]
    {
      PushInRoom(q, more[k]);
      PrefixGrows(start, more, k);
      k := k + 1;
    }
    assert more[..k] == more;
  }

  /** What a reservation is for: after a push that reserved room for `1 + |more|` entries, the
      next `|more|` pushes succeed even if every allocation fails. */
  method PushReserved(q: Queue, first: Element, more: seq<Element>, oom: bool) returns (err: int)
    requires q.Valid() && |more| < BLOCK_SIZE
    requires first.dtor != 0 && forall e :: e in more ==> e.dtor != 0
    modifies q, q.head, q.head.data
    ensures q.Valid()
    ensures err == 0 || (err == -2 && oom)
    ensures q.Contents() == if err == 0 then old(q.Contents()) + [first] + more else old(q.Contents())
  {
    err := q.ReserveAndPush(1 + |more|, Some(first), oom);
    if err == 0 {
      PushMore(q, more);
    }
  }

  /** A sequence of registrations, for which there is memory. */
  method PushAll(q: Queue, elems: seq<Element>)
    requires q.Valid() && forall e :: e in elems ==> e.dtor != 0
    modifies q, q.repr
    ensures q.Valid() && fresh(q.repr - old(q.repr))
    ensures q.Contents() == old(q.Contents()) + elems
  {
    ghost var start := q.Contents();
    for k := 0 to |elems|
      invariant q.Valid() && fresh(q.repr - old(q.repr))
      invariant q.Contents() == start + elems[..k]
    {
      var err := q.Push(Some(elems[k]), false);
      PrefixGrows(start, elems, k);
    }
    assert elems[..|elems|] == elems;
  }
}
