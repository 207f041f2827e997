/** Thread-local values: reference-counted keys, and a hash table per thread that behaves as a
    map from live keys to non-null values. */
module TlsTable {
  import opened Wrappers
  import opened Tally
  import opened TlsSlots
  import opened TlsDrain

  const INITIAL_CAPACITY := 17
  const CAPACITY_PER_KEY := 3

  /** What a caller asks for: a value to be set, or a key to be deleted. */
  datatype Request = SetValue(key: nat, value: nat, room: Option<nat>) | DeleteKey(key: nat)

  /** How many references the requests give up. */
  function Deletions(requests: seq<Request>, key: nat): nat
  {
    if requests == [] then 0
    else Deletions(requests[1..], key) + if requests[0] == DeleteKey(key) then 1 else 0
  }

  /** The operation is the one asked for; a value may fail to be stored for want of memory. */
  predicate Answers(op: Op, request: Request)
  {
    match request
    case SetValue(key, value, _) => op == Set(key, value, true) || op == Set(key, value, false)
    case DeleteKey(key) => op == TlsSlots.Delete(key)
  }

  /** The answer to one request after the operations `past`, with the previous value that it
      reported.  A value is stored unless the key has been deleted or there is no memory, and a
      null value needs none. */
  ghost predicate Served(past: seq<Op>, op: Op, before: nat, request: Request)
  {
    && Answers(op, request)
    && match request
       case SetValue(key, value, room) =>
         && (TlsSlots.Delete(key) in past ==> !op.stored)
         && (TlsSlots.Delete(key) !in past && (value == 0 || room.Some?) ==> op.stored)
         && before == (if op.stored then Lookup(ApplyAll(past).view, key) else 0)
       case DeleteKey(_) => before == 0
  }

  ghost predicate AllServed(ops: seq<Op>, befores: seq<nat>, requests: seq<Request>)
  {
    && |ops| == |befores| == |requests|
    && forall i :: 0 <= i < |ops| ==> Served(ops[..i], ops[i], befores[i], requests[i])
  }

  lemma ServedOneMore(ops: seq<Op>, befores: seq<nat>, requests: seq<Request>, op: Op, before: nat, request: Request)
    requires AllServed(ops, befores, requests) && Served(ops, op, before, request)
    ensures AllServed(ops + [op], befores + [before], requests + [request])
  {
    var more := ops + [op];
    forall i | 0 <= i < |more|
      ensures Served(more[..i], more[i], (befores + [before])[i], (requests + [request])[i])
    {
      assert more[..i] == ops[..i];
      assert i < |ops| ==> Served(ops[..i], ops[i], befores[i], requests[i]);
    }
  }

  /** The key objects, by address. */
  class KeyHeap {
    var keys: map<nat, Key>

    constructor ()
      ensures keys == map[]
    {
      keys := map[];
    }

    /** A new key, at an address of the allocator's choice; zero if it has no memory. */
    method New(dtor: nat, address: nat) returns (key: nat)
      requires address !in keys
      modifies this
      ensures key == address
      ensures address == 0 ==> keys == old(keys)
      ensures address != 0 ==> keys == old(keys)[key := Key(1, false, dtor)]
    {
      if address == 0 {
        return 0;
      }
      keys := keys[address := Key(1, false, dtor)];
      return address;
    }

    method AddRef(key: nat)
      requires key in keys
      modifies this
      ensures keys == old(keys)[key := old(keys)[key].(nref := old(keys)[key].nref + 1)]
    {
      keys := keys[key := keys[key].(nref := keys[key].nref + 1)];
    }

    method DropRef(key: nat)
      requires key in keys && keys[key].nref > 0
      modifies this
      ensures keys == Released(old(keys), key)
    {
      var before := keys[key].nref;
      keys := keys[key := keys[key].(nref := before - 1)];
      if before != 1 {
        return;
      }
      keys := keys - {key};
    }

    /** Deletes a key and drops a reference to it. */
    method Delete(key: nat)
      requires key in keys && keys[key].nref > 0
      modifies this
      ensures keys == Released(old(keys)[key := old(keys)[key].(deleted := true)], key)
    {
      MarkDeleted(key);
      DropRef(key);
    }

    method MarkDeleted(key: nat)
      requires key in keys
      modifies this
      ensures keys == old(keys)[key := old(keys)[key].(deleted := true)]
    {
      keys := keys[key := keys[key].(deleted := true)];
    }
  }

  class Table {
    const heap: KeyHeap
    var slots: array?<Slot>
    var sizeHint: nat

    function Slots(): seq<Slot>
      reads this, slots
    {
      if slots == null then [] else slots[..]
    }

    /** Every key in the table with its value, deleted keys and null values included. */
    function Contents(): map<nat, nat>
      reads this, slots
    {
      Entries(Slots())
    }

    /** What callers can get out of the table. */
    function View(): map<nat, nat>
      reads this, slots, heap
    {
      Live(heap.keys, Contents())
    }

    /** References to a key other than that of this table. */
    function Foreign(key: nat): int
      reads this, slots, heap
    {
      External(heap.keys, Contents(), key)
    }

    ghost predicate Shaped()
      reads this, slots
    {
      && (slots == null ==> sizeHint == 0)
      && (slots != null ==>
            && slots.Length >= INITIAL_CAPACITY
            && Sound(slots[..])
            && Total(slots[..], Full) == sizeHint <= slots.Length / 2)
    }

    ghost predicate Valid()
      reads this, slots, heap
    {
      Shaped() && Counted(heap.keys, Contents())
    }

    constructor (heap: KeyHeap)
      requires Counted(heap.keys, map[])
      ensures Valid() && this.heap == heap && slots == null && View() == map[]
    {
      this.heap := heap;
      slots, sizeHint := null, 0;
    }

    /** The slot with this key, or the empty slot where it would go. */
    method Probe(key: nat) returns (index: nat)
      requires slots != null && Shaped() && key != 0
      ensures index < slots.Length && Found(slots[..], key, index)
    {
      ghost var empty := EmptySlot(slots[..]);
      assert slots[empty] == slots[..][empty];
      var origin := Origin(key, slots.Length);
      if slots[origin].key == key {
        return origin;
      }
      var cur := origin;
      while cur != slots.Length
        invariant origin <= cur <= slots.Length
        invariant forall j :: origin <= j < cur ==> slots[j].key != 0 && slots[j].key != key
      {
        if slots[cur].key == 0 || slots[cur].key == key {
          return cur;
        }
        cur := cur + 1;
      }
      cur := 0;
      while cur != origin
        invariant 0 <= cur <= origin
        invariant forall j :: 0 <= j < cur ==> slots[j].key != 0 && slots[j].key != key
        decreases origin - cur
      {
        if slots[cur].key == 0 || slots[cur].key == key {
          return cur;
        }
        cur := cur + 1;
      }
      assert false;
    }

    /** The value of a key; zero if it has none or has been deleted. */
    method Get(key: nat) returns (value: nat)
      requires Valid() && key in heap.keys
      ensures value == Lookup(View(), key)
    {
      if heap.keys[key].deleted {
        return 0;
      }
      if slots == null {
        return 0;
      }
      var index := Probe(key);
      ProbeFinds(slots[..], key, index);
      if slots[index].key == 0 {
        return 0;
      }
      return slots[index].value;
    }

    /** Writes a key and a value to the slot where probing for the key ends. */
    method Store(key: nat, value: nat, index: nat)
      requires slots != null && Shaped() && key != 0
      requires Found(slots[..], key, index)
      requires slots[index].key == 0 ==> sizeHint < slots.Length / 2
      modifies this`sizeHint, slots
      ensures Shaped()
      ensures Contents() == old(Contents())[key := value]
      ensures sizeHint == old(sizeHint) + if key in old(Contents()) then 0 else 1
    {
      ghost var was := slots[..];
      ProbeFinds(was, key, index);
      TotalUpdate(was, Full, index, Slot(key, value));
      if slots[index].key == 0 {
        ProbeMisses(was, key, index);
        FillIsSound(was, key, value, index);
        sizeHint := sizeHint + 1;
      } else {
        OverwriteIsSound(was, value, index);
      }
      EntriesUpdate(was, key, value, index);
      slots[index] := Slot(key, value);
      assert slots[..] == was[index := Slot(key, value)];
    }

    /** Takes one element of the old table over, or drops the reference to its key if that has
        been deleted. */
    method Relocate(x: Slot)
      requires slots != null && Shaped() && sizeHint < slots.Length / 2
      requires x.key != 0 && x.key in heap.keys && heap.keys[x.key].nref > 0 && x.key !in Contents()
      modifies this`sizeHint, slots, heap
      ensures Shaped()
      ensures if old(heap.keys)[x.key].deleted then
                && heap.keys == Released(old(heap.keys), x.key)
                && Contents() == old(Contents()) && sizeHint == old(sizeHint)
              else
                && heap.keys == old(heap.keys)
                && Contents() == old(Contents())[x.key := x.value] && sizeHint == old(sizeHint) + 1
    {
      if heap.keys[x.key].deleted {
        heap.DropRef(x.key);
        return;
      }
      var index := Probe(x.key);
      Store(x.key, x.value, index);
    }

    /** How many slots a larger table needs: one key out of three, and some to spare. */
    method CountCapacity() returns (capacity: nat)
      requires Valid()
      ensures capacity == INITIAL_CAPACITY + CAPACITY_PER_KEY * Total(Slots(), Kept(heap.keys))
    {
      capacity := INITIAL_CAPACITY;
      var size := if slots == null then 0 else slots.Length;
      assert Slots()[..size] == Slots();
      for i := 0 to size
        invariant capacity == INITIAL_CAPACITY + CAPACITY_PER_KEY * Total(Slots()[..i], Kept(heap.keys))
      {
        assert Slots()[..i + 1][..i] == Slots()[..i] && Slots()[i] == slots[i];
        if slots[i].key != 0 {
          EntryAt(Slots(), i);
        }
        if slots[i].key != 0 && !heap.keys[slots[i].key].deleted {
          capacity := capacity + CAPACITY_PER_KEY;
        }
      }
    }

    /** Takes over the elements of an old table, last one first, into this empty one. */
    method TakeOver(oldSlots: array<Slot>)
      requires slots != null && slots != oldSlots && Shaped() && sizeHint == 0 && Contents() == map[]
      requires Distinct(oldSlots[..]) && Counted(heap.keys, Entries(oldSlots[..]))
      requires slots.Length >= INITIAL_CAPACITY + CAPACITY_PER_KEY * Total(oldSlots[..], Kept(heap.keys))
      modifies this`sizeHint, slots, heap
      ensures Shaped() && sizeHint < slots.Length / 2
      ensures Contents() == Relocated(old(heap.keys), old(oldSlots[..]))
      ensures heap.keys == ReleasedAll(old(heap.keys), Deleted(old(heap.keys), old(oldSlots[..])))
    {
      ghost var was, keys := oldSlots[..], heap.keys;
      var oldEnd := oldSlots.Length;
      assert was[oldEnd..] == [] && was[..oldEnd] == was;
      assert ReleasedAll(keys, Deleted(keys, [])) == keys;
      while oldEnd != 0
        modifies this`sizeHint, slots, heap
        invariant 0 <= oldEnd <= |was|
        invariant Shaped()
        invariant sizeHint + Total(was[..oldEnd], Kept(keys)) == Total(was, Kept(keys))
        invariant Contents() == Relocated(keys, was[oldEnd..])
        invariant heap.keys == ReleasedAll(keys, Deleted(keys, was[oldEnd..]))
      {
        oldEnd := oldEnd - 1;
        var x := oldSlots[oldEnd];
        assert x == was[oldEnd];
        ApproachCounts(keys, was, oldEnd);
        if x.key == 0 {
          ApproachEmpty(keys, was, oldEnd);
        } else {
          ApproachKey(keys, was, oldEnd);
          Relocate(x);
        }
      }
      assert was[0..] == was && was[..0] == [];
    }

    /** Moves to a larger table, leaving deleted keys behind.  `room` is what the allocator
        gives beyond what is asked for, or nothing at all. */
    method Grow(room: Option<nat>) returns (ok: bool)
      requires Valid()
      modifies this, heap
      ensures ok == room.Some?
      ensures !ok ==> slots == old(slots) && sizeHint == old(sizeHint) && heap.keys == old(heap.keys)
      ensures ok ==>
                && fresh(slots) && Shaped() && sizeHint < slots.Length / 2
                && Contents() == Relocated(old(heap.keys), old(Slots()))
                && heap.keys == ReleasedAll(old(heap.keys), Deleted(old(heap.keys), old(Slots())))
    {
      var capacity := CountCapacity();
      TotalNonNegative(Slots(), Kept(heap.keys));
      if room == None {
        return false;
      }
      var oldSlots := slots;
      slots := new Slot[capacity + room.value](_ => Slot(0, 0));
      sizeHint := 0;
      TotalZero(slots[..], Full);
      EmptyEntries(slots[..]);
      if oldSlots != null {
        TakeOver(oldSlots);
      } else {
        assert ReleasedAll(heap.keys, {}) == heap.keys;
      }
      return true;
    }

    /** Makes room for another key if need be. */
    method MakeRoom(value: nat, room: Option<nat>) returns (ok: bool)
      requires Valid()
      modifies this, heap
      ensures Valid() && (slots == old(slots) || fresh(slots))
      ensures ok == (value == 0 || old(!IsFull()) || room.Some?)
      ensures !ok || value == 0 ==> slots == old(slots) && sizeHint == old(sizeHint) && heap.keys == old(heap.keys)
      ensures ok && value != 0 ==> slots != null && !IsFull()
      ensures View() == old(View())
      ensures forall k :: Foreign(k) == old(Foreign(k))
      ensures forall k :: k in old(heap.keys) && !old(heap.keys)[k].deleted ==>
                            k in heap.keys && heap.keys[k] == old(heap.keys)[k]
      ensures SameFlags(old(heap.keys), heap.keys)
      ensures forall k :: k in old(heap.keys) && !old(heap.keys)[k].deleted ==>
                            (k in Contents() <==> k in old(Contents()))
    {
      ok := true;
      if value != 0 && IsFull() {
        GrowingIsInvisible(heap.keys, Slots());
        ok := Grow(room);
      }
    }

    /** Fills a key into the empty slot at which probing for it has ended. */
    method AddKey(key: nat, value: nat, index: nat)
      requires Valid() && slots != null && key in heap.keys && !heap.keys[key].deleted && !IsFull()
      requires Found(slots[..], key, index) && key !in Contents()
      modifies this`sizeHint, heap, slots
      ensures Valid() && View() == WithValue(old(View()), key, value)
      ensures forall k :: Foreign(k) == old(Foreign(k))
      ensures SameFlags(old(heap.keys), heap.keys) && key in Contents()
    {
      ghost var keys, e := heap.keys, Contents();
      AddingKey(keys, e, key, value);
      heap.AddRef(key);
      Store(key, value, index);
      assert heap.keys == keys[key := keys[key].(nref := keys[key].nref + 1)] && Contents() == e[key := value];
    }

    /** Sets the value of a key where there is room for it, and reports the previous one. */
    method Assign(key: nat, value: nat) returns (before: nat)
      requires Valid() && slots != null && key in heap.keys && !heap.keys[key].deleted
      requires value != 0 ==> !IsFull()
      modifies this`sizeHint, heap, slots
      ensures Valid()
      ensures before == Lookup(old(View()), key) && View() == WithValue(old(View()), key, value)
      ensures forall k :: Foreign(k) == old(Foreign(k))
      ensures SameFlags(old(heap.keys), heap.keys)
      ensures key in Contents() <==> value != 0 || key in old(Contents())
    {
      var index := Probe(key);
      ProbeFinds(slots[..], key, index);
      if slots[index].key == 0 {
        NotThere(heap.keys, Contents(), key);
        if value != 0 {
          AddKey(key, value, index);
        }
        return 0;
      }
      OverwritingValue(heap.keys, Contents(), key, value);
      before := slots[index].value;
      Store(key, value, index);
    }

    /** Sets the value of a key and reports the previous one: 0 on success, -1 if the key has
        been deleted, -2 if there is no memory. */
    method XSet(key: nat, value: nat, room: Option<nat>) returns (status: int, before: nat)
      requires Valid() && key in heap.keys
      modifies this, heap, slots
      ensures Valid() && (slots == old(slots) || fresh(slots))
      ensures status == if old(heap.keys)[key].deleted then -1
                        else if value != 0 && room == None && old(sizeHint >= |Slots()| / 2) then -2 else 0
      ensures status == 0 ==> before == Lookup(old(View()), key) && View() == WithValue(old(View()), key, value)
      ensures status != 0 ==>
                && before == 0 && slots == old(slots) && Slots() == old(Slots())
                && sizeHint == old(sizeHint) && heap.keys == old(heap.keys)
      ensures status == 0 ==> (key in Contents() <==> value != 0 || key in old(Contents()))
      ensures forall k :: Foreign(k) == old(Foreign(k))
      ensures SameFlags(old(heap.keys), heap.keys)
    {
      before := 0;
      if heap.keys[key].deleted {
        return -1, before;
      }
      if value == 0 && slots == null {
        return 0, before;
      }
      var ok := MakeRoom(value, room);
      if !ok {
        return -2, before;
      }
      before := Assign(key, value);
      return 0, before;
    }

    /** The table has to grow before another key can be added. */
    predicate IsFull()
      reads this, slots
    {
      sizeHint >= (if slots == null then 0 else slots.Length) / 2
    }

    /** The callers' view and the deleted keys are as after these operations. */
    ghost predicate Reflects(ops: seq<Op>)
      reads this, slots, heap
    {
      && View() == ApplyAll(ops).view
      && forall k :: k in heap.keys ==> (heap.keys[k].deleted <==> k in ApplyAll(ops).deleted)
    }

    /** One request to a table that reflects `ops`. */
    method Perform(request: Request, ghost ops: seq<Op>) returns (op: Op, before: nat)
      requires Valid() && Reflects(ops) && Foreign(request.key) > 0
      modifies this, heap, slots
      ensures Valid() && (slots == old(slots) || fresh(slots))
      ensures Served(ops, op, before, request)
      ensures Reflects(ops + [op])
      ensures forall k :: Foreign(k) == old(Foreign(k)) - (if request == DeleteKey(k) then 1 else 0)
    {
      LastValueWins(ops, request.key);
      match request {
        case SetValue(key, value, room) =>
          var status;
          status, before := XSet(key, value, room);
          op := Set(key, value, status == 0);
        case DeleteKey(key) =>
          DeletingKey(heap.keys, Contents(), key);
          heap.Delete(key);
          op, before := TlsSlots.Delete(key), 0;
      }
      assert (ops + [op])[..|ops|] == ops;
    }

    /** The first `i` requests have been served, and there are references enough for the rest. */
    ghost predicate Performed(ops: seq<Op>, befores: seq<nat>, requests: seq<Request>, i: nat)
      requires i <= |requests|
      reads this, slots, heap
    {
      && Reflects(ops) && AllServed(ops, befores, requests[..i])
      && forall r :: r in requests ==> Foreign(r.key) > Deletions(requests[i..], r.key)
    }

    method PerformNext(requests: seq<Request>, i: nat, ops: seq<Op>, befores: seq<nat>)
      returns (ops': seq<Op>, befores': seq<nat>)
      requires i < |requests| && Valid() && Performed(ops, befores, requests, i)
      modifies this, heap, slots
      ensures Valid() && (slots == old(slots) || fresh(slots))
      ensures Performed(ops', befores', requests, i + 1)
    {
      assert requests[i..][1..] == requests[i + 1..];
      assert requests[i] in requests;
      var op, before := Perform(requests[i], ops);
      ServedOneMore(ops, befores, requests[..i], op, before, requests[i]);
      assert requests[..i] + [requests[i]] == requests[..i + 1];
      return ops + [op], befores + [before];
    }

    /** Any sequence of requests to a new table, by somebody who holds enough references: every
        value for which there is memory is stored and the previous one reported, unless the key
        has been deleted, and in the end every key has the value last stored, unless it has been
        deleted. */
    method PerformAll(requests: seq<Request>) returns (ops: seq<Op>, befores: seq<nat>)
      requires Valid() && View() == map[] && forall k :: k in heap.keys ==> !heap.keys[k].deleted
      requires forall r :: r in requests ==> Foreign(r.key) > Deletions(requests, r.key)
      modifies this, heap, slots
      ensures Valid() && Reflects(ops) && AllServed(ops, befores, requests)
      ensures forall key :: Lookup(View(), key) ==
                            if TlsSlots.Delete(key) in ops || LastStore(ops, key) < 0 then 0
                            else ops[LastStore(ops, key)].value
    {
      ops, befores := [], [];
      assert requests[0..] == requests;
      for i := 0 to |requests|
        invariant Valid() && (slots == old(slots) || fresh(slots))
        invariant Performed(ops, befores, requests, i)
      {
        ops, befores := PerformNext(requests, i, ops, befores);
      }
      assert requests[..|requests|] == requests;
      forall key
        ensures Lookup(View(), key) == if TlsSlots.Delete(key) in ops || LastStore(ops, key) < 0 then 0
                                       else ops[LastStore(ops, key)].value
      {
        LastValueWins(ops, key);
      }
    }

    /** Slot `i` holds something to pop. */
    predicate Ripe(i: nat)
      requires slots != null && i < slots.Length
      reads this, slots, heap
    {
      slots[i].value != 0 && slots[i].key in heap.keys && !heap.keys[slots[i].key].deleted
    }

    /** Slot `index` is the first that holds something to pop, looking from the slot after `hint` to
        the end and then from the beginning; a hint beyond the end stands for the beginning. */
    ghost predicate IsNextRipe(hint: nat, index: nat)
      reads this, slots, heap
    {
      && slots != null && index < slots.Length && Ripe(index)
      && var origin := if hint < slots.Length then hint + 1 else 0;
         forall i :: 0 <= i < slots.Length && Before(origin, i, index) ==> !Ripe(i)
    }

    /** The first slot to pop from, looking from `origin` to the end and then from the
        beginning to `origin`. */
    method FindRipe(origin: nat) returns (found: bool, index: nat)
      requires Valid() && slots != null && origin <= slots.Length
      ensures if found then index < slots.Length && Ripe(index)
              else forall i :: 0 <= i < slots.Length ==> !Ripe(i)
      ensures found ==> forall i :: 0 <= i < slots.Length && Before(origin, i, index) ==> !Ripe(i)
    {
      var cur := origin;
      while cur != slots.Length
        invariant origin <= cur <= slots.Length
        invariant forall i :: origin <= i < cur ==> !Ripe(i)
      {
        if slots[cur].value != 0 {
          SlotKeyExists(heap.keys, slots[..], cur);
        }
        if slots[cur].value != 0 && !heap.keys[slots[cur].key].deleted {
          return true, cur;
        }
        cur := cur + 1;
      }
      cur := 0;
      while cur != origin
        invariant 0 <= cur <= origin
        invariant forall i :: 0 <= i < cur || origin <= i < slots.Length ==> !Ripe(i)
        decreases origin - cur
      {
        if slots[cur].value != 0 {
          SlotKeyExists(heap.keys, slots[..], cur);
        }
        if slots[cur].value != 0 && !heap.keys[slots[cur].key].deleted {
          return true, cur;
        }
        cur := cur + 1;
      }
      return false, 0;
    }

    /** Takes the value out of a slot; the key stays. */
    method PopAt(index: nat) returns (key: nat, value: nat)
      requires Valid() && slots != null && index < slots.Length && Ripe(index)
      modifies slots
      ensures Valid() && heap.keys == old(heap.keys) && slots[index].key == key
      ensures key in old(View()) && value == old(View())[key] && View() == old(View()) - {key}
      ensures old(View()) != map[]
      ensures Contents().Keys == old(Contents()).Keys
      ensures forall k :: Foreign(k) == old(Foreign(k))
    {
      ghost var was := slots[..];
      key := slots[index].key;
      value := slots[index].value;
      EntryAt(was, index);
      TotalUpdate(was, Full, index, Slot(key, 0));
      OverwriteIsSound(was, 0, index);
      EntriesUpdate(was, key, 0, index);
      LiveUpdate(heap.keys, Entries(was), key, 0);
      slots[index] := Slot(key, 0);
      assert slots[..] == was[index := Slot(key, 0)];
    }

    /** Drops the reference to every key, and the storage. */
    method Clear()
      requires Valid() && slots != null
      modifies this, heap
      ensures Valid() && slots == null
      ensures heap.keys == ReleasedAll(old(heap.keys), old(Contents()).Keys)
      ensures forall k :: Foreign(k) == old(Foreign(k))
    {
      ghost var was, keys := slots[..], heap.keys;
      ReleasingOwnReferences(keys, Entries(was), Entries(was).Keys);
      assert Entries(was) - Entries(was).Keys == map[];
      assert was[..0] == [] && was[..|was|] == was;
      assert ReleasedAll(keys, {}) == keys;
      for cur := 0 to slots.Length
        modifies heap
        invariant slots[..] == was
        invariant heap.keys == ReleasedAll(keys, Entries(was[..cur]).Keys)
      {
        NextKey(keys, was, cur);
        if slots[cur].key != 0 {
          heap.DropRef(slots[cur].key);
        }
      }
      slots, sizeHint := null, 0;
    }

    /** Pops one non-null value of a key that is not deleted.  When there is none, or when
        nothing is wanted, gives up all keys and the storage.  The hint may be anything. */
    method Pop(wanted: bool, hint: nat) returns (status: int, key: nat, value: nat, next: nat)
      requires Valid()
      modifies this, heap, slots
      ensures Valid() && (slots == old(slots) || slots == null)
      ensures status == if wanted && old(View()) != map[] then 0 else -1
      ensures status == 0 ==>
                && key in old(View()) && value == old(View())[key] && View() == old(View()) - {key}
                && heap.keys == old(heap.keys) && slots == old(slots) != null
                && next < slots.Length && slots[next].key == key && old(IsNextRipe(hint, next))
      ensures status == -1 ==>
                && slots == null
                && heap.keys == ReleasedAll(old(heap.keys), old(Contents()).Keys)
      ensures forall k :: Foreign(k) == old(Foreign(k))
    {
      if slots == null {
        assert ReleasedAll(heap.keys, {}) == heap.keys;
        assert Contents() == map[] && View() == map[];
        return -1, 0, 0, 0;
      }
      if wanted {
        var origin := 0;
        if hint < slots.Length {
          origin := hint + 1;
        }
        var found, index := FindRipe(origin);
        if found {
          key, value := PopAt(index);
          return 0, key, value, index;
        }
        assert forall i :: 0 <= i < slots.Length ==> slots[..][i] == slots[i] && !Ripe(i);
        NothingLive(heap.keys, slots[..]);
        assert View() == map[];
      }
      Clear();
      return -1, 0, 0, 0;
    }

    /** Somebody else holds a reference to every key used by these calls. */
    ghost predicate MayCall(calls: seq<Call>)
      reads this, slots, heap
    {
      forall i :: 0 <= i < |calls| ==> Foreign(calls[i].key) > 0
    }

    ghost predicate AllMayCall(script: seq<seq<Call>>)
      reads this, slots, heap
    {
      forall k :: 0 <= k < |script| ==> MayCall(script[k])
    }

    /** The calls that a destructor makes, one after the other. */
    method RunCalls(calls: seq<Call>) returns (ghost answers: seq<Answer>)
      requires Valid() && MayCall(calls)
      modifies this, heap, slots
      ensures Valid() && (slots == old(slots) || fresh(slots))
      ensures AllAnswered(old(heap.keys), calls, answers) && View() == AfterCalls(old(View()), answers)
      ensures |View()| <= |old(View())| + |calls|
      ensures SameFlags(old(heap.keys), heap.keys) && forall k :: Foreign(k) == old(Foreign(k))
    {
      ghost var keys, view := heap.keys, View();
      answers := [];
      for i := 0 to |calls|
        invariant Valid() && (slots == old(slots) || fresh(slots))
        invariant AllAnswered(keys, calls[..i], answers) && View() == AfterCalls(view, answers)
        invariant |View()| <= |view| + i
        invariant SameFlags(keys, heap.keys) && forall k :: Foreign(k) == old(Foreign(k))
      {
        assert Foreign(calls[i].key) > 0;
        ghost var was := View();
        var status, before := XSet(calls[i].key, calls[i].value, calls[i].room);
        SizeWithValue(was, calls[i].key, calls[i].value);
        OneMoreAnswer(keys, calls, answers, i, Answer(calls[i], status == 0), view);
        answers := answers + [Answer(calls[i], status == 0)];
      }
      assert calls[..|calls|] == calls;
    }

    /** Pops one value and passes it to the destructor of its key, which runs the first part of
        the script. */
    method Turn(hint: nat, script: seq<seq<Call>>)
      returns (status: int, pop: Pair, log: seq<Invocation>, next: nat, later: seq<seq<Call>>, ghost r: Round)
      requires Valid() && AllMayCall(script)
      modifies this, heap, slots
      ensures Valid() && (slots == old(slots) || slots == null || fresh(slots))
      ensures status == if old(View()) == map[] then -1 else 0
      ensures status != 0 ==> slots == null && View() == map[] && log == [] && later == script
      ensures status == 0 ==>
                && r.view == old(View()) && r.script == script && r.pop == pop
                && IsRound(old(heap.keys), r) && View() == AfterRound(r)
                && log == OneInvocation(old(heap.keys)[pop.key].dtor, pop.value)
                && later == Later(old(heap.keys)[pop.key].dtor, script)
                && |View()| + CountCalls(later) + 1 <= |old(View())| + CountCalls(script)
                && SameFlags(old(heap.keys), heap.keys)
      ensures forall k :: Foreign(k) == old(Foreign(k))
      ensures AllMayCall(later)
    {
      ghost var view, answers := View(), [];
      var key, value;
      status, key, value, next := Pop(true, hint);
      pop, log, later := Pair(key, value), [], script;
      r := Round(view, script, pop, []);
      if status != 0 {
        return;
      }
      OneLess(view, key);
      log, later, answers := Invoke(heap.keys[key].dtor, value, script);
      r := Round(view, script, pop, answers);
    }

    /** Invokes a destructor, if there is one, which runs the first part of the script. */
    method Invoke(dtor: nat, value: nat, script: seq<seq<Call>>)
      returns (log: seq<Invocation>, later: seq<seq<Call>>, ghost answers: seq<Answer>)
      requires Valid() && AllMayCall(script)
      modifies this, heap, slots
      ensures Valid() && (slots == old(slots) || fresh(slots))
      ensures log == OneInvocation(dtor, value) && later == Later(dtor, script)
      ensures AllAnswered(old(heap.keys), CallsMade(dtor, script), answers)
      ensures View() == AfterCalls(old(View()), answers)
      ensures |View()| + CountCalls(later) <= |old(View())| + CountCalls(script)
      ensures SameFlags(old(heap.keys), heap.keys)
      ensures AllMayCall(later) && forall k :: Foreign(k) == old(Foreign(k))
    {
      log, later, answers := [], script, [];
      if dtor != 0 {
        log := [Invocation(dtor, value)];
        if script != [] {
          answers := RunCalls(script[0]);
          later := script[1..];
        }
      }
    }

    /** A drain that has popped `pops` and invoked `log`, with `todo` left of the script. */
    ghost predicate Draining(
      pops: seq<Pair>, log: seq<Invocation>, todo: seq<seq<Call>>, rounds: seq<Round>,
      total: map<nat, nat>, keys: map<nat, Key>, script: seq<seq<Call>>)
      reads this, slots, heap
    {
      && AreRounds(total, keys, script, rounds)
      && View() == ViewAt(total, rounds, |rounds|) && todo == ScriptAt(keys, script, rounds, |rounds|)
      && pops == PopsOf(rounds) && log == Invocations(keys, pops)
      && |pops| + |View()| + CountCalls(todo) <= |total| + CountCalls(script)
    }

    /** One more turn of a drain. */
    method DrainTurn(
      hint: nat, todo: seq<seq<Call>>, pops: seq<Pair>, log: seq<Invocation>, ghost rounds: seq<Round>,
      ghost total: map<nat, nat>, ghost keys: map<nat, Key>, ghost script: seq<seq<Call>>)
      returns (more: bool, next: nat, todo': seq<seq<Call>>, pops': seq<Pair>, log': seq<Invocation>,
               ghost rounds': seq<Round>)
      requires Valid() && AllMayCall(todo) && Draining(pops, log, todo, rounds, total, keys, script)
      requires SameFlags(keys, heap.keys)
      modifies this, heap, slots
      ensures Valid() && (slots == old(slots) || slots == null || fresh(slots))
      ensures AllMayCall(todo') && Draining(pops', log', todo', rounds', total, keys, script)
      ensures more == (old(View()) != map[])
      ensures if more then |View()| + CountCalls(todo') < old(|View()|) + CountCalls(todo)
              else slots == null && View() == map[]
      ensures more ==> SameFlags(keys, heap.keys)
      ensures forall k :: Foreign(k) == old(Foreign(k))
    {
      ghost var r;
      var status, pop, invoked;
      status, pop, invoked, next, todo', r := Turn(hint, todo);
      more, pops', log', rounds' := status == 0, pops, log, rounds;
      if more {
        RoundUnderFlags(keys, old(heap.keys), r);
        RoundsOneMore(total, keys, script, rounds, r);
        pops', log', rounds' := pops + [pop], log + invoked, rounds + [r];
      }
    }

    /** What happens when a thread exits: values are popped and passed to the destructors of
        their keys until none is left.  `script[k]` is what the k-th invoked destructor sets.
        `rounds` is the full account. */
    method Drain(hint: nat, script: seq<seq<Call>>)
      returns (pops: seq<Pair>, log: seq<Invocation>, ghost rounds: seq<Round>)
      requires Valid() && AllMayCall(script)
      modifies this, heap, slots
      ensures Valid() && slots == null && View() == map[]
      ensures Complete(old(View()), old(heap.keys), script, rounds) && pops == PopsOf(rounds)
      ensures log == Invocations(old(heap.keys), pops)
      ensures forall key :: key in old(View()) && !Mentions(script, key) ==> Pair(key, old(View())[key]) in pops
      ensures |pops| <= |old(View())| + CountCalls(script)
      ensures Quiet(script) ==> MapOf(pops) == old(View()) && |pops| == |old(View())|
      ensures forall k :: Foreign(k) == old(Foreign(k))
    {
      ghost var keys, total := heap.keys, View();
      var more, at, todo := true, hint, script;
      pops, log, rounds := [], [], [];
      while more
        invariant Valid() && (slots == old(slots) || slots == null || fresh(slots))
        invariant AllMayCall(todo) && Draining(pops, log, todo, rounds, total, keys, script)
        invariant if more then SameFlags(keys, heap.keys) else slots == null && View() == map[]
        invariant forall k :: Foreign(k) == old(Foreign(k))
        decreases more, |View()| + CountCalls(todo)
      {
        more, at, todo, pops, log, rounds := DrainTurn(at, todo, pops, log, rounds, total, keys, script);
      }
      forall key | key in total && !Mentions(script, key)
        ensures Pair(key, total[key]) in pops
      {
        UntouchedIsPopped(total, keys, script, rounds, key);
      }
      if Quiet(script) {
        QuietDrain(total, keys, script, rounds);
      }
    }
  }

  /** One thread with one key: the value that it sets is there until it exits, and then goes to
      the destructor of the key, which is left with the reference of its user. */
  method ThreadLifetime(dtor: nat, address: nat, value: nat, room: nat, hint: nat)
    returns (heap: KeyHeap, seen: nat, log: seq<Invocation>)
    requires address != 0 && value != 0
    ensures seen == value && log == OneInvocation(dtor, value)
    ensures address in heap.keys && heap.keys[address].nref == 1
  {
    heap := new KeyHeap();
    var key := heap.New(dtor, address);
    var table := new Table(heap);
    var status, before := table.XSet(key, value, Some(room));
    assert heap.keys[key].dtor == dtor;
    seen := table.Get(key);
    ghost var view, keys := table.View(), heap.keys;
    var pops;
    ghost var rounds;
    pops, log, rounds := table.Drain(hint, []);
    OnePair(pops, key, value);
    assert pops[..0] == [];
    assert table.Foreign(key) == 1;
  }

  lemma OnePair(pops: seq<Pair>, key: nat, value: nat)
    requires MapOf(pops) == map[key := value] && |pops| == 1
    ensures pops == [Pair(key, value)]
  {
    var p := pops[0];
    assert pops[..0] == [] && MapOf(pops) == map[p.key := p.value];
    assert p.key in MapOf(pops);
  }

  /** What the next slot from the back of the old table contributes to the count of keys to be
      kept, to the new table and to the released keys. */
  lemma ApproachCounts(keys: map<nat, Key>, s: seq<Slot>, i: nat)
    requires i < |s|
    ensures Total(s[..i + 1], Kept(keys)) == Total(s[..i], Kept(keys)) + Kept(keys)(s[i])
    ensures Total(s[..i], Kept(keys)) >= 0
  {
    assert s[..i + 1][..i] == s[..i];
    TotalNonNegative(s[..i], Kept(keys));
  }

  lemma ApproachEmpty(keys: map<nat, Key>, s: seq<Slot>, i: nat)
    requires i < |s| && Distinct(s) && s[i].key == 0
    ensures Relocated(keys, s[i..]) == Relocated(keys, s[i + 1..])
    ensures Deleted(keys, s[i..]) == Deleted(keys, s[i + 1..])
  {
    assert s[i..] == [s[i]] + s[i + 1..];
    RelocatedOneMore(keys, s[i], s[i + 1..]);
  }

  lemma ApproachKey(keys: map<nat, Key>, s: seq<Slot>, i: nat)
    requires i < |s| && Distinct(s) && Counted(keys, Entries(s)) && s[i].key != 0
    ensures var x, rest := s[i], s[i + 1..];
            var now := ReleasedAll(keys, Deleted(keys, rest));
            && x.key in keys && x.key in now && now[x.key] == keys[x.key]
            && x.key !in Relocated(keys, rest)
            && (keys[x.key].deleted ==>
                  && Relocated(keys, s[i..]) == Relocated(keys, rest)
                  && ReleasedAll(keys, Deleted(keys, s[i..])) == Released(now, x.key))
            && (!keys[x.key].deleted ==>
                  && Relocated(keys, s[i..]) == Relocated(keys, rest)[x.key := x.value]
                  && Deleted(keys, s[i..]) == Deleted(keys, rest))
  {
    var x, rest := s[i], s[i + 1..];
    assert s[i..] == [x] + rest;
    EntryAt(s, i);
    NotInRest(x, rest, keys);
    RelocatedOneMore(keys, x, rest);
    if keys[x.key].deleted {
      ReleasedOneMore(keys, Deleted(keys, rest), x.key);
    }
  }

  /** Growing does not change what callers see, nor anybody else's references. */
  lemma GrowingIsInvisible(keys: map<nat, Key>, s: seq<Slot>)
    requires Distinct(s) && Counted(keys, Entries(s))
    ensures var keys', e' := ReleasedAll(keys, Deleted(keys, s)), Relocated(keys, s);
            && Counted(keys', e') && Live(keys', e') == Live(keys, Entries(s))
            && (forall k :: External(keys', e', k) == External(keys, Entries(s), k))
            && (forall k :: k in keys && !keys[k].deleted ==> k in keys' && keys'[k] == keys[k])
            && SameFlags(keys, keys')
  {
    DeletedAreEntries(keys, s);
    LiveWithoutDeleted(keys, Entries(s), Deleted(keys, s));
    ReleasingOwnReferences(keys, Entries(s), Deleted(keys, s));
  }

  /** A key that is new to the table: it holds one more reference. */
  lemma AddingKey(keys: map<nat, Key>, e: map<nat, nat>, key: nat, value: nat)
    requires Counted(keys, e) && key in keys && !keys[key].deleted && key !in e
    ensures var keys', e' := keys[key := keys[key].(nref := keys[key].nref + 1)], e[key := value];
            && Counted(keys', e') && Live(keys', e') == WithValue(Live(keys, e), key, value)
            && SameFlags(keys, keys')
            && forall k :: External(keys', e', k) == External(keys, e, k)
    ensures Lookup(Live(keys, e), key) == 0
  {
    var keys' := keys[key := keys[key].(nref := keys[key].nref + 1)];
    LiveUpdate(keys, e, key, value);
    LiveIgnoresCounts(keys, keys', e[key := value]);
  }

  lemma NotThere(keys: map<nat, Key>, e: map<nat, nat>, key: nat)
    requires key !in e
    ensures Lookup(Live(keys, e), key) == 0 && WithValue(Live(keys, e), key, 0) == Live(keys, e)
  {
  }

  lemma OverwritingValue(keys: map<nat, Key>, e: map<nat, nat>, key: nat, value: nat)
    requires Counted(keys, e) && key in e && !keys[key].deleted
    ensures Counted(keys, e[key := value])
    ensures Live(keys, e[key := value]) == WithValue(Live(keys, e), key, value)
    ensures forall k :: External(keys, e[key := value], k) == External(keys, e, k)
    ensures Lookup(Live(keys, e), key) == e[key]
  {
    LiveUpdate(keys, e, key, value);
  }

  lemma SlotKeyExists(keys: map<nat, Key>, s: seq<Slot>, i: nat)
    requires Sound(s) && Counted(keys, Entries(s)) && i < |s| && s[i].value != 0
    ensures s[i].key in keys
  {
    EntryAt(s, i);
  }

  /** If no slot holds a live value, callers see none. */
  lemma NothingLive(keys: map<nat, Key>, s: seq<Slot>)
    requires forall i :: 0 <= i < |s| ==> s[i].value == 0 || s[i].key !in keys || keys[s[i].key].deleted
    ensures Live(keys, Entries(s)) == map[]
  {
    forall k | k in Live(keys, Entries(s))
      ensures false
    {
      var i := EntryFrom(s, k);
    }
  }

  /** What clearing the next slot releases. */
  lemma NextKey(keys: map<nat, Key>, s: seq<Slot>, i: nat)
    requires i < |s| && Distinct(s) && Counted(keys, Entries(s))
    ensures var before, after := Entries(s[..i]).Keys, Entries(s[..i + 1]).Keys;
            && (s[i].key == 0 ==> after == before)
            && (s[i].key != 0 ==>
                  && s[i].key in ReleasedAll(keys, before) && ReleasedAll(keys, before)[s[i].key] == keys[s[i].key]
                  && ReleasedAll(keys, after) == Released(ReleasedAll(keys, before), s[i].key))
  {
    var x, before := s[i], Entries(s[..i]);
    assert s[..i + 1][..i] == s[..i];
    if x.key != 0 {
      EntryAt(s, i);
      if x.key in before {
        var j := EntryFrom(s[..i], x.key);
      }
      ReleasedOneMore(keys, before.Keys, x.key);
      assert Entries(s[..i + 1]).Keys == before.Keys + {x.key};
    }
  }
}
