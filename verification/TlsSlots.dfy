/** Hash tables with linear probing, as plain sequences of slots: where a key is looked for,
    why it is found there, and which map and which references a table stands for. */
module TlsSlots {
  import opened Tally

  /** An element of the table.  Zero is the null pointer; a null key marks an empty slot. */
  datatype Slot = Slot(key: nat, value: nat)

  /** A key object; in the heap it is known by its address. */
  datatype Key = Key(nref: int, deleted: bool, dtor: nat)

  const POINTER_SIZE := 8
  const TWO32 := 0x1_0000_0000
  const TWO64 := 0x1_0000_0000_0000_0000
  const MULTIPLIER := 0x9E37_79B9

  /** The slot at which probing for `key` begins in a table of `dist` slots. */
  function Origin(key: nat, dist: nat): (o: nat)
    requires dist > 0
    ensures o < dist
  {
    var ratio := key / POINTER_SIZE % TWO32 * MULTIPLIER % TWO32;
    ScaledBelow(dist, ratio);
    dist * ratio % TWO64 / TWO32
  }

  lemma ScaledBelow(dist: nat, ratio: nat)
    requires 0 < dist && ratio < TWO32
    ensures dist * ratio % TWO64 / TWO32 < dist
  {
    if dist < TWO32 {
      assert dist * ratio <= dist * (TWO32 - 1);
      SmallRemainder(dist * ratio, TWO64);
    }
  }

  /** Probing from `o`, with wrap-around, visits slot `j` before slot `i`. */
  predicate Before(o: nat, j: nat, i: nat)
  {
    if o <= i then o <= j < i else j >= o || j < i
  }

  /** The weight of a slot in the count of occupied ones. */
  function Full(x: Slot): int { if x.key != 0 then 1 else 0 }

  // ---------------------------------------------------------------- a sound table

  ghost predicate Distinct(s: seq<Slot>)
  {
    forall i, j :: 0 <= i < j < |s| && s[i].key != 0 ==> s[i].key != s[j].key
  }

  /** There is no hole between the place where probing for this key begins and its slot. */
  ghost predicate Reached(s: seq<Slot>, i: nat)
    requires i < |s|
  {
    forall j :: 0 <= j < |s| && Before(Origin(s[i].key, |s|), j, i) ==> s[j].key != 0
  }

  ghost predicate Sound(s: seq<Slot>)
  {
    && Distinct(s)
    && (forall i :: 0 <= i < |s| && s[i].key != 0 ==> Reached(s, i))
    && (forall i :: 0 <= i < |s| && s[i].key == 0 ==> s[i].value == 0)
  }

  /** Slot `i` is where probing for `key` ends. */
  ghost predicate Found(s: seq<Slot>, key: nat, i: nat)
  {
    && i < |s|
    && (s[i].key == 0 || s[i].key == key)
    && forall j :: 0 <= j < |s| && Before(Origin(key, |s|), j, i) ==> s[j].key != 0 && s[j].key != key
  }

  /** Fewer occupied slots than slots: one is empty. */
  lemma {:induction false} EmptySlot(s: seq<Slot>) returns (i: nat)
    requires Total(s, Full) < |s|
    ensures i < |s| && s[i].key == 0
  {
    var n := |s| - 1;
    if s[n].key == 0 {
      i := n;
    } else {
      i := EmptySlot(s[..n]);
    }
  }

  /** If probing ends at an empty slot, the key is nowhere in the table. */
  lemma ProbeMisses(s: seq<Slot>, key: nat, i: nat)
    requires Sound(s) && key != 0 && Found(s, key, i) && s[i].key == 0
    ensures forall j :: 0 <= j < |s| ==> s[j].key != key
  {
    forall j | 0 <= j < |s|
      ensures s[j].key != key
    {
      assert s[j].key == key ==> Reached(s, j);
      assert i == j || Before(Origin(key, |s|), i, j) || Before(Origin(key, |s|), j, i);
    }
  }

  lemma FillIsSound(s: seq<Slot>, key: nat, value: nat, i: nat)
    requires Sound(s) && key != 0 && Found(s, key, i) && s[i].key == 0
    ensures Sound(s[i := Slot(key, value)])
  {
    var t := s[i := Slot(key, value)];
    ProbeMisses(s, key, i);
    forall j | 0 <= j < |t| && t[j].key != 0
      ensures Reached(t, j)
    {
      assert j != i ==> Reached(s, j);
    }
  }

  lemma OverwriteIsSound(s: seq<Slot>, value: nat, i: nat)
    requires Sound(s) && i < |s| && s[i].key != 0
    ensures Sound(s[i := Slot(s[i].key, value)])
  {
    var t := s[i := Slot(s[i].key, value)];
    forall j | 0 <= j < |t| && t[j].key != 0
      ensures Reached(t, j)
    {
      assert Reached(s, j);
    }
  }

  // ---------------------------------------------------------------- the map

  /** Every key in the table with its value. */
  function Entries(s: seq<Slot>): map<nat, nat>
  {
    if s == [] then map[]
    else
      var x := s[|s| - 1];
      if x.key == 0 then Entries(s[..|s| - 1]) else Entries(s[..|s| - 1])[x.key := x.value]
  }

  lemma {:induction false} EntryAt(s: seq<Slot>, i: nat)
    requires Distinct(s) && i < |s| && s[i].key != 0
    ensures s[i].key in Entries(s) && Entries(s)[s[i].key] == s[i].value
  {
    var n := |s| - 1;
    if i < n {
      EntryAt(s[..n], i);
      assert s[n].key != s[i].key;
    }
  }

  lemma {:induction false} EntryFrom(s: seq<Slot>, key: nat) returns (i: nat)
    requires key in Entries(s)
    ensures i < |s| && s[i] == Slot(key, Entries(s)[key]) && key != 0
  {
    var n := |s| - 1;
    if s[n].key == key && key != 0 {
      i := n;
    } else {
      i := EntryFrom(s[..n], key);
    }
  }

  /** Writing a key to its own slot, or to an empty slot if it has none, sets it in the map. */
  lemma {:induction false} EntriesUpdate(s: seq<Slot>, key: nat, value: nat, i: nat)
    requires Distinct(s) && i < |s| && key != 0
    requires s[i].key == key || (s[i].key == 0 && forall j :: 0 <= j < |s| ==> s[j].key != key)
    ensures Entries(s[i := Slot(key, value)]) == Entries(s)[key := value]
  {
    var n := |s| - 1;
    var t := s[i := Slot(key, value)];
    if i == n {
      assert t[..n] == s[..n];
    } else {
      EntriesUpdate(s[..n], key, value, i);
      assert t[..n] == s[..n][i := Slot(key, value)];
      assert s[n].key != key;
    }
  }

  lemma {:induction false} EmptyEntries(s: seq<Slot>)
    requires forall i :: 0 <= i < |s| ==> s[i].key == 0
    ensures Entries(s) == map[]
  {
    if s != [] {
      EmptyEntries(s[..|s| - 1]);
    }
  }

  /** What probing tells about the map: the key is there exactly when the slot is not empty. */
  lemma ProbeFinds(s: seq<Slot>, key: nat, i: nat)
    requires Sound(s) && key != 0 && Found(s, key, i)
    ensures key in Entries(s) <==> s[i].key != 0
    ensures key in Entries(s) ==> Entries(s)[key] == s[i].value
  {
    if s[i].key != 0 {
      EntryAt(s, i);
    } else {
      ProbeMisses(s, key, i);
      if key in Entries(s) {
        var j := EntryFrom(s, key);
      }
    }
  }

  // ---------------------------------------------------------------- what callers see

  /** The non-null values of keys that are not deleted. */
  function Live(keys: map<nat, Key>, e: map<nat, nat>): map<nat, nat>
  {
    map k | k in e && k in keys && !keys[k].deleted && e[k] != 0 :: e[k]
  }

  /** A null value stands for none. */
  function Lookup(view: map<nat, nat>, key: nat): nat { if key in view then view[key] else 0 }

  function WithValue(view: map<nat, nat>, key: nat, value: nat): map<nat, nat>
  {
    if value == 0 then view - {key} else view[key := value]
  }

  lemma LiveUpdate(keys: map<nat, Key>, e: map<nat, nat>, key: nat, value: nat)
    requires key in keys && !keys[key].deleted
    ensures Live(keys, e[key := value]) == WithValue(Live(keys, e), key, value)
  {
  }

  lemma LiveIgnoresCounts(keys: map<nat, Key>, after: map<nat, Key>, e: map<nat, nat>)
    requires forall k :: k in e ==> (k in keys <==> k in after)
    requires forall k :: k in e && k in keys ==> keys[k].deleted == after[k].deleted
    ensures Live(after, e) == Live(keys, e)
  {
  }

  // ---------------------------------------------------------------- references

  /** The heap after one reference to `key` has been dropped; the last one frees it. */
  function Released(keys: map<nat, Key>, key: nat): map<nat, Key>
    requires key in keys
  {
    if keys[key].nref == 1 then keys - {key}
    else keys[key := keys[key].(nref := keys[key].nref - 1)]
  }

  /** One reference to each key of a set dropped. */
  function ReleasedAll(keys: map<nat, Key>, gone: set<nat>): map<nat, Key>
  {
    map k | k in keys && !(k in gone && keys[k].nref == 1)
      :: if k in gone then keys[k].(nref := keys[k].nref - 1) else keys[k]
  }

  lemma ReleasedOneMore(keys: map<nat, Key>, gone: set<nat>, key: nat)
    requires key in keys && key !in gone
    ensures key in ReleasedAll(keys, gone)
    ensures Released(ReleasedAll(keys, gone), key) == ReleasedAll(keys, gone + {key})
  {
  }

  /** Every key that a table holds exists, and every key that exists is referenced. */
  ghost predicate Counted(keys: map<nat, Key>, e: map<nat, nat>)
  {
    && e.Keys <= keys.Keys
    && forall k :: k in keys ==> keys[k].nref >= 1 && k != 0
  }

  /** References to a key that are not held by the table. */
  function External(keys: map<nat, Key>, e: map<nat, nat>, key: nat): int
  {
    (if key in keys then keys[key].nref else 0) - (if key in e then 1 else 0)
  }

  /** A key exists exactly as long as the table or somebody else refers to it: it is never
      freed while it is in a slot, and never leaked. */
  lemma ExistsIffReferenced(keys: map<nat, Key>, e: map<nat, nat>, key: nat)
    requires Counted(keys, e)
    ensures External(keys, e, key) >= 0
    ensures key in keys <==> key in e || External(keys, e, key) > 0
  {
  }

  /** When a table gives up some of its keys and drops the reference to each, nobody else's
      references change. */
  lemma ReleasingOwnReferences(keys: map<nat, Key>, e: map<nat, nat>, gone: set<nat>)
    requires Counted(keys, e) && gone <= e.Keys
    ensures Counted(ReleasedAll(keys, gone), e - gone)
    ensures forall k :: External(ReleasedAll(keys, gone), e - gone, k) == External(keys, e, k)
  {
  }

  /** Somebody who holds a reference of their own may drop it: the table stays sound. */
  lemma DroppingForeignReference(keys: map<nat, Key>, e: map<nat, nat>, key: nat)
    requires Counted(keys, e) && key in keys && External(keys, e, key) > 0
    ensures Counted(Released(keys, key), e)
    ensures forall k :: External(Released(keys, key), e, k) == External(keys, e, k) - (if k == key then 1 else 0)
  {
  }

  /** Somebody who holds a reference of their own may delete the key with it: callers of the
      table stop seeing its value, and nothing else changes. */
  lemma DeletingKey(keys: map<nat, Key>, e: map<nat, nat>, key: nat)
    requires Counted(keys, e) && key in keys && External(keys, e, key) > 0
    ensures var after := Released(keys[key := keys[key].(deleted := true)], key);
            && Counted(after, e)
            && Live(after, e) == Live(keys, e) - {key}
            && forall k :: External(after, e, k) == External(keys, e, k) - (if k == key then 1 else 0)
  {
    DroppingForeignReference(keys[key := keys[key].(deleted := true)], e, key);
  }

  /** No key has appeared, and none has changed but for its count. */
  ghost predicate SameFlags(before: map<nat, Key>, after: map<nat, Key>)
  {
    forall k :: k in after ==> k in before && after[k] == before[k].(nref := after[k].nref)
  }

  // ---------------------------------------------------------------- growing

  /** The keys in these slots that have been deleted. */
  function Deleted(keys: map<nat, Key>, s: seq<Slot>): set<nat>
  {
    set i | 0 <= i < |s| && s[i].key != 0 && s[i].key in keys && keys[s[i].key].deleted :: s[i].key
  }

  /** The weight of a slot in the count of keys to be kept. */
  function Kept(keys: map<nat, Key>): Slot -> int
  {
    (x: Slot) => if x.key != 0 && x.key in keys && !keys[x.key].deleted then 1 else 0
  }

  /** What a larger table takes over from these slots. */
  function Relocated(keys: map<nat, Key>, s: seq<Slot>): map<nat, nat>
  {
    Entries(s) - Deleted(keys, s)
  }

  lemma {:induction false} EntriesFromFront(x: Slot, rest: seq<Slot>)
    requires Distinct([x] + rest)
    ensures Entries([x] + rest) == if x.key == 0 then Entries(rest) else Entries(rest)[x.key := x.value]
  {
    var s, n := [x] + rest, |rest|;
    if rest == [] {
      assert s[..0] == [];
    } else {
      assert s[..n] == [x] + rest[..n - 1];
      EntriesFromFront(x, rest[..n - 1]);
      assert s[n] == rest[n - 1] && (x.key != 0 ==> s[0].key != s[n].key);
    }
  }

  lemma DeletedFromFront(keys: map<nat, Key>, x: Slot, rest: seq<Slot>)
    ensures Deleted(keys, [x] + rest) ==
            Deleted(keys, rest) + if x.key != 0 && x.key in keys && keys[x.key].deleted then {x.key} else {}
  {
    var s := [x] + rest;
    assert s[0] == x;
    assert forall i :: 0 <= i < |rest| ==> rest[i] == s[i + 1];
    assert forall i :: 1 <= i < |s| ==> s[i] == rest[i - 1];
  }

  lemma NotInRest(x: Slot, rest: seq<Slot>, keys: map<nat, Key>)
    requires Distinct([x] + rest) && x.key != 0
    ensures x.key !in Entries(rest) && x.key !in Deleted(keys, rest)
  {
    var s := [x] + rest;
    assert forall i :: 0 <= i < |rest| ==> s[0].key != s[i + 1].key && rest[i] == s[i + 1];
    if x.key in Entries(rest) {
      var i := EntryFrom(rest, x.key);
    }
  }

  /** Taking over one more slot, in front of those already taken over. */
  lemma RelocatedOneMore(keys: map<nat, Key>, x: Slot, rest: seq<Slot>)
    requires Distinct([x] + rest) && (x.key != 0 ==> x.key in keys)
    ensures var s, gone := [x] + rest, Deleted(keys, rest);
            && x.key !in gone
            && (x.key == 0 || keys[x.key].deleted ==> Relocated(keys, s) == Relocated(keys, rest))
            && (x.key != 0 && !keys[x.key].deleted ==>
                  && x.key !in Relocated(keys, rest)
                  && Relocated(keys, s) == Relocated(keys, rest)[x.key := x.value])
            && Deleted(keys, s) == gone + if x.key != 0 && keys[x.key].deleted then {x.key} else {}
  {
    EntriesFromFront(x, rest);
    DeletedFromFront(keys, x, rest);
    if x.key != 0 {
      NotInRest(x, rest, keys);
    }
  }

  lemma DeletedAreEntries(keys: map<nat, Key>, s: seq<Slot>)
    requires Distinct(s)
    ensures Deleted(keys, s) <= Entries(s).Keys
    ensures forall k :: k in Deleted(keys, s) ==> k in keys && keys[k].deleted
  {
    forall i | 0 <= i < |s| && s[i].key != 0
      ensures s[i].key in Entries(s)
    {
      EntryAt(s, i);
    }
  }

  /** Giving up deleted keys does not change what callers see. */
  lemma LiveWithoutDeleted(keys: map<nat, Key>, e: map<nat, nat>, gone: set<nat>)
    requires Counted(keys, e) && gone <= e.Keys
    requires forall k :: k in gone ==> keys[k].deleted
    ensures Live(ReleasedAll(keys, gone), e - gone) == Live(keys, e)
  {
  }

  // ---------------------------------------------------------------- whole runs

  /** What a caller may do to a key: set its value, which may fail for want of memory, or
      delete it. */
  datatype Op = Set(key: nat, value: nat, stored: bool) | Delete(key: nat)

  datatype Seen = Seen(view: map<nat, nat>, deleted: set<nat>)

  function Apply(v: Seen, op: Op): Seen
  {
    match op
    case Set(key, value, stored) =>
      if key in v.deleted || !stored then v else v.(view := WithValue(v.view, key, value))
    case Delete(key) => Seen(v.view - {key}, v.deleted + {key})
  }

  function ApplyAll(ops: seq<Op>): Seen
  {
    if ops == [] then Seen(map[], {}) else Apply(ApplyAll(ops[..|ops| - 1]), ops[|ops| - 1])
  }

  /** Position of the latest operation that stored a value for this key, or -1. */
  function LastStore(ops: seq<Op>, key: nat): (i: int)
    ensures -1 <= i < |ops|
    ensures i >= 0 ==> ops[i].Set? && ops[i].key == key && ops[i].stored
    ensures forall j :: i < j < |ops| ==> !(ops[j].Set? && ops[j].key == key && ops[j].stored)
  {
    var n := |ops| - 1;
    if ops == [] then -1
    else if ops[n].Set? && ops[n].key == key && ops[n].stored then n
    else LastStore(ops[..n], key)
  }

  /** After any sequence of operations, a key that was never deleted has the value last set,
      or none; a deleted key has none. */
  lemma {:induction false} LastValueWins(ops: seq<Op>, key: nat)
    ensures key in ApplyAll(ops).deleted <==> Delete(key) in ops
    ensures Lookup(ApplyAll(ops).view, key) ==
            if Delete(key) in ops || LastStore(ops, key) < 0 then 0 else ops[LastStore(ops, key)].value
  {
    if ops != [] {
      var n := |ops| - 1;
      LastValueWins(ops[..n], key);
      assert ops == ops[..n] + [ops[n]];
    }
  }
}
