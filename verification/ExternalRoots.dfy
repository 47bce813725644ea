/**
 The table of heap references retained by the host.  Unlike the foreign handle table it never
 reuses a generation: a slot whose generation would overflow is retired for good.
 */
module ExternalRoots {
  import opened Wrappers
  import opened Words

  datatype Handle = Handle(slot: nat, generation: nat)
  datatype Entry = Entry(generation: nat, value: Option<nat>)

  /** How far a slot's generations have run; a slot that is used up, at generation zero, is the oldest. */
  function Age(e: Entry): nat {
    if e.generation == 0 then U32_MAX + 1 else e.generation
  }

  predicate EntryOk(e: Entry) {
    e.generation <= U32_MAX && (e.generation == 0 ==> e.value.None?)
  }

  predicate TableOk(entries: seq<Entry>) {
    |entries| <= U32_MAX && forall i | 0 <= i < |entries| :: EntryOk(entries[i])
  }

  function Get(entries: seq<Entry>, h: Handle): Option<nat> {
    if h.slot < |entries| && entries[h.slot].generation == h.generation then entries[h.slot].value else None
  }

  predicate Free(e: Entry) {
    e.value.None? && e.generation != 0
  }

  /** The handle's slot has moved past the handle's generation. */
  predicate Spent(entries: seq<Entry>, h: Handle) {
    h.slot < |entries| && 0 < h.generation < Age(entries[h.slot])
  }

  /** How a table may change: ages never fall, and an entry of unchanged age keeps what it holds. */
  ghost predicate Evolves(before: seq<Entry>, after: seq<Entry>) {
    && |after| == |before|
    && forall i | 0 <= i < |before| ::
         && Age(before[i]) <= Age(after[i])
         && (Age(before[i]) == Age(after[i]) && before[i].value.Some? ==> after[i].value == before[i].value)
  }

  lemma {:induction false} EvolvesTransitive(a: seq<Entry>, b: seq<Entry>, c: seq<Entry>)
    requires TableOk(a) && TableOk(b) && TableOk(c)
    requires Evolves(a, b) && Evolves(b, c)
    ensures Evolves(a, c)
  {
    forall i | 0 <= i < |a|
      ensures Age(a[i]) <= Age(c[i])
      ensures Age(a[i]) == Age(c[i]) && a[i].value.Some? ==> c[i].value == a[i].value
    {
      assert Age(a[i]) <= Age(b[i]) <= Age(c[i]);
    }
  }

  lemma {:induction false} RunEvolves(tables: seq<seq<Entry>>, i: nat, j: nat)
    requires forall k | 0 <= k < |tables| :: TableOk(tables[k])
    requires forall k | 0 < k < |tables| :: Evolves(tables[k - 1], tables[k])
    requires i <= j < |tables|
    ensures Evolves(tables[i], tables[j])
    decreases j - i
  {
    if i < j {
      RunEvolves(tables, i, j - 1);
      EvolvesTransitive(tables[i], tables[j - 1], tables[j]);
    }
  }

  /** On every run, a handle spent once never resolves again. */
  lemma {:induction false} SpentForever(tables: seq<seq<Entry>>, i: nat, j: nat, h: Handle)
    requires forall k | 0 <= k < |tables| :: TableOk(tables[k])
    requires forall k | 0 < k < |tables| :: Evolves(tables[k - 1], tables[k])
    requires i <= j < |tables|
    requires Spent(tables[i], h)
    ensures Spent(tables[j], h) && Get(tables[j], h) == None
  {
    RunEvolves(tables, i, j);
  }

  /** Until it is spent, a handle keeps resolving to the value it was retained for. */
  lemma {:induction false} UnspentKeepsValue(tables: seq<seq<Entry>>, i: nat, j: nat, h: Handle)
    requires forall k | 0 <= k < |tables| :: TableOk(tables[k])
    requires forall k | 0 < k < |tables| :: Evolves(tables[k - 1], tables[k])
    requires i <= j < |tables|
    requires Get(tables[i], h).Some?
    ensures Get(tables[j], h) == Get(tables[i], h) || Spent(tables[j], h)
  {
    RunEvolves(tables, i, j);
    assert EntryOk(tables[i][h.slot]) && EntryOk(tables[j][h.slot]);
  }

  class Table {
    const entries: array<Entry>

    ghost predicate Valid()
      reads entries
    {
      TableOk(entries[..])
    }

    constructor (capacity: nat)
      requires capacity <= U32_MAX
      ensures Valid() && fresh(entries) && entries.Length == capacity
      ensures forall i | 0 <= i < capacity :: entries[i] == Entry(1, None)
    {
      entries := new Entry[capacity](_ => Entry(1, None));
    }

    /** Retains a reference in the first free slot; refused exactly when no slot is free. */
    method Retain(value: nat) returns (r: Option<Handle>)
      requires Valid()
      modifies entries
      ensures Valid() && Evolves(old(entries[..]), entries[..])
      ensures r.None? <==> forall i | 0 <= i < entries.Length :: !Free(old(entries[..])[i])
      ensures r.None? ==> entries[..] == old(entries[..])
      ensures r.Some? ==>
                var h := r.value;
                && h.slot < entries.Length && Free(old(entries[..])[h.slot])
                && (forall i | 0 <= i < h.slot :: !Free(old(entries[..])[i]))
                && h.generation == old(entries[..])[h.slot].generation
                && entries[..] == old(entries[..])[h.slot := Entry(h.generation, Some(value))]
                && Get(entries[..], h) == Some(value) && !Spent(entries[..], h)
    {
      var slot := 0;
      while slot < entries.Length
        invariant 0 <= slot <= entries.Length
        invariant forall i | 0 <= i < slot :: !Free(entries[i])
        invariant entries[..] == old(entries[..])
      {
        assert EntryOk(entries[..][slot]);
        if entries[slot].value.None? && entries[slot].generation != 0 {
          assert Free(old(entries[..])[slot]);
          var generation := entries[slot].generation;
          entries[slot] := Entry(generation, Some(value));
          return Some(Handle(slot, generation));
        }
        slot := slot + 1;
      }
      return None;
    }

    /** Releases exactly the handles that resolve, and spends them. */
    method Release(h: Handle) returns (r: Option<nat>)
      requires Valid() && h.generation <= U32_MAX
      modifies entries
      ensures Valid() && Evolves(old(entries[..]), entries[..])
      ensures r == Get(old(entries[..]), h)
      ensures r.None? ==> entries[..] == old(entries[..])
      ensures r.Some? ==>
                && Spent(entries[..], h)
                && entries[..] == old(entries[..])[h.slot :=
                     Entry(if h.generation == U32_MAX then 0 else h.generation + 1, None)]
    {
      if h.slot >= entries.Length {
        return None;
      }
      assert EntryOk(entries[..][h.slot]);
      var entry := entries[h.slot];
      if entry.generation != h.generation {
        return None;
      }
      if entry.value.None? {
        return None;
      }
      entries[h.slot] := Entry(if entry.generation + 1 <= U32_MAX then entry.generation + 1 else 0, None);
      return entry.value;
    }
  }
}
