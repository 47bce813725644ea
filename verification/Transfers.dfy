/** A process's open file transfers: snapshots being read, drafts being written, listings and moves. */
module Transfers {
  import opened Words

  /** What one entry of a listing costs besides its bytes. */
  const NAME_SLOT_BYTES := 16

  type Text = seq<Byte>

  datatype Revision = Absent | Present(generation: U64)

  /** `capacity` is the room that has been reserved, in bytes for a draft and in names for a listing. */
  datatype Transfer =
    | Read(path: Text, bytes: seq<Byte>, position: nat)
    | Write(path: Text, revision: Revision, bytes: seq<Byte>, capacity: nat, poisoned: bool)
    | Directory(path: Text, names: seq<Text>, capacity: nat, position: nat)
    | Move(path: Text, generation: U64)

  datatype Entry = Entry(id: nat, transfer: Transfer)
  datatype Table = Table(nextId: nat, entries: seq<Entry>)

  const EMPTY := Table(1, [])

  /** `isPath` and `isText` tell which bytes a path parser and a text decoder accept. */
  datatype Limits = Limits(pathBytes: U64, componentBytes: U64, logicalBytes: U64, fileBytes: U64,
                           directoryEntries: U64, openHandles: U64, ioBytes: U64,
                           isPath: Text -> bool, isText: Text -> bool)

  // ---- what transfers retain ----

  function NameBytes(names: seq<Text>): nat {
    if names == [] then 0 else NameBytes(names[..|names| - 1]) + |names[|names| - 1]|
  }

  function Retained(t: Transfer): nat {
    match t
    case Read(_, bytes, _) => |bytes|
    case Write(_, _, _, capacity, _) => capacity
    case Directory(_, names, capacity, _) => NameBytes(names) + capacity * NAME_SLOT_BYTES
    case Move(_, _) => 0
  }

  function RetainedBy(entries: seq<Entry>): nat {
    if entries == [] then 0 else RetainedBy(entries[..|entries| - 1]) + Retained(entries[|entries| - 1].transfer)
  }

  function AllHandles(frames: seq<Table>): nat {
    if frames == [] then 0 else AllHandles(frames[..|frames| - 1]) + |frames[|frames| - 1].entries|
  }

  function AllRetained(frames: seq<Table>): nat {
    if frames == [] then 0 else AllRetained(frames[..|frames| - 1]) + RetainedBy(frames[|frames| - 1].entries)
  }

  lemma {:induction false} RetainedExtends(entries: seq<Entry>, e: Entry)
    ensures RetainedBy(entries + [e]) == RetainedBy(entries) + Retained(e.transfer)
  {
    assert (entries + [e])[..|entries|] == entries;
  }

  lemma {:induction false} RetainedReplaces(entries: seq<Entry>, i: nat, e: Entry)
    requires i < |entries|
    ensures RetainedBy(entries[i := e]) + Retained(entries[i].transfer) == RetainedBy(entries) + Retained(e.transfer)
  {
    var n := |entries| - 1;
    if i == n {
      assert entries[i := e][..n] == entries[..n];
    } else {
      assert entries[i := e][..n] == entries[..n][i := e];
      RetainedReplaces(entries[..n], i, e);
    }
  }

  function WithoutEntry(entries: seq<Entry>, i: nat): seq<Entry>
    requires i < |entries|
  {
    entries[..i] + entries[i + 1..]
  }

  lemma {:induction false} RetainedRemoves(entries: seq<Entry>, i: nat)
    requires i < |entries|
    ensures RetainedBy(WithoutEntry(entries, i)) + Retained(entries[i].transfer) == RetainedBy(entries)
  {
    var n := |entries| - 1;
    if i == n {
      assert WithoutEntry(entries, i) == entries[..n];
    } else {
      var left := WithoutEntry(entries, i);
      assert left[..n - 1] == WithoutEntry(entries[..n], i) && left[n - 1] == entries[n];
      RetainedRemoves(entries[..n], i);
    }
  }

  /** A prefix retains no more than the whole. */
  lemma {:induction false} RetainedGrows(entries: seq<Entry>, k: nat)
    requires k <= |entries|
    ensures RetainedBy(entries[..k]) <= RetainedBy(entries)
  {
    if k == |entries| {
      assert entries[..k] == entries;
    } else {
      assert entries[..|entries| - 1][..k] == entries[..k];
      RetainedGrows(entries[..|entries| - 1], k);
    }
  }

  // ---- what every reachable table satisfies ----

  /** Byte-wise lexicographic order. */
  predicate Before(a: Text, b: Text) {
    b != [] && (a == [] || a[0] < b[0] || (a[0] == b[0] && Before(a[1..], b[1..])))
  }

  /** The first place where `b` goes on and `a` has ended or holds a smaller byte. */
  predicate SmallerAt(a: Text, b: Text, k: nat) {
    k <= |a| && k < |b| && a[..k] == b[..k] && (k == |a| || a[k] < b[k])
  }

  /** The order is that of the first byte where two texts differ, a prefix coming first. */
  lemma {:induction false} BeforeIff(a: Text, b: Text)
    ensures Before(a, b) <==> exists k: nat :: SmallerAt(a, b, k)
  {
    if b != [] && a != [] && a[0] == b[0] {
      BeforeIff(a[1..], b[1..]);
      forall k: nat | SmallerAt(a[1..], b[1..], k)
        ensures SmallerAt(a, b, k + 1)
      {
        assert a[..k + 1] == [a[0]] + a[1..][..k] && b[..k + 1] == [b[0]] + b[1..][..k];
      }
      forall k: nat | SmallerAt(a, b, k)
        ensures k > 0 && SmallerAt(a[1..], b[1..], k - 1)
      {
        assert a[1..][..k - 1] == a[..k][1..] && b[1..][..k - 1] == b[..k][1..];
      }
    } else if Before(a, b) {
      assert SmallerAt(a, b, 0);
    } else {
      forall k: nat
        ensures !SmallerAt(a, b, k)
      {
        if 0 < k <= |a| && k <= |b| {
          assert a[..k][0] == a[0] && b[..k][0] == b[0];
        }
      }
    }
  }

  predicate Sorted(names: seq<Text>) {
    forall i | 0 <= i < |names| - 1 :: BeforeNext(names, i)
  }

  predicate BeforeNext(names: seq<Text>, i: nat)
    requires i < |names| - 1
  {
    Before(names[i], names[i + 1])
  }

  predicate PathOk(l: Limits, path: Text) {
    |path| <= l.pathBytes && l.isPath(path)
  }

  predicate TransferOk(l: Limits, t: Transfer) {
    && PathOk(l, t.path)
    && match t
       case Read(_, bytes, position) => |bytes| <= l.fileBytes && position <= |bytes|
       case Write(_, revision, bytes, capacity, _) => |bytes| <= capacity && |bytes| <= l.fileBytes
       case Directory(_, names, capacity, position) => position <= |names| <= capacity && Sorted(names)
       case Move(_, _) => true
  }

  predicate IdsOk(t: Table) {
    && 1 <= t.nextId <= I32_MAX
    && (forall i | 0 <= i < |t.entries| :: 1 <= t.entries[i].id < t.nextId)
    && (forall i, j | 0 <= i < j < |t.entries| :: t.entries[i].id < t.entries[j].id)
  }

  predicate AllOk(l: Limits, entries: seq<Entry>) {
    forall i | 0 <= i < |entries| :: TransferOk(l, entries[i].transfer)
  }

  predicate TableOk(l: Limits, t: Table) {
    IdsOk(t) && AllOk(l, t.entries)
  }

  /** The quotas are over the tables of all processes together. */
  predicate WithinQuota(l: Limits, frames: seq<Table>) {
    AllHandles(frames) <= l.openHandles && AllRetained(frames) <= l.logicalBytes
  }

  predicate FramesOk(l: Limits, frames: seq<Table>) {
    && WithinQuota(l, frames)
    && forall k | 0 <= k < |frames| :: TableOk(l, frames[k])
  }

  /** A quota over all tables bounds each one. */
  lemma {:induction false} QuotaBoundsEach(frames: seq<Table>, k: nat)
    requires k < |frames|
    ensures |frames[k].entries| <= AllHandles(frames) && RetainedBy(frames[k].entries) <= AllRetained(frames)
  {
    if k < |frames| - 1 {
      QuotaBoundsEach(frames[..|frames| - 1], k);
    }
  }

  // ---- handles ----

  predicate HasHandle(t: Table, id: nat) {
    exists i | 0 <= i < |t.entries| :: t.entries[i].id == id
  }

  /** Ids go up, and an id that has gone does not come back. */
  predicate Evolves(t: Table, u: Table) {
    t.nextId <= u.nextId && forall id: nat | id < t.nextId && HasHandle(u, id) :: HasHandle(t, id)
  }

  lemma {:induction false} StaysPut(t: Table)
    ensures Evolves(t, t)
  {
  }

  lemma {:induction false} EvolvesTransitive(t: Table, u: Table, v: Table)
    requires Evolves(t, u) && Evolves(u, v)
    ensures Evolves(t, v)
  {
  }

  predicate EvolvesAt(ts: seq<Table>, i: nat)
    requires i < |ts| - 1
  {
    Evolves(ts[i], ts[i + 1])
  }

  /** The tables of one process over a run. */
  predicate Run(ts: seq<Table>) {
    forall i | 0 <= i < |ts| - 1 :: EvolvesAt(ts, i)
  }

  lemma {:induction false} RunEvolves(ts: seq<Table>, i: nat, j: nat)
    requires Run(ts) && i < j < |ts|
    ensures Evolves(ts[i], ts[j])
    decreases j
  {
    assert EvolvesAt(ts, j - 1);
    if i < j - 1 {
      RunEvolves(ts, i, j - 1);
      EvolvesTransitive(ts[i], ts[j - 1], ts[j]);
    }
  }

  /** A handle that was issued and is gone stays stale for as long as its process lives. */
  lemma {:induction false} StaleForever(ts: seq<Table>, i: nat, j: nat, id: nat)
    requires Run(ts) && i <= j < |ts| && id < ts[i].nextId && !HasHandle(ts[i], id)
    ensures !HasHandle(ts[j], id)
  {
    if i < j {
      RunEvolves(ts, i, j);
    }
  }

  // ---- the changes a table goes through ----

  function Inserted(t: Table, transfer: Transfer): Table {
    Table(t.nextId + 1, t.entries + [Entry(t.nextId, transfer)])
  }

  function Closed(t: Table, i: nat): Table
    requires i < |t.entries|
  {
    t.(entries := WithoutEntry(t.entries, i))
  }

  function Replaced(t: Table, i: nat, transfer: Transfer): Table
    requires i < |t.entries|
  {
    t.(entries := t.entries[i := t.entries[i].(transfer := transfer)])
  }

  lemma {:induction false} InsertedKeeps(l: Limits, t: Table, transfer: Transfer)
    requires TableOk(l, t) && t.nextId < I32_MAX && TransferOk(l, transfer)
    ensures TableOk(l, Inserted(t, transfer)) && Evolves(t, Inserted(t, transfer))
    ensures Inserted(t, transfer).nextId == t.nextId + 1
    ensures forall id: nat :: HasHandle(Inserted(t, transfer), id) <==> HasHandle(t, id) || id == t.nextId
  {
    var u := Inserted(t, transfer);
    assert forall i | 0 <= i < |t.entries| :: u.entries[i] == t.entries[i];
    assert u.entries[|t.entries|].id == t.nextId;
  }

  lemma {:induction false} ClosedKeeps(l: Limits, t: Table, i: nat)
    requires TableOk(l, t) && i < |t.entries|
    ensures TableOk(l, Closed(t, i)) && Evolves(t, Closed(t, i)) && !HasHandle(Closed(t, i), t.entries[i].id)
  {
    var u := Closed(t, i);
    assert forall k | 0 <= k < |u.entries| :: u.entries[k] == t.entries[if k < i then k else k + 1];
  }

  /** Closing takes out the one entry and leaves the others, and the ids still to come, as they were. */
  lemma {:induction false} ClosedHolds(t: Table, i: nat, e: Entry)
    requires IdsOk(t) && i < |t.entries|
    ensures e in Closed(t, i).entries <==> e in t.entries && e.id != t.entries[i].id
    ensures Closed(t, i).nextId == t.nextId
  {
    var u := Closed(t, i);
    if e in t.entries && e.id != t.entries[i].id {
      var k :| 0 <= k < |t.entries| && t.entries[k] == e;
      assert u.entries[if k < i then k else k - 1] == e;
    }
    if e in u.entries {
      var k :| 0 <= k < |u.entries| && u.entries[k] == e;
      assert t.entries[if k < i then k else k + 1] == e;
    }
  }

  lemma {:induction false} ReplacedKeeps(l: Limits, t: Table, i: nat, transfer: Transfer)
    requires TableOk(l, t) && i < |t.entries| && TransferOk(l, transfer)
    ensures TableOk(l, Replaced(t, i, transfer)) && Evolves(t, Replaced(t, i, transfer))
    ensures Replaced(t, i, transfer).nextId == t.nextId && |Replaced(t, i, transfer).entries| == |t.entries|
    ensures Replaced(t, i, transfer).entries[i] == Entry(t.entries[i].id, transfer)
  {
    var u := Replaced(t, i, transfer);
    assert forall k | 0 <= k < |u.entries| :: u.entries[k].id == t.entries[k].id;
  }

  /** The active process's table is the last one. */
  function WithActive(frames: seq<Table>, t: Table): seq<Table>
    requires frames != []
  {
    frames[|frames| - 1 := t]
  }

  lemma {:induction false} ActiveQuota(frames: seq<Table>, t: Table)
    requires frames != []
    ensures AllHandles(WithActive(frames, t)) + |frames[|frames| - 1].entries| == AllHandles(frames) + |t.entries|
    ensures AllRetained(WithActive(frames, t)) + RetainedBy(frames[|frames| - 1].entries) == AllRetained(frames) + RetainedBy(t.entries)
  {
    var n := |frames| - 1;
    assert WithActive(frames, t)[..n] == frames[..n];
  }

  lemma {:induction false} ActiveKeeps(l: Limits, frames: seq<Table>, t: Table)
    requires FramesOk(l, frames) && frames != [] && TableOk(l, t)
    requires AllHandles(frames) + |t.entries| <= l.openHandles + |frames[|frames| - 1].entries|
    requires AllRetained(frames) + RetainedBy(t.entries) <= l.logicalBytes + RetainedBy(frames[|frames| - 1].entries)
    ensures FramesOk(l, WithActive(frames, t))
  {
    ActiveQuota(frames, t);
  }
}
