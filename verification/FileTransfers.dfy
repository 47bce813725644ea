/** The file operations of a computer's processes, over the tables of all of them and one file system. */
module FileTransfers {
  import opened Wrappers
  import opened Words
  import opened Transfers

  const CHUNK_BYTES := 4095

  datatype FileError = QuotaExceeded | StaleHandle | Busy | NotFound | Refused

  /** A published file, and the generation of the write that published it. */
  datatype File = File(bytes: seq<Byte>, generation: U64)

  /** The appends attempted on a draft since it was opened, and whether one of them has failed. */
  datatype Log = Log(appends: seq<seq<Byte>>, failed: bool)

  function Joined(appends: seq<seq<Byte>>): seq<Byte> {
    if appends == [] then [] else Joined(appends[..|appends| - 1]) + appends[|appends| - 1]
  }

  lemma {:induction false} JoinedExtends(appends: seq<seq<Byte>>, input: seq<Byte>)
    ensures Joined(appends + [input]) == Joined(appends) + input
  {
    assert (appends + [input])[..|appends|] == appends;
  }

  /** A draft holds exactly what has been appended to it, unless an append has failed. */
  predicate DraftOk(e: Entry, logs: map<nat, Log>) {
    e.transfer.Write? ==>
      && e.id in logs && e.transfer.poisoned == logs[e.id].failed
      && (!logs[e.id].failed ==> e.transfer.bytes == Joined(logs[e.id].appends))
  }

  predicate DraftsOk(t: Table, logs: map<nat, Log>) {
    forall i | 0 <= i < |t.entries| :: DraftOk(t.entries[i], logs)
  }

  predicate LogsOk(frames: seq<Table>, logs: seq<map<nat, Log>>) {
    |logs| == |frames| && forall k | 0 <= k < |frames| :: DraftsOk(frames[k], logs[k])
  }

  /** The room a draft reserves to hold `required` bytes: twice what it had, within the file limit. */
  function Grown(capacity: nat, required: nat, maximum: nat): (target: nat)
    requires required <= maximum
    ensures target >= capacity && target >= required
    ensures required <= capacity ==> target == capacity
    ensures required > capacity ==> target <= maximum && target in {required, 2 * capacity, maximum}
    ensures required > capacity ==> target >= 2 * capacity || target == maximum
  {
    if required > capacity then Min(Max(required, 2 * capacity), maximum) else capacity
  }

  /** Whether an append to a draft is taken, given what all transfers retain. */
  predicate AppendFits(l: Limits, used: nat, t: Transfer, input: seq<Byte>)
    requires t.Write?
  {
    && |input| <= Min(CHUNK_BYTES, l.ioBytes) && !t.poisoned
    && |t.bytes| + |input| <= l.fileBytes
    && used + Grown(t.capacity, |t.bytes| + |input|, l.fileBytes) - t.capacity <= l.logicalBytes
  }

  function Appended(l: Limits, used: nat, t: Transfer, input: seq<Byte>): Transfer
    requires t.Write?
  {
    if AppendFits(l, used, t, input)
    then t.(bytes := t.bytes + input, capacity := Grown(t.capacity, |t.bytes| + |input|, l.fileBytes))
    else t.(poisoned := true)
  }

  function LogAppend(l: Limits, used: nat, t: Transfer, input: seq<Byte>, log: Log): Log
    requires t.Write?
  {
    Log(log.appends + [input], log.failed || !AppendFits(l, used, t, input))
  }

  /** An append keeps a draft equal to what was appended, and a draft on which one has failed takes no more. */
  lemma {:induction false} AppendKeepsDraft(l: Limits, used: nat, e: Entry, input: seq<Byte>, logs: map<nat, Log>)
    requires e.transfer.Write? && DraftOk(e, logs)
    ensures DraftOk(e.(transfer := Appended(l, used, e.transfer, input)),
                    logs[e.id := LogAppend(l, used, e.transfer, input, logs[e.id])])
    ensures logs[e.id].failed ==> !AppendFits(l, used, e.transfer, input)
  {
    JoinedExtends(logs[e.id].appends, input);
  }

  lemma {:induction false} AppendKeepsTransfer(l: Limits, used: nat, t: Transfer, input: seq<Byte>)
    requires t.Write? && TransferOk(l, t)
    ensures TransferOk(l, Appended(l, used, t, input))
    ensures used <= l.logicalBytes ==> used + Retained(Appended(l, used, t, input)) - Retained(t) <= l.logicalBytes
  {
  }

  /** Changing a draft in a table leaves the other entries to their own logs. */
  lemma {:induction false} ReplacedDrafts(t: Table, i: nat, transfer: Transfer, logs: map<nat, Log>, log: Log)
    requires IdsOk(t) && DraftsOk(t, logs) && i < |t.entries|
    requires DraftOk(t.entries[i].(transfer := transfer), logs[t.entries[i].id := log])
    ensures DraftsOk(Replaced(t, i, transfer), logs[t.entries[i].id := log])
  {
    var u := Replaced(t, i, transfer);
    forall k | 0 <= k < |u.entries|
      ensures DraftOk(u.entries[k], logs[t.entries[i].id := log])
    {
      if k != i {
        assert DraftOk(t.entries[k], logs) && t.entries[k].id != t.entries[i].id;
      }
    }
  }

  lemma {:induction false} ClosedDrafts(t: Table, i: nat, logs: map<nat, Log>)
    requires DraftsOk(t, logs) && i < |t.entries|
    ensures DraftsOk(Closed(t, i), logs)
  {
    var u := Closed(t, i);
    forall k | 0 <= k < |u.entries|
      ensures DraftOk(u.entries[k], logs)
    {
      assert u.entries[k] == t.entries[if k < i then k else k + 1];
    }
  }

  lemma {:induction false} InsertedDrafts(t: Table, transfer: Transfer, logs: map<nat, Log>)
    requires IdsOk(t) && DraftsOk(t, logs)
    requires transfer.Write? ==> transfer.bytes == [] && !transfer.poisoned
    ensures DraftsOk(Inserted(t, transfer), logs[t.nextId := Log([], false)])
  {
    var u := Inserted(t, transfer);
    forall k | 0 <= k < |u.entries|
      ensures DraftOk(u.entries[k], logs[t.nextId := Log([], false)])
    {
      if k < |t.entries| {
        assert DraftOk(t.entries[k], logs) && u.entries[k] == t.entries[k];
      }
    }
  }

  function RevisionIn(files: map<Text, File>, path: Text): Revision {
    if path in files then Present(files[path].generation) else Absent
  }

  /**
    * Publishing a draft gives its file a revision that none had before, so no other draft opened on the old revision
    * can be published; the drafts of other files are not affected.
    */
  lemma {:induction false} PublishingSupersedes(
      files: map<Text, File>, generation: nat, path: Text, bytes: seq<Byte>, other: Text)
    requires generation < U64_MAX && forall p | p in files :: files[p].generation <= generation
    ensures var after := files[path := File(bytes, generation + 1)];
            && RevisionIn(after, path) == Present(generation + 1) && RevisionIn(files, other) != Present(generation + 1)
            && (RevisionIn(after, other) == RevisionIn(files, other) <==> other != path)
  {
  }

  predicate HandleAt(t: Table, i: nat, id: nat) {
    i < |t.entries| && t.entries[i].id == id
  }

  class FileHost {
    const limits: Limits
    var frames: seq<Table>
    var files: map<Text, File>
    var generation: U64
    ghost var logs: seq<map<nat, Log>>

    ghost predicate Valid()
      reads this
    {
      && frames != [] && FramesOk(limits, frames) && LogsOk(frames, logs)
      && forall path | path in files :: files[path].generation <= generation
    }

    function Active(): Table
      requires frames != []
      reads this
    {
      frames[|frames| - 1]
    }

    ghost function ActiveLogs(): map<nat, Log>
      requires frames != [] && |logs| == |frames|
      reads this
    {
      logs[|frames| - 1]
    }

    constructor (limits: Limits, files: map<Text, File>, generation: U64)
      requires forall path | path in files :: files[path].generation <= generation
      ensures Valid() && this.limits == limits && frames == [EMPTY] && this.files == files
    {
      this.limits, this.files, this.generation := limits, files, generation;
      frames, logs := [EMPTY], [map[]];
      new;
      assert frames[..0] == [] && frames[0].entries == [];
      assert AllHandles(frames) == AllHandles(frames[..0]) + |frames[0].entries|;
      assert AllRetained(frames) == AllRetained(frames[..0]) + RetainedBy(frames[0].entries);
    }

    /** A new process has no transfers. */
    method Enter()
      requires Valid()
      modifies this`frames, this`logs
      ensures Valid() && frames == old(frames) + [EMPTY] && logs == old(logs) + [map[]]
    {
      assert (frames + [EMPTY])[..|frames|] == frames;
      frames, logs := frames + [EMPTY], logs + [map[]];
    }

    /** The transfers of a process that ends are gone, and its drafts with them. */
    method Leave()
      requires Valid() && |frames| > 1
      modifies this`frames, this`logs
      ensures Valid() && frames == old(frames)[..|old(frames)| - 1] && logs == old(logs)[..|old(logs)| - 1]
    {
      frames, logs := frames[..|frames| - 1], logs[..|logs| - 1];
    }

    /** Replaces the active process's table by one that keeps within the quotas. */
    method SetActive(t: Table, ghost kept: map<nat, Log>)
      requires Valid() && TableOk(limits, t) && DraftsOk(t, kept)
      requires AllHandles(frames) + |t.entries| <= limits.openHandles + |Active().entries|
      requires AllRetained(frames) + RetainedBy(t.entries) <= limits.logicalBytes + RetainedBy(Active().entries)
      modifies this`frames, this`logs
      ensures Valid() && frames == WithActive(old(frames), t) && logs == old(logs)[|old(frames)| - 1 := kept]
    {
      ActiveKeeps(limits, frames, t);
      frames, logs := WithActive(frames, t), logs[|frames| - 1 := kept];
    }

    /** Whether the quotas over all processes leave room for so many more bytes, and for one more handle. */
    predicate Capacity(bytes: nat, newHandle: bool)
      reads this
    {
      && (newHandle ==> AllHandles(frames) < limits.openHandles)
      && AllRetained(frames) + bytes <= limits.logicalBytes
    }

    /** There is room for a transfer if, and only if, the quotas still hold once it is there. */
    lemma {:induction false} CapacityIsQuota(transfer: Transfer)
      requires frames != []
      ensures Capacity(Retained(transfer), true)
              <==> WithinQuota(limits, WithActive(frames, Inserted(Active(), transfer)))
    {
      var t := Inserted(Active(), transfer);
      ActiveQuota(frames, t);
      RetainedExtends(Active().entries, Entry(Active().nextId, transfer));
    }

    method Find(id: nat) returns (found: Option<nat>)
      requires frames != []
      ensures found.None? <==> !HasHandle(Active(), id)
      ensures found.Some? ==> HandleAt(Active(), found.value, id)
    {
      var entries := frames[|frames| - 1].entries;
      for i := 0 to |entries|
        invariant forall j | 0 <= j < i :: entries[j].id != id
      {
        if entries[i].id == id {
          return Some(i);
        }
      }
      return None;
    }

    /** Opens a transfer under the next id of the active process. Ids run out; they do not start again. */
    method Insert(transfer: Transfer) returns (r: Result<nat, FileError>)
      requires Valid() && TransferOk(limits, transfer) && Capacity(Retained(transfer), true)
      requires transfer.Write? ==> transfer.bytes == [] && !transfer.poisoned
      modifies this`frames, this`logs
      ensures frames != [] && Evolves(old(Active()), Active())
      ensures Valid() && (r.Ok? <==> old(Active()).nextId < I32_MAX)
      ensures r.Ok? ==> r.value == old(Active()).nextId && frames == WithActive(old(frames), Inserted(old(Active()), transfer))
      ensures r.Ok? ==> logs == old(logs)[|frames| - 1 := old(ActiveLogs())[r.value := Log([], false)]]
      ensures r.Err? ==> r.error == QuotaExceeded && frames == old(frames) && logs == old(logs)
    {
      var t := Active();
      if t.nextId == I32_MAX {
        return Err(QuotaExceeded);
      }
      InsertedKeeps(limits, t, transfer);
      InsertedDrafts(t, transfer, ActiveLogs());
      RetainedExtends(t.entries, Entry(t.nextId, transfer));
      SetActive(Inserted(t, transfer), ActiveLogs()[t.nextId := Log([], false)]);
      return Ok(t.nextId);
    }

    /** Opens a snapshot of a file as it is now; later writes to the file do not show in it. */
    method OpenRead(path: Text, denied: bool) returns (r: Result<nat, FileError>)
      requires Valid() && PathOk(limits, path)
      modifies this`frames, this`logs
      ensures frames != [] && Evolves(old(Active()), Active())
      ensures Valid()
      ensures r.Ok? <==>
                && !denied && path in files && |files[path].bytes| <= limits.fileBytes
                && old(Capacity(|files[path].bytes|, true)) && old(Active()).nextId < I32_MAX
      ensures r.Ok? ==> r.value == old(Active()).nextId
                        && frames == WithActive(old(frames), Inserted(old(Active()), Read(path, files[path].bytes, 0)))
                        && logs == old(logs)[|frames| - 1 := old(ActiveLogs())[r.value := Log([], false)]]
      ensures r.Err? ==> frames == old(frames) && logs == old(logs)
                         && r.error == if denied then Refused else if path !in files then NotFound else QuotaExceeded
    {
      StaysPut(Active());
      if denied {
        return Err(Refused);
      }
      if path !in files {
        return Err(NotFound);
      }
      var snapshot := Read(path, files[path].bytes, 0);
      if |snapshot.bytes| > limits.fileBytes || !Capacity(Retained(snapshot), true) {
        return Err(QuotaExceeded);
      }
      r := Insert(snapshot);
    }

    /** The revision of a file as it is now. */
    function RevisionOf(path: Text): Revision
      reads this
    {
      RevisionIn(files, path)
    }

    /** Opens an empty draft, which remembers the revision it is to replace. */
    method OpenWrite(path: Text, denied: bool) returns (r: Result<nat, FileError>)
      requires Valid() && PathOk(limits, path)
      modifies this`frames, this`logs
      ensures frames != [] && Evolves(old(Active()), Active())
      ensures Valid()
      ensures r.Ok? <==> !denied && old(Capacity(0, true)) && old(Active()).nextId < I32_MAX
      ensures r.Ok? ==> r.value == old(Active()).nextId
                        && frames == WithActive(old(frames), Inserted(old(Active()), Write(path, RevisionOf(path), [], 0, false)))
                        && logs == old(logs)[|frames| - 1 := old(ActiveLogs())[r.value := Log([], false)]]
      ensures r.Err? ==> frames == old(frames) && logs == old(logs)
                         && r.error == if denied then Refused else QuotaExceeded
    {
      StaysPut(Active());
      if denied {
        return Err(Refused);
      }
      var draft := Write(path, RevisionOf(path), [], 0, false);
      if !Capacity(Retained(draft), true) {
        return Err(QuotaExceeded);
      }
      r := Insert(draft);
    }

    /** A listing is a snapshot too; the names are in order. */
    method OpenDirectory(path: Text, names: seq<Text>, capacity: nat, denied: bool) returns (r: Result<nat, FileError>)
      requires Valid() && PathOk(limits, path) && Sorted(names) && |names| <= capacity
      modifies this`frames, this`logs
      ensures frames != [] && Evolves(old(Active()), Active())
      ensures Valid()
      ensures r.Ok? <==>
                && !denied && old(Capacity(NameBytes(names) + capacity * NAME_SLOT_BYTES, true))
                && old(Active()).nextId < I32_MAX
      ensures r.Ok? ==> r.value == old(Active()).nextId
                        && frames == WithActive(old(frames), Inserted(old(Active()), Directory(path, names, capacity, 0)))
                        && logs == old(logs)[|frames| - 1 := old(ActiveLogs())[r.value := Log([], false)]]
      ensures r.Err? ==> frames == old(frames) && logs == old(logs)
                         && r.error == if denied then Refused else QuotaExceeded
    {
      StaysPut(Active());
      var listing := Directory(path, names, capacity, 0);
      if denied {
        return Err(Refused);
      }
      if !Capacity(Retained(listing), true) {
        return Err(QuotaExceeded);
      }
      r := Insert(listing);
    }

    method OpenMove(path: Text, stat: U64, denied: bool) returns (r: Result<nat, FileError>)
      requires Valid() && PathOk(limits, path)
      modifies this`frames, this`logs
      ensures frames != [] && Evolves(old(Active()), Active())
      ensures Valid()
      ensures r.Ok? <==> !denied && old(Capacity(0, true)) && old(Active()).nextId < I32_MAX
      ensures r.Ok? ==> r.value == old(Active()).nextId
                        && frames == WithActive(old(frames), Inserted(old(Active()), Move(path, stat)))
                        && logs == old(logs)[|frames| - 1 := old(ActiveLogs())[r.value := Log([], false)]]
      ensures r.Err? ==> frames == old(frames) && logs == old(logs)
                         && r.error == if denied then Refused else QuotaExceeded
    {
      StaysPut(Active());
      if denied {
        return Err(Refused);
      }
      if !Capacity(0, true) {
        return Err(QuotaExceeded);
      }
      r := Insert(Move(path, stat));
    }

    /** Replaces one transfer by another that retains no more than the quota leaves. */
    method SetTransfer(i: nat, transfer: Transfer, ghost log: Log)
      requires Valid() && i < |Active().entries| && TransferOk(limits, transfer)
      requires DraftOk(Active().entries[i].(transfer := transfer), ActiveLogs()[Active().entries[i].id := log])
      requires AllRetained(frames) + Retained(transfer) - Retained(Active().entries[i].transfer) <= limits.logicalBytes
      modifies this`frames, this`logs
      ensures frames != [] && Evolves(old(Active()), Active())
      ensures Valid() && i < |old(Active()).entries|
      ensures frames == WithActive(old(frames), Replaced(old(Active()), i, transfer))
      ensures logs == old(logs)[|frames| - 1 := old(ActiveLogs())[old(Active()).entries[i].id := log]]
    {
      var t := Active();
      ReplacedKeeps(limits, t, i, transfer);
      ReplacedDrafts(t, i, transfer, ActiveLogs(), log);
      RetainedReplaces(t.entries, i, t.entries[i].(transfer := transfer));
      SetActive(Replaced(t, i, transfer), ActiveLogs()[t.entries[i].id := log]);
    }

    /**
      * Appends to a draft. Whatever is attempted on a draft is logged with it; if it does not fit, the draft takes
      * no more, and what it holds is never published.
      */
    method Append(id: nat, input: seq<Byte>) returns (r: Result<(), FileError>)
      requires Valid()
      modifies this`frames, this`logs
      ensures frames != [] && Evolves(old(Active()), Active())
      ensures Valid()
      ensures (forall i: nat | HandleAt(old(Active()), i, id) :: !old(Active()).entries[i].transfer.Write?) ==>
                && frames == old(frames) && logs == old(logs)
                && r == Err(if |input| > Min(CHUNK_BYTES, limits.ioBytes) then QuotaExceeded else StaleHandle)
      ensures forall i: nat | HandleAt(old(Active()), i, id) && old(Active()).entries[i].transfer.Write? ::
                var t, used := old(Active()).entries[i].transfer, AllRetained(old(frames));
                && (r.Ok? <==> AppendFits(limits, used, t, input)) && (r.Err? ==> r.error == QuotaExceeded)
                && frames == WithActive(old(frames), Replaced(old(Active()), i, Appended(limits, used, t, input)))
                && id in old(ActiveLogs())
                && logs == old(logs)[|frames| - 1 := old(ActiveLogs())[id := LogAppend(limits, used, t, input, old(ActiveLogs())[id])]]
                && (old(ActiveLogs())[id].failed ==> r.Err?)
    {
      var found := Find(id);
      if found.None? {
        return Err(if |input| > Min(CHUNK_BYTES, limits.ioBytes) then QuotaExceeded else StaleHandle);
      }
      var i := found.value;
      var e := Active().entries[i];
      HandleIsUnique(Active(), i, id);
      if !e.transfer.Write? {
        return Err(if |input| > Min(CHUNK_BYTES, limits.ioBytes) then QuotaExceeded else StaleHandle);
      }
      assert DraftOk(e, ActiveLogs());
      AppendKeepsDraft(limits, AllRetained(frames), e, input, ActiveLogs());
      AppendKeepsTransfer(limits, AllRetained(frames), e.transfer, input);
      ghost var log := LogAppend(limits, AllRetained(frames), e.transfer, input, ActiveLogs()[id]);
      var chunk := AppendChunk(e.transfer, input);
      if chunk.Err? {
        SetTransfer(i, e.transfer.(poisoned := true), log);
        return Err(QuotaExceeded);
      }
      SetTransfer(i, chunk.value, log);
      return Ok(());
    }

    /** The draft after an append, if it fits. */
    method AppendChunk(t: Transfer, input: seq<Byte>) returns (r: Result<Transfer, FileError>)
      requires t.Write?
      ensures r.Ok? <==> AppendFits(limits, AllRetained(frames), t, input)
      ensures r.Ok? ==> r.value == Appended(limits, AllRetained(frames), t, input)
      ensures r.Err? ==> r.error == QuotaExceeded
    {
      if |input| > Min(CHUNK_BYTES, limits.ioBytes) || t.poisoned {
        return Err(QuotaExceeded);
      }
      var required := |t.bytes| + |input|;
      if required > limits.fileBytes {
        return Err(QuotaExceeded);
      }
      var target := if required > t.capacity then Min(Max(required, 2 * t.capacity), limits.fileBytes) else t.capacity;
      if !Capacity(target - t.capacity, false) {
        return Err(QuotaExceeded);
      }
      return Ok(t.(bytes := t.bytes + input, capacity := target));
    }

    /**
      * Publishes a draft and closes it. What is published is exactly what has been appended to it, and only over
      * the revision it was opened on; a draft on which an append has failed is never published, and a commit that
      * fails changes nothing.
      */
    method Commit(id: nat, refused: bool) returns (r: Result<(), FileError>)
      requires Valid()
      modifies this
      ensures frames != [] && Evolves(old(Active()), Active())
      ensures Valid()
      ensures r.Err? ==> frames == old(frames) && logs == old(logs) && files == old(files) && generation == old(generation)
      ensures !HasHandle(old(Active()), id) ==> r == Err(StaleHandle)
      ensures forall i: nat | HandleAt(old(Active()), i, id) ::
                && (r.Err? ==> r.error == old(Refusal(Active().entries[i].transfer)))
                && (r.Ok? <==> old(MayCommit(Active().entries[i].transfer)) && !refused && old(generation) < U64_MAX)
                && (r.Ok? ==>
                      && id in old(ActiveLogs()) && !old(ActiveLogs())[id].failed && generation == old(generation) + 1
                      && files == old(files)[old(Active()).entries[i].transfer.path :=
                                             File(Joined(old(ActiveLogs())[id].appends), generation)]
                      && frames == WithActive(old(frames), Closed(old(Active()), i))
                      && logs == old(logs) && !HasHandle(Active(), id))
    {
      var found := Find(id);
      if found.None? {
        return Err(StaleHandle);
      }
      var i := found.value;
      HandleIsUnique(Active(), i, id);
      var t := Active().entries[i].transfer;
      if !t.Write? {
        return Err(StaleHandle);
      }
      assert DraftOk(Active().entries[i], ActiveLogs());
      if t.poisoned {
        return Err(QuotaExceeded);
      }
      if RevisionOf(t.path) != t.revision {
        return Err(Busy);
      }
      if refused || generation == U64_MAX {
        return Err(Refused);
      }
      generation := generation + 1;
      files := files[t.path := File(t.bytes, generation)];
      Remove(i);
      return Ok(());
    }

    predicate MayCommit(t: Transfer)
      reads this
    {
      t.Write? && !t.poisoned && RevisionOf(t.path) == t.revision
    }

    /** Why a draft is not published. */
    function Refusal(t: Transfer): FileError
      reads this
    {
      if !t.Write? then StaleHandle
      else if t.poisoned then QuotaExceeded
      else if MayCommit(t) then Refused
      else Busy
    }

    /** Takes a transfer out of the active process's table. */
    method Remove(i: nat)
      requires Valid() && i < |Active().entries|
      modifies this`frames, this`logs
      ensures frames != [] && Evolves(old(Active()), Active())
      ensures Valid() && i < |old(Active()).entries|
      ensures frames == WithActive(old(frames), Closed(old(Active()), i)) && logs == old(logs)
      ensures !HasHandle(Active(), old(Active()).entries[i].id)
    {
      var t := Active();
      ClosedKeeps(limits, t, i);
      ClosedDrafts(t, i, ActiveLogs());
      RetainedRemoves(t.entries, i);
      SetActive(Closed(t, i), ActiveLogs());
      assert logs == old(logs);
    }

    method Close(id: nat) returns (r: Result<(), FileError>)
      requires Valid()
      modifies this`frames, this`logs
      ensures frames != [] && Evolves(old(Active()), Active())
      ensures Valid() && !HasHandle(Active(), id) && logs == old(logs)
      ensures if HasHandle(old(Active()), id) then r.Ok? else r == Err(StaleHandle) && frames == old(frames)
      ensures forall i: nat | HandleAt(old(Active()), i, id) :: frames == WithActive(old(frames), Closed(old(Active()), i))
    {
      var found := Find(id);
      if found.None? {
        return Err(StaleHandle);
      }
      HandleIsUnique(Active(), found.value, id);
      Remove(found.value);
      return Ok(());
    }

    /** Closes all transfers of the active process; ids go on from where they were. */
    method ReleaseAll()
      requires Valid()
      modifies this`frames, this`logs
      ensures frames != [] && Evolves(old(Active()), Active())
      ensures Valid() && frames == WithActive(old(frames), old(Active()).(entries := []))
      ensures logs == old(logs)[|frames| - 1 := map[]]
    {
      SetActive(Active().(entries := []), map[]);
    }

    /** The next part of a snapshot, behind a zero byte. */
    method ReadChunk(id: nat, maximum: int) returns (r: Result<seq<Byte>, FileError>)
      requires Valid()
      modifies this`frames, this`logs
      ensures frames != [] && Evolves(old(Active()), Active())
      ensures Valid()
      ensures r.Err? ==> frames == old(frames) && logs == old(logs)
                         && r.error == if 0 < maximum <= Min(CHUNK_BYTES, limits.ioBytes) then StaleHandle else QuotaExceeded
      ensures r.Ok? ==> HasHandle(old(Active()), id)
                        && logs == old(logs)[|old(frames)| - 1 := old(ActiveLogs())[id := Log([], false)]]
      ensures forall i: nat | HandleAt(old(Active()), i, id) ::
                var t := old(Active()).entries[i].transfer;
                && (r.Ok? <==> t.Read? && 0 < maximum <= Min(CHUNK_BYTES, limits.ioBytes))
                && (r.Ok? ==>
                      && t.position <= Min(t.position + maximum, |t.bytes|)
                      && r.value == [0] + t.bytes[t.position..Min(t.position + maximum, |t.bytes|)]
                      && frames == WithActive(old(frames), Replaced(old(Active()), i, Read(t.path, t.bytes, Min(t.position + maximum, |t.bytes|)))))
    {
      if maximum <= 0 || maximum > Min(CHUNK_BYTES, limits.ioBytes) {
        return Err(QuotaExceeded);
      }
      var found := Find(id);
      if found.None? {
        return Err(StaleHandle);
      }
      var i := found.value;
      HandleIsUnique(Active(), i, id);
      var t := Active().entries[i].transfer;
      if !t.Read? {
        return Err(StaleHandle);
      }
      assert TransferOk(limits, t);
      var end := Min(t.position + maximum, |t.bytes|);
      SetTransfer(i, Read(t.path, t.bytes, end), Log([], false));
      return Ok([0] + t.bytes[t.position..end]);
    }

    /** The next name of a listing, or none at its end; `fits` tells whether the name fits into a reply. */
    method NextEntry(id: nat, fits: bool) returns (r: Result<Option<Text>, FileError>)
      requires Valid()
      modifies this`frames, this`logs
      ensures frames != [] && Evolves(old(Active()), Active())
      ensures Valid()
      ensures r.Err? ==> frames == old(frames) && logs == old(logs)
      ensures !HasHandle(old(Active()), id) ==> r == Err(StaleHandle)
      ensures r.Ok? ==> HasHandle(old(Active()), id)
                        && (logs == old(logs) || logs == old(logs)[|old(frames)| - 1 := old(ActiveLogs())[id := Log([], false)]])
      ensures forall i: nat | HandleAt(old(Active()), i, id) ::
                var t := old(Active()).entries[i].transfer;
                && (r.Ok? <==> t.Directory? && (t.position >= |t.names| || fits))
                && (r.Err? ==> r.error == if t.Directory? then QuotaExceeded else StaleHandle)
                && (r.Ok? && t.position >= |t.names| ==> r.value.None? && frames == old(frames))
                && (r.Ok? && t.position < |t.names| ==>
                      && r.value == Some(t.names[t.position])
                      && frames == WithActive(old(frames), Replaced(old(Active()), i, Directory(t.path, t.names, t.capacity, t.position + 1))))
    {
      var found := Find(id);
      if found.None? {
        return Err(StaleHandle);
      }
      var i := found.value;
      HandleIsUnique(Active(), i, id);
      var t := Active().entries[i].transfer;
      if !t.Directory? {
        return Err(StaleHandle);
      }
      if t.position >= |t.names| {
        return Ok(None);
      }
      if !fits {
        return Err(QuotaExceeded);
      }
      assert TransferOk(limits, t);
      SetTransfer(i, Directory(t.path, t.names, t.capacity, t.position + 1), Log([], false));
      return Ok(Some(t.names[t.position]));
    }
  }

  /** There is one transfer to an id. */
  lemma {:induction false} HandleIsUnique(t: Table, i: nat, id: nat)
    requires IdsOk(t) && HandleAt(t, i, id)
    ensures HasHandle(t, id) && forall j: nat | HandleAt(t, j, id) :: j == i
  {
    forall j: nat | HandleAt(t, j, id)
      ensures j == i
    {
      assert t.entries[j].id == t.entries[i].id;
    }
  }
}
