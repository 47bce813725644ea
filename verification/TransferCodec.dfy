/** The checkpoint form of a table of transfers, and the bounded reader of it. */
module TransferCodec {
  import opened Wrappers
  import opened Words
  import opened Cursors
  import opened PrefixCodes
  import opened Transfers

  datatype CheckpointError = Limit | Truncated | InvalidState

  // ---- the form ----

  function EncodeBytes(b: seq<Byte>): seq<Byte> {
    EncodeLe(|b|, 8) + b
  }

  function EncodeRevision(r: Revision): seq<Byte> {
    match r
    case Absent => [0]
    case Present(generation) => [1] + EncodeLe(generation, 8)
  }

  function EncodeFlag(b: bool): seq<Byte> {
    [if b then 1 else 0]
  }

  function Tag(t: Transfer): Byte {
    match t
    case Read(_, _, _) => 0
    case Write(_, _, _, _, _) => 1
    case Directory(_, _, _, _) => 2
    case Move(_, _) => 3
  }

  /** What follows the tag. Reserved room is not part of the form. */
  function EncodeBody(t: Transfer): seq<Byte> {
    match t
    case Read(_, bytes, position) => EncodeBytes(bytes) + EncodeLe(position, 8)
    case Write(_, revision, bytes, _, poisoned) => EncodeRevision(revision) + (EncodeBytes(bytes) + EncodeFlag(poisoned))
    case Directory(_, names, _, position) =>
      EncodeLe(|names|, 8) + (Concat(EncodeBytes, names) + EncodeLe(position, 8))
    case Move(_, generation) => EncodeLe(generation, 8)
  }

  function EncodeTransfer(t: Transfer): seq<Byte> {
    [Tag(t)] + EncodeBody(t)
  }

  function EncodeEntry(e: Entry): seq<Byte> {
    EncodeLe(e.id, 4) + (EncodeBytes(e.transfer.path) + EncodeTransfer(e.transfer))
  }

  function EncodeTable(t: Table): seq<Byte> {
    EncodeLe(t.nextId, 4) + (EncodeLe(|t.entries|, 8) + Concat(EncodeEntry, t.entries))
  }

  // ---- the form can be told apart from the left ----

  predicate Sized(b: seq<Byte>) {
    |b| <= U64_MAX
  }

  lemma {:induction false} BytesForced(a: seq<Byte>, b: seq<Byte>, s: seq<Byte>)
    requires Sized(a) && Sized(b) && EncodeBytes(a) <= s && EncodeBytes(b) <= s
    ensures a == b
  {
    Powers();
    StartsTwice(EncodeLe(|a|, 8), a, EncodeBytes(a), s);
    StartsTwice(EncodeLe(|b|, 8), b, EncodeBytes(b), s);
    WordForced(|a|, |b|, 8, s);
    assert a == s[8..][..|a|] == b;
  }

  lemma {:induction false} BytesPrefixFree()
    ensures PrefixFree(EncodeBytes, Sized)
  {
    forall x: seq<Byte>, y: seq<Byte>, s: seq<Byte> | Sized(x) && Sized(y) && Starts(EncodeBytes(x), s) && Starts(EncodeBytes(y), s)
      ensures x == y
    {
      BytesForced(x, y, s);
    }
  }

  /** A transfer whose numbers fit their words and that has reserved no more room than it uses. */
  predicate SizedTransfer(t: Transfer) {
    && Sized(t.path)
    && match t
       case Read(_, bytes, position) => Sized(bytes) && position <= |bytes|
       case Write(_, _, bytes, capacity, _) => Sized(bytes) && capacity == |bytes|
       case Directory(_, names, capacity, position) =>
         position <= |names| <= U64_MAX && capacity == |names| && AllLegal(Sized, names)
       case Move(_, _) => true
  }

  predicate SizedEntry(e: Entry) {
    e.id < TWO_32 && SizedTransfer(e.transfer)
  }

  lemma {:induction false} RevisionForced(a: Revision, b: Revision, s: seq<Byte>)
    requires EncodeRevision(a) <= s && EncodeRevision(b) <= s
    ensures a == b
  {
    assert EncodeRevision(a)[0] == s[0] == EncodeRevision(b)[0];
    if a.Present? {
      Powers();
      StartsTwice([1], EncodeLe(a.generation, 8), EncodeRevision(a), s);
      StartsTwice([1], EncodeLe(b.generation, 8), EncodeRevision(b), s);
      WordForced(a.generation, b.generation, 8, s[1..]);
    }
  }

  lemma {:induction false} NamesForced(a: seq<Text>, b: seq<Text>, s: seq<Byte>)
    requires AllLegal(Sized, a) && AllLegal(Sized, b) && |a| == |b|
    requires Concat(EncodeBytes, a) <= s && Concat(EncodeBytes, b) <= s
    ensures a == b
  {
    BytesPrefixFree();
    SamePrefix(EncodeBytes, Sized, a, b, s);
    assert b[..|a|] == b;
  }

  lemma {:induction false} DirectoryForced(a: Transfer, b: Transfer, s: seq<Byte>)
    requires a.Directory? && b.Directory? && SizedTransfer(a) && SizedTransfer(b)
    requires EncodeBody(a) <= s && EncodeBody(b) <= s
    ensures a.names == b.names && a.position == b.position
  {
    Powers();
    var ta := Concat(EncodeBytes, a.names) + EncodeLe(a.position, 8);
    var tb := Concat(EncodeBytes, b.names) + EncodeLe(b.position, 8);
    StartsTwice(EncodeLe(|a.names|, 8), ta, EncodeBody(a), s);
    StartsTwice(EncodeLe(|b.names|, 8), tb, EncodeBody(b), s);
    WordForced(|a.names|, |b.names|, 8, s);
    StartsTwice(Concat(EncodeBytes, a.names), EncodeLe(a.position, 8), ta, s[8..]);
    StartsTwice(Concat(EncodeBytes, b.names), EncodeLe(b.position, 8), tb, s[8..]);
    NamesForced(a.names, b.names, s[8..]);
    WordForced(a.position, b.position, 8, s[8..][|Concat(EncodeBytes, a.names)|..]);
  }

  lemma {:induction false} WriteForced(a: Transfer, b: Transfer, s: seq<Byte>)
    requires a.Write? && b.Write? && SizedTransfer(a) && SizedTransfer(b)
    requires EncodeBody(a) <= s && EncodeBody(b) <= s
    ensures a.revision == b.revision && a.bytes == b.bytes && a.poisoned == b.poisoned
  {
    var ta := EncodeBytes(a.bytes) + EncodeFlag(a.poisoned);
    var tb := EncodeBytes(b.bytes) + EncodeFlag(b.poisoned);
    StartsTwice(EncodeRevision(a.revision), ta, EncodeBody(a), s);
    StartsTwice(EncodeRevision(b.revision), tb, EncodeBody(b), s);
    RevisionForced(a.revision, b.revision, s);
    var rest := s[|EncodeRevision(a.revision)|..];
    StartsTwice(EncodeBytes(a.bytes), EncodeFlag(a.poisoned), ta, rest);
    StartsTwice(EncodeBytes(b.bytes), EncodeFlag(b.poisoned), tb, rest);
    BytesForced(a.bytes, b.bytes, rest);
    assert EncodeFlag(a.poisoned)[0] == EncodeFlag(b.poisoned)[0];
  }

  lemma {:induction false} ReadForced(a: Transfer, b: Transfer, s: seq<Byte>)
    requires a.Read? && b.Read? && SizedTransfer(a) && SizedTransfer(b)
    requires EncodeBody(a) <= s && EncodeBody(b) <= s
    ensures a.bytes == b.bytes && a.position == b.position
  {
    Powers();
    StartsTwice(EncodeBytes(a.bytes), EncodeLe(a.position, 8), EncodeBody(a), s);
    StartsTwice(EncodeBytes(b.bytes), EncodeLe(b.position, 8), EncodeBody(b), s);
    BytesForced(a.bytes, b.bytes, s);
    WordForced(a.position, b.position, 8, s[|EncodeBytes(a.bytes)|..]);
  }

  lemma {:induction false} TransferForced(a: Transfer, b: Transfer, s: seq<Byte>)
    requires SizedTransfer(a) && SizedTransfer(b) && a.path == b.path
    requires EncodeTransfer(a) <= s && EncodeTransfer(b) <= s
    ensures a == b
  {
    StartsTwice([Tag(a)], EncodeBody(a), EncodeTransfer(a), s);
    StartsTwice([Tag(b)], EncodeBody(b), EncodeTransfer(b), s);
    assert [Tag(a)][0] == s[0] == [Tag(b)][0];
    match a
    case Read(_, _, _) => ReadForced(a, b, s[1..]);
    case Write(_, _, _, _, _) => WriteForced(a, b, s[1..]);
    case Directory(_, _, _, _) => DirectoryForced(a, b, s[1..]);
    case Move(_, _) =>
      Powers();
      WordForced(a.generation, b.generation, 8, s[1..]);
  }

  lemma {:induction false} EntryForced(a: Entry, b: Entry, s: seq<Byte>)
    requires SizedEntry(a) && SizedEntry(b) && EncodeEntry(a) <= s && EncodeEntry(b) <= s
    ensures a == b
  {
    Powers();
    var ta := EncodeBytes(a.transfer.path) + EncodeTransfer(a.transfer);
    var tb := EncodeBytes(b.transfer.path) + EncodeTransfer(b.transfer);
    StartsTwice(EncodeLe(a.id, 4), ta, EncodeEntry(a), s);
    StartsTwice(EncodeLe(b.id, 4), tb, EncodeEntry(b), s);
    WordForced(a.id, b.id, 4, s);
    StartsTwice(EncodeBytes(a.transfer.path), EncodeTransfer(a.transfer), ta, s[4..]);
    StartsTwice(EncodeBytes(b.transfer.path), EncodeTransfer(b.transfer), tb, s[4..]);
    BytesForced(a.transfer.path, b.transfer.path, s[4..]);
    TransferForced(a.transfer, b.transfer, s[4..][|EncodeBytes(a.transfer.path)|..]);
  }

  lemma {:induction false} EntriesPrefixFree()
    ensures PrefixFree(EncodeEntry, SizedEntry)
  {
    forall x: Entry, y: Entry, s: seq<Byte> | SizedEntry(x) && SizedEntry(y) && Starts(EncodeEntry(x), s) && Starts(EncodeEntry(y), s)
      ensures x == y
    {
      EntryForced(x, y, s);
    }
  }

  // ---- what the reader admits ----

  predicate LegalName(l: Limits, name: Text) {
    |name| <= l.componentBytes && l.isText(name)
  }

  /** Names within the limits, with `room` bytes for all of them. */
  predicate LegalNames(l: Limits, room: nat, names: seq<Text>) {
    NameBytes(names) <= room && forall i | 0 <= i < |names| :: LegalName(l, names[i])
  }

  /** A transfer within the limits, when those before it retain `used` bytes. */
  predicate LegalTransfer(l: Limits, used: nat, t: Transfer) {
    && PathOk(l, t.path) && used <= l.logicalBytes
    && match t
       case Read(_, bytes, position) => |bytes| <= l.fileBytes && used + |bytes| <= l.logicalBytes && position <= |bytes|
       case Write(_, _, bytes, capacity, _) => |bytes| <= l.fileBytes && used + |bytes| <= l.logicalBytes && capacity == |bytes|
       case Directory(_, names, capacity, position) =>
         && position <= |names| <= l.directoryEntries && capacity == |names| && Sorted(names)
         && used + |names| * NAME_SLOT_BYTES <= l.logicalBytes
         && LegalNames(l, l.logicalBytes - used - |names| * NAME_SLOT_BYTES, names)
       case Move(_, _) => true
  }

  function LastId(entries: seq<Entry>): nat {
    if entries == [] then 0 else entries[|entries| - 1].id
  }

  predicate LegalNext(l: Limits, nextId: nat, before: seq<Entry>, e: Entry) {
    LastId(before) < e.id < nextId && LegalTransfer(l, RetainedBy(before), e.transfer)
  }

  predicate LegalAt(l: Limits, nextId: nat, entries: seq<Entry>, i: nat)
    requires i < |entries|
  {
    LegalNext(l, nextId, entries[..i], entries[i])
  }

  predicate Legal(l: Limits, t: Table) {
    && 0 < t.nextId <= I32_MAX && |t.entries| <= l.openHandles
    && forall i | 0 <= i < |t.entries| :: LegalAt(l, t.nextId, t.entries, i)
  }

  lemma {:induction false} LegalIsSized(l: Limits, used: nat, t: Transfer)
    requires LegalTransfer(l, used, t)
    ensures SizedTransfer(t) && used + Retained(t) <= l.logicalBytes
  {
    if t.Directory? {
      forall i | 0 <= i < |t.names|
        ensures Sized(t.names[i])
      {
        assert LegalName(l, t.names[i]);
      }
    }
  }

  // ---- reading ----

  /** What is left of an input after an encoding has been read off it. */
  ghost predicate Reads(c: Cursor, rest: seq<Byte>, start: nat, e: seq<Byte>)
    requires c.Valid()
    reads c
  {
    e <= rest && c.position == start + |e| && c.Rest() == rest[|e|..]
  }

  lemma {:induction false} BytesTaken(rest: seq<Byte>, length: nat, input: seq<Byte>)
    requires 8 + length <= |rest| && EncodeLe(length, 8) == rest[..8] && input == rest[8..][..length]
    ensures EncodeBytes(input) == rest[..8 + length]
  {
  }

  method ReadBytes(c: Cursor, maximum: U64) returns (r: Result<seq<Byte>, CheckpointError>)
    requires c.Valid()
    modifies c
    ensures c.Valid()
    ensures r.Ok? ==> |r.value| <= maximum && Reads(c, old(c.Rest()), old(c.position), EncodeBytes(r.value))
    ensures r.Err? ==> forall b: seq<Byte> | |b| <= maximum :: !Starts(EncodeBytes(b), old(c.Rest()))
  {
    ghost var rest := c.Rest();
    var length := c.ReadWord(8);
    if length.Err? {
      BytesRefused(rest, maximum, 0);
      return Err(Truncated);
    }
    if length.value > maximum {
      BytesRefused(rest, maximum, length.value);
      return Err(Limit);
    }
    var input := c.Take(length.value);
    if input.Err? {
      BytesRefused(rest, maximum, length.value);
      return Err(Truncated);
    }
    BytesTaken(rest, length.value, input.value);
    return Ok(input.value);
  }

  /** Why a length-prefixed run of bytes is refused. */
  lemma {:induction false} BytesRefused(rest: seq<Byte>, maximum: U64, length: nat)
    requires |rest| >= 8 ==> EncodeLe(length, 8) == rest[..8] && length < Pow256(8) && (length > maximum || 8 + length > |rest|)
    ensures forall b: seq<Byte> | |b| <= maximum :: !Starts(EncodeBytes(b), rest)
  {
    forall b: seq<Byte> | |b| <= maximum
      ensures !Starts(EncodeBytes(b), rest)
    {
      if Starts(EncodeBytes(b), rest) {
        Powers();
        StartsTwice(EncodeLe(|b|, 8), b, EncodeBytes(b), rest);
        WordForced(|b|, length, 8, rest);
      }
    }
  }

  /** A prefix of some names takes no more bytes than all of them. */
  lemma {:induction false} NameBytesGrow(names: seq<Text>, k: nat)
    requires k < |names|
    ensures NameBytes(names[..k]) + |names[k]| <= NameBytes(names)
  {
    var n := |names| - 1;
    if k < n {
      NameBytesGrow(names[..n], k);
      assert names[..n][..k] == names[..k];
    }
  }

  ghost predicate NamesStart(l: Limits, room: nat, count: nat, names: seq<Text>, rest: seq<Byte>) {
    |names| == count && LegalNames(l, room, names) && Starts(Concat(EncodeBytes, names), rest)
  }

  /** Any legal names that start the input go on from those read so far with a legal name. */
  lemma {:induction false} NextName(l: Limits, room: nat, count: nat, done: seq<Text>, names: seq<Text>, rest: seq<Byte>)
    requires NamesStart(l, room, count, names, rest) && |done| < count
    requires LegalNames(l, room, done) && Concat(EncodeBytes, done) <= rest
    ensures LegalName(l, names[|done|]) && NameBytes(done) + |names[|done|]| <= room
    ensures Starts(EncodeBytes(names[|done|]), rest[|Concat(EncodeBytes, done)|..])
  {
    assert forall i | 0 <= i < |names| :: LegalName(l, names[i]);
    assert forall i | 0 <= i < |done| :: LegalName(l, done[i]);
    BytesPrefixFree();
    NextItemFollows(EncodeBytes, Sized, done, names, rest);
    NameBytesGrow(names, |done|);
  }

  lemma {:induction false} NameBytesExtends(names: seq<Text>, name: Text)
    ensures NameBytes(names + [name]) == NameBytes(names) + |name|
  {
    assert (names + [name])[..|names|] == names;
  }

  lemma {:induction false} NamesRefused(l: Limits, room: nat, count: nat, done: seq<Text>, rest: seq<Byte>)
    requires |done| < count && LegalNames(l, room, done) && Concat(EncodeBytes, done) <= rest
    requires forall name: Text | LegalName(l, name) && NameBytes(done) + |name| <= room ::
               !Starts(EncodeBytes(name), rest[|Concat(EncodeBytes, done)|..])
    ensures forall names: seq<Text> :: !NamesStart(l, room, count, names, rest)
  {
    forall names: seq<Text>
      ensures !NamesStart(l, room, count, names, rest)
    {
      if NamesStart(l, room, count, names, rest) {
        NextName(l, room, count, done, names, rest);
      }
    }
  }

  method ReadName(c: Cursor, l: Limits, remaining: U64) returns (r: Result<Text, CheckpointError>)
    requires c.Valid()
    modifies c
    ensures c.Valid()
    ensures r.Ok? ==> LegalName(l, r.value) && |r.value| <= remaining
                      && Reads(c, old(c.Rest()), old(c.position), EncodeBytes(r.value))
    ensures r.Err? ==> forall name: Text | LegalName(l, name) && |name| <= remaining :: !Starts(EncodeBytes(name), old(c.Rest()))
  {
    ghost var rest := c.Rest();
    var name := ReadBytes(c, if l.componentBytes <= remaining then l.componentBytes else remaining);
    if name.Err? {
      return Err(name.error);
    }
    if !l.isText(name.value) {
      forall other: Text | LegalName(l, other) && |other| <= remaining
        ensures !Starts(EncodeBytes(other), rest)
      {
        if Starts(EncodeBytes(other), rest) {
          BytesForced(other, name.value, rest);
        }
      }
      return Err(InvalidState);
    }
    return Ok(name.value);
  }

  method ReadNames(c: Cursor, l: Limits, count: nat, room: U64) returns (r: Result<seq<Text>, CheckpointError>)
    requires c.Valid()
    modifies c
    ensures c.Valid()
    ensures r.Ok? ==> |r.value| == count && LegalNames(l, room, r.value)
                      && Reads(c, old(c.Rest()), old(c.position), Concat(EncodeBytes, r.value))
    ensures r.Err? ==> forall names: seq<Text> :: !NamesStart(l, room, count, names, old(c.Rest()))
  {
    ghost var rest, start := c.Rest(), c.position;
    var names: seq<Text> := [];
    for i := 0 to count
      invariant c.Valid() && |names| == i && LegalNames(l, room, names)
      invariant Reads(c, rest, start, Concat(EncodeBytes, names))
    {
      var name := ReadName(c, l, room - NameBytes(names));
      if name.Err? {
        NamesRefused(l, room, count, names, rest);
        return Err(name.error);
      }
      ConcatExtends(EncodeBytes, names, name.value, rest);
      NameBytesExtends(names, name.value);
      names := names + [name.value];
    }
    return Ok(names);
  }

  /** A word of `width` bytes. */
  method ReadNumber(c: Cursor, width: nat) returns (r: Result<nat, CheckpointError>)
    requires c.Valid()
    modifies c
    ensures c.Valid()
    ensures r.Ok? ==> r.value < Pow256(width) && Reads(c, old(c.Rest()), old(c.position), EncodeLe(r.value, width))
    ensures r.Err? ==> forall v: nat :: !Starts(EncodeLe(v, width), old(c.Rest()))
  {
    var word := c.ReadWord(width);
    if word.Err? {
      return Err(Truncated);
    }
    return Ok(word.value);
  }

  /** No legal transfer of this path and tag starts the input. */
  ghost predicate BodyRefused(l: Limits, used: nat, path: Text, tag: Byte, rest: seq<Byte>) {
    forall t: Transfer | t.path == path && Tag(t) == tag && LegalTransfer(l, used, t) :: !Starts(EncodeBody(t), rest)
  }

  ghost predicate BodyRead(c: Cursor, l: Limits, used: nat, path: Text, tag: Byte, rest: seq<Byte>, start: nat, t: Transfer)
    requires c.Valid()
    reads c
  {
    t.path == path && Tag(t) == tag && LegalTransfer(l, used, t) && Reads(c, rest, start, EncodeBody(t))
  }

  function Room(l: Limits, used: nat): U64
    requires used <= l.logicalBytes
  {
    if l.fileBytes <= l.logicalBytes - used then l.fileBytes else l.logicalBytes - used
  }

  lemma {:induction false} SnapshotForced(t: Transfer, bytes: seq<Byte>, rest: seq<Byte>)
    requires t.Read? && SizedTransfer(t) && Starts(EncodeBody(t), rest) && Sized(bytes) && EncodeBytes(bytes) <= rest
    ensures t.bytes == bytes && Starts(EncodeLe(t.position, 8), rest[|EncodeBytes(bytes)|..])
  {
    StartsTwice(EncodeBytes(t.bytes), EncodeLe(t.position, 8), EncodeBody(t), rest);
    BytesForced(t.bytes, bytes, rest);
  }

  lemma {:induction false} SnapshotRefused(l: Limits, used: nat, path: Text, rest: seq<Byte>)
    requires used <= l.logicalBytes && forall b: seq<Byte> | |b| <= Room(l, used) :: !Starts(EncodeBytes(b), rest)
    ensures BodyRefused(l, used, path, 0, rest)
  {
    forall t: Transfer | t.path == path && Tag(t) == 0 && LegalTransfer(l, used, t)
      ensures !Starts(EncodeBody(t), rest)
    {
      if Starts(EncodeBody(t), rest) {
        StartsTwice(EncodeBytes(t.bytes), EncodeLe(t.position, 8), EncodeBody(t), rest);
        assert Starts(EncodeBytes(t.bytes), rest);
      }
    }
  }

  lemma {:induction false} PositionRefused(l: Limits, used: nat, path: Text, bytes: seq<Byte>, rest: seq<Byte>)
    requires Sized(bytes) && EncodeBytes(bytes) <= rest
    requires forall v: nat | v <= |bytes| :: !Starts(EncodeLe(v, 8), rest[|EncodeBytes(bytes)|..])
    ensures BodyRefused(l, used, path, 0, rest)
  {
    forall t: Transfer | t.path == path && Tag(t) == 0 && LegalTransfer(l, used, t)
      ensures !Starts(EncodeBody(t), rest)
    {
      if Starts(EncodeBody(t), rest) {
        LegalIsSized(l, used, t);
        SnapshotForced(t, bytes, rest);
      }
    }
  }

  /** A word that is not one of the small values is not the word of any of them. */
  lemma {:induction false} OtherWord(value: nat, bound: U64, s: seq<Byte>)
    requires bound < value < Pow256(8) && EncodeLe(value, 8) <= s
    ensures forall v: nat | v <= bound :: !Starts(EncodeLe(v, 8), s)
  {
    forall v: nat | v <= bound
      ensures !Starts(EncodeLe(v, 8), s)
    {
      if Starts(EncodeLe(v, 8), s) {
        Powers();
        WordForced(v, value, 8, s);
      }
    }
  }

  method ReadSnapshot(c: Cursor, l: Limits, used: nat, path: Text) returns (r: Result<Transfer, CheckpointError>)
    requires c.Valid() && PathOk(l, path) && used <= l.logicalBytes
    modifies c
    ensures c.Valid()
    ensures r.Ok? ==> BodyRead(c, l, used, path, 0, old(c.Rest()), old(c.position), r.value)
    ensures r.Err? ==> BodyRefused(l, used, path, 0, old(c.Rest()))
  {
    ghost var rest := c.Rest();
    var bytes := ReadBytes(c, Room(l, used));
    if bytes.Err? {
      SnapshotRefused(l, used, path, rest);
      return Err(bytes.error);
    }
    ghost var middle := c.Rest();
    var position := ReadNumber(c, 8);
    if position.Err? {
      PositionRefused(l, used, path, bytes.value, rest);
      return Err(position.error);
    }
    if position.value > |bytes.value| {
      OtherWord(position.value, |bytes.value|, middle);
      PositionRefused(l, used, path, bytes.value, rest);
      return Err(InvalidState);
    }
    JoinStarts(EncodeBytes(bytes.value), EncodeLe(position.value, 8), rest);
    return Ok(Read(path, bytes.value, position.value));
  }

  lemma {:induction false} JoinStarts(a: seq<Byte>, b: seq<Byte>, s: seq<Byte>)
    requires a <= s && b <= s[|a|..]
    ensures a + b <= s && s[|a + b|..] == s[|a|..][|b|..]
  {
    assert s == s[..|a|] + s[|a|..];
  }

  // ---- drafts ----

  method ReadFlag(c: Cursor) returns (r: Result<bool, CheckpointError>)
    requires c.Valid()
    modifies c
    ensures c.Valid()
    ensures r.Ok? ==> Reads(c, old(c.Rest()), old(c.position), EncodeFlag(r.value))
    ensures r.Err? ==> forall b: bool :: !Starts(EncodeFlag(b), old(c.Rest()))
  {
    ghost var rest := c.Rest();
    var flag := c.Take(1);
    if flag.Err? {
      return Err(Truncated);
    }
    assert flag.value == [rest[0]];
    if flag.value[0] > 1 {
      assert forall b: bool :: EncodeFlag(b)[0] <= 1;
      return Err(InvalidState);
    }
    return Ok(flag.value[0] == 1);
  }

  lemma {:induction false} RevisionFlag(v: Revision, rest: seq<Byte>)
    requires Starts(EncodeRevision(v), rest)
    ensures Starts(EncodeFlag(v.Present?), rest)
  {
    assert EncodeFlag(v.Present?) == EncodeRevision(v)[..1];
  }

  lemma {:induction false} PresentForced(v: Revision, rest: seq<Byte>)
    requires Starts(EncodeRevision(v), rest) && rest != [] && rest[0] == 1
    ensures v.Present? && Starts(EncodeLe(v.generation, 8), rest[1..])
  {
    assert EncodeRevision(v)[0] == rest[0];
    StartsTwice([1], EncodeLe(v.generation, 8), EncodeRevision(v), rest);
  }

  method ReadRevision(c: Cursor) returns (r: Result<Revision, CheckpointError>)
    requires c.Valid()
    modifies c
    ensures c.Valid()
    ensures r.Ok? ==> Reads(c, old(c.Rest()), old(c.position), EncodeRevision(r.value))
    ensures r.Err? ==> forall v: Revision :: !Starts(EncodeRevision(v), old(c.Rest()))
  {
    ghost var rest := c.Rest();
    var present := ReadFlag(c);
    if present.Err? {
      forall v: Revision
        ensures !Starts(EncodeRevision(v), rest)
      {
        if Starts(EncodeRevision(v), rest) {
          RevisionFlag(v, rest);
        }
      }
      return Err(present.error);
    }
    if !present.value {
      return Ok(Absent);
    }
    Powers();
    var generation := ReadNumber(c, 8);
    if generation.Err? {
      forall v: Revision
        ensures !Starts(EncodeRevision(v), rest)
      {
        if Starts(EncodeRevision(v), rest) {
          PresentForced(v, rest);
        }
      }
      return Err(generation.error);
    }
    JoinStarts([1], EncodeLe(generation.value, 8), rest);
    return Ok(Present(generation.value));
  }

  /** The parts of a draft, where they stand in an input. */
  lemma {:induction false} DraftParts(l: Limits, used: nat, t: Transfer, rest: seq<Byte>)
    requires t.Write? && LegalTransfer(l, used, t) && Starts(EncodeBody(t), rest)
    ensures Starts(EncodeRevision(t.revision), rest)
    ensures forall v: Revision | EncodeRevision(v) <= rest ::
              v == t.revision && Starts(EncodeBytes(t.bytes), rest[|EncodeRevision(v)|..])
    ensures forall b: seq<Byte> | Sized(b) && Starts(EncodeBytes(b), rest[|EncodeRevision(t.revision)|..]) ::
              b == t.bytes && Starts(EncodeFlag(t.poisoned), rest[|EncodeRevision(t.revision)|..][|EncodeBytes(b)|..])
  {
    var tail := EncodeBytes(t.bytes) + EncodeFlag(t.poisoned);
    StartsTwice(EncodeRevision(t.revision), tail, EncodeBody(t), rest);
    var after := rest[|EncodeRevision(t.revision)|..];
    StartsTwice(EncodeBytes(t.bytes), EncodeFlag(t.poisoned), tail, after);
    forall v: Revision | EncodeRevision(v) <= rest
      ensures v == t.revision
    {
      RevisionForced(v, t.revision, rest);
    }
    forall b: seq<Byte> | Sized(b) && Starts(EncodeBytes(b), after)
      ensures b == t.bytes
    {
      BytesForced(b, t.bytes, after);
    }
  }

  lemma {:induction false} RevisionRefused(l: Limits, used: nat, path: Text, rest: seq<Byte>)
    requires forall v: Revision :: !Starts(EncodeRevision(v), rest)
    ensures BodyRefused(l, used, path, 1, rest)
  {
    forall t: Transfer | t.path == path && Tag(t) == 1 && LegalTransfer(l, used, t)
      ensures !Starts(EncodeBody(t), rest)
    {
      if Starts(EncodeBody(t), rest) {
        DraftParts(l, used, t, rest);
      }
    }
  }

  lemma {:induction false} DraftBytesRefused(l: Limits, used: nat, path: Text, v: Revision, rest: seq<Byte>)
    requires used <= l.logicalBytes && EncodeRevision(v) <= rest
    requires forall b: seq<Byte> | |b| <= Room(l, used) :: !Starts(EncodeBytes(b), rest[|EncodeRevision(v)|..])
    ensures BodyRefused(l, used, path, 1, rest)
  {
    forall t: Transfer | t.path == path && Tag(t) == 1 && LegalTransfer(l, used, t)
      ensures !Starts(EncodeBody(t), rest)
    {
      if Starts(EncodeBody(t), rest) {
        DraftParts(l, used, t, rest);
      }
    }
  }

  lemma {:induction false} FlagRefused(l: Limits, used: nat, path: Text, v: Revision, b: seq<Byte>, rest: seq<Byte>)
    requires EncodeRevision(v) <= rest && Sized(b) && EncodeBytes(b) <= rest[|EncodeRevision(v)|..]
    requires forall f: bool :: !Starts(EncodeFlag(f), rest[|EncodeRevision(v)|..][|EncodeBytes(b)|..])
    ensures BodyRefused(l, used, path, 1, rest)
  {
    forall t: Transfer | t.path == path && Tag(t) == 1 && LegalTransfer(l, used, t)
      ensures !Starts(EncodeBody(t), rest)
    {
      if Starts(EncodeBody(t), rest) {
        DraftParts(l, used, t, rest);
        assert Starts(EncodeBytes(b), rest[|EncodeRevision(v)|..]);
      }
    }
  }

  method ReadDraft(c: Cursor, l: Limits, used: nat, path: Text) returns (r: Result<Transfer, CheckpointError>)
    requires c.Valid() && PathOk(l, path) && used <= l.logicalBytes
    modifies c
    ensures c.Valid()
    ensures r.Ok? ==> BodyRead(c, l, used, path, 1, old(c.Rest()), old(c.position), r.value)
    ensures r.Err? ==> BodyRefused(l, used, path, 1, old(c.Rest()))
  {
    ghost var rest := c.Rest();
    var revision := ReadRevision(c);
    if revision.Err? {
      RevisionRefused(l, used, path, rest);
      return Err(revision.error);
    }
    ghost var middle := c.Rest();
    var bytes := ReadBytes(c, Room(l, used));
    if bytes.Err? {
      DraftBytesRefused(l, used, path, revision.value, rest);
      return Err(bytes.error);
    }
    var poisoned := ReadFlag(c);
    if poisoned.Err? {
      FlagRefused(l, used, path, revision.value, bytes.value, rest);
      return Err(poisoned.error);
    }
    JoinStarts(EncodeBytes(bytes.value), EncodeFlag(poisoned.value), middle);
    JoinStarts(EncodeRevision(revision.value), EncodeBytes(bytes.value) + EncodeFlag(poisoned.value), rest);
    return Ok(Write(path, revision.value, bytes.value, |bytes.value|, poisoned.value));
  }

  // ---- listings ----

  /** The parts of a listing, where they stand in an input. */
  lemma {:induction false} ListingParts(l: Limits, used: nat, t: Transfer, rest: seq<Byte>)
    requires t.Directory? && LegalTransfer(l, used, t) && Starts(EncodeBody(t), rest)
    ensures Starts(EncodeLe(|t.names|, 8), rest) && |t.names| < Pow256(8) && AllLegal(Sized, t.names)
    ensures Starts(Concat(EncodeBytes, t.names), rest[8..])
    ensures Starts(EncodeLe(t.position, 8), rest[8..][|Concat(EncodeBytes, t.names)|..])
  {
    Powers();
    LegalIsSized(l, used, t);
    var tail := Concat(EncodeBytes, t.names) + EncodeLe(t.position, 8);
    StartsTwice(EncodeLe(|t.names|, 8), tail, EncodeBody(t), rest);
    StartsTwice(Concat(EncodeBytes, t.names), EncodeLe(t.position, 8), tail, rest[8..]);
  }

  lemma {:induction false} CountForced(l: Limits, used: nat, t: Transfer, count: nat, rest: seq<Byte>)
    requires t.Directory? && LegalTransfer(l, used, t) && Starts(EncodeBody(t), rest)
    requires count < Pow256(8) && EncodeLe(count, 8) <= rest
    ensures |t.names| == count
  {
    ListingParts(l, used, t, rest);
    WordForced(|t.names|, count, 8, rest);
  }

  lemma {:induction false} ListingCountRefused(l: Limits, used: nat, path: Text, rest: seq<Byte>)
    requires forall v: nat :: !Starts(EncodeLe(v, 8), rest)
    ensures BodyRefused(l, used, path, 2, rest)
  {
    forall t: Transfer | t.path == path && Tag(t) == 2 && LegalTransfer(l, used, t)
      ensures !Starts(EncodeBody(t), rest)
    {
      if Starts(EncodeBody(t), rest) {
        ListingParts(l, used, t, rest);
      }
    }
  }

  lemma {:induction false} ListingTooLong(l: Limits, used: nat, path: Text, count: nat, rest: seq<Byte>)
    requires count < Pow256(8) && EncodeLe(count, 8) <= rest
    requires count > l.directoryEntries || used + count * NAME_SLOT_BYTES > l.logicalBytes
    ensures BodyRefused(l, used, path, 2, rest)
  {
    forall t: Transfer | t.path == path && Tag(t) == 2 && LegalTransfer(l, used, t)
      ensures !Starts(EncodeBody(t), rest)
    {
      if Starts(EncodeBody(t), rest) {
        CountForced(l, used, t, count, rest);
      }
    }
  }

  lemma {:induction false} ListingNamesRefused(l: Limits, used: nat, path: Text, count: nat, room: nat, rest: seq<Byte>)
    requires count < Pow256(8) && EncodeLe(count, 8) <= rest && used + count * NAME_SLOT_BYTES + room == l.logicalBytes
    requires forall names: seq<Text> :: !NamesStart(l, room, count, names, rest[8..])
    ensures BodyRefused(l, used, path, 2, rest)
  {
    forall t: Transfer | t.path == path && Tag(t) == 2 && LegalTransfer(l, used, t)
      ensures !Starts(EncodeBody(t), rest)
    {
      if Starts(EncodeBody(t), rest) {
        NamesLegalThere(l, used, t, count, room, rest);
      }
    }
  }

  lemma {:induction false} NamesLegalThere(l: Limits, used: nat, t: Transfer, count: nat, room: nat, rest: seq<Byte>)
    requires t.Directory? && LegalTransfer(l, used, t) && Starts(EncodeBody(t), rest)
    requires count < Pow256(8) && EncodeLe(count, 8) <= rest && used + count * NAME_SLOT_BYTES + room == l.logicalBytes
    ensures NamesStart(l, room, count, t.names, rest[8..])
  {
    CountForced(l, used, t, count, rest);
    ListingParts(l, used, t, rest);
  }

  lemma {:induction false} ListingForced(l: Limits, used: nat, t: Transfer, names: seq<Text>, rest: seq<Byte>)
    requires t.Directory? && LegalTransfer(l, used, t) && Starts(EncodeBody(t), rest)
    requires |names| < Pow256(8) && EncodeLe(|names|, 8) <= rest && AllLegal(Sized, names)
    requires Concat(EncodeBytes, names) <= rest[8..]
    ensures t.names == names && Starts(EncodeLe(t.position, 8), rest[8..][|Concat(EncodeBytes, names)|..])
  {
    CountForced(l, used, t, |names|, rest);
    ListingParts(l, used, t, rest);
    NamesForced(t.names, names, rest[8..]);
  }

  lemma {:induction false} UnsortedRefused(l: Limits, used: nat, path: Text, names: seq<Text>, rest: seq<Byte>)
    requires |names| < Pow256(8) && EncodeLe(|names|, 8) <= rest && AllLegal(Sized, names)
    requires Concat(EncodeBytes, names) <= rest[8..] && !Sorted(names)
    ensures BodyRefused(l, used, path, 2, rest)
  {
    forall t: Transfer | t.path == path && Tag(t) == 2 && LegalTransfer(l, used, t)
      ensures !Starts(EncodeBody(t), rest)
    {
      if Starts(EncodeBody(t), rest) {
        ListingForced(l, used, t, names, rest);
      }
    }
  }

  lemma {:induction false} ListingEndRefused(l: Limits, used: nat, path: Text, names: seq<Text>, rest: seq<Byte>, end: seq<Byte>)
    requires |names| < Pow256(8) && EncodeLe(|names|, 8) <= rest && AllLegal(Sized, names)
    requires Concat(EncodeBytes, names) <= rest[8..] && end == rest[8..][|Concat(EncodeBytes, names)|..]
    requires forall v: nat | v <= |names| :: !Starts(EncodeLe(v, 8), end)
    ensures BodyRefused(l, used, path, 2, rest)
  {
    forall t: Transfer | t.path == path && Tag(t) == 2 && LegalTransfer(l, used, t)
      ensures !Starts(EncodeBody(t), rest)
    {
      if Starts(EncodeBody(t), rest) {
        ListingForced(l, used, t, names, rest);
      }
    }
  }

  lemma {:induction false} LegalNamesAreSized(l: Limits, room: nat, names: seq<Text>)
    requires LegalNames(l, room, names)
    ensures AllLegal(Sized, names)
  {
    forall i | 0 <= i < |names|
      ensures Sized(names[i])
    {
      assert LegalName(l, names[i]);
    }
  }

  method CheckSorted(names: seq<Text>) returns (ok: bool)
    ensures ok == Sorted(names)
  {
    for i := 0 to |names|
      invariant forall j | 0 <= j < i && j < |names| - 1 :: BeforeNext(names, j)
    {
      if i + 1 < |names| && !Before(names[i], names[i + 1]) {
        assert !BeforeNext(names, i);
        return false;
      }
    }
    return true;
  }

  /** The count of a listing, when it is within the limits. */
  method ReadCount(c: Cursor, l: Limits, used: nat, ghost path: Text) returns (r: Result<nat, CheckpointError>)
    requires c.Valid() && used <= l.logicalBytes
    modifies c
    ensures c.Valid()
    ensures r.Ok? ==> r.value <= l.directoryEntries && used + r.value * NAME_SLOT_BYTES <= l.logicalBytes
                      && Reads(c, old(c.Rest()), old(c.position), EncodeLe(r.value, 8))
    ensures r.Err? ==> BodyRefused(l, used, path, 2, old(c.Rest()))
  {
    ghost var rest := c.Rest();
    Powers();
    var count := ReadNumber(c, 8);
    if count.Err? {
      ListingCountRefused(l, used, path, rest);
      return Err(count.error);
    }
    if count.value > l.directoryEntries || used + count.value * NAME_SLOT_BYTES > l.logicalBytes {
      ListingTooLong(l, used, path, count.value, rest);
      return Err(Limit);
    }
    return count;
  }

  /** Where a listing has been read to, and whether that is within it. */
  method ReadListingEnd(c: Cursor, l: Limits, ghost used: nat, ghost path: Text, names: seq<Text>, ghost rest: seq<Byte>)
    returns (r: Result<nat, CheckpointError>)
    requires c.Valid() && |names| < Pow256(8) && EncodeLe(|names|, 8) <= rest && AllLegal(Sized, names)
    requires Concat(EncodeBytes, names) <= rest[8..] && c.Rest() == rest[8..][|Concat(EncodeBytes, names)|..]
    modifies c
    ensures c.Valid()
    ensures r.Ok? ==> r.value <= |names| && Sorted(names) && Reads(c, old(c.Rest()), old(c.position), EncodeLe(r.value, 8))
    ensures r.Err? ==> BodyRefused(l, used, path, 2, rest)
  {
    ghost var end := c.Rest();
    Powers();
    var position := ReadNumber(c, 8);
    if position.Err? {
      ListingEndRefused(l, used, path, names, rest, end);
      return Err(position.error);
    }
    if position.value > |names| {
      OtherWord(position.value, |names|, end);
      ListingEndRefused(l, used, path, names, rest, end);
      return Err(InvalidState);
    }
    var sorted := CheckSorted(names);
    if !sorted {
      UnsortedRefused(l, used, path, names, rest);
      return Err(InvalidState);
    }
    return position;
  }

  lemma {:induction false} ListingJoins(path: Text, names: seq<Text>, position: nat, rest: seq<Byte>)
    requires EncodeLe(|names|, 8) <= rest && Concat(EncodeBytes, names) <= rest[8..]
    requires EncodeLe(position, 8) <= rest[8..][|Concat(EncodeBytes, names)|..]
    ensures var e := EncodeBody(Directory(path, names, |names|, position));
            && e <= rest && |e| == 8 + |Concat(EncodeBytes, names)| + 8
            && rest[|e|..] == rest[8..][|Concat(EncodeBytes, names)|..][8..]
  {
    var all, word := Concat(EncodeBytes, names), EncodeLe(position, 8);
    JoinStarts(all, word, rest[8..]);
    JoinStarts(EncodeLe(|names|, 8), all + word, rest);
  }

  method ReadListing(c: Cursor, l: Limits, used: nat, path: Text) returns (r: Result<Transfer, CheckpointError>)
    requires c.Valid() && PathOk(l, path) && used <= l.logicalBytes
    modifies c
    ensures c.Valid()
    ensures r.Ok? ==> BodyRead(c, l, used, path, 2, old(c.Rest()), old(c.position), r.value)
    ensures r.Err? ==> BodyRefused(l, used, path, 2, old(c.Rest()))
  {
    ghost var rest := c.Rest();
    Powers();
    var count := ReadCount(c, l, used, path);
    if count.Err? {
      return Err(count.error);
    }
    var room := l.logicalBytes - used - count.value * NAME_SLOT_BYTES;
    var names := ReadNames(c, l, count.value, room);
    if names.Err? {
      ListingNamesRefused(l, used, path, count.value, room, rest);
      return Err(names.error);
    }
    LegalNamesAreSized(l, room, names.value);
    var position := ReadListingEnd(c, l, used, path, names.value, rest);
    if position.Err? {
      return Err(position.error);
    }
    ListingJoins(path, names.value, position.value, rest);
    return Ok(Directory(path, names.value, |names.value|, position.value));
  }

  // ---- transfers and entries ----

  method ReadMove(c: Cursor, l: Limits, used: nat, path: Text) returns (r: Result<Transfer, CheckpointError>)
    requires c.Valid() && PathOk(l, path) && used <= l.logicalBytes
    modifies c
    ensures c.Valid()
    ensures r.Ok? ==> BodyRead(c, l, used, path, 3, old(c.Rest()), old(c.position), r.value)
    ensures r.Err? ==> BodyRefused(l, used, path, 3, old(c.Rest()))
  {
    Powers();
    var generation := ReadNumber(c, 8);
    if generation.Err? {
      return Err(generation.error);
    }
    return Ok(Move(path, generation.value));
  }

  ghost predicate TransferRefused(l: Limits, used: nat, path: Text, rest: seq<Byte>) {
    forall t: Transfer | t.path == path && LegalTransfer(l, used, t) :: !Starts(EncodeTransfer(t), rest)
  }

  lemma {:induction false} TagForced(t: Transfer, rest: seq<Byte>)
    requires Starts(EncodeTransfer(t), rest)
    ensures rest != [] && Tag(t) == rest[0] && Starts(EncodeBody(t), rest[1..])
  {
    StartsTwice([Tag(t)], EncodeBody(t), EncodeTransfer(t), rest);
    assert [Tag(t)][0] == rest[0];
  }

  lemma {:induction false} TagRefused(l: Limits, used: nat, path: Text, rest: seq<Byte>)
    requires rest == [] || BodyRefused(l, used, path, rest[0], rest[1..])
    ensures TransferRefused(l, used, path, rest)
  {
    forall t: Transfer | t.path == path && LegalTransfer(l, used, t)
      ensures !Starts(EncodeTransfer(t), rest)
    {
      if Starts(EncodeTransfer(t), rest) {
        TagForced(t, rest);
      }
    }
  }

  method ReadTransfer(c: Cursor, l: Limits, used: nat, path: Text) returns (r: Result<Transfer, CheckpointError>)
    requires c.Valid() && PathOk(l, path) && used <= l.logicalBytes
    modifies c
    ensures c.Valid()
    ensures r.Ok? ==> r.value.path == path && LegalTransfer(l, used, r.value)
                      && Reads(c, old(c.Rest()), old(c.position), EncodeTransfer(r.value))
    ensures r.Err? ==> TransferRefused(l, used, path, old(c.Rest()))
  {
    ghost var rest, start := c.Rest(), c.position;
    var tag := c.Take(1);
    if tag.Err? {
      TagRefused(l, used, path, rest);
      return Err(Truncated);
    }
    assert tag.value == [rest[0]] && c.Rest() == rest[1..];
    var kind := tag.value[0];
    if kind == 0 {
      r := ReadSnapshot(c, l, used, path);
    } else if kind == 1 {
      r := ReadDraft(c, l, used, path);
    } else if kind == 2 {
      r := ReadListing(c, l, used, path);
    } else if kind == 3 {
      r := ReadMove(c, l, used, path);
    } else {
      r := Err(InvalidState);
    }
    if r.Err? {
      TagRefused(l, used, path, rest);
    } else {
      JoinStarts([rest[0]], EncodeBody(r.value), rest);
    }
  }

  /** The parts of an entry, where they stand in an input. */
  lemma {:induction false} EntryParts(e: Entry, rest: seq<Byte>)
    requires Starts(EncodeEntry(e), rest)
    ensures Starts(EncodeLe(e.id, 4), rest) && Starts(EncodeBytes(e.transfer.path), rest[4..])
    ensures Starts(EncodeTransfer(e.transfer), rest[4..][|EncodeBytes(e.transfer.path)|..])
  {
    var tail := EncodeBytes(e.transfer.path) + EncodeTransfer(e.transfer);
    StartsTwice(EncodeLe(e.id, 4), tail, EncodeEntry(e), rest);
    StartsTwice(EncodeBytes(e.transfer.path), EncodeTransfer(e.transfer), tail, rest[4..]);
  }

  ghost predicate EntryRefused(l: Limits, nextId: nat, before: seq<Entry>, rest: seq<Byte>) {
    forall e: Entry | LegalNext(l, nextId, before, e) :: !Starts(EncodeEntry(e), rest)
  }

  lemma {:induction false} IdRefused(l: Limits, nextId: nat, before: seq<Entry>, id: nat, rest: seq<Byte>)
    requires nextId <= I32_MAX
    requires |rest| >= 4 ==> EncodeLe(id, 4) <= rest && id < Pow256(4) && (id <= LastId(before) || id >= nextId)
    ensures EntryRefused(l, nextId, before, rest)
  {
    forall e: Entry | LegalNext(l, nextId, before, e)
      ensures !Starts(EncodeEntry(e), rest)
    {
      if Starts(EncodeEntry(e), rest) {
        Powers();
        EntryParts(e, rest);
        WordForced(e.id, id, 4, rest);
      }
    }
  }

  lemma {:induction false} PathRefused(l: Limits, nextId: nat, before: seq<Entry>, rest: seq<Byte>)
    requires |rest| >= 4
    requires forall path: Text | PathOk(l, path) :: !Starts(EncodeBytes(path), rest[4..])
    ensures EntryRefused(l, nextId, before, rest)
  {
    forall e: Entry | LegalNext(l, nextId, before, e)
      ensures !Starts(EncodeEntry(e), rest)
    {
      if Starts(EncodeEntry(e), rest) {
        EntryParts(e, rest);
      }
    }
  }

  lemma {:induction false} EntryTransferRefused(l: Limits, nextId: nat, before: seq<Entry>, path: Text, rest: seq<Byte>)
    requires |rest| >= 4 && Sized(path) && EncodeBytes(path) <= rest[4..]
    requires TransferRefused(l, RetainedBy(before), path, rest[4..][|EncodeBytes(path)|..])
    ensures EntryRefused(l, nextId, before, rest)
  {
    forall e: Entry | LegalNext(l, nextId, before, e)
      ensures !Starts(EncodeEntry(e), rest)
    {
      if Starts(EncodeEntry(e), rest) {
        EntryParts(e, rest);
        BytesForced(e.transfer.path, path, rest[4..]);
      }
    }
  }

  method ReadPath(c: Cursor, l: Limits) returns (r: Result<Text, CheckpointError>)
    requires c.Valid()
    modifies c
    ensures c.Valid()
    ensures r.Ok? ==> PathOk(l, r.value) && Reads(c, old(c.Rest()), old(c.position), EncodeBytes(r.value))
    ensures r.Err? ==> forall path: Text | PathOk(l, path) :: !Starts(EncodeBytes(path), old(c.Rest()))
  {
    ghost var rest := c.Rest();
    var path := ReadBytes(c, l.pathBytes);
    if path.Err? {
      return Err(path.error);
    }
    if !l.isPath(path.value) {
      forall other: Text | PathOk(l, other)
        ensures !Starts(EncodeBytes(other), rest)
      {
        if Starts(EncodeBytes(other), rest) {
          BytesForced(other, path.value, rest);
        }
      }
      return Err(InvalidState);
    }
    return Ok(path.value);
  }

  method ReadEntry(c: Cursor, l: Limits, nextId: nat, previous: nat, used: nat, ghost before: seq<Entry>)
    returns (r: Result<Entry, CheckpointError>)
    requires c.Valid() && nextId <= I32_MAX && previous == LastId(before) && used == RetainedBy(before) <= l.logicalBytes
    modifies c
    ensures c.Valid()
    ensures r.Ok? ==> LegalNext(l, nextId, before, r.value) && Reads(c, old(c.Rest()), old(c.position), EncodeEntry(r.value))
    ensures r.Err? ==> EntryRefused(l, nextId, before, old(c.Rest()))
  {
    ghost var rest := c.Rest();
    Powers();
    var id := ReadNumber(c, 4);
    if id.Err? {
      assert |rest| < 4 by {
        assert |EncodeLe(0, 4)| == 4;
        WordAlwaysReads(rest, 4);
      }
      IdRefused(l, nextId, before, 0, rest);
      return Err(id.error);
    }
    if ToI32(id.value) <= previous || ToI32(id.value) >= nextId {
      IdRefused(l, nextId, before, id.value, rest);
      return Err(InvalidState);
    }
    ghost var middle := c.Rest();
    var path := ReadPath(c, l);
    if path.Err? {
      PathRefused(l, nextId, before, rest);
      return Err(path.error);
    }
    var transfer := ReadTransfer(c, l, used, path.value);
    if transfer.Err? {
      EntryTransferRefused(l, nextId, before, path.value, rest);
      return Err(transfer.error);
    }
    JoinStarts(EncodeBytes(path.value), EncodeTransfer(transfer.value), middle);
    JoinStarts(EncodeLe(id.value, 4), EncodeBytes(path.value) + EncodeTransfer(transfer.value), rest);
    return Ok(Entry(id.value, transfer.value));
  }

  /** An input long enough starts with some word. */
  lemma {:induction false} WordAlwaysReads(rest: seq<Byte>, width: nat)
    ensures |rest| >= width ==> exists v: nat :: Starts(EncodeLe(v, width), rest)
  {
    if |rest| >= width {
      LeCanonical(rest[..width]);
      assert Starts(EncodeLe(DecodeLe(rest[..width]), width), rest);
    }
  }

  // ---- tables ----

  predicate SizedTable(t: Table) {
    t.nextId < TWO_32 && |t.entries| <= U64_MAX && AllLegal(SizedEntry, t.entries)
  }

  /** The parts of a table, where they stand in an input. */
  lemma {:induction false} TableParts(t: Table, rest: seq<Byte>)
    requires Starts(EncodeTable(t), rest)
    ensures Starts(EncodeLe(t.nextId, 4), rest) && Starts(EncodeLe(|t.entries|, 8), rest[4..])
    ensures Starts(Concat(EncodeEntry, t.entries), rest[4..][8..])
  {
    var tail := EncodeLe(|t.entries|, 8) + Concat(EncodeEntry, t.entries);
    StartsTwice(EncodeLe(t.nextId, 4), tail, EncodeTable(t), rest);
    StartsTwice(EncodeLe(|t.entries|, 8), Concat(EncodeEntry, t.entries), tail, rest[4..]);
  }

  /** An input starts with at most one table. */
  lemma {:induction false} TableForced(a: Table, b: Table, rest: seq<Byte>)
    requires SizedTable(a) && SizedTable(b) && Starts(EncodeTable(a), rest) && Starts(EncodeTable(b), rest)
    ensures a == b
  {
    Powers();
    TableParts(a, rest);
    TableParts(b, rest);
    WordForced(a.nextId, b.nextId, 4, rest);
    WordForced(|a.entries|, |b.entries|, 8, rest[4..]);
    EntriesPrefixFree();
    SamePrefix(EncodeEntry, SizedEntry, a.entries, b.entries, rest[4..][8..]);
    assert b.entries[..|a.entries|] == b.entries;
  }

  lemma {:induction false} LegalTableIsSized(l: Limits, t: Table)
    requires Legal(l, t)
    ensures SizedTable(t)
  {
    forall i | 0 <= i < |t.entries|
      ensures SizedEntry(t.entries[i])
    {
      assert LegalAt(l, t.nextId, t.entries, i);
      LegalIsSized(l, RetainedBy(t.entries[..i]), t.entries[i].transfer);
    }
  }

  ghost predicate TableRefused(l: Limits, rest: seq<Byte>) {
    forall t: Table | Legal(l, t) :: !Starts(EncodeTable(t), rest)
  }

  /** The entries read so far. */
  predicate LegalSoFar(l: Limits, nextId: nat, entries: seq<Entry>) {
    forall i | 0 <= i < |entries| :: LegalAt(l, nextId, entries, i)
  }

  lemma {:induction false} LegalSoFarExtends(l: Limits, nextId: nat, entries: seq<Entry>, e: Entry)
    requires LegalSoFar(l, nextId, entries) && LegalNext(l, nextId, entries, e)
    ensures LegalSoFar(l, nextId, entries + [e])
  {
    var longer := entries + [e];
    forall i | 0 <= i < |longer|
      ensures LegalAt(l, nextId, longer, i)
    {
      assert longer[..i] == entries[..i];
      assert i < |entries| ==> LegalAt(l, nextId, entries, i);
      assert i == |entries| ==> entries[..i] == entries;
    }
  }

  lemma {:induction false} LegalSoFarRetains(l: Limits, nextId: nat, entries: seq<Entry>)
    requires LegalSoFar(l, nextId, entries)
    ensures RetainedBy(entries) <= l.logicalBytes && (nextId <= I32_MAX ==> AllLegal(SizedEntry, entries))
  {
    if entries != [] {
      var n := |entries| - 1;
      assert LegalAt(l, nextId, entries, n);
      LegalIsSized(l, RetainedBy(entries[..n]), entries[n].transfer);
    }
    if nextId <= I32_MAX {
      forall i | 0 <= i < |entries|
        ensures SizedEntry(entries[i])
      {
        assert LegalAt(l, nextId, entries, i);
        LegalIsSized(l, RetainedBy(entries[..i]), entries[i].transfer);
      }
    }
  }

  lemma {:induction false} HeadRefused(l: Limits, nextId: nat, count: nat, rest: seq<Byte>)
    requires |rest| >= 4 ==> EncodeLe(nextId, 4) <= rest && nextId < Pow256(4)
    requires |rest| >= 12 ==> EncodeLe(count, 8) <= rest[4..] && count < Pow256(8)
                              && (count > l.openHandles || nextId == 0 || nextId > I32_MAX)
    ensures TableRefused(l, rest)
  {
    forall t: Table | Legal(l, t)
      ensures !Starts(EncodeTable(t), rest)
    {
      if Starts(EncodeTable(t), rest) {
        Powers();
        TableParts(t, rest);
        WordForced(t.nextId, nextId, 4, rest);
        WordForced(|t.entries|, count, 8, rest[4..]);
      }
    }
  }

  /** Any legal table that starts the input goes on from the entries read so far with a legal entry. */
  lemma {:induction false} NextEntry(l: Limits, nextId: nat, count: nat, done: seq<Entry>, t: Table, rest: seq<Byte>)
    requires Legal(l, t) && Starts(EncodeTable(t), rest)
    requires nextId <= I32_MAX && EncodeLe(nextId, 4) <= rest
    requires |done| < count < Pow256(8) && EncodeLe(count, 8) <= rest[4..]
    requires LegalSoFar(l, nextId, done) && Concat(EncodeEntry, done) <= rest[4..][8..]
    ensures |done| < |t.entries| && LegalNext(l, nextId, done, t.entries[|done|])
    ensures Starts(EncodeEntry(t.entries[|done|]), rest[4..][8..][|Concat(EncodeEntry, done)|..])
  {
    Powers();
    LegalTableIsSized(l, t);
    LegalSoFarRetains(l, nextId, done);
    TableParts(t, rest);
    WordForced(t.nextId, nextId, 4, rest);
    WordForced(|t.entries|, count, 8, rest[4..]);
    EntriesPrefixFree();
    NextItemFollows(EncodeEntry, SizedEntry, done, t.entries, rest[4..][8..]);
    assert LegalAt(l, t.nextId, t.entries, |done|);
  }

  lemma {:induction false} EntriesRefused(l: Limits, nextId: nat, count: nat, done: seq<Entry>, rest: seq<Byte>)
    requires nextId <= I32_MAX && EncodeLe(nextId, 4) <= rest
    requires |done| < count < Pow256(8) && EncodeLe(count, 8) <= rest[4..]
    requires LegalSoFar(l, nextId, done) && Concat(EncodeEntry, done) <= rest[4..][8..]
    requires EntryRefused(l, nextId, done, rest[4..][8..][|Concat(EncodeEntry, done)|..])
    ensures TableRefused(l, rest)
  {
    forall t: Table | Legal(l, t)
      ensures !Starts(EncodeTable(t), rest)
    {
      if Starts(EncodeTable(t), rest) {
        NextEntry(l, nextId, count, done, t, rest);
      }
    }
  }

  method ReadEntries(c: Cursor, l: Limits, nextId: nat, count: nat, ghost whole: seq<Byte>)
    returns (r: Result<seq<Entry>, CheckpointError>)
    requires c.Valid() && 0 < nextId <= I32_MAX && count < Pow256(8)
    requires EncodeLe(nextId, 4) <= whole && EncodeLe(count, 8) <= whole[4..] && c.Rest() == whole[4..][8..]
    modifies c
    ensures c.Valid()
    ensures r.Ok? ==> |r.value| == count && LegalSoFar(l, nextId, r.value)
                      && Reads(c, old(c.Rest()), old(c.position), Concat(EncodeEntry, r.value))
    ensures r.Err? ==> TableRefused(l, whole)
  {
    ghost var rest, start := c.Rest(), c.position;
    var entries: seq<Entry> := [];
    var previous, used := 0, 0;
    for i := 0 to count
      invariant c.Valid() && |entries| == i && LegalSoFar(l, nextId, entries)
      invariant previous == LastId(entries) && used == RetainedBy(entries)
      invariant Reads(c, rest, start, Concat(EncodeEntry, entries))
    {
      LegalSoFarRetains(l, nextId, entries);
      var entry := ReadEntry(c, l, nextId, previous, used, entries);
      if entry.Err? {
        EntriesRefused(l, nextId, count, entries, whole);
        return Err(entry.error);
      }
      LegalSoFarExtends(l, nextId, entries, entry.value);
      RetainedExtends(entries, entry.value);
      ConcatExtends(EncodeEntry, entries, entry.value, rest);
      previous, used := entry.value.id, used + Retained(entry.value.transfer);
      entries := entries + [entry.value];
    }
    return Ok(entries);
  }

  /**
    * The bounded reader. What it accepts is a legal table, and the bytes it has read are the form of that table;
    * what it refuses does not start with the form of any legal table.
    */
  method ReadTable(c: Cursor, l: Limits) returns (r: Result<Table, CheckpointError>)
    requires c.Valid()
    modifies c
    ensures c.Valid()
    ensures r.Ok? ==> Legal(l, r.value) && Reads(c, old(c.Rest()), old(c.position), EncodeTable(r.value))
    ensures r.Err? ==> TableRefused(l, old(c.Rest()))
  {
    ghost var rest := c.Rest();
    Powers();
    WordAlwaysReads(rest, 4);
    var nextId := ReadNumber(c, 4);
    if nextId.Err? {
      HeadRefused(l, 0, 0, rest);
      return Err(nextId.error);
    }
    ghost var middle := c.Rest();
    WordAlwaysReads(middle, 8);
    var count := ReadNumber(c, 8);
    if count.Err? {
      HeadRefused(l, nextId.value, 0, rest);
      return Err(count.error);
    }
    if count.value > l.openHandles || ToI32(nextId.value) <= 0 {
      HeadRefused(l, nextId.value, count.value, rest);
      return Err(Limit);
    }
    var entries := ReadEntries(c, l, nextId.value, count.value, rest);
    if entries.Err? {
      return Err(entries.error);
    }
    JoinStarts(EncodeLe(count.value, 8), Concat(EncodeEntry, entries.value), middle);
    JoinStarts(EncodeLe(nextId.value, 4), EncodeLe(count.value, 8) + Concat(EncodeEntry, entries.value), rest);
    return Ok(Table(nextId.value, entries.value));
  }

  // ---- writing ----

  method WriteTable(t: Table) returns (bytes: seq<Byte>)
    ensures bytes == EncodeTable(t)
  {
    var written: seq<Byte> := [];
    for i := 0 to |t.entries|
      invariant written == Concat(EncodeEntry, t.entries[..i])
    {
      ConcatNext(EncodeEntry, t.entries, i);
      written := written + EncodeEntry(t.entries[i]);
    }
    assert t.entries[..|t.entries|] == t.entries;
    var count := EncodeLe(|t.entries|, 8);
    return EncodeLe(t.nextId, 4) + (count + written);
  }

  /** The same transfer with no more room reserved than it uses. */
  function Trimmed(t: Transfer): Transfer {
    match t
    case Write(path, revision, bytes, _, poisoned) => Write(path, revision, bytes, |bytes|, poisoned)
    case Directory(path, names, _, position) => Directory(path, names, |names|, position)
    case _ => t
  }

  function TrimmedEntry(e: Entry): Entry {
    e.(transfer := Trimmed(e.transfer))
  }

  function TrimmedTable(t: Table): Table {
    Table(t.nextId, seq(|t.entries|, i requires 0 <= i < |t.entries| => TrimmedEntry(t.entries[i])))
  }

  /** Reserved room is not written. */
  lemma {:induction false} TrimmedForm(entries: seq<Entry>, trimmed: seq<Entry>)
    requires |trimmed| == |entries| && forall i | 0 <= i < |entries| :: trimmed[i] == TrimmedEntry(entries[i])
    ensures Concat(EncodeEntry, trimmed) == Concat(EncodeEntry, entries)
  {
    if entries != [] {
      TrimmedForm(entries[1..], trimmed[1..]);
      assert EncodeEntry(trimmed[0]) == EncodeEntry(entries[0]);
    }
  }

  lemma {:induction false} TrimmedRetains(entries: seq<Entry>, trimmed: seq<Entry>, l: Limits)
    requires |trimmed| == |entries| && forall i | 0 <= i < |entries| :: trimmed[i] == TrimmedEntry(entries[i])
    requires AllOk(l, entries)
    ensures RetainedBy(trimmed) <= RetainedBy(entries)
  {
    if entries != [] {
      var n := |entries| - 1;
      TrimmedRetains(entries[..n], trimmed[..n], l);
      assert TransferOk(l, entries[n].transfer);
    }
  }

  /** The listings of a table are within the limits that the reader puts on listings. */
  predicate ListingsFit(l: Limits, t: Table) {
    forall i | 0 <= i < |t.entries| :: ListingFits(l, t.entries[i].transfer)
  }

  predicate ListingFits(l: Limits, t: Transfer) {
    t.Directory? ==> |t.names| <= l.directoryEntries && forall i | 0 <= i < |t.names| :: LegalName(l, t.names[i])
  }

  lemma {:induction false} TrimmedAt(t: Table, i: nat)
    requires i < |t.entries|
    ensures |TrimmedTable(t).entries| == |t.entries| && TrimmedTable(t).entries[i] == TrimmedEntry(t.entries[i])
  {
  }

  lemma {:induction false} TrimmedTableForm(t: Table)
    ensures EncodeTable(TrimmedTable(t)) == EncodeTable(t)
  {
    TrimmedForm(t.entries, TrimmedTable(t).entries);
  }

  /** What the transfers before one retain leaves room for it. */
  lemma {:induction false} RoomLeft(l: Limits, t: Table, i: nat)
    requires TableOk(l, t) && RetainedBy(t.entries) <= l.logicalBytes && i < |t.entries|
    ensures RetainedBy(TrimmedTable(t).entries[..i]) + Retained(t.entries[i].transfer) <= l.logicalBytes
  {
    var trimmed := TrimmedTable(t).entries;
    TrimmedRetains(t.entries[..i], trimmed[..i], l);
    RetainedGrows(t.entries, i + 1);
    assert t.entries[..i + 1][..i] == t.entries[..i];
  }

  lemma {:induction false} TrimmedTransferLegal(l: Limits, used: nat, t: Transfer)
    requires TransferOk(l, t) && used + Retained(t) <= l.logicalBytes
    ensures LegalTransfer(l, used, Trimmed(t)) <==> ListingFits(l, t)
  {
  }

  /** A table within its own limits is legal, once trimmed, exactly when its listings fit. */
  lemma {:induction false} TrimmedLegalIff(l: Limits, t: Table)
    requires TableOk(l, t) && |t.entries| <= l.openHandles && RetainedBy(t.entries) <= l.logicalBytes
    ensures Legal(l, TrimmedTable(t)) <==> ListingsFit(l, t)
  {
    var u := TrimmedTable(t);
    forall i | 0 <= i < |t.entries|
      ensures LegalAt(l, u.nextId, u.entries, i) <==> ListingFits(l, t.entries[i].transfer)
    {
      TrimmedAt(t, i);
      RoomLeft(l, t, i);
      TrimmedTransferLegal(l, RetainedBy(u.entries[..i]), t.entries[i].transfer);
      IdsAscend(t, i);
    }
  }

  lemma {:induction false} IdsAscend(t: Table, i: nat)
    requires IdsOk(t) && i < |t.entries|
    ensures LastId(TrimmedTable(t).entries[..i]) < t.entries[i].id < t.nextId
  {
    if i > 0 {
      TrimmedAt(t, i - 1);
      assert t.entries[i - 1].id < t.entries[i].id;
    }
  }

  lemma {:induction false} TrimmedIsSized(l: Limits, t: Table)
    requires TableOk(l, t) && |t.entries| <= l.openHandles && RetainedBy(t.entries) <= l.logicalBytes
    ensures SizedTable(TrimmedTable(t))
  {
    forall i | 0 <= i < |t.entries|
      ensures SizedEntry(TrimmedTable(t).entries[i])
    {
      TrimmedAt(t, i);
      RoomLeft(l, t, i);
      assert TransferOk(l, t.entries[i].transfer);
      NamesAreSized(l, t.entries[i].transfer);
    }
  }

  /** A listing within the quota has no more names, and no longer ones, than a word can count. */
  lemma {:induction false} NamesAreSized(l: Limits, t: Transfer)
    requires TransferOk(l, t) && Retained(t) <= l.logicalBytes
    ensures t.Directory? ==> |t.names| <= U64_MAX && AllLegal(Sized, t.names)
  {
    if t.Directory? {
      forall i | 0 <= i < |t.names|
        ensures Sized(t.names[i])
      {
        NameBytesGrow(t.names, i);
      }
    }
  }

  /**
    * A reachable table, once written, is accepted by the bounded reader exactly when its listings fit, whatever
    * bytes follow; and what is restored is the same table, with no more room reserved than it uses.
    */
  method WriteAndRead(l: Limits, t: Table, tail: seq<Byte>) returns (r: Result<Table, CheckpointError>)
    requires TableOk(l, t) && |t.entries| <= l.openHandles && RetainedBy(t.entries) <= l.logicalBytes
    requires |EncodeTable(t)| + |tail| <= U64_MAX
    ensures r.Ok? <==> ListingsFit(l, t)
    ensures r.Ok? ==> r.value == TrimmedTable(t)
  {
    var bytes := WriteTable(t);
    var c := new Cursor(bytes + tail);
    ghost var rest := c.Rest();
    assert rest == bytes + tail;
    r := ReadTable(c, l);
    TrimmedTableForm(t);
    assert Starts(EncodeTable(TrimmedTable(t)), rest);
    TrimmedLegalIff(l, t);
    if r.Ok? {
      LegalTableIsSized(l, r.value);
      TrimmedIsSized(l, t);
      TableForced(r.value, TrimmedTable(t), rest);
    }
  }

  const ROOT: Text := [47]
  const HOME: Text := [104, 111, 109, 101]
  const ROM: Text := [114, 111, 109]

  /** The table of a process that has listed the root, which always holds two names. */
  function RootListing(): Table {
    Table(2, [Entry(1, Directory(ROOT, [HOME, ROM], 2, 0))])
  }

  /**
    * Such a table is reachable with room for one handle and 39 bytes, whatever the limits on listings are, and it is
    * legal exactly when those allow two names of up to four bytes. With less it is written but not read back.
    */
  lemma {:induction false} RootListingNeedsRoom(l: Limits)
    requires PathOk(l, ROOT) && l.isText(HOME) && l.isText(ROM) && l.openHandles >= 1 && l.logicalBytes >= 39
    ensures RootListing() == Inserted(EMPTY, Directory(ROOT, [HOME, ROM], 2, 0))
    ensures TableOk(l, RootListing()) && WithinQuota(l, [RootListing()])
    ensures Legal(l, TrimmedTable(RootListing())) <==> l.directoryEntries >= 2 && l.componentBytes >= 4
  {
    var t := RootListing();
    var names := [HOME, ROM];
    assert Before(HOME, ROM);
    assert forall i | 0 <= i < |names| - 1 :: i == 0 && BeforeNext(names, i);
    assert t.entries[0].transfer.names == names && names[0] == HOME && names[1] == ROM;
    assert ListingsFit(l, t) <==> ListingFits(l, t.entries[0].transfer);
    RootListingRetains();
    TrimmedLegalIff(l, t);
  }

  lemma {:induction false} RootListingRetains()
    ensures var t := RootListing(); RetainedBy(t.entries) == 39 && AllRetained([t]) == 39 && AllHandles([t]) == 1
  {
    var t := RootListing();
    var names: seq<Text> := [HOME, ROM];
    assert names[..1] == [HOME] && names[..1][..0] == [] && [t][..0] == [] && t.entries[..0] == [];
    assert NameBytes(names[..1]) == NameBytes(names[..1][..0]) + 4;
    assert NameBytes(names) == NameBytes(names[..1]) + 3;
    assert RetainedBy(t.entries) == RetainedBy(t.entries[..0]) + Retained(t.entries[0].transfer);
  }
}
