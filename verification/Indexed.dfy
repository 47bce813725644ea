/** Indexed record tables: a count, an offset table and the packed records it cuts up. */
module Indexed {
  import opened Wrappers
  import opened Words
  import opened Cursors
  import opened Container

  const PREFIX := 16

  datatype Section = Section(kind: nat, offsets: seq<nat>, records: seq<Byte>, recordsOffset: nat)

  // ---- what is accepted ----

  /** Where the records begin: behind count + 1 offsets, aligned. */
  function RecordsAt(count: nat): nat {
    Align8(PREFIX + 4 * (count + 1))
  }

  function OffsetsOf(p: seq<Byte>, count: nat): (os: seq<nat>)
    requires PREFIX + 4 * (count + 1) <= |p|
    ensures |os| == count + 1
  {
    seq(count + 1, i requires 0 <= i < count + 1 => Word(p, PREFIX + 4 * i, 4))
  }

  predicate Ascending(os: seq<nat>) {
    forall i | 0 < i < |os| :: os[i - 1] <= os[i]
  }

  /** The acceptance condition of a section payload. */
  predicate SectionOk(p: seq<Byte>, e: Entry, limits: Limits) {
    && PREFIX <= |p|
    && Word(p, 0, 4) == e.elementCount <= limits.recordsPerSection
    && Word(p, 4, 4) == 0
    && RecordsAt(e.elementCount) <= |p|
    && Zero(p, PREFIX + 4 * (e.elementCount + 1), RecordsAt(e.elementCount))
    && RecordsAt(e.elementCount) + Word(p, 8, 8) == |p|
    && var os := OffsetsOf(p, e.elementCount);
    && os[0] == 0 && os[e.elementCount] == Word(p, 8, 8) <= U32_MAX && Ascending(os)
  }

  predicate Accepts(bytes: seq<Byte>, e: Entry, limits: Limits) {
    End(e) <= |bytes| && SectionOk(bytes[e.offset..End(e)], e, limits)
  }

  // ---- records ----

  predicate Valid(t: Section) {
    && |t.offsets| > 0 && t.offsets[0] == 0 && t.offsets[|t.offsets| - 1] == |t.records| && Ascending(t.offsets)
  }

  function Count(t: Section): nat
    requires Valid(t)
  {
    |t.offsets| - 1
  }

  function Record(t: Section, id: nat): Result<seq<Byte>, Code> {
    if id >= |t.offsets| || id + 1 >= |t.offsets| then Err(BadRecord)
    else if t.offsets[id] <= t.offsets[id + 1] <= |t.records| then Ok(t.records[t.offsets[id]..t.offsets[id + 1]])
    else Err(BadRecord)
  }

  function RecordRange(t: Section, id: nat): Result<(nat, nat), Code> {
    if id >= |t.offsets| || id + 1 >= |t.offsets| then Err(BadRecord)
    else Ok((t.recordsOffset + t.offsets[id], t.recordsOffset + t.offsets[id + 1]))
  }

  lemma {:induction false} AscendingFrom(os: seq<nat>, i: nat, j: nat)
    requires Ascending(os) && i <= j < |os|
    ensures os[i] <= os[j]
    decreases j
  {
    if i < j {
      AscendingFrom(os, i, j - 1);
    }
  }

  /** Every id below the count, and no other, names a record. */
  lemma {:induction false} RecordsExist(t: Section, id: nat)
    requires Valid(t)
    ensures Record(t, id).Ok? <==> id < Count(t)
    ensures RecordRange(t, id).Ok? <==> id < Count(t)
  {
    if id < Count(t) {
      AscendingFrom(t.offsets, id, id + 1);
      AscendingFrom(t.offsets, id + 1, Count(t));
    }
  }

  function Joined(t: Section, count: nat): seq<Byte>
    requires Valid(t) && count <= Count(t)
  {
    if count == 0 then [] else
      RecordsExist(t, count - 1);
      Joined(t, count - 1) + Record(t, count - 1).value
  }

  /** The records partition the record area: joined in id order they are the area itself. */
  lemma {:induction false} RecordsPartition(t: Section, count: nat)
    requires Valid(t) && count <= Count(t)
    ensures t.offsets[count] <= |t.records|
    ensures Joined(t, count) == t.records[..t.offsets[count]]
    decreases count
  {
    AscendingFrom(t.offsets, count, Count(t));
    if count > 0 {
      RecordsPartition(t, count - 1);
      RecordsExist(t, count - 1);
      var a, b := t.offsets[count - 1], t.offsets[count];
      assert t.records[..b] == t.records[..a] + t.records[a..b];
    }
  }

  /** A byte of the record area belongs to exactly one record. */
  lemma {:induction false} RecordOfByte(t: Section, p: nat, count: nat) returns (id: nat)
    requires Valid(t) && count <= Count(t) && p < t.offsets[count]
    ensures id < count && t.offsets[id] <= p < t.offsets[id + 1]
    ensures forall k: nat | k < Count(t) && t.offsets[k] <= p < t.offsets[k + 1] :: k == id
    decreases count
  {
    if t.offsets[count - 1] <= p {
      id := count - 1;
      forall k: nat | k < Count(t) && t.offsets[k] <= p < t.offsets[k + 1]
        ensures k == id
      {
        if k < id {
          AscendingFrom(t.offsets, k + 1, id);
        } else {
          AscendingFrom(t.offsets, id, k);
          if id < k {
            AscendingFrom(t.offsets, id + 1, k);
          }
        }
      }
    } else {
      id := RecordOfByte(t, p, count - 1);
    }
  }

  lemma {:induction false} SliceWithin(s: seq<Byte>, a: nat, b: nat, i: nat, j: nat)
    requires a <= b <= |s| && i <= j <= b - a
    ensures s[a..b][i..j] == s[a + i..a + j]
  {
    assert forall k | 0 <= k < j - i :: s[a..b][i..j][k] == s[a..b][i + k] == s[a + i + k] == s[a + i..a + j][k];
  }

  lemma {:induction false} RecordsAreSlice(bytes: seq<Byte>, e: Entry)
    requires End(e) <= |bytes| && RecordsAt(e.elementCount) <= e.length
    ensures SectionOf(bytes, e).records == bytes[e.offset + RecordsAt(e.elementCount)..End(e)]
  {
    SliceWithin(bytes, e.offset, End(e), RecordsAt(e.elementCount), e.length);
  }

  lemma {:induction false} RecordIsSlice(bytes: seq<Byte>, t: Section, end: nat, id: nat)
    requires Valid(t) && id < Count(t) && t.recordsOffset <= end <= |bytes|
    requires t.records == bytes[t.recordsOffset..end]
    ensures Record(t, id).Ok? && RecordRange(t, id).Ok?
    ensures var range := RecordRange(t, id).value;
            t.recordsOffset <= range.0 <= range.1 <= end && Record(t, id).value == bytes[range.0..range.1]
  {
    AscendingFrom(t.offsets, id, id + 1);
    AscendingFrom(t.offsets, id + 1, Count(t));
    SliceWithin(bytes, t.recordsOffset, end, t.offsets[id], t.offsets[id + 1]);
  }

  /** A record is the artifact's bytes at its range, which lies inside its section. */
  lemma {:induction false} RecordIsArtifactSlice(bytes: seq<Byte>, e: Entry, limits: Limits, t: Section, id: nat)
    requires Accepts(bytes, e, limits) && t == SectionOf(bytes, e) && id < e.elementCount
    ensures Valid(t) && Count(t) == e.elementCount
    ensures Record(t, id).Ok? && RecordRange(t, id).Ok?
    ensures var range := RecordRange(t, id).value;
            e.offset <= range.0 <= range.1 <= End(e) && Record(t, id).value == bytes[range.0..range.1]
  {
    RecordsAreSlice(bytes, e);
    RecordIsSlice(bytes, t, End(e), id);
  }

  function SectionOf(bytes: seq<Byte>, e: Entry): Section
    requires End(e) <= |bytes| && RecordsAt(e.elementCount) <= e.length
  {
    var p := bytes[e.offset..End(e)];
    Section(e.kind, OffsetsOf(p, e.elementCount), p[RecordsAt(e.elementCount)..], e.offset + RecordsAt(e.elementCount))
  }

  // ---- the decoder ----

  method ReadOffsets(cursor: Cursor, count: nat) returns (r: Result<seq<nat>, Code>)
    requires cursor.Valid() && cursor.position == PREFIX
    modifies cursor
    ensures cursor.Valid()
    ensures r.Ok? <==> PREFIX + 4 * (count + 1) <= |cursor.bytes|
    ensures r.Ok? ==> r.value == OffsetsOf(cursor.bytes, count) && cursor.position == PREFIX + 4 * (count + 1)
  {
    var offsets: seq<nat> := [];
    for i := 0 to count + 1
      invariant cursor.Valid() && cursor.position == PREFIX + 4 * i && |offsets| == i
      invariant forall k | 0 <= k < i :: offsets[k] == Word(cursor.bytes, PREFIX + 4 * k, 4)
    {
      if cursor.position + 4 > |cursor.bytes| {
        return Err(UnexpectedEnd);
      }
      var word := Read(cursor, 4);
      offsets := offsets + [word];
    }
    return Ok(offsets);
  }

  method CheckAscending(os: seq<nat>) returns (ok: bool)
    ensures ok <==> Ascending(os)
  {
    var i := 1;
    while i < |os|
      invariant 1 <= i && forall k | 0 < k < i && k < |os| :: os[k - 1] <= os[k]
    {
      if os[i - 1] > os[i] {
        return false;
      }
      i := i + 1;
    }
    return true;
  }

  /** Accepts exactly the sections that meet `Accepts`, and returns their table. */
  method Decode(bytes: seq<Byte>, e: Entry, limits: Limits) returns (r: Result<Section, Code>)
    requires |bytes| <= U64_MAX
    ensures r.Ok? <==> Accepts(bytes, e, limits)
    ensures r.Ok? ==> r.value == SectionOf(bytes, e)
  {
    if e.offset + e.length > |bytes| {
      return Err(BadRecord);
    }
    var payload := bytes[e.offset..e.offset + e.length];
    if |payload| < PREFIX {
      return Err(UnexpectedEnd);
    }
    var cursor := new Cursor(payload);
    var count := Read(cursor, 4);
    var reserved := Read(cursor, 4);
    var recordBytes := Read(cursor, 8);
    if reserved != 0 || count != e.elementCount {
      return Err(BadRecord);
    }
    if count > limits.recordsPerSection {
      return Err(LimitExceeded);
    }
    var offsets :- ReadOffsets(cursor, count);
    var recordsAt := Align8(cursor.position);
    var padded := CheckZero(payload, cursor.position, recordsAt);
    if !padded {
      return Err(BadRecord);
    }
    var ascending := CheckAscending(offsets);
    if recordsAt + recordBytes != |payload| || offsets[0] != 0
       || recordBytes > U32_MAX || offsets[|offsets| - 1] != recordBytes || !ascending
    {
      return Err(BadRecord);
    }
    return Ok(Section(e.kind, offsets, payload[recordsAt..], e.offset + recordsAt));
  }
}
