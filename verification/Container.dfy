/**
 The artifact container: a fixed header, a directory of sections in key order, and the sections
 packed at 8-byte boundaries with zero gaps up to `payloadEnd`, where a digest follows.
 */
module Container {
  import opened Wrappers
  import opened Words
  import opened Cursors

  const HEADER_SIZE := 64
  const DIRECTORY_ENTRY_SIZE := 32
  const DIGEST_SIZE := 32
  const FORMAT_MAJOR := 3
  const RUNTIME_ABI_MAJOR := 1
  const RUNTIME_ABI_MINOR := 20
  const CRITICAL := 1
  const KNOWN_FLAGS := 3
  /** The six lowest feature bits are known. */
  const KNOWN_FEATURES_LIMIT := 64
  const DEBUG := 0x0110
  const DEBUG_PATHS := 0x0111
  const SAFEPOINT_ROOT_RANGES := 0x0112
  const DEBUG_SOURCE_POSITIONS := 0x8001
  const OPTIONAL_EXTENSION_START := 0x8000

  datatype Limits = Limits(artifactBytes: nat, sections: nat, recordsPerSection: nat)

  datatype Header = Header(
    runtimeMajor: nat, runtimeMinor: nat, sectionCount: nat, semanticFeatures: nat,
    payloadEnd: nat, entryModule: nat, entryFunction: nat, stringArguments: bool)

  datatype Entry = Entry(kind: nat, flags: nat, scope: nat, offset: nat, length: nat, elementCount: nat)

  datatype Artifact = Artifact(bytes: seq<Byte>, header: Header, directory: seq<Entry>)

  predicate IsGlobal(kind: nat) {
    1 <= kind <= 3
  }

  predicate IsModule(kind: nat) {
    0x0100 <= kind <= 0x010b || kind == DEBUG || kind == DEBUG_PATHS || kind == SAFEPOINT_ROOT_RANGES
    || kind == DEBUG_SOURCE_POSITIONS
  }

  /** The next multiple of eight. */
  function Align8(n: nat): (r: nat)
    ensures r % 8 == 0 && n <= r < n + 8
  {
    (n + 7) / 8 * 8
  }

  function Word(s: seq<Byte>, at: nat, width: nat): nat
    requires at + width <= |s|
  {
    DecodeLe(s[at..at + width])
  }

  predicate Zero(s: seq<Byte>, from: nat, to: nat) {
    from <= to <= |s| && forall i | from <= i < to :: s[i] == 0
  }

  // ---- what is accepted ----

  /** The fields of the 64 header bytes. */
  function HeaderOf(h: seq<Byte>): Header
    requires |h| == HEADER_SIZE
  {
    Header(Word(h, 8, 2), Word(h, 10, 2), Word(h, 16, 4), Word(h, 20, 4), Word(h, 32, 8), Word(h, 40, 4), Word(h, 44, 4), h[48] == 1)
  }

  predicate HeaderOk(h: seq<Byte>, limits: Limits)
    requires |h| == HEADER_SIZE
  {
    && h[..4] == [0x43, 0x50, 0x4B, 0x54]
    && h[48] <= 1
    && Word(h, 4, 2) == FORMAT_MAJOR
    && (Word(h, 8, 2) < RUNTIME_ABI_MAJOR || (Word(h, 8, 2) == RUNTIME_ABI_MAJOR && Word(h, 10, 2) <= RUNTIME_ABI_MINOR))
    && Word(h, 20, 4) < KNOWN_FEATURES_LIMIT
    && Word(h, 12, 2) == HEADER_SIZE && Word(h, 14, 2) == DIRECTORY_ENTRY_SIZE && Word(h, 24, 8) == HEADER_SIZE
    && Zero(h, 49, 64)
    && Word(h, 16, 4) <= limits.sections
  }

  function DirectoryEnd(count: nat): nat {
    HEADER_SIZE + count * DIRECTORY_ENTRY_SIZE
  }

  /** The fields of the i-th directory record. */
  function EntryOf(d: seq<Byte>, i: nat): Entry
    requires (i + 1) * DIRECTORY_ENTRY_SIZE <= |d|
  {
    var at := i * DIRECTORY_ENTRY_SIZE;
    Entry(Word(d, at, 2), Word(d, at + 2, 2), Word(d, at + 4, 4), Word(d, at + 8, 8), Word(d, at + 16, 8), Word(d, at + 24, 4))
  }

  function ReservedOf(d: seq<Byte>, i: nat): nat
    requires (i + 1) * DIRECTORY_ENTRY_SIZE <= |d|
  {
    Word(d, i * DIRECTORY_ENTRY_SIZE + 28, 4)
  }

  function DirectoryOf(d: seq<Byte>, count: nat): (es: seq<Entry>)
    requires count * DIRECTORY_ENTRY_SIZE <= |d|
    ensures |es| == count
  {
    seq(count, i requires 0 <= i < count => EntryOf(d, i))
  }

  predicate EntryOk(e: Entry, reserved: nat, limits: Limits) {
    && reserved == 0 && e.flags <= KNOWN_FLAGS
    && (IsGlobal(e.kind) ==> e.scope == 0) && (IsModule(e.kind) ==> e.scope != 0)
    && (if IsGlobal(e.kind) || IsModule(e.kind) then
          e.flags == (if e.kind == DEBUG || e.kind == DEBUG_SOURCE_POSITIONS then 0
                      else if e.kind == DEBUG_PATHS || e.kind == SAFEPOINT_ROOT_RANGES then CRITICAL
                      else KNOWN_FLAGS)
        else e.kind >= OPTIONAL_EXTENSION_START && e.flags == 0)
    && e.elementCount <= limits.recordsPerSection
  }

  predicate KeyLess(a: Entry, b: Entry) {
    a.scope < b.scope || (a.scope == b.scope && a.kind < b.kind)
  }

  function End(e: Entry): nat {
    e.offset + e.length
  }

  /** Where section `i` must start: behind the directory or behind the section before, aligned. */
  function Expected(es: seq<Entry>, i: nat, start: nat): nat
    requires i <= |es|
  {
    if i == 0 then Align8(start) else Align8(End(es[i - 1]))
  }

  /** A section follows its predecessor in key order and in place, inside the payload, and zeros follow it. */
  predicate Placed(s: seq<Byte>, previous: Option<Entry>, e: Entry, expected: nat, payloadEnd: nat) {
    && (previous.Some? ==> KeyLess(previous.value, e))
    && e.offset == expected
    && End(e) <= payloadEnd
    && Zero(s, End(e), Min(Align8(End(e)), payloadEnd))
  }

  function Before(es: seq<Entry>, i: nat): Option<Entry>
    requires i <= |es|
  {
    if i == 0 then None else Some(es[i - 1])
  }

  predicate EntryPacked(s: seq<Byte>, es: seq<Entry>, i: nat, start: nat, payloadEnd: nat)
    requires i < |es|
  {
    Placed(s, Before(es, i), es[i], Expected(es, i, start), payloadEnd)
  }

  /** Record `i` of the directory bytes `d` is legal and its section is well placed. */
  predicate EntryGood(s: seq<Byte>, d: seq<Byte>, es: seq<Entry>, i: nat, start: nat, payloadEnd: nat, limits: Limits)
    requires i < |es| && |es| * DIRECTORY_ENTRY_SIZE <= |d|
  {
    EntryOk(es[i], ReservedOf(d, i), limits) && EntryPacked(s, es, i, start, payloadEnd)
  }

  predicate DirectoryOk(s: seq<Byte>, count: nat, payloadEnd: nat, limits: Limits) {
    var start := DirectoryEnd(count);
    && start <= payloadEnd <= |s|
    && Zero(s, start, Align8(start))
    && var d := s[HEADER_SIZE..start];
    && EntriesGood(s, d, DirectoryOf(d, count), start, payloadEnd, limits)
    && payloadEnd == (if count == 0 then Align8(start) else End(EntryOf(d, count - 1)))
  }

  predicate EntriesGood(s: seq<Byte>, d: seq<Byte>, es: seq<Entry>, start: nat, payloadEnd: nat, limits: Limits)
    requires |es| * DIRECTORY_ENTRY_SIZE <= |d|
  {
    forall i: nat | i < |es| :: EntryGood(s, d, es, i, start, payloadEnd, limits)
  }

  function Directory(s: seq<Byte>, count: nat): seq<Entry>
    requires DirectoryEnd(count) <= |s|
  {
    DirectoryOf(s[HEADER_SIZE..DirectoryEnd(count)], count)
  }

  /** The whole acceptance condition of a container. */
  predicate Accepted(s: seq<Byte>, limits: Limits, digest: seq<Byte> -> seq<Byte>) {
    && HEADER_SIZE + DIGEST_SIZE <= |s| <= limits.artifactBytes
    && HeaderOk(s[..HEADER_SIZE], limits)
    && var h := HeaderOf(s[..HEADER_SIZE]);
    && h.payloadEnd + DIGEST_SIZE == |s|
    && digest(s[..h.payloadEnd]) == s[h.payloadEnd..]
    && DirectoryOk(s, h.sectionCount, h.payloadEnd, limits)
  }

  // ---- what acceptance means for every byte ----

  /** Sections in order from `start` to `end`, each gap shorter than eight bytes. */
  predicate Laid(es: seq<Entry>, start: nat, end: nat) {
    && (es == [] ==> start == end)
    && (es != [] ==> es[0].offset == start && End(es[|es| - 1]) == end)
    && (forall i: nat | i + 1 < |es| :: Adjacent(es, i))
  }

  predicate Adjacent(es: seq<Entry>, i: nat)
    requires i + 1 < |es|
  {
    End(es[i]) <= es[i + 1].offset < End(es[i]) + 8 && KeyLess(es[i], es[i + 1])
  }

  lemma {:induction false} DirectoryEndAligned(count: nat)
    ensures Align8(DirectoryEnd(count)) == DirectoryEnd(count)
  {
    assert DirectoryEnd(count) == 8 * (8 + 4 * count);
  }

  lemma {:induction false} PackedAdjacent(s: seq<Byte>, es: seq<Entry>, i: nat, start: nat, payloadEnd: nat)
    requires i + 1 < |es|
    requires EntryPacked(s, es, i, start, payloadEnd) && EntryPacked(s, es, i + 1, start, payloadEnd)
    ensures Adjacent(es, i) && Zero(s, End(es[i]), es[i + 1].offset)
  {
  }

  /** The sections of an accepted container are laid out from the directory to `payloadEnd`, and the gaps are zero. */
  lemma {:induction false} DirectoryIsLaid(s: seq<Byte>, count: nat, payloadEnd: nat, limits: Limits)
    requires DirectoryOk(s, count, payloadEnd, limits)
    ensures Laid(Directory(s, count), DirectoryEnd(count), payloadEnd)
    ensures forall i: nat | i + 1 < count :: Zero(s, End(Directory(s, count)[i]), Directory(s, count)[i + 1].offset)
  {
    DirectoryEndAligned(count);
    var es := Directory(s, count);
    var d := s[HEADER_SIZE..DirectoryEnd(count)];
    if count > 0 {
      assert EntryGood(s, d, es, 0, DirectoryEnd(count), payloadEnd, limits);
    }
    forall i: nat | i + 1 < count
      ensures Adjacent(es, i) && Zero(s, End(es[i]), es[i + 1].offset)
    {
      assert EntryGood(s, d, es, i, DirectoryEnd(count), payloadEnd, limits);
      assert EntryGood(s, d, es, i + 1, DirectoryEnd(count), payloadEnd, limits);
      PackedAdjacent(s, es, i, DirectoryEnd(count), payloadEnd);
    }
  }

  /** The disjoint kinds of bytes of a payload. */
  datatype Region = InHeader | InDirectory | InSection(index: nat) | InGap(index: nat)

  predicate Exists(es: seq<Entry>, r: Region) {
    match r
    case InSection(i) => i < |es|
    case InGap(i) => i + 1 < |es|
    case _ => true
  }

  /** Where a region begins and ends. */
  function Span(es: seq<Entry>, start: nat, r: Region): (nat, nat)
    requires Exists(es, r)
  {
    match r
    case InHeader => (0, HEADER_SIZE)
    case InDirectory => (HEADER_SIZE, start)
    case InSection(i) => (es[i].offset, End(es[i]))
    case InGap(i) => (End(es[i]), es[i + 1].offset)
  }

  predicate Lies(es: seq<Entry>, start: nat, p: nat, r: Region) {
    Exists(es, r) && Span(es, start, r).0 <= p < Span(es, start, r).1
  }

  /** One section ends before any later one begins, and has the smaller key. */
  lemma {:induction false} SectionsInOrder(es: seq<Entry>, start: nat, end: nat, i: nat, j: nat)
    requires Laid(es, start, end) && i < j < |es|
    ensures End(es[i]) <= es[j].offset && KeyLess(es[i], es[j])
    decreases j
  {
    assert Adjacent(es, j - 1);
    if i < j - 1 {
      SectionsInOrder(es, start, end, i, j - 1);
    }
  }

  lemma {:induction false} SectionsBehindDirectory(es: seq<Entry>, start: nat, end: nat, i: nat)
    requires Laid(es, start, end) && i < |es|
    ensures start <= es[i].offset <= End(es[i]) <= end
  {
    if i > 0 {
      SectionsInOrder(es, start, end, 0, i);
    }
    if i < |es| - 1 {
      SectionsInOrder(es, start, end, i, |es| - 1);
    }
  }

  /** Every byte before `end` lies somewhere: nothing in an accepted container is unaccounted for. */
  lemma {:induction false} EveryByteLiesSomewhere(es: seq<Entry>, start: nat, end: nat, p: nat) returns (r: Region)
    requires Laid(es, start, end) && HEADER_SIZE <= start
    requires p < end
    ensures Lies(es, start, p, r)
  {
    if p < HEADER_SIZE {
      r := InHeader;
    } else if p < start {
      r := InDirectory;
    } else {
      r := LocateSection(es, start, end, p, |es| - 1);
    }
  }

  lemma {:induction false} LocateSection(es: seq<Entry>, start: nat, end: nat, p: nat, i: nat) returns (r: Region)
    requires Laid(es, start, end) && i < |es|
    requires start <= p < End(es[i])
    ensures Lies(es, start, p, r)
    decreases i
  {
    if es[i].offset <= p {
      r := InSection(i);
    } else if End(es[i - 1]) <= p {
      r := InGap(i - 1);
    } else {
      r := LocateSection(es, start, end, p, i - 1);
    }
  }

  /** No byte lies in two places. */
  lemma {:induction false} EveryByteLiesOnce(es: seq<Entry>, start: nat, end: nat, p: nat, q: Region, r: Region)
    requires Laid(es, start, end) && HEADER_SIZE <= start
    requires Lies(es, start, p, q) && Lies(es, start, p, r)
    ensures q == r
  {
    if q.InSection? || q.InGap? {
      SectionsBehindDirectory(es, start, end, q.index);
    }
    if r.InSection? || r.InGap? {
      SectionsBehindDirectory(es, start, end, r.index);
      if q.InSection? || q.InGap? {
        if q.index < r.index {
          RegionsApart(es, start, end, q, r);
        } else if r.index < q.index {
          RegionsApart(es, start, end, r, q);
        }
      }
    }
  }

  lemma {:induction false} RegionsApart(es: seq<Entry>, start: nat, end: nat, q: Region, r: Region)
    requires Laid(es, start, end) && Exists(es, q) && Exists(es, r)
    requires (q.InSection? || q.InGap?) && (r.InSection? || r.InGap?) && q.index < r.index
    ensures Span(es, start, q).1 <= Span(es, start, r).0
  {
    SectionsInOrder(es, start, end, q.index, r.index);
    if q.InGap? && q.index + 1 < r.index {
      SectionsInOrder(es, start, end, q.index + 1, r.index);
    }
  }

  /**
   Every byte of an accepted container before `payloadEnd` lies in exactly one place: the header,
   the directory, one section, or a gap, which is shorter than eight bytes and zero.
   */
  lemma {:induction false} AcceptedBytes(s: seq<Byte>, limits: Limits, digest: seq<Byte> -> seq<Byte>, p: nat) returns (r: Region)
    requires Accepted(s, limits, digest) && p < HeaderOf(s[..HEADER_SIZE]).payloadEnd
    ensures var count := HeaderOf(s[..HEADER_SIZE]).sectionCount;
            var es, start := Directory(s, count), DirectoryEnd(count);
            && Lies(es, start, p, r)
            && (forall q :: Lies(es, start, p, q) ==> q == r)
            && (r.InGap? ==> s[p] == 0 && Span(es, start, r).1 - Span(es, start, r).0 < 8)
  {
    var h := HeaderOf(s[..HEADER_SIZE]);
    var es, start := Directory(s, h.sectionCount), DirectoryEnd(h.sectionCount);
    DirectoryIsLaid(s, h.sectionCount, h.payloadEnd, limits);
    r := EveryByteLiesSomewhere(es, start, h.payloadEnd, p);
    forall q | Lies(es, start, p, q)
      ensures q == r
    {
      EveryByteLiesOnce(es, start, h.payloadEnd, p, q, r);
    }
    if r.InGap? {
      assert Adjacent(es, r.index);
    }
  }

  // ---- the decoder ----

  method Read(cursor: Cursor, width: nat) returns (v: nat)
    requires cursor.Valid() && cursor.position + width <= |cursor.bytes|
    modifies cursor
    ensures cursor.Valid() && cursor.position == old(cursor.position) + width
    ensures v == Word(cursor.bytes, old(cursor.position), width)
  {
    ghost var at := cursor.position;
    var word := cursor.ReadWord(width);
    assert cursor.bytes[at..][..width] == cursor.bytes[at..at + width];
    v := word.value;
  }

  method CheckZero(s: seq<Byte>, from: nat, to: nat) returns (ok: bool)
    ensures ok <==> Zero(s, from, to)
  {
    if from > to || to > |s| {
      return false;
    }
    for i := from to to
      invariant Zero(s, from, i)
    {
      if s[i] != 0 {
        return false;
      }
    }
    return true;
  }

  method ReadVersions(cursor: Cursor) returns (w: seq<nat>)
    requires cursor.Valid() && cursor.position == 4 && |cursor.bytes| == HEADER_SIZE
    modifies cursor
    ensures cursor.Valid() && cursor.position == 16
    ensures var h := cursor.bytes;
            w == [Word(h, 4, 2), Word(h, 6, 2), Word(h, 8, 2), Word(h, 10, 2), Word(h, 12, 2), Word(h, 14, 2)]
  {
    var formatMajor := Read(cursor, 2);
    var formatMinor := Read(cursor, 2);
    var runtimeMajor := Read(cursor, 2);
    var runtimeMinor := Read(cursor, 2);
    var headerSize := Read(cursor, 2);
    var entrySize := Read(cursor, 2);
    w := [formatMajor, formatMinor, runtimeMajor, runtimeMinor, headerSize, entrySize];
  }

  /** The words of the header, in the order they are stored. */
  method ReadHeaderWords(h: seq<Byte>) returns (w: seq<nat>)
    requires |h| == HEADER_SIZE
    ensures w == [Word(h, 4, 2), Word(h, 6, 2), Word(h, 8, 2), Word(h, 10, 2), Word(h, 12, 2), Word(h, 14, 2)]
                 + [Word(h, 16, 4), Word(h, 20, 4), Word(h, 24, 8), Word(h, 32, 8), Word(h, 40, 4), Word(h, 44, 4)]
  {
    var cursor := new Cursor(h);
    var magic := cursor.Take(4);
    var versions := ReadVersions(cursor);
    var sectionCount := Read(cursor, 4);
    var features := Read(cursor, 4);
    var directoryOffset := Read(cursor, 8);
    var payloadEnd := Read(cursor, 8);
    var entryModule := Read(cursor, 4);
    var entryFunction := Read(cursor, 4);
    w := versions + [sectionCount, features, directoryOffset, payloadEnd, entryModule, entryFunction];
  }

  method DecodeHeader(s: seq<Byte>, limits: Limits) returns (r: Result<Header, Code>)
    requires HEADER_SIZE <= |s| <= U64_MAX
    ensures r.Ok? <==> HeaderOk(s[..HEADER_SIZE], limits)
    ensures r.Ok? ==> r.value == HeaderOf(s[..HEADER_SIZE])
  {
    var h := s[..HEADER_SIZE];
    if h[..4] != [0x43, 0x50, 0x4B, 0x54] {
      return Err(BadMagic);
    }
    var w := ReadHeaderWords(h);
    var arguments := h[48];
    if arguments > 1 {
      return Err(UnsupportedVersion);
    }
    var reservedZero := CheckZero(h, 49, 64);
    if w[0] != FORMAT_MAJOR || w[2] > RUNTIME_ABI_MAJOR || (w[2] == RUNTIME_ABI_MAJOR && w[3] > RUNTIME_ABI_MINOR)
       || w[7] >= KNOWN_FEATURES_LIMIT
    {
      return Err(UnsupportedVersion);
    }
    if w[4] != HEADER_SIZE || w[5] != DIRECTORY_ENTRY_SIZE || w[8] != HEADER_SIZE || !reservedZero {
      return Err(BadLength);
    }
    if w[6] > limits.sections {
      return Err(LimitExceeded);
    }
    return Ok(Header(w[2], w[3], w[6], w[7], w[9], w[10], w[11], arguments == 1));
  }

  method ReadEntry(cursor: Cursor, ghost i: nat) returns (e: Entry, reserved: nat)
    requires cursor.Valid() && cursor.position == i * DIRECTORY_ENTRY_SIZE
    requires (i + 1) * DIRECTORY_ENTRY_SIZE <= |cursor.bytes|
    modifies cursor
    ensures cursor.Valid() && cursor.position == (i + 1) * DIRECTORY_ENTRY_SIZE
    ensures e == EntryOf(cursor.bytes, i) && reserved == ReservedOf(cursor.bytes, i)
  {
    var kind := Read(cursor, 2);
    var flags := Read(cursor, 2);
    var scope := Read(cursor, 4);
    var offset := Read(cursor, 8);
    var length := Read(cursor, 8);
    var elementCount := Read(cursor, 4);
    reserved := Read(cursor, 4);
    e := Entry(kind, flags, scope, offset, length, elementCount);
  }

  /** The checks on one section's key and place. */
  method CheckPlaced(s: seq<Byte>, previous: Option<Entry>, e: Entry, expected: nat, payloadEnd: nat) returns (ok: bool)
    requires expected % 8 == 0
    ensures ok <==> Placed(s, previous, e, expected, payloadEnd)
  {
    if previous.Some? && !KeyLess(previous.value, e) {
      return false;
    }
    if e.offset != expected || e.offset % 8 != 0 {
      return false;
    }
    var end := e.offset + e.length;
    if end > payloadEnd {
      return false;
    }
    ok := CheckZero(s, end, Min(Align8(end), payloadEnd));
  }

  /** Reads record `i` and checks it against its predecessor. */
  method DecodeEntry(s: seq<Byte>, cursor: Cursor, ghost es: seq<Entry>, i: nat, previous: Option<Entry>, expected: nat,
                     ghost start: nat, payloadEnd: nat, limits: Limits) returns (r: Result<Entry, Code>)
    requires cursor.Valid() && cursor.position == i * DIRECTORY_ENTRY_SIZE
    requires i < |es| && |es| * DIRECTORY_ENTRY_SIZE <= |cursor.bytes| && es[i] == EntryOf(cursor.bytes, i)
    requires previous == Before(es, i) && expected == Expected(es, i, start)
    modifies cursor
    ensures cursor.Valid() && cursor.position == (i + 1) * DIRECTORY_ENTRY_SIZE
    ensures r.Ok? <==> EntryGood(s, cursor.bytes, es, i, start, payloadEnd, limits)
    ensures r.Ok? ==> r.value == es[i]
  {
    var entry, reserved := ReadEntry(cursor, i);
    if !EntryOk(entry, reserved, limits) {
      return Err(BadSection);
    }
    var placed := CheckPlaced(s, previous, entry, expected, payloadEnd);
    if !placed {
      return Err(BadDirectory);
    }
    return Ok(entry);
  }

  predicate GoodUpTo(s: seq<Byte>, d: seq<Byte>, es: seq<Entry>, n: nat, start: nat, payloadEnd: nat, limits: Limits)
    requires n <= |es| && |es| * DIRECTORY_ENTRY_SIZE <= |d|
  {
    forall i: nat | i < n :: EntryGood(s, d, es, i, start, payloadEnd, limits)
  }

  lemma {:induction false} OneMoreEntry(s: seq<Byte>, d: seq<Byte>, es: seq<Entry>, i: nat, start: nat,
                                        payloadEnd: nat, limits: Limits)
    requires i < |es| && |es| * DIRECTORY_ENTRY_SIZE <= |d|
    requires GoodUpTo(s, d, es, i, start, payloadEnd, limits) && EntryGood(s, d, es, i, start, payloadEnd, limits)
    ensures GoodUpTo(s, d, es, i + 1, start, payloadEnd, limits)
    ensures es[..i] + [es[i]] == es[..i + 1] && Expected(es, i + 1, start) == Align8(es[i].offset + es[i].length)
  {
  }

  /** The loop over the directory records: accepts them exactly when every one is good. */
  method DecodeEntries(s: seq<Byte>, d: seq<Byte>, count: nat, start: nat, payloadEnd: nat, limits: Limits)
    returns (r: Result<seq<Entry>, Code>)
    requires |d| == count * DIRECTORY_ENTRY_SIZE <= U64_MAX
    ensures r.Ok? <==> EntriesGood(s, d, DirectoryOf(d, count), start, payloadEnd, limits)
    ensures r.Ok? ==> r.value == DirectoryOf(d, count)
  {
    ghost var es := DirectoryOf(d, count);
    var cursor := new Cursor(d);
    var entries: seq<Entry> := [];
    var expectedOffset := Align8(start);
    for index := 0 to count
      invariant fresh(cursor) && cursor.Valid() && cursor.bytes == d && cursor.position == index * DIRECTORY_ENTRY_SIZE
      invariant entries == es[..index]
      invariant expectedOffset == Expected(es, index, start)
      invariant GoodUpTo(s, d, es, index, start, payloadEnd, limits)
    {
      var previous := if index == 0 then None else Some(entries[index - 1]);
      var entry := DecodeEntry(s, cursor, es, index, previous, expectedOffset, start, payloadEnd, limits);
      if entry.Err? {
        return Err(entry.error);
      }
      OneMoreEntry(s, d, es, index, start, payloadEnd, limits);
      expectedOffset := Align8(entry.value.offset + entry.value.length);
      entries := entries + [entry.value];
    }
    assert es[..count] == es;
    return Ok(entries);
  }

  /** Accepts exactly the packed directories. */
  method DecodeDirectory(s: seq<Byte>, header: Header, limits: Limits) returns (r: Result<seq<Entry>, Code>)
    requires header.payloadEnd <= |s| <= U64_MAX && header.sectionCount < TWO_32
    ensures r.Ok? <==> DirectoryOk(s, header.sectionCount, header.payloadEnd, limits)
    ensures r.Ok? ==> r.value == Directory(s, header.sectionCount)
  {
    var count := header.sectionCount;
    var start := DirectoryEnd(count);
    var payloadEnd := header.payloadEnd;
    if start > payloadEnd {
      return Err(BadDirectory);
    }
    var zero := CheckZero(s, start, Align8(start));
    if !zero {
      return Err(BadDirectory);
    }
    var entries :- DecodeEntries(s, s[HEADER_SIZE..start], count, start, payloadEnd, limits);
    var lastEnd := if |entries| > 0 then entries[|entries| - 1].offset + entries[|entries| - 1].length else Align8(start);
    if lastEnd != payloadEnd {
      return Err(BadDirectory);
    }
    return Ok(entries);
  }

  /** Accepts exactly the containers that meet `Accepted`, for any digest function. */
  method DecodeContainer(s: seq<Byte>, limits: Limits, digest: seq<Byte> -> seq<Byte>) returns (r: Result<Artifact, Code>)
    requires |s| <= U64_MAX
    ensures r.Ok? <==> Accepted(s, limits, digest)
    ensures r.Ok? ==>
              var h := HeaderOf(s[..HEADER_SIZE]);
              r.value == Artifact(s, h, Directory(s, h.sectionCount))
  {
    if |s| > limits.artifactBytes {
      return Err(LimitExceeded);
    }
    if |s| < HEADER_SIZE + DIGEST_SIZE {
      return Err(BadLength);
    }
    var header :- DecodeHeader(s, limits);
    var payloadEnd := header.payloadEnd;
    if payloadEnd + DIGEST_SIZE != |s| {
      return Err(BadLength);
    }
    if digest(s[..payloadEnd]) != s[payloadEnd..] {
      return Err(BadDigest);
    }
    Powers();
    var directory :- DecodeDirectory(s, header, limits);
    return Ok(Artifact(s, header, directory));
  }
}
