/**
 The header and the directory records of a container as their encoder writes them, one field behind the other. What
 the decoder reads at fixed places is what was written there, and what it accepts is written back as it was.
 */
module ContainerForm {
  import opened Words
  import opened Cursors
  import opened Container

  /** A word of some width at some place. */
  datatype Field = Field(at: nat, width: nat, value: nat)

  predicate HasField(s: seq<Byte>, f: Field) {
    f.at + f.width <= |s| && Word(s, f.at, f.width) == f.value
  }

  predicate HasFields(s: seq<Byte>, fs: seq<Field>) {
    forall i | 0 <= i < |fs| :: HasField(s, fs[i])
  }

  function End(fs: seq<Field>): nat {
    if fs == [] then 0 else fs[|fs| - 1].at + fs[|fs| - 1].width
  }

  /** Each field begins where the one before it ends, and its value fits. */
  predicate Contiguous(fs: seq<Field>) {
    forall i | 0 <= i < |fs| :: FollowsOn(fs, i)
  }

  predicate FollowsOn(fs: seq<Field>, i: nat)
    requires i < |fs|
  {
    fs[i].value < Pow256(fs[i].width) && fs[i].at == if i == 0 then 0 else fs[i - 1].at + fs[i - 1].width
  }

  /** The fields written one behind the other. */
  function Written(fs: seq<Field>): seq<Byte> {
    if fs == [] then [] else Written(fs[..|fs| - 1]) + EncodeLe(fs[|fs| - 1].value, fs[|fs| - 1].width)
  }

  lemma {:induction false} ShorterIsContiguous(fs: seq<Field>)
    requires fs != [] && Contiguous(fs)
    ensures Contiguous(fs[..|fs| - 1]) && End(fs[..|fs| - 1]) == fs[|fs| - 1].at
  {
    var shorter := fs[..|fs| - 1];
    assert FollowsOn(fs, |fs| - 1);
    forall i | 0 <= i < |shorter|
      ensures FollowsOn(shorter, i)
    {
      assert FollowsOn(fs, i);
    }
  }

  /** What is written is read back, field by field. */
  lemma {:induction false} FieldsAreRead(fs: seq<Field>)
    requires Contiguous(fs)
    ensures |Written(fs)| == End(fs) && HasFields(Written(fs), fs)
  {
    if fs != [] {
      var shorter, last := fs[..|fs| - 1], fs[|fs| - 1];
      ShorterIsContiguous(fs);
      FieldsAreRead(shorter);
      var before, s := Written(shorter), Written(fs);
      forall i | 0 <= i < |shorter|
        ensures HasField(s, fs[i])
      {
        assert HasField(before, shorter[i]);
        assert s[fs[i].at..fs[i].at + fs[i].width] == before[fs[i].at..fs[i].at + fs[i].width];
      }
      assert s[last.at..last.at + last.width] == EncodeLe(last.value, last.width);
      assert FollowsOn(fs, |fs| - 1);
      LeRoundTrip(last.value, last.width);
    }
  }

  /** A word read is written back as it was. */
  lemma {:induction false} WordWritesBack(s: seq<Byte>, at: nat, width: nat)
    requires at + width <= |s|
    ensures s[..at] + EncodeLe(Word(s, at, width), width) == s[..at + width]
  {
    LeCanonical(s[at..at + width]);
  }

  lemma {:induction false} FewerFields(s: seq<Byte>, fs: seq<Field>)
    requires fs != [] && HasFields(s, fs)
    ensures HasFields(s, fs[..|fs| - 1]) && HasField(s, fs[|fs| - 1])
  {
    var shorter := fs[..|fs| - 1];
    assert forall i | 0 <= i < |shorter| :: shorter[i] == fs[i];
  }

  /** What is read is written back. */
  lemma {:induction false} FieldsAreWrittenBack(s: seq<Byte>, fs: seq<Field>)
    requires Contiguous(fs) && HasFields(s, fs)
    ensures End(fs) <= |s| && Written(fs) == s[..End(fs)]
  {
    if fs != [] {
      var last := fs[|fs| - 1];
      ShorterIsContiguous(fs);
      FewerFields(s, fs);
      FieldsAreWrittenBack(s, fs[..|fs| - 1]);
      WordWritesBack(s, last.at, last.width);
    }
  }

  // ---- directory records ----

  /** Kind, flags, scope, offset, length and element count of a section, and a reserved word. */
  function EntryFields(e: Entry, reserved: nat): seq<Field> {
    [Field(0, 2, e.kind), Field(2, 2, e.flags), Field(4, 4, e.scope), Field(8, 8, e.offset), Field(16, 8, e.length),
     Field(24, 4, e.elementCount), Field(28, 4, reserved)]
  }

  predicate EntryInRange(e: Entry) {
    && e.kind < 0x1_0000 && e.flags < 0x1_0000 && e.scope < TWO_32 && e.offset <= U64_MAX && e.length <= U64_MAX
    && e.elementCount < TWO_32
  }

  /** A directory record is read as it was written. */
  lemma {:induction false} EntryIsRead(e: Entry, reserved: nat)
    requires EntryInRange(e) && reserved < TWO_32
    ensures |Written(EntryFields(e, reserved))| == DIRECTORY_ENTRY_SIZE
    ensures EntryOf(Written(EntryFields(e, reserved)), 0) == e
    ensures ReservedOf(Written(EntryFields(e, reserved)), 0) == reserved
  {
    Powers();
    var fs := EntryFields(e, reserved);
    FieldsAreRead(fs);
    var s := Written(fs);
    assert HasField(s, fs[0]) && HasField(s, fs[1]) && HasField(s, fs[2]) && HasField(s, fs[3]);
    assert HasField(s, fs[4]) && HasField(s, fs[5]) && HasField(s, fs[6]);
  }

  /** And written back as it was read. */
  lemma {:induction false} EntryIsWrittenBack(d: seq<Byte>)
    requires |d| == DIRECTORY_ENTRY_SIZE
    ensures Written(EntryFields(EntryOf(d, 0), ReservedOf(d, 0))) == d
  {
    Powers();
    var fs := EntryFields(EntryOf(d, 0), ReservedOf(d, 0));
    FieldsAreWrittenBack(d, fs);
    assert d[..32] == d;
  }

  // ---- the header ----

  /**
    * The letters CPKT, the two format versions, the two runtime versions, the sizes of the header and of a directory
    * record, the number of sections, the features, the place of the directory, the end of the payload, the entry
    * point, whether it takes arguments, and zeros.
    */
  function HeaderFields(h: Header, formatMinor: nat): seq<Field> {
    [Field(0, 4, 0x544B_5043), Field(4, 2, 3), Field(6, 2, formatMinor), Field(8, 2, h.runtimeMajor),
     Field(10, 2, h.runtimeMinor), Field(12, 2, 64), Field(14, 2, 32), Field(16, 4, h.sectionCount),
     Field(20, 4, h.semanticFeatures), Field(24, 8, 64), Field(32, 8, h.payloadEnd), Field(40, 4, h.entryModule),
     Field(44, 4, h.entryFunction), Field(48, 1, if h.stringArguments then 1 else 0), Field(49, 15, 0)]
  }

  predicate HeaderInRange(h: Header) {
    && h.runtimeMajor < 0x1_0000 && h.runtimeMinor < 0x1_0000 && h.sectionCount < TWO_32 && h.semanticFeatures < TWO_32
    && h.payloadEnd <= U64_MAX && h.entryModule < TWO_32 && h.entryFunction < TWO_32
  }

  lemma {:induction false} HeaderIsContiguous(h: Header, formatMinor: nat)
    requires HeaderInRange(h) && formatMinor < 0x1_0000
    ensures Contiguous(HeaderFields(h, formatMinor)) && End(HeaderFields(h, formatMinor)) == HEADER_SIZE
  {
    Powers();
  }

  /** A header is read as it was written. */
  lemma {:induction false} HeaderIsRead(h: Header, formatMinor: nat)
    requires HeaderInRange(h) && formatMinor < 0x1_0000
    ensures |Written(HeaderFields(h, formatMinor))| == HEADER_SIZE
    ensures HeaderOf(Written(HeaderFields(h, formatMinor))) == h
  {
    HeaderIsContiguous(h, formatMinor);
    var fs := HeaderFields(h, formatMinor);
    FieldsAreRead(fs);
    var s := Written(fs);
    assert HasField(s, fs[3]) && HasField(s, fs[4]) && HasField(s, fs[7]) && HasField(s, fs[8]);
    assert HasField(s, fs[10]) && HasField(s, fs[11]) && HasField(s, fs[12]) && HasField(s, fs[13]);
    assert DecodeLe(s[48..49]) == s[48];
  }

  lemma {:induction false} ZerosAreZero(s: seq<Byte>)
    requires forall i | 0 <= i < |s| :: s[i] == 0
    ensures DecodeLe(s) == 0
  {
    if s != [] {
      ZerosAreZero(s[1..]);
    }
  }

  lemma {:induction false} Magic()
    ensures DecodeLe([0x43, 0x50, 0x4B, 0x54]) == 0x544B_5043
  {
    var s: seq<Byte> := [0x43, 0x50, 0x4B, 0x54];
    assert s[1..][1..] == s[2..] && s[2..][1..] == s[3..] && s[3..][1..] == [];
    assert DecodeLe(s[3..]) == 0x54 && DecodeLe(s[2..]) == 0x4B + 256 * DecodeLe(s[3..]);
    assert DecodeLe(s[1..]) == 0x50 + 256 * DecodeLe(s[2..]);
  }

  /** A header that is accepted is written back as it was read. */
  lemma {:induction false} HeaderIsWrittenBack(s: seq<Byte>, limits: Limits)
    requires |s| == HEADER_SIZE && HeaderOk(s, limits)
    ensures Written(HeaderFields(HeaderOf(s), Word(s, 6, 2))) == s
  {
    Powers();
    Magic();
    ZerosAreZero(s[49..64]);
    assert s[0..4] == s[..4];
    var h := HeaderOf(s);
    HeaderIsContiguous(h, Word(s, 6, 2));
    var fs := HeaderFields(h, Word(s, 6, 2));
    assert DecodeLe(s[48..49]) == s[48];
    FieldsAreWrittenBack(s, fs);
    assert s[..64] == s;
  }

  // ---- which sections there are ----

  datatype SectionName =
    | Manifest | Modules | Capabilities
    | Strings | Types | Constants | Imports | Exports | Fields | Functions | Blocks | Code | Exceptions
    | Utf16Literals | SafepointRoots | Debug | DebugPaths | SafepointRootRanges | DebugSourcePositions

  function KindOf(n: SectionName): nat {
    match n
    case Manifest => 0x0001
    case Modules => 0x0002
    case Capabilities => 0x0003
    case Strings => 0x0100
    case Types => 0x0101
    case Constants => 0x0102
    case Imports => 0x0103
    case Exports => 0x0104
    case Fields => 0x0105
    case Functions => 0x0106
    case Blocks => 0x0107
    case Code => 0x0108
    case Exceptions => 0x0109
    case Utf16Literals => 0x010a
    case SafepointRoots => 0x010b
    case Debug => 0x0110
    case DebugPaths => 0x0111
    case SafepointRootRanges => 0x0112
    case DebugSourcePositions => 0x8001
  }

  /** The sections of the artifact as a whole; the others belong to a module. */
  predicate IsWhole(n: SectionName) {
    n.Manifest? || n.Modules? || n.Capabilities?
  }

  /** A reader that does not know the section must refuse the artifact. */
  predicate IsCritical(n: SectionName) {
    !n.Debug? && !n.DebugSourcePositions?
  }

  /** The section is part of what the module means. */
  predicate IsSemantic(n: SectionName) {
    IsCritical(n) && !n.DebugPaths? && !n.SafepointRootRanges?
  }

  function FlagBits(critical: bool, semantic: bool): nat {
    (if critical then 1 else 0) + (if semantic then 2 else 0)
  }

  /** The kinds the decoder knows are the named ones, and no two names share a kind. */
  lemma {:induction false} KnownKinds(n: SectionName, m: SectionName)
    ensures IsGlobal(KindOf(n)) <==> IsWhole(n)
    ensures IsModule(KindOf(n)) <==> !IsWhole(n)
    ensures KindOf(n) == KindOf(m) ==> n == m
  {
  }

  lemma {:induction false} EveryKnownKindIsNamed(kind: nat) returns (n: SectionName)
    requires IsGlobal(kind) || IsModule(kind)
    ensures KindOf(n) == kind
  {
    var names := [Strings, Types, Constants, Imports, Exports, Fields, Functions, Blocks, Code, Exceptions,
                  Utf16Literals, SafepointRoots];
    n := if kind == 1 then Manifest else if kind == 2 then Modules else if kind == 3 then Capabilities
         else if kind <= 0x010b then names[kind - 0x0100]
         else if kind == 0x0110 then Debug else if kind == 0x0111 then DebugPaths
         else if kind == 0x0112 then SafepointRootRanges else DebugSourcePositions;
  }

  /** Which record of a named section is accepted: in its scope, and with exactly its flags. */
  lemma {:induction false} NamedEntryOk(e: Entry, n: SectionName, reserved: nat, limits: Limits)
    requires e.kind == KindOf(n)
    ensures EntryOk(e, reserved, limits)
            <==> && reserved == 0 && e.elementCount <= limits.recordsPerSection
                 && (e.scope == 0 <==> IsWhole(n)) && e.flags == FlagBits(IsCritical(n), IsSemantic(n))
  {
    KnownKinds(n, n);
  }

  /** A section without a name is skipped if it is an extension without flags, and refused otherwise. */
  lemma {:induction false} UnnamedEntryOk(e: Entry, reserved: nat, limits: Limits)
    requires forall n: SectionName :: KindOf(n) != e.kind
    ensures EntryOk(e, reserved, limits)
            <==> reserved == 0 && e.elementCount <= limits.recordsPerSection && e.kind >= 0x8000 && e.flags == 0
  {
    if IsGlobal(e.kind) || IsModule(e.kind) {
      var n := EveryKnownKindIsNamed(e.kind);
    }
  }

  /** The order of the directory is that of scope and kind as one number, the scope above. */
  lemma {:induction false} KeysAreNumbers(a: Entry, b: Entry)
    requires a.kind < 0x10000 && b.kind < 0x10000
    ensures KeyLess(a, b) <==> a.scope * 0x10000 + a.kind < b.scope * 0x10000 + b.kind
  {
  }
}
