/** A table of records as its encoder writes it, and that the decoder gives every record back. */
module IndexedForm {
  import opened Wrappers
  import opened Words
  import opened Cursors
  import opened Container
  import opened ContainerForm
  import opened Indexed

  function Total(rs: seq<seq<Byte>>): nat {
    if rs == [] then 0 else Total(rs[..|rs| - 1]) + |rs[|rs| - 1]|
  }

  function Packed(rs: seq<seq<Byte>>): seq<Byte> {
    if rs == [] then [] else Packed(rs[..|rs| - 1]) + rs[|rs| - 1]
  }

  /** Where record `i` begins. */
  function OffsetField(rs: seq<seq<Byte>>, i: nat): Field
    requires i <= |rs|
  {
    Field(PREFIX + 4 * i, 4, Total(rs[..i]))
  }

  /** The number of records, a reserved word and the size of all records; then the offsets, from zero to that size. */
  function TableFields(rs: seq<seq<Byte>>): seq<Field> {
    [Field(0, 4, |rs|), Field(4, 4, 0), Field(8, 8, Total(rs))]
    + seq(|rs| + 1, i requires 0 <= i <= |rs| => OffsetField(rs, i))
  }

  function Zeros(n: nat): (s: seq<Byte>)
    ensures |s| == n && forall i | 0 <= i < n :: s[i] == 0
  {
    seq(n, _ => 0)
  }

  function EncodeTable(rs: seq<seq<Byte>>): seq<Byte> {
    var head := Written(TableFields(rs));
    head + Zeros(Align8(|head|) - |head|) + Packed(rs)
  }

  lemma {:induction false} PackedIsTotal(rs: seq<seq<Byte>>)
    ensures |Packed(rs)| == Total(rs)
  {
    if rs != [] {
      PackedIsTotal(rs[..|rs| - 1]);
    }
  }

  /** Record `i` lies between its offset and the next. */
  lemma {:induction false} RecordLies(rs: seq<seq<Byte>>, i: nat)
    requires i < |rs|
    ensures Total(rs[..i + 1]) == Total(rs[..i]) + |rs[i]| <= Total(rs) == |Packed(rs)|
    ensures Packed(rs)[Total(rs[..i])..Total(rs[..i + 1])] == rs[i]
    decreases |rs|
  {
    PackedIsTotal(rs);
    var n := |rs| - 1;
    PackedIsTotal(rs[..n]);
    if i == n {
      assert rs[..i + 1] == rs && Packed(rs) == Packed(rs[..n]) + rs[n];
    } else {
      RecordLies(rs[..n], i);
      assert rs[..n][..i] == rs[..i] && rs[..n][..i + 1] == rs[..i + 1] && rs[..n][i] == rs[i];
      assert rs[..i + 1][..i] == rs[..i];
    }
  }

  lemma {:induction false} TotalGrows(rs: seq<seq<Byte>>, i: nat)
    requires i <= |rs|
    ensures Total(rs[..i]) <= Total(rs)
  {
    if i < |rs| {
      RecordLies(rs, i);
    } else {
      assert rs[..i] == rs;
    }
  }

  lemma {:induction false} TableIsContiguous(rs: seq<seq<Byte>>)
    requires |rs| < TWO_32 && Total(rs) < TWO_32
    ensures Contiguous(TableFields(rs)) && ContainerForm.End(TableFields(rs)) == PREFIX + 4 * (|rs| + 1)
  {
    Powers();
    var fs := TableFields(rs);
    forall k | 0 <= k < |fs|
      ensures FollowsOn(fs, k)
    {
      if k >= 3 {
        TotalGrows(rs, k - 3);
        assert fs[k] == OffsetField(rs, k - 3);
        assert k > 3 ==> fs[k - 1] == OffsetField(rs, k - 4);
      }
    }
    assert fs[|fs| - 1] == OffsetField(rs, |rs|);
  }

  lemma {:induction false} HeadReads(rs: seq<seq<Byte>>, i: nat)
    requires |rs| < TWO_32 && Total(rs) < TWO_32 && i <= |rs|
    ensures var head := Written(TableFields(rs));
            && |head| == PREFIX + 4 * (|rs| + 1)
            && Word(head, 0, 4) == |rs| && Word(head, 4, 4) == 0 && Word(head, 8, 8) == Total(rs)
            && Word(head, PREFIX + 4 * i, 4) == Total(rs[..i])
  {
    TableIsContiguous(rs);
    var fs := TableFields(rs);
    FieldsAreRead(fs);
    var head := Written(fs);
    assert HasField(head, fs[0]) && HasField(head, fs[1]) && HasField(head, fs[2]) && HasField(head, fs[3 + i]);
    assert fs[3 + i] == OffsetField(rs, i);
  }

  lemma {:induction false} WordOfPrefix(p: seq<Byte>, s: seq<Byte>, at: nat, width: nat)
    requires p <= s && at + width <= |p|
    ensures Word(s, at, width) == Word(p, at, width)
  {
    assert s[at..at + width] == p[at..at + width];
  }

  /** The words of an encoded table. */
  lemma {:induction false} TableReads(rs: seq<seq<Byte>>, i: nat)
    requires |rs| < TWO_32 && Total(rs) < TWO_32 && i <= |rs|
    ensures var p := EncodeTable(rs);
            && |p| == RecordsAt(|rs|) + Total(rs)
            && Word(p, 0, 4) == |rs| && Word(p, 4, 4) == 0 && Word(p, 8, 8) == Total(rs)
            && Word(p, PREFIX + 4 * i, 4) == Total(rs[..i])
            && Zero(p, PREFIX + 4 * (|rs| + 1), RecordsAt(|rs|)) && p[RecordsAt(|rs|)..] == Packed(rs)
  {
    HeadReads(rs, i);
    PackedIsTotal(rs);
    var head, p := Written(TableFields(rs)), EncodeTable(rs);
    assert head <= p;
    WordOfPrefix(head, p, 0, 4);
    WordOfPrefix(head, p, 4, 4);
    WordOfPrefix(head, p, 8, 8);
    WordOfPrefix(head, p, PREFIX + 4 * i, 4);
  }

  /** What the encoder writes is accepted. */
  lemma {:induction false} TableIsAccepted(rs: seq<seq<Byte>>, e: Entry, limits: Limits)
    requires |rs| < TWO_32 && Total(rs) < TWO_32 && e.elementCount == |rs| <= limits.recordsPerSection
    ensures SectionOk(EncodeTable(rs), e, limits)
  {
    var p := EncodeTable(rs);
    TableReads(rs, 0);
    var os := OffsetsOf(p, |rs|);
    forall i | 0 <= i <= |rs|
      ensures os[i] == Total(rs[..i])
    {
      TableReads(rs, i);
    }
    forall i | 0 < i < |os|
      ensures os[i - 1] <= os[i]
    {
      RecordLies(rs, i - 1);
    }
    assert rs[..0] == [] && rs[..|rs|] == rs;
  }

  lemma {:induction false} OffsetsAreTotals(rs: seq<seq<Byte>>, i: nat)
    requires |rs| < TWO_32 && Total(rs) < TWO_32 && i <= |rs|
    ensures |EncodeTable(rs)| >= PREFIX + 4 * (|rs| + 1)
    ensures OffsetsOf(EncodeTable(rs), |rs|)[i] == Total(rs[..i])
  {
    TableReads(rs, i);
  }

  lemma {:induction false} RecordOfTotals(t: Section, rs: seq<seq<Byte>>, id: nat)
    requires |t.offsets| == |rs| + 1 && id < |rs| && t.records == Packed(rs)
    requires t.offsets[id] == Total(rs[..id]) && t.offsets[id + 1] == Total(rs[..id + 1])
    ensures Record(t, id) == Ok(rs[id])
  {
    RecordLies(rs, id);
  }

  /** The section the encoder's bytes open to. */
  lemma {:induction false} EncodedSection(rs: seq<seq<Byte>>, e: Entry, limits: Limits)
    requires |rs| < TWO_32 && Total(rs) < TWO_32 && e.elementCount == |rs| <= limits.recordsPerSection
    requires e.offset == 0 && e.length == |EncodeTable(rs)|
    ensures Accepts(EncodeTable(rs), e, limits)
    ensures SectionOf(EncodeTable(rs), e)
            == Section(e.kind, OffsetsOf(EncodeTable(rs), |rs|), Packed(rs), RecordsAt(|rs|))
  {
    var p := EncodeTable(rs);
    assert p[0..|p|] == p;
    TableIsAccepted(rs, e, limits);
    TableReads(rs, 0);
  }

  /** And every record is given back as it was. */
  lemma {:induction false} RecordIsGivenBack(rs: seq<seq<Byte>>, e: Entry, limits: Limits, id: nat)
    requires |rs| < TWO_32 && Total(rs) < TWO_32 && e.elementCount == |rs| <= limits.recordsPerSection && id < |rs|
    requires e.offset == 0 && e.length == |EncodeTable(rs)|
    ensures Accepts(EncodeTable(rs), e, limits)
    ensures Record(SectionOf(EncodeTable(rs), e), id) == Ok(rs[id])
  {
    EncodedSection(rs, e, limits);
    OffsetsAreTotals(rs, id);
    OffsetsAreTotals(rs, id + 1);
    RecordOfTotals(SectionOf(EncodeTable(rs), e), rs, id);
  }
}
