/** Where each part of a checkpointed table lies. */
module TransferForm {
  import opened Words
  import opened Cursors
  import opened PrefixCodes
  import opened Transfers
  import opened TransferCodec

  /** Bytes at a place. */
  predicate BytesAt(s: seq<Byte>, at: nat, bytes: seq<Byte>) {
    at + |bytes| <= |s| && forall i | 0 <= i < |bytes| :: bytes[i] == s[at + i]
  }

  /** A word at a place. */
  predicate WordAt(s: seq<Byte>, at: nat, width: nat, value: nat) {
    value < Pow256(width) && BytesAt(s, at, EncodeLe(value, width))
  }

  /** Bytes at a place, behind their length. */
  predicate CountedAt(s: seq<Byte>, at: nat, bytes: seq<Byte>) {
    WordAt(s, at, 8, |bytes|) && BytesAt(s, at + 8, bytes)
  }

  lemma {:induction false} BytesAtIff(s: seq<Byte>, at: nat, bytes: seq<Byte>)
    ensures BytesAt(s, at, bytes) <==> at + |bytes| <= |s| && s[at..at + |bytes|] == bytes
  {
    if at + |bytes| <= |s| {
      var part := s[at..at + |bytes|];
      assert forall i | 0 <= i < |bytes| :: part[i] == s[at + i];
    }
  }

  /** A word at a place is what is decoded there. */
  lemma {:induction false} WordAtIff(s: seq<Byte>, at: nat, width: nat, value: nat)
    requires at + width <= |s|
    ensures WordAt(s, at, width, value) <==> DecodeLe(s[at..at + width]) == value
  {
    BytesAtIff(s, at, EncodeLe(value, width));
    if WordAt(s, at, width, value) {
      LeRoundTrip(value, width);
    } else if DecodeLe(s[at..at + width]) == value {
      LeCanonical(s[at..at + width]);
    }
  }

  /** What lies side by side in a part lies side by side in the whole. */
  lemma {:induction false} HalvesLie(s: seq<Byte>, at: nat, a: seq<Byte>, b: seq<Byte>)
    requires BytesAt(s, at, a + b)
    ensures BytesAt(s, at, a) && BytesAt(s, at + |a|, b)
  {
    forall i | 0 <= i < |b|
      ensures b[i] == s[at + |a| + i]
    {
      assert (a + b)[|a| + i] == b[i];
    }
    forall i | 0 <= i < |a|
      ensures a[i] == s[at + i]
    {
      assert (a + b)[i] == a[i];
    }
  }

  lemma {:induction false} CountedLies(s: seq<Byte>, at: nat, bytes: seq<Byte>)
    requires Sized(bytes) && BytesAt(s, at, EncodeBytes(bytes))
    ensures CountedAt(s, at, bytes)
  {
    Powers();
    HalvesLie(s, at, EncodeLe(|bytes|, 8), bytes);
  }

  lemma {:induction false} CountedThenLies(s: seq<Byte>, at: nat, bytes: seq<Byte>, tail: seq<Byte>)
    requires Sized(bytes) && BytesAt(s, at, EncodeBytes(bytes) + tail)
    ensures CountedAt(s, at, bytes) && BytesAt(s, at + 8 + |bytes|, tail)
  {
    HalvesLie(s, at, EncodeBytes(bytes), tail);
    CountedLies(s, at, bytes);
  }

  /** Item `k` of a sequence lies behind the items before it. */
  lemma {:induction false} ItemLies<T>(s: seq<Byte>, at: nat, encode: T -> seq<Byte>, items: seq<T>, k: nat)
    requires k < |items| && BytesAt(s, at, Concat(encode, items))
    ensures BytesAt(s, at + |Concat(encode, items[..k])|, encode(items[k]))
    decreases k
  {
    var rest := Concat(encode, items[1..]);
    HalvesLie(s, at, encode(items[0]), rest);
    if k > 0 {
      ItemLies(s, at + |encode(items[0])|, encode, items[1..], k - 1);
      assert items[..k][1..] == items[1..][..k - 1];
    } else {
      assert items[..k] == [];
    }
  }

  lemma {:induction false} NamesLength(names: seq<Text>)
    ensures |Concat(EncodeBytes, names)| == NameBytes(names) + 8 * |names|
  {
    if names != [] {
      var n := |names| - 1;
      NamesLength(names[..n]);
      ConcatNext(EncodeBytes, names, n);
      assert names[..n + 1] == names;
    }
  }

  /** A transfer: a tag for its sort, and what the sort holds. */
  lemma {:induction false} BodyLies(s: seq<Byte>, at: nat, t: Transfer)
    requires BytesAt(s, at, EncodeTransfer(t))
    ensures at < |s| && s[at] == (if t.Read? then 0 else if t.Write? then 1 else if t.Directory? then 2 else 3)
    ensures BytesAt(s, at + 1, EncodeBody(t))
    ensures t.Write? ==>
              BytesAt(s, at + 1, EncodeRevision(t.revision) + (EncodeBytes(t.bytes) + EncodeFlag(t.poisoned)))
  {
    assert s[at] == EncodeTransfer(t)[0];
    HalvesLie(s, at, [Tag(t)], EncodeBody(t));
  }

  /** A snapshot: tag 0, the bytes behind their length, and how far it has been read. */
  lemma {:induction false} ReadLies(s: seq<Byte>, at: nat, t: Transfer)
    requires t.Read? && SizedTransfer(t) && BytesAt(s, at, EncodeTransfer(t))
    ensures at < |s| && s[at] == 0 && |EncodeTransfer(t)| == 17 + |t.bytes|
    ensures CountedAt(s, at + 1, t.bytes) && WordAt(s, at + 9 + |t.bytes|, 8, t.position)
  {
    Powers();
    BodyLies(s, at, t);
    HalvesLie(s, at + 1, EncodeBytes(t.bytes), EncodeLe(t.position, 8));
    CountedLies(s, at + 1, t.bytes);
  }

  lemma {:induction false} RevisionLies(s: seq<Byte>, at: nat, r: Revision)
    requires BytesAt(s, at, EncodeRevision(r))
    ensures at < |s| && s[at] == (if r.Absent? then 0 else 1)
    ensures r.Present? ==> WordAt(s, at + 1, 8, r.generation)
  {
    Powers();
    assert s[at] == EncodeRevision(r)[0];
    if r.Present? {
      HalvesLie(s, at, [1], EncodeLe(r.generation, 8));
      }
  }

  lemma {:induction false} FlagLies(s: seq<Byte>, at: nat, b: bool)
    requires BytesAt(s, at, EncodeFlag(b))
    ensures at < |s| && s[at] == (if b then 1 else 0)
  {
    assert EncodeFlag(b)[0] == s[at + 0];
  }

  lemma {:induction false} DraftLies(s: seq<Byte>, at: nat, bytes: seq<Byte>, poisoned: bool)
    requires Sized(bytes) && BytesAt(s, at, EncodeBytes(bytes) + EncodeFlag(poisoned))
    ensures CountedAt(s, at, bytes) && at + 8 + |bytes| < |s| && s[at + 8 + |bytes|] == (if poisoned then 1 else 0)
  {
    CountedThenLies(s, at, bytes, EncodeFlag(poisoned));
    FlagLies(s, at + 8 + |bytes|, poisoned);
  }

  lemma {:induction false} RevisedLies(s: seq<Byte>, at: nat, r: Revision, tail: seq<Byte>)
    requires BytesAt(s, at, EncodeRevision(r) + tail)
    ensures at < |s| && s[at] == (if r.Absent? then 0 else 1)
    ensures r.Present? ==> WordAt(s, at + 1, 8, r.generation)
    ensures BytesAt(s, if r.Absent? then at + 1 else at + 9, tail)
  {
    HalvesLie(s, at, EncodeRevision(r), tail);
    RevisionLies(s, at, r);
  }

  /** Behind tag 1, a draft: the revision it replaces, its bytes behind their length, and whether it is poisoned. */
  lemma {:induction false} WriteLies(s: seq<Byte>, at: nat, r: Revision, bytes: seq<Byte>, poisoned: bool)
    requires Sized(bytes) && BytesAt(s, at, EncodeRevision(r) + (EncodeBytes(bytes) + EncodeFlag(poisoned)))
    ensures at < |s| && s[at] == (if r.Absent? then 0 else 1)
    ensures r.Present? ==> WordAt(s, at + 1, 8, r.generation)
    ensures var next := if r.Absent? then at + 1 else at + 9;
            && CountedAt(s, next, bytes) && next + 8 + |bytes| < |s|
            && s[next + 8 + |bytes|] == (if poisoned then 1 else 0)
  {
    RevisedLies(s, at, r, EncodeBytes(bytes) + EncodeFlag(poisoned));
    DraftLies(s, if r.Absent? then at + 1 else at + 9, bytes, poisoned);
  }

  /** Names lie one behind the other. */
  lemma {:induction false} NameLies(s: seq<Byte>, at: nat, names: seq<Text>, k: nat)
    requires k < |names| && AllLegal(Sized, names) && BytesAt(s, at, Concat(EncodeBytes, names))
    ensures CountedAt(s, at + |Concat(EncodeBytes, names[..k])|, names[k])
  {
    var place, name := at + |Concat(EncodeBytes, names[..k])|, names[k];
    assert BytesAt(s, place, EncodeBytes(name)) by {
      ItemLies(s, at, EncodeBytes, names, k);
    }
    assert Sized(name);
    CountedLies(s, place, name);
  }

  lemma {:induction false} ListingLies(s: seq<Byte>, at: nat, count: U64, names: seq<Byte>, position: U64)
    requires BytesAt(s, at, EncodeLe(count, 8) + (names + EncodeLe(position, 8)))
    ensures WordAt(s, at, 8, count) && BytesAt(s, at + 8, names) && WordAt(s, at + 8 + |names|, 8, position)
  {
    Powers();
    HalvesLie(s, at, EncodeLe(count, 8), names + EncodeLe(position, 8));
    HalvesLie(s, at + 8, names, EncodeLe(position, 8));
  }

  /** A listing: tag 2, the number of names, each name behind its length, and how far it has been read. */
  lemma {:induction false} DirectoryLies(s: seq<Byte>, at: nat, t: Transfer)
    requires t.Directory? && SizedTransfer(t) && BytesAt(s, at, EncodeTransfer(t))
    ensures at < |s| && s[at] == 2 && WordAt(s, at + 1, 8, |t.names|)
    ensures BytesAt(s, at + 9, Concat(EncodeBytes, t.names))
    ensures WordAt(s, at + 9 + |Concat(EncodeBytes, t.names)|, 8, t.position)
  {
    BodyLies(s, at, t);
    ListingLies(s, at + 1, |t.names|, Concat(EncodeBytes, t.names), t.position);
  }

  /** A move: tag 3 and the generation of what is moved. */
  lemma {:induction false} MoveLies(s: seq<Byte>, at: nat, t: Transfer)
    requires t.Move? && BytesAt(s, at, EncodeTransfer(t))
    ensures at < |s| && s[at] == 3 && WordAt(s, at + 1, 8, t.generation) && |EncodeTransfer(t)| == 9
  {
    Powers();
    BodyLies(s, at, t);
  }

  /** An entry: its id, its path behind its length, and its transfer. */
  lemma {:induction false} EntryLies(s: seq<Byte>, at: nat, e: Entry)
    requires SizedEntry(e) && BytesAt(s, at, EncodeEntry(e))
    ensures WordAt(s, at, 4, e.id) && CountedAt(s, at + 4, e.transfer.path)
    ensures BytesAt(s, at + 12 + |e.transfer.path|, EncodeTransfer(e.transfer))
  {
    var path, transfer := e.transfer.path, EncodeTransfer(e.transfer);
    HalvesLie(s, at, EncodeLe(e.id, 4), EncodeBytes(path) + transfer);
    assert WordAt(s, at, 4, e.id) by {
      Powers();
    }
    CountedThenLies(s, at + 4, path, transfer);
  }

  /** A table: the next id, the number of entries, and the entries in order. */
  lemma {:induction false} TableLies(t: Table)
    requires t.nextId < TWO_32 && |t.entries| <= U64_MAX
    ensures var s := EncodeTable(t);
            && WordAt(s, 0, 4, t.nextId) && WordAt(s, 4, 8, |t.entries|)
            && BytesAt(s, 12, Concat(EncodeEntry, t.entries)) && |s| == 12 + |Concat(EncodeEntry, t.entries)|
  {
    Powers();
    var s, entries := EncodeTable(t), Concat(EncodeEntry, t.entries);
    HalvesLie(s, 0, EncodeLe(t.nextId, 4), EncodeLe(|t.entries|, 8) + entries);
    HalvesLie(s, 4, EncodeLe(|t.entries|, 8), entries);
  }

  lemma {:induction false} TableEntryLies(t: Table, k: nat)
    requires t.nextId < TWO_32 && |t.entries| <= U64_MAX && AllLegal(SizedEntry, t.entries) && k < |t.entries|
    ensures BytesAt(EncodeTable(t), 12 + |Concat(EncodeEntry, t.entries[..k])|, EncodeEntry(t.entries[k]))
  {
    TableLies(t);
    ItemLies(EncodeTable(t), 12, EncodeEntry, t.entries, k);
  }
}
