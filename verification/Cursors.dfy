/** Bounded reading of artifact bytes: fixed-width little-endian words and canonical ULEB128. */
module Cursors {
  import opened Wrappers
  import opened Words

  datatype Code =
    | UnexpectedEnd | IntegerOverflow | NonCanonicalUleb128
    | BadInstruction | LimitExceeded
    | BadLength | BadMagic | UnsupportedVersion | BadDigest | BadDirectory | BadSection | BadRecord

  // ---- fixed-width words ----

  function Pow256(n: nat): (p: nat)
    ensures p > 0
  {
    if n == 0 then 1 else 256 * Pow256(n - 1)
  }

  function EncodeLe(v: nat, n: nat): (s: seq<Byte>)
    ensures |s| == n
    decreases n
  {
    if n == 0 then [] else [v % 256] + EncodeLe(v / 256, n - 1)
  }

  function DecodeLe(s: seq<Byte>): (v: nat)
    ensures v < Pow256(|s|)
  {
    if s == [] then 0 else s[0] + 256 * DecodeLe(s[1..])
  }

  /** A word of n bytes has exactly one value below 256^n, and each such value one word. */
  lemma {:induction false} LeRoundTrip(v: nat, n: nat)
    requires v < Pow256(n)
    ensures DecodeLe(EncodeLe(v, n)) == v
    decreases n
  {
    if n > 0 {
      assert v / 256 < Pow256(n - 1);
      LeRoundTrip(v / 256, n - 1);
      assert EncodeLe(v, n)[1..] == EncodeLe(v / 256, n - 1);
    }
  }

  lemma {:induction false} LeCanonical(s: seq<Byte>)
    ensures EncodeLe(DecodeLe(s), |s|) == s
  {
    if s != [] {
      LeCanonical(s[1..]);
      assert DecodeLe(s) % 256 == s[0] && DecodeLe(s) / 256 == DecodeLe(s[1..]);
      assert s == [s[0]] + s[1..];
    }
  }

  /** Dividing by a digit's place and then by the rest is dividing by both. */
  lemma {:induction false} DivideByByte(v: nat, p: nat)
    requires p > 0
    ensures v / 256 / p == v / (256 * p)
  {
    var a := v / 256;
    var q, r := a / p, a % p;
    assert a == p * q + r;
    assert 256 * p * q == 256 * (p * q);
    QuotientIs(v, 256 * p, q, 256 * r + v % 256);
  }

  lemma {:induction false} DivideByGroup(v: nat, p: nat)
    requires p > 0
    ensures v / 128 / p == v / (128 * p)
  {
    var a := v / 128;
    var q, r := a / p, a % p;
    assert a == p * q + r;
    assert 128 * p * q == 128 * (p * q);
    QuotientIs(v, 128 * p, q, 128 * r + v % 128);
  }

  /** Low bytes come first. */
  lemma {:induction false} EncodeLeByte(v: nat, n: nat, i: nat)
    requires i < n
    ensures EncodeLe(v, n)[i] == v / Pow256(i) % 256
    decreases n
  {
    if i > 0 {
      EncodeLeByte(v / 256, n - 1, i - 1);
      DivideByByte(v, Pow256(i - 1));
    }
  }

  /** The value of the first `n` bytes, byte `i` counting 256 to the `i`. */
  function PlaceSum(s: seq<Byte>, n: nat): nat
    requires n <= |s|
  {
    if n == 0 then 0 else PlaceSum(s, n - 1) + s[n - 1] * Pow256(n - 1)
  }

  lemma {:induction false} PlaceSumTail(s: seq<Byte>, n: nat)
    requires 0 < n <= |s|
    ensures PlaceSum(s, n) == s[0] + 256 * PlaceSum(s[1..], n - 1)
  {
    if n > 1 {
      PlaceSumTail(s, n - 1);
      var b, p := s[n - 1], Pow256(n - 2);
      assert b * (256 * p) == 256 * (b * p);
    } else {
      assert PlaceSum(s, 0) == 0 && Pow256(0) == 1;
    }
  }

  lemma {:induction false} PlaceSumOfPrefix(s: seq<Byte>, n: nat)
    requires n <= |s|
    ensures PlaceSum(s[..n], n) == PlaceSum(s, n)
  {
    SamePlaces(s[..n], s, n);
  }

  lemma {:induction false} SamePlaces(s: seq<Byte>, t: seq<Byte>, n: nat)
    requires n <= |s| && n <= |t| && s[..n] == t[..n]
    ensures PlaceSum(s, n) == PlaceSum(t, n)
  {
    if n > 0 {
      assert s[..n - 1] == s[..n][..n - 1] && t[..n - 1] == t[..n][..n - 1];
      assert s[n - 1] == s[..n][n - 1] == t[..n][n - 1] == t[n - 1];
      SamePlaces(s, t, n - 1);
    }
  }

  lemma {:induction false} DecodeLeIsPlaceSum(s: seq<Byte>)
    ensures DecodeLe(s) == PlaceSum(s, |s|)
  {
    if s != [] {
      DecodeLeIsPlaceSum(s[1..]);
      PlaceSumTail(s, |s|);
    }
  }

  /** An input fixes the word of a given width that starts it. */
  lemma {:induction false} WordForced(v: nat, w: nat, n: nat, s: seq<Byte>)
    requires v < Pow256(n) && w < Pow256(n) && EncodeLe(v, n) <= s && EncodeLe(w, n) <= s
    ensures v == w
  {
    LeRoundTrip(v, n);
    LeRoundTrip(w, n);
    assert EncodeLe(v, n) == s[..n] == EncodeLe(w, n);
  }

  lemma {:induction false} Powers()
    ensures Pow256(0) == 1 && Pow256(1) == 0x100 && Pow256(2) == 0x1_0000 && Pow256(4) == TWO_32
    ensures Pow256(8) == 0x1_0000_0000_0000_0000
  {
    assert Pow256(2) == 256 * Pow256(1);
    assert Pow256(3) == 256 * Pow256(2);
    assert Pow256(4) == 256 * Pow256(3);
    assert Pow256(5) == 256 * Pow256(4);
    assert Pow256(6) == 256 * Pow256(5);
    assert Pow256(7) == 256 * Pow256(6);
    assert Pow256(8) == 256 * Pow256(7);
  }

  /** Two's complement. */
  function ToI32(u: nat): int {
    if u < 0x8000_0000 then u else u - TWO_32
  }

  function FromI32(v: int): nat
    requires -0x8000_0000 <= v < 0x8000_0000
  {
    if v < 0 then v + TWO_32 else v
  }

  /** Both are the same word: they differ by a multiple of 2^32, and the signed one lies around zero. */
  lemma {:induction false} TwosComplement(u: nat)
    requires u < TWO_32
    ensures -0x8000_0000 <= ToI32(u) < 0x8000_0000 && (u - ToI32(u) == 0 || u - ToI32(u) == TWO_32)
    ensures FromI32(ToI32(u)) == u
  {
  }

  // ---- canonical ULEB128 ----

  /** The shortest encoding: seven bits per byte, low bits first, the top bit set on all but the last. */
  function EncodeUleb(v: nat): (s: seq<Byte>)
    ensures |s| > 0
  {
    if v < 128 then [v] else [v % 128 + 128] + EncodeUleb(v / 128)
  }

  /** Low groups of seven bits come first. */
  lemma {:induction false} EncodeUlebGroup(v: nat, i: nat)
    requires i < |EncodeUleb(v)|
    ensures EncodeUleb(v)[i] % 128 == v / Pow128(i) % 128
    decreases v
  {
    if i > 0 {
      EncodeUlebGroup(v / 128, i - 1);
      DivideByGroup(v, Pow128(i - 1));
    }
  }

  predicate AllContinue(s: seq<Byte>) {
    forall i | 0 <= i < |s| :: s[i] >= 128
  }

  function Pow128(n: nat): (p: nat)
    ensures p > 0
  {
    if n == 0 then 1 else 128 * Pow128(n - 1)
  }

  /** The value of a run of continued groups. */
  function Groups(s: seq<Byte>): nat {
    if s == [] then 0 else s[0] % 128 + 128 * Groups(s[1..])
  }

  lemma {:induction false} GroupsBound(s: seq<Byte>)
    ensures Groups(s) < Pow128(|s|)
  {
    if s != [] {
      GroupsBound(s[1..]);
    }
  }

  /** The value of continued groups followed by groups of value `v`. */
  function Combine(s: seq<Byte>, v: nat): nat {
    if s == [] then v else s[0] % 128 + 128 * Combine(s[1..], v)
  }

  lemma {:induction false} CombineIsSum(s: seq<Byte>, v: nat)
    ensures Combine(s, v) == Groups(s) + Pow128(|s|) * v
  {
    if s != [] {
      CombineIsSum(s[1..], v);
      assert Pow128(|s|) * v == 128 * (Pow128(|s| - 1) * v);
    }
  }

  lemma {:induction false} GroupsAppend(s: seq<Byte>, b: Byte)
    ensures Groups(s + [b]) == Combine(s, b % 128)
  {
    if s == [] {
      assert Groups([b][1..]) == 0;
    } else {
      GroupsAppend(s[1..], b);
      assert (s + [b])[1..] == s[1..] + [b];
    }
  }

  /** Continued groups followed by a canonical non-zero rest are canonical. */
  lemma {:induction false} GroupsThenRest(s: seq<Byte>, v: nat)
    requires AllContinue(s) && v > 0
    ensures Combine(s, v) > 0
    ensures EncodeUleb(Combine(s, v)) == s + EncodeUleb(v)
  {
    if s == [] {
      assert s + EncodeUleb(v) == EncodeUleb(v);
    } else {
      var rest := Combine(s[1..], v);
      GroupsThenRest(s[1..], v);
      assert Combine(s, v) / 128 == rest && Combine(s, v) % 128 == s[0] - 128;
      assert s + EncodeUleb(v) == [s[0]] + (s[1..] + EncodeUleb(v));
    }
  }

  lemma {:induction false} SmallPowers()
    ensures Pow128(0) == 1 && Pow128(1) == 128 && Pow128(2) == 0x4000 && Pow128(3) == 0x20_0000 && Pow128(4) == 0x1000_0000
  {
    assert Pow128(2) == 128 * Pow128(1);
    assert Pow128(3) == 128 * Pow128(2);
    assert Pow128(4) == 128 * Pow128(3);
  }

  /** The shape of every canonical encoding of a 32-bit value. */
  lemma {:induction false} UlebShape(v: nat)
    ensures var e := EncodeUleb(v);
            && AllContinue(e[..|e| - 1]) && e[|e| - 1] < 128 && (|e| > 1 ==> e[|e| - 1] != 0)
            && (v < TWO_32 ==> |e| <= 5 && (|e| == 5 ==> e[4] < 16))
  {
    UlebLast(v);
    if v < TWO_32 {
      UlebLength(v);
    }
  }

  lemma {:induction false} UlebLast(v: nat)
    ensures var e := EncodeUleb(v);
            AllContinue(e[..|e| - 1]) && e[|e| - 1] < 128 && (|e| > 1 ==> e[|e| - 1] != 0)
  {
    if v >= 128 {
      UlebLast(v / 128);
      var e, f := EncodeUleb(v), EncodeUleb(v / 128);
      assert forall i | 0 < i < |e| :: e[i] == f[i - 1];
      assert |f| == 1 ==> f[0] == v / 128;
    }
  }

  lemma {:induction false} UlebLength(v: nat)
    requires v < TWO_32
    ensures |EncodeUleb(v)| <= 5 && (|EncodeUleb(v)| == 5 ==> EncodeUleb(v)[4] < 16)
  {
    var a := v / 128;
    var b := a / 128;
    var c := b / 128;
    var d := c / 128;
    assert d < 16;
    assert |EncodeUleb(d)| == 1 && EncodeUleb(d)[0] == d;
    if v >= 128 {
      assert EncodeUleb(v)[1..] == EncodeUleb(a);
      if a >= 128 {
        assert EncodeUleb(a)[1..] == EncodeUleb(b);
        if b >= 128 {
          assert EncodeUleb(b)[1..] == EncodeUleb(c);
          if c >= 128 {
            assert EncodeUleb(c)[1..] == EncodeUleb(d);
          }
        }
      }
    }
  }

  /** No canonical encoding is a proper prefix of another, and none encodes two values. */
  lemma {:induction false} UlebPrefixFree(v: nat, w: nat, s: seq<Byte>)
    requires EncodeUleb(v) <= s && EncodeUleb(w) <= s
    ensures v == w
    decreases v
  {
    assert EncodeUleb(v)[0] == s[0] == EncodeUleb(w)[0];
    if v >= 128 {
      var tail := s[1..];
      assert EncodeUleb(v)[1..] == EncodeUleb(v / 128) && EncodeUleb(w)[1..] == EncodeUleb(w / 128);
      assert EncodeUleb(v / 128) <= tail && EncodeUleb(w / 128) <= tail;
      UlebPrefixFree(v / 128, w / 128, tail);
    }
  }

  /** Why a reader refuses a ULEB128: each refusal is one shape of the bytes ahead. */
  predicate UlebRefused(rest: seq<Byte>, code: Code) {
    match code
    case UnexpectedEnd => |rest| < 5 && AllContinue(rest)
    case NonCanonicalUleb128 => exists k | 1 <= k <= 4 && k < |rest| :: AllContinue(rest[..k]) && rest[k] == 0
    case IntegerOverflow => |rest| >= 5 && AllContinue(rest[..4]) && rest[4] >= 16
    case _ => false
  }

  /** An input that starts with a canonical 32-bit encoding is refused for no reason. */
  lemma {:induction false} CanonicalIsNotRefused(rest: seq<Byte>, v: nat)
    requires EncodeUleb(v) <= rest && v < TWO_32
    ensures forall code :: !UlebRefused(rest, code)
  {
    UlebShape(v);
    var e := EncodeUleb(v);
    var last := |e| - 1;
    assert forall i | 0 <= i < |e| :: rest[i] == e[i];
    assert forall i | 0 <= i < last :: e[i] == e[..last][i];
    forall k | last < k <= |rest|
      ensures !AllContinue(rest[..k])
    {
      assert rest[..k][last] == rest[last];
    }
  }

  lemma {:induction false} RefusedIsNotCanonical(rest: seq<Byte>, code: Code)
    requires UlebRefused(rest, code)
    ensures forall v: nat | v < TWO_32 :: !(EncodeUleb(v) <= rest)
  {
    forall v: nat | v < TWO_32
      ensures !(EncodeUleb(v) <= rest)
    {
      if EncodeUleb(v) <= rest {
        CanonicalIsNotRefused(rest, v);
      }
    }
  }

  lemma {:induction false} GroupFits(s: seq<Byte>, b: Byte)
    requires |s| < 4 || (|s| == 4 && b < 16)
    ensures Groups(s + [b]) < TWO_32
  {
    SmallPowers();
    if |s| < 4 {
      GroupsBound(s + [b]);
    } else {
      GroupsAppend(s, b);
      CombineIsSum(s, b % 128);
      GroupsBound(s);
      assert Pow128(|s|) * (b % 128) == 0x1000_0000 * b;
    }
  }

  /** One more group: the running value, and the canonical encoding when the group ends it. */
  lemma {:induction false} GroupStep(s: seq<Byte>, b: Byte)
    requires AllContinue(s) && |s| < 5
    ensures Groups(s) + Pow128(|s|) * (b % 128) == Groups(s + [b])
    ensures |s| < 4 || b < 16 ==> Groups(s + [b]) < TWO_32
    ensures b < 128 && (s == [] || b != 0) ==> EncodeUleb(Groups(s + [b])) == s + [b]
  {
    GroupsAppend(s, b);
    CombineIsSum(s, b % 128);
    if |s| < 4 || b < 16 {
      GroupFits(s, b);
    }
    if b < 128 && (s == [] || b != 0) {
      GroupEnds(s, b);
    }
  }

  lemma {:induction false} GroupEnds(s: seq<Byte>, b: Byte)
    requires AllContinue(s) && b < 128 && (s == [] || b != 0)
    ensures EncodeUleb(Groups(s + [b])) == s + [b]
  {
    GroupsAppend(s, b);
    if s == [] {
      assert Combine(s, b) == b;
    } else {
      GroupsThenRest(s, b);
    }
  }

  class Cursor {
    const bytes: seq<Byte>
    var position: nat

    ghost predicate Valid()
      reads this
    {
      position <= |bytes| <= U64_MAX
    }

    ghost function Rest(): seq<Byte>
      requires Valid()
      reads this
    {
      bytes[position..]
    }

    constructor (bytes: seq<Byte>)
      requires |bytes| <= U64_MAX
      ensures Valid() && this.bytes == bytes && position == 0
    {
      this.bytes := bytes;
      position := 0;
    }

    /** The next `length` bytes, or nothing read when fewer remain. */
    method Take(length: nat) returns (r: Result<seq<Byte>, Code>)
      requires Valid()
      modifies this
      ensures Valid()
      ensures r.Ok? <==> length <= |old(Rest())|
      ensures r.Ok? ==> r.value == old(Rest())[..length] && position == old(position) + length
      ensures r.Err? ==> position == old(position)
      ensures r.Err? ==> r.error == if position + length > U64_MAX then IntegerOverflow else UnexpectedEnd
    {
      var end := position + length;
      if end > U64_MAX {
        return Err(IntegerOverflow);
      }
      if end > |bytes| {
        return Err(UnexpectedEnd);
      }
      var taken := bytes[position..end];
      position := end;
      return Ok(taken);
    }

    /** A little-endian word of `width` bytes. */
    method ReadWord(width: nat) returns (r: Result<nat, Code>)
      requires Valid()
      modifies this
      ensures Valid()
      ensures r.Ok? <==> width <= |old(Rest())|
      ensures r.Ok? ==>
                && r.value == DecodeLe(old(Rest())[..width]) && EncodeLe(r.value, width) == old(Rest())[..width]
                && r.value == PlaceSum(old(Rest()), width)
                && r.value < Pow256(width) && position == old(position) + width
      ensures r.Err? ==> position == old(position)
    {
      var taken :- Take(width);
      LeCanonical(taken);
      DecodeLeIsPlaceSum(taken);
      PlaceSumOfPrefix(old(Rest()), width);
      return Ok(DecodeLe(taken));
    }

    /**
     Accepts exactly the canonical encodings of 32-bit values: what is read is the shortest
     encoding of the answer, and a refusal names the one shape of input that is not canonical.
     */
    method ReadUleb32() returns (r: Result<nat, Code>)
      requires Valid()
      modifies this
      ensures Valid() && old(position) <= position
      ensures r.Ok? ==>
                && r.value < TWO_32
                && EncodeUleb(r.value) <= old(Rest())
                && position == old(position) + |EncodeUleb(r.value)|
      ensures r.Err? ==> UlebRefused(old(Rest()), r.error)
    {
      ghost var rest := Rest();
      ghost var start := position;
      var value: nat, scale: nat := 0, 1;
      for group := 0 to 5
        invariant Valid() && position == start + group
        invariant |rest| >= group && AllContinue(rest[..group])
        invariant group < 5 && value == Groups(rest[..group]) && scale == Pow128(group)
      {
        if position >= |bytes| {
          assert rest[..group] == rest;
          return Err(UnexpectedEnd);
        }
        var byte := bytes[position];
        assert byte == rest[group] && rest[..group + 1] == rest[..group] + [byte];
        position := position + 1;
        if group == 4 && byte >= 16 {
          return Err(IntegerOverflow);
        }
        GroupStep(rest[..group], byte);
        value := value + scale * (byte % 128);
        if byte < 128 {
          if group > 0 && byte % 128 == 0 {
            return Err(NonCanonicalUleb128);
          }
          return Ok(value);
        }
        scale := scale * 128;
      }
      return Err(IntegerOverflow);
    }
  }
}
