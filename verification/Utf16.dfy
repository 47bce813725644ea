/** Well-formed UTF-16, as section 3.9 of the Unicode Standard defines it. */
module Utf16 {

  type Unit = u: int | 0 <= u < 0x1_0000

  predicate IsHigh(u: Unit) { 0xD800 <= u <= 0xDBFF }
  predicate IsLow(u: Unit) { 0xDC00 <= u <= 0xDFFF }

  predicate WellFormed(s: seq<Unit>) {
    s == []
    || (!IsHigh(s[0]) && !IsLow(s[0]) && WellFormed(s[1..]))
    || (|s| >= 2 && IsHigh(s[0]) && IsLow(s[1]) && WellFormed(s[2..]))
  }

  /** The scalar values of a well-formed text. */
  function Scalars(s: seq<Unit>): seq<nat>
    requires WellFormed(s)
  {
    if s == [] then []
    else if IsHigh(s[0]) then [0x1_0000 + (s[0] - 0xD800) * 0x400 + (s[1] - 0xDC00)] + Scalars(s[2..])
    else [s[0]] + Scalars(s[1..])
  }

  /** A Unicode scalar value: no surrogate, and not beyond the last plane. */
  predicate IsScalar(c: nat) {
    c < 0xD800 || 0xE000 <= c < 0x11_0000
  }

  /** The units of a scalar value. */
  function UnitsOf(c: nat): seq<Unit>
    requires IsScalar(c)
  {
    if c < 0x1_0000 then [c] else [0xD800 + (c - 0x1_0000) / 0x400, 0xDC00 + (c - 0x1_0000) % 0x400]
  }

  predicate AllScalars(cs: seq<nat>) {
    forall i | 0 <= i < |cs| :: IsScalar(cs[i])
  }

  function Encode(cs: seq<nat>): seq<Unit>
    requires AllScalars(cs)
  {
    if cs == [] then [] else UnitsOf(cs[0]) + Encode(cs[1..])
  }

  /** Reading the scalars of a text and encoding them gives the text back. */
  lemma {:induction false} EncodeInvertsScalars(s: seq<Unit>)
    requires WellFormed(s)
    ensures AllScalars(Scalars(s)) && Encode(Scalars(s)) == s
  {
    if s != [] {
      var k := if IsHigh(s[0]) then 2 else 1;
      EncodeInvertsScalars(s[k..]);
      var cs := Scalars(s);
      assert cs[1..] == Scalars(s[k..]);
      assert forall i | 0 < i < |cs| :: cs[i] == cs[1..][i - 1];
      assert UnitsOf(cs[0]) == s[..k];
      assert s == s[..k] + s[k..];
    }
  }

  /** U+1F600, as section 3.9 of the Unicode Standard encodes it. */
  lemma {:induction false} KnownScalar()
    ensures WellFormed([0xD83D, 0xDE00]) && Scalars([0xD83D, 0xDE00]) == [0x1_F600]
  {
    var s: seq<Unit> := [0xD83D, 0xDE00];
    assert s[2..] == [] && WellFormed(s[2..]);
  }

  lemma {:induction false} AppendText(a: seq<Unit>, b: seq<Unit>)
    requires WellFormed(a)
    ensures WellFormed(a + b) <==> WellFormed(b)
    ensures WellFormed(b) ==> Scalars(a + b) == Scalars(a) + Scalars(b)
  {
    if a == [] {
      assert a + b == b;
    } else if IsHigh(a[0]) {
      AppendText(a[2..], b);
      assert (a + b)[2..] == a[2..] + b;
    } else {
      AppendText(a[1..], b);
      assert (a + b)[1..] == a[1..] + b;
    }
  }

  /** Drops the last unit, and with a low surrogate the high surrogate before it. */
  function Chop(s: seq<Unit>): (r: seq<Unit>)
    ensures r <= s && (s != [] ==> |r| < |s|)
  {
    if s == [] then []
    else if |s| >= 2 && IsLow(s[|s| - 1]) && IsHigh(s[|s| - 2]) then s[..|s| - 2]
    else s[..|s| - 1]
  }

  /** Chopping works at the end: it does not look across a scalar boundary. */
  lemma {:induction false} ChopBehind(s: seq<Unit>, k: nat)
    requires k < |s| && !IsLow(s[k])
    ensures Chop(s) == s[..k] + Chop(s[k..])
  {
    var rest := s[k..];
    assert rest[|rest| - 1] == s[|s| - 1];
    assert |rest| >= 2 ==> rest[|rest| - 2] == s[|s| - 2];
  }

  lemma {:induction false} OneScalar(s: seq<Unit>)
    requires (|s| == 1 && !IsHigh(s[0]) && !IsLow(s[0])) || (|s| == 2 && IsHigh(s[0]) && IsLow(s[1]))
    ensures WellFormed(s) && |Scalars(s)| == 1
  {
    assert s[|s|..] == [];
  }

  /** What chopping leaves and what it takes are both well formed, and it takes one scalar. */
  lemma {:induction false} ChopSplits(s: seq<Unit>)
    requires WellFormed(s) && s != []
    ensures WellFormed(Chop(s)) && WellFormed(s[|Chop(s)|..]) && |Scalars(s[|Chop(s)|..])| == 1
  {
    var k := if IsHigh(s[0]) then 2 else 1;
    if |s| == k {
      OneScalar(s);
      assert Chop(s) == [] && s[0..] == s;
    } else {
      var rest := s[k..];
      ChopSplits(rest);
      assert !IsLow(rest[0]);
      ChopBehind(s, k);
      OneScalar(s[..k]);
      AppendText(s[..k], Chop(rest));
      assert s[|Chop(s)|..] == rest[|Chop(rest)|..];
    }
  }

  /** Chopping a well-formed text removes exactly its last scalar. */
  lemma {:induction false} ChopRemovesOneScalar(s: seq<Unit>)
    requires WellFormed(s) && s != []
    ensures WellFormed(Chop(s)) && Scalars(s) != []
    ensures Scalars(Chop(s)) == Scalars(s)[..|Scalars(s)| - 1]
  {
    ChopSplits(s);
    var k := |Chop(s)|;
    AppendText(Chop(s), s[k..]);
    assert s == Chop(s) + s[k..];
  }
}
