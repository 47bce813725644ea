/** Machine words, by their ranges. */
module Words {
  type Byte = b: int | 0 <= b < 256

  const I32_MAX := 0x7FFF_FFFF
  const U32_MAX := 0xFFFF_FFFF
  const TWO_32 := 0x1_0000_0000
  const I64_MAX := 0x7FFF_FFFF_FFFF_FFFF
  const U64_MAX := 0xFFFF_FFFF_FFFF_FFFF

  type U64 = n: nat | n <= U64_MAX

  function Min(a: int, b: int): int { if a < b then a else b }
  function Max(a: int, b: int): int { if a < b then b else a }

  // ---- division ----

  lemma {:induction false} SmallMultiple(d: nat, k: int)
    ensures 0 - d < d * k < d ==> k == 0
  {
    if k >= 1 {
      assert d * k >= d;
    } else if k <= -1 {
      assert d * k <= 0 - d;
    }
  }

  lemma {:induction false} QuotientIs(v: nat, d: nat, q: nat, r: nat)
    requires v == d * q + r && r < d
    ensures v / d == q
  {
    assert v == d * (v / d) + v % d;
    assert d * (v / d - q) == d * (v / d) - d * q == r - v % d;
    SmallMultiple(d, v / d - q);
  }
}
