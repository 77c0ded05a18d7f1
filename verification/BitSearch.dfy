/** The lowest one bit of a register, found in two ways: by a bit that moves left, and as val & -val. */
module BitSearch {
  function Double(v: bv32): bv32 { v << 1 }

  function And(v: bv32, w: bv32): bv32 { v & w }

  function LowestWeight(v: bv32): bv32 { v & -v }

  // The register with one bit.
  function One(k: nat): bv32 { if k == 0 then 1 else Double(One(k - 1)) }

  lemma {:induction false} NoBitLeft(k: nat)
    requires k >= 32
    ensures One(k) == 0
  {
    if k == 32 {
      assert One(8) == 0x100;
      assert One(16) == 0x1_0000;
      assert One(24) == 0x100_0000;
    } else {
      NoBitLeft(k - 1);
    }
  }

  // One bit, which has moved left past zero bits of a register.
  predicate Searching(i: bv32, v: bv32) { i != 0 && i & (i - 1) == 0 && (i - 1) & v == 0 }

  lemma FirstBit(v: bv32)
    ensures Searching(1, v)
  {
  }

  lemma NextBit(i: bv32, v: bv32)
    requires v != 0 && Searching(i, v) && And(i, v) == 0
    ensures Searching(Double(i), v)
  {
  }

  lemma StillSearching(i: bv32, v: bv32)
    requires Searching(i, v)
    ensures i != 0
  {
  }

  lemma FoundBit(i: bv32, v: bv32)
    requires Searching(i, v) && And(i, v) != 0
    ensures i == LowestWeight(v)
  {
  }

  method FindBit(v: bv32) returns (i: bv32)
    requires v != 0
    ensures i == LowestWeight(v)
  {
    i := 1;
    ghost var k := 0;
    assert i == One(k);
    hide Searching, LowestWeight, And, Double;
    FirstBit(v);
    while And(i, v) == 0
      invariant Searching(i, v) && i == One(k) && k < 32
      decreases 32 - k
    {
      NextBit(i, v);
      i := Double(i);
      k := k + 1;
      StillSearching(i, v);
      if k == 32 {
        NoBitLeft(k);
      }
    }
    FoundBit(i, v);
  }
}
