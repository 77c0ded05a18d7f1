/** The place of the lowest one bit of a register, and the shifts that count up to it. */
module LowestBit {
  import opened BitSearch

  function Half(v: bv32): bv32 { v >> 1 }

  predicate Odd(v: bv32) { v & 1 == 1 }

  predicate Bit(v: bv32, k: nat)
    decreases k
  {
    if k == 0 then Odd(v) else Bit(Half(v), k - 1)
  }

  lemma HalfIsLess(v: bv32)
    requires v != 0
    ensures Half(v) < v && (!Odd(v) ==> Half(v) != 0)
  {
  }

  // Shifts to the right until nothing is left.
  function Digits(v: bv32): nat
    decreases v
  {
    if v == 0 then 0
    else
      HalfIsLess(v);
      Digits(Half(v)) + 1
  }

  // The place of the lowest one bit.
  function Lowest(v: bv32): (k: nat)
    requires v != 0
    ensures Bit(v, k) && forall j | 0 <= j < k :: !Bit(v, j)
    decreases v
  {
    if Odd(v) then 0
    else
      HalfIsLess(v);
      var k := Lowest(Half(v)) + 1;
      assert forall j | 0 < j < k :: Bit(v, j) == Bit(Half(v), j - 1);
      k
  }

  function Negative(v: bv32): bv32 { -v }

  lemma OddWeight(v: bv32)
    requires Odd(v)
    ensures LowestWeight(v) == 1 && Half(1) == 0
  {
  }

  lemma EvenIsDouble(v: bv32)
    requires !Odd(v)
    ensures Double(Half(v)) == v && Half(v) < 0x8000_0000
  {
  }

  lemma NegatedDouble(u: bv32)
    ensures Negative(Double(u)) == Double(Negative(u))
  {
  }

  lemma DoubleAnd(a: bv32, b: bv32)
    ensures And(Double(a), Double(b)) == Double(And(a, b))
    ensures a < 0x8000_0000 ==> Half(Double(And(a, b))) == And(a, b)
  {
  }

  lemma WeightIs(v: bv32)
    ensures LowestWeight(v) == And(v, Negative(v)) && (v != 0 ==> LowestWeight(v) != 0)
  {
  }

  lemma EvenWeight(v: bv32)
    requires !Odd(v)
    ensures LowestWeight(v) == Double(LowestWeight(Half(v)))
    ensures Half(LowestWeight(v)) == LowestWeight(Half(v))
  {
    hide Odd, Double, Half, Negative, And, LowestWeight;
    EvenIsDouble(v);
    NegatedDouble(Half(v));
    DoubleAnd(Half(v), Negative(Half(v)));
    WeightIs(v);
    WeightIs(Half(v));
  }

  lemma {:induction false} LowestWeightIs(v: bv32)
    requires v != 0
    ensures LowestWeight(v) == One(Lowest(v)) && Digits(LowestWeight(v)) == Lowest(v) + 1
    decreases v
  {
    hide Odd, Double, Half, LowestWeight;
    HalfIsLess(v);
    WeightIs(v);
    if Odd(v) {
      OddWeight(v);
    } else {
      EvenWeight(v);
      LowestWeightIs(Half(v));
    }
  }

  method CountDigits(v: bv32) returns (i: nat)
    ensures i == Digits(v)
  {
    var u := v;
    i := 0;
    while u != 0
      invariant i + Digits(u) == Digits(v)
      decreases Digits(u)
    {
      u := Half(u);
      i := i + 1;
    }
  }

  lemma {:induction false} ZeroHasNoBit(k: nat)
    ensures !Bit(0, k)
  {
    if k > 0 {
      ZeroHasNoBit(k - 1);
    }
  }

  // The bits are those that a mask with one bit shows.
  lemma {:induction false} BitIsMasked(v: bv32, k: nat)
    ensures Bit(v, k) <==> And(v, One(k)) != 0
  {
    if k == 0 {
      FirstMask(v);
    } else {
      BitIsMasked(Half(v), k - 1);
      MaskMoves(v, One(k - 1));
      hide Half, And, Double;
    }
  }

  lemma FirstMask(v: bv32)
    ensures Odd(v) <==> And(v, 1) != 0
  {
  }

  lemma MaskMoves(v: bv32, u: bv32)
    ensures And(Half(v), u) != 0 <==> And(v, Double(u)) != 0
  {
  }
}
