/**
 The allocator tests and aligns with masks on 64-bit words. Here the masks are taken as they
 stand, on bit vectors, and compared with the numbers that the layouts use instead.
 */
module Masks {
  import opened Remainder
  import opened HeapLayout

  predicate Odd(x: bv64)
  {
    x & 1 == 1
  }

  function Half(x: bv64): (h: bv64)
    ensures x != 0 ==> h < x
  {
    x >> 1
  }

  // The number that a word holds.
  function Value(x: bv64): nat
    decreases x
  {
    if x == 0 then 0 else 2 * Value(Half(x)) + (if Odd(x) then 1 else 0)
  }

  function Up(x: bv64): bv64 { x + 1 }

  function Negated(x: bv64): bv64 { 0 - x }

  // The ones below the bit of a power of two.
  function Mask(a: bv64): bv64 { a - 1 }

  function And(x: bv64, y: bv64): bv64 { x & y }

  // The test of memalign: (align & (align - 1)) == 0, for an align that is not 0.
  predicate OneBit(a: bv64)
  {
    And(a, Mask(a)) == 0 && a != 0
  }

  // M_ALIGN as the macro has it: -x & (align - 1).
  function MaskAlign(x: bv64, a: bv64): bv64
  {
    And(Negated(x), Mask(a))
  }

  // ----- Halving words -----

  lemma OddUp(x: bv64)
    requires Odd(x) && x != 0xFFFF_FFFF_FFFF_FFFF
    ensures !Odd(Up(x)) && Half(Up(x)) == Up(Half(x))
  {
  }

  lemma BelowAllOnes(x: bv64)
    ensures Half(x) != 0xFFFF_FFFF_FFFF_FFFF
    ensures Odd(x) ==> x != 0
  {
  }

  lemma EvenUp(x: bv64)
    requires !Odd(x)
    ensures Odd(Up(x)) && Half(Up(x)) == Half(x) && x != 0xFFFF_FFFF_FFFF_FFFF
  {
  }

  // All bits but the highest.
  const LOW: bv64 := 0x7FFF_FFFF_FFFF_FFFF

  lemma EvenNegated(x: bv64)
    requires !Odd(x)
    ensures And(Half(Negated(x)), LOW) == And(Negated(Half(x)), LOW)
  {
  }

  lemma OddNegated(x: bv64)
    requires Odd(x)
    ensures And(Half(Negated(x)), LOW) == And(Negated(Up(Half(x))), LOW)
  {
  }

  lemma NegatedParity(x: bv64)
    ensures Odd(Negated(x)) <==> Odd(x)
  {
  }

  lemma MaskOfHalf(a: bv64)
    requires !Odd(a) && a != 0
    ensures Half(Mask(a)) == Mask(Half(a)) == And(Mask(Half(a)), LOW)
    ensures Odd(Mask(a))
  {
  }

  lemma HalfOfAnd(x: bv64, y: bv64)
    ensures Half(And(x, y)) == And(Half(x), Half(y))
    ensures Odd(And(x, y)) <==> Odd(x) && Odd(y)
  {
  }

  lemma AndLow(x: bv64, y: bv64)
    requires y == And(y, LOW)
    ensures And(x, y) == And(And(x, LOW), y)
  {
  }

  lemma MaskHalved(x: bv64, a: bv64)
    requires !Odd(a) && a != 0
    ensures Odd(MaskAlign(x, a)) <==> Odd(x)
    ensures Half(MaskAlign(x, a)) == MaskAlign(if Odd(x) then Up(Half(x)) else Half(x), Half(a))
  {
    hide Odd, Half, Up, Negated, Mask, And;
    MaskOfHalf(a);
    HalfOfAnd(Negated(x), Mask(a));
    NegatedParity(x);
    AndLow(Half(Negated(x)), Mask(Half(a)));
    if Odd(x) {
      OddNegated(x);
      AndLow(Negated(Up(Half(x))), Mask(Half(a)));
    } else {
      EvenNegated(x);
      AndLow(Negated(Half(x)), Mask(Half(a)));
    }
  }

  lemma OneBitHalved(a: bv64)
    ensures OneBit(a) ==> a != 0
    ensures Odd(a) ==> a != 0 && (OneBit(a) <==> a == 1) && (a == 1 <==> Half(a) == 0)
    ensures !Odd(a) && a != 0 ==> Half(a) != 0 && (OneBit(a) <==> OneBit(Half(a)))
  {
  }

  // ----- Values -----

  lemma Halved(x: bv64)
    ensures Value(x) == 2 * Value(Half(x)) + (if Odd(x) then 1 else 0)
    ensures Value(x) == 0 <==> x == 0
    decreases x
  {
    if x != 0 {
      Halved(Half(x));
      OneBitHalved(x);
    } else {
      assert Half(x) == 0 && !Odd(x);
    }
  }

  lemma {:induction false} ValueUp(x: bv64)
    requires x != 0xFFFF_FFFF_FFFF_FFFF
    ensures Value(Up(x)) == Value(x) + 1
    decreases Value(x)
  {
    hide Odd, Half, Up, Value;
    Halved(x);
    Halved(Up(x));
    if Odd(x) {
      OddUp(x);
      BelowAllOnes(x);
      ValueUp(Half(x));
    } else {
      EvenUp(x);
    }
  }

  // ----- The same on numbers -----

  lemma {:induction false} RemDoubled(h: nat, b: nat, a: nat)
    requires a > 0 && b < 2
    ensures Rem(2 * h + b, 2 * a) == 2 * Rem(h, a) + b
    decreases h
  {
    if h >= a {
      RemDoubled(h - a, b, a);
      assert 2 * h + b - 2 * a == 2 * (h - a) + b;
    }
  }

  lemma {:induction false} RemNext(h: nat, a: nat)
    requires a > 0
    ensures Rem(h + 1, a) == if Rem(h, a) + 1 == a then 0 else Rem(h, a) + 1
    decreases h
  {
    if h >= a {
      RemNext(h - a, a);
    } else if h + 1 == a {
      assert Rem(h + 1, a) == Rem(0, a);
    }
  }

  lemma MAlignDoubled(h: nat, b: nat, a: nat)
    requires a > 0 && b < 2
    ensures MAlign(2 * h + b, 2 * a) == 2 * MAlign(h + b, a) + b
  {
    hide Rem;
    RemDoubled(h, b, a);
    RemNext(h, a);
  }

  lemma PowerDoubled(n: nat, b: nat)
    requires b < 2
    ensures PowerOfTwo(2 * n + b) <==> if b == 1 then n == 0 else n > 0 && PowerOfTwo(n)
  {
    assert (2 * n + b) / 2 == n;
  }

  // ----- The masks -----

  // The test picks out the powers of two.
  lemma {:induction false} OneBitIsPower(a: bv64)
    ensures OneBit(a) <==> PowerOfTwo(Value(a))
    decreases Value(a)
  {
    hide Odd, Half, OneBit, PowerOfTwo, Value;
    Halved(a);
    Halved(Half(a));
    OneBitHalved(a);
    PowerDoubled(Value(Half(a)), if Odd(a) then 1 else 0);
    if !Odd(a) && a != 0 {
      OneBitIsPower(Half(a));
    } else if a == 0 {
      ZeroFails(a);
    }
  }

  lemma ZeroFails(a: bv64)
    requires a == 0
    ensures !OneBit(a) && !PowerOfTwo(Value(a))
  {
  }

  lemma AlignToOne(x: bv64, a: bv64)
    requires a == 1
    ensures Value(a) == 1 && Value(MaskAlign(x, a)) == 0 == MAlign(Value(x), 1)
  {
    assert Half(a) == 0 && MaskAlign(x, a) == 0;
  }

  // For a power of two, the macro gives the bytes to the next multiple.
  lemma {:induction false} MaskIsMAlign(x: bv64, a: bv64)
    requires OneBit(a)
    ensures Value(a) > 0 && Value(MaskAlign(x, a)) == MAlign(Value(x), Value(a))
    decreases Value(a)
  {
    hide Odd, Half, Up, OneBit, MaskAlign, MAlign, Value;
    Halved(a);
    Halved(x);
    Halved(MaskAlign(x, a));
    OneBitHalved(a);
    if Odd(a) {
      AlignToOne(x, a);
    } else {
      MaskHalved(x, a);
      if Odd(x) {
        BelowAllOnes(x);
        ValueUp(Half(x));
        MaskIsMAlign(Up(Half(x)), Half(a));
        MAlignDoubled(Value(Half(x)), 1, Value(Half(a)));
      } else {
        MaskIsMAlign(Half(x), Half(a));
        MAlignDoubled(Value(Half(x)), 0, Value(Half(a)));
      }
    }
  }
}
