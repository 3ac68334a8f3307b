/**
 Remainders by a variable, defined by repeated subtraction.
 */
module Remainder {

  // The remainder of x by a, by repeated subtraction: proofs about a variable
  // alignment then stay linear.
  function Rem(x: nat, a: nat): (r: nat)
    requires a > 0
    ensures r < a
    decreases x
  {
    if x < a then x else Rem(x - a, a)
  }

  lemma {:induction false} RemIsMod(x: nat, a: nat)
    requires a > 0
    ensures Rem(x, a) == x % a
    decreases x
  {
    if x >= a {
      RemIsMod(x - a, a);
      ModStep(x, a);
    }
  }

  lemma ModStep(x: nat, a: nat)
    requires 0 < a <= x
    ensures (x - a) % a == x % a
  {
    var q := (x - a) / a;
    DivMod(x, a);
    DivMod(x - a, a);
    assert (q + 1) * a == q * a + a;
    QuotientUnique(a, q + 1, (x - a) % a, x / a, x % a);
  }

  lemma DivMod(x: nat, a: nat)
    requires a > 0
    ensures x == (x / a) * a + x % a
  {
  }

  lemma QuotientUnique(a: nat, q: nat, r: nat, q': nat, r': nat)
    requires r < a && r' < a && q * a + r == q' * a + r'
    ensures r == r'
  {
    if q < q' {
      Larger(a, q, q');
    } else if q' < q {
      Larger(a, q', q);
    }
  }

  lemma {:induction false} Larger(a: nat, q: nat, q': nat)
    requires q < q'
    ensures q' * a >= q * a + a
    decreases q'
  {
    if q + 1 < q' {
      Larger(a, q, q' - 1);
    }
    assert q' * a == (q' - 1) * a + a;
  }

  lemma RemBelowTwice(j: nat, a: nat)
    requires a > 0 && j < 2 * a
    ensures Rem(j, a) == if j < a then j else j - a
  {
    if j >= a {
      assert Rem(j, a) == Rem(j - a, a) == j - a;
    }
  }

  // Numbers with the same remainder lie a apart.
  lemma {:induction false} RemGap(i: nat, j: nat, a: nat)
    requires a > 0 && i <= j < i + a && Rem(i, a) == Rem(j, a)
    ensures i == j
    decreases i
  {
    if i >= a {
      RemGap(i - a, j - a, a);
    } else {
      RemBelowTwice(j, a);
    }
  }
}
