/**
 The frames that the demand pager hands out: their addresses come from a six-bit shift
 register, and the pager needs them to be all different.
 */
module PageFrames {

  const MAX_TEST_PAGES: nat := 63
  const PGSIZE: nat := 0x1000
  const DRAM_BASE: nat := 0x8000_0000

  // LFSR_NEXT
  function LfsrNext(x: nat): nat
  {
    32 * ((x % 2 + x / 2 % 2) % 2) + x / 2
  }

  // How many steps it takes the register to get from 1 to x.
  function Log(x: nat): nat
  {
    match x
    case 1 => 0 case 2 => 5 case 3 => 62 case 4 => 4 case 5 => 24 case 6 => 10 case 7 => 61 case 8 => 3
    case 9 => 32 case 10 => 15 case 11 => 23 case 12 => 9 case 13 => 45 case 14 => 29 case 15 => 60 case 16 => 2
    case 17 => 12 case 18 => 34 case 19 => 31 case 20 => 14 case 21 => 52 case 22 => 50 case 23 => 22 case 24 => 8
    case 25 => 48 case 26 => 37 case 27 => 44 case 28 => 28 case 29 => 41 case 30 => 20 case 31 => 59 case 32 => 1
    case 33 => 6 case 34 => 25 case 35 => 11 case 36 => 33 case 37 => 16 case 38 => 46 case 39 => 30 case 40 => 13
    case 41 => 35 case 42 => 53 case 43 => 51 case 44 => 49 case 45 => 38 case 46 => 42 case 47 => 21 case 48 => 7
    case 49 => 26 case 50 => 17 case 51 => 47 case 52 => 36 case 53 => 54 case 54 => 39 case 55 => 43 case 56 => 27
    case 57 => 18 case 58 => 55 case 59 => 40 case 60 => 19 case 61 => 56 case 62 => 57 case 63 => 58
    case _ => 0
  }

  lemma LfsrStep(x: nat)
    requires 1 <= x <= MAX_TEST_PAGES
    ensures 1 <= LfsrNext(x) <= MAX_TEST_PAGES
    ensures Log(x) < MAX_TEST_PAGES
    ensures Log(LfsrNext(x)) == if Log(x) + 1 == MAX_TEST_PAGES then 0 else Log(x) + 1
  {
    hide Log;
    var q, r := x / 4, x % 4;
    match r {
      case 0 => LfsrStep0(q);
      case 1 => LfsrStep1(q);
      case 2 => LfsrStep2(q);
      case 3 => LfsrStep3(q);
    }
  }

  predicate Follows(x: nat, y: nat)
  {
    Log(x) < MAX_TEST_PAGES && Log(y) == if Log(x) + 1 == MAX_TEST_PAGES then 0 else Log(x) + 1
  }

  // The step by the two lowest bits, which decide the bit that comes in at the top.
  lemma LfsrStep0(q: nat)
    requires 1 <= q <= 15
    ensures Follows(4 * q, 2 * q)
  {
  }

  lemma LfsrStep1(q: nat)
    requires q <= 15
    ensures Follows(4 * q + 1, 2 * q + 32)
  {
  }

  lemma LfsrStep2(q: nat)
    requires q <= 15
    ensures Follows(4 * q + 2, 2 * q + 33)
  {
  }

  lemma LfsrStep3(q: nat)
    requires q <= 15
    ensures Follows(4 * q + 3, 2 * q + 1)
  {
  }

  function Orbit(x: nat, k: nat): nat
  {
    if k == 0 then x else LfsrNext(Orbit(x, k - 1))
  }

  lemma {:induction false} OrbitLog(x: nat, k: nat)
    requires 1 <= x <= MAX_TEST_PAGES && k < MAX_TEST_PAGES
    ensures 1 <= Orbit(x, k) <= MAX_TEST_PAGES && Log(Orbit(x, k)) < MAX_TEST_PAGES && Log(x) < MAX_TEST_PAGES
    ensures Log(Orbit(x, k)) == if Log(x) + k < MAX_TEST_PAGES then Log(x) + k else Log(x) + k - MAX_TEST_PAGES
  {
    hide LfsrNext, Log;
    LfsrStep(x);
    if k > 0 {
      OrbitLog(x, k - 1);
      LfsrStep(Orbit(x, k - 1));
    }
  }

  // The register has period 63 wherever it starts: its first 63 values are all different.
  lemma OrbitDistinct(x: nat, j: nat, k: nat)
    requires 1 <= x <= MAX_TEST_PAGES && j < k < MAX_TEST_PAGES
    ensures Orbit(x, j) != Orbit(x, k)
  {
    hide Log, Orbit;
    OrbitLog(x, j);
    OrbitLog(x, k);
  }

  // ... and then it is back at the first.
  lemma OrbitReturns(x: nat)
    requires 1 <= x <= MAX_TEST_PAGES
    ensures Orbit(x, MAX_TEST_PAGES) == x
  {
    hide Log, LfsrNext;
    assert Orbit(x, MAX_TEST_PAGES) == LfsrNext(Orbit(x, MAX_TEST_PAGES - 1)) by {
      hide *;
      OrbitUnfold(x, MAX_TEST_PAGES);
    }
    hide Orbit;
    OrbitLog(x, MAX_TEST_PAGES - 1);
    LfsrStep(Orbit(x, MAX_TEST_PAGES - 1));
    SamePlace(Orbit(x, MAX_TEST_PAGES), x);
  }

  lemma SamePlace(x: nat, y: nat)
    requires 1 <= x <= MAX_TEST_PAGES && 1 <= y <= MAX_TEST_PAGES && Log(x) == Log(y)
    ensures x == y
  {
  }

  lemma OrbitUnfold(x: nat, k: nat)
    requires k > 0
    ensures Orbit(x, k) == LfsrNext(Orbit(x, k - 1))
  {
  }
}
