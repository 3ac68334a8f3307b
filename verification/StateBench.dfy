/**
 The state-machine benchmark: the block is scanned token by token, corrupted, scanned
 again, and restored.
 */
module StateBench {
  import opened TokenMachine
  import opened Remainder

  // ----- Scanning one token -----

  datatype Scanned = Scanned(pos: nat, state: State, counts: seq<nat>)

  // From position i on: to a zero, past a comma, or past the character that makes the token
  // invalid.
  function Scan(mem: seq<bv8>, i: nat, s: State, counts: seq<nat>): Scanned
    requires |counts| == NUM_STATES
    decreases |mem| - i
  {
    if i >= |mem| || mem[i] == 0 || s == Invalid then Scanned(i, s, counts)
    else if mem[i] == COMMA then Scanned(i + 1, s, counts)
    else Scan(mem, i + 1, Step(s, mem[i]), Track(counts, s, mem[i]))
  }

  // There is a zero at or after i.
  ghost predicate Terminated(mem: seq<bv8>, i: nat)
  {
    exists z :: i <= z < |mem| && mem[z] == 0
  }

  // A scan that does not start at a zero moves on, and never past a zero.
  lemma {:induction false} ScanMoves(mem: seq<bv8>, i: nat, s: State, counts: seq<nat>)
    requires |counts| == NUM_STATES && Terminated(mem, i)
    ensures var r := Scan(mem, i, s, counts);
            && i <= r.pos && Terminated(mem, r.pos) && |r.counts| == NUM_STATES
            && (forall k | i <= k < r.pos && k < |mem| :: mem[k] != 0)
            && (mem[i] != 0 && s != Invalid ==> i < r.pos)
    decreases |mem| - i
  {
    hide Step, Track;
    var z :| i <= z < |mem| && mem[z] == 0;
    if mem[i] != 0 && s != Invalid {
      assert i + 1 <= z;
      assert Terminated(mem, i + 1);
      if mem[i] != COMMA {
        ScanMoves(mem, i + 1, Step(s, mem[i]), Track(counts, s, mem[i]));
      }
    }
  }

  // The end of the token that begins at i, from e on: a zero, a comma, the end of the block, or
  // the place where it has turned out to be no number.
  function TokenEnd(mem: seq<bv8>, i: nat, e: nat): (r: nat)
    requires i <= e <= |mem|
    ensures e <= r <= |mem|
    ensures forall k | e <= k < r :: mem[k] != 0 && mem[k] != COMMA && After(mem[i..k]) != Invalid
    ensures r == |mem| || mem[r] == 0 || mem[r] == COMMA || After(mem[i..r]) == Invalid
    decreases |mem| - e
  {
    if e == |mem| || mem[e] == 0 || mem[e] == COMMA || After(mem[i..e]) == Invalid then e
    else TokenEnd(mem, i, e + 1)
  }

  function Token(mem: seq<bv8>, i: nat): seq<bv8>
    requires i <= |mem|
  {
    mem[i..TokenEnd(mem, i, i)]
  }

  // Where the next token begins: a comma is passed over, unless the token had failed before it.
  function NextToken(mem: seq<bv8>, i: nat): (r: nat)
    requires i <= |mem|
    ensures i <= r <= |mem|
    ensures i < |mem| && mem[i] != 0 ==> i < r
  {
    var e := TokenEnd(mem, i, i);
    assert mem[i..i] == [];
    if e < |mem| && mem[e] == COMMA && After(mem[i..e]) != Invalid then e + 1 else e
  }

  // A scan reads one token: it returns where the next one begins and the state of the
  // characters read, which says what kind of number they are, and adds to the counters what
  // the token adds.
  lemma {:induction false} ScanClassifies(mem: seq<bv8>, start: nat, i: nat, counts: seq<nat>, q: State)
    requires |counts| == NUM_STATES && Terminated(mem, start) && start <= i <= |mem|
    requires TokenEnd(mem, start, i) == TokenEnd(mem, start, start)
    ensures var r := Scan(mem, i, After(mem[start..i]), counts);
            && r.pos == NextToken(mem, start) && r.state == After(Token(mem, start)) && |r.counts| == NUM_STATES
            && r.counts[Number(q)] + Added(mem[start..i], q) == counts[Number(q)] + Added(Token(mem, start), q)
    decreases |mem| - i
  {
    hide Step, Track, Added, After, Number;
    var t, s := mem[start..i], After(mem[start..i]);
    if i < |mem| && mem[i] != 0 && s != Invalid && mem[i] != COMMA {
      assert mem[start..i + 1] == t + [mem[i]];
      AfterSnoc(t, mem[i]);
      TrackAdds(counts, t, mem[i], q);
      ScanClassifies(mem, start, i + 1, Track(counts, s, mem[i]), q);
    }
  }

  lemma TokenCounts(mem: seq<bv8>, start: nat, counts: seq<nat>)
    requires |counts| == NUM_STATES && Terminated(mem, start)
    ensures var r := Scan(mem, start, Start, counts);
            && r.pos == NextToken(mem, start) && r.state == After(Token(mem, start)) && |r.counts| == NUM_STATES
            && forall q :: r.counts[Number(q)] == counts[Number(q)] + Added(Token(mem, start), q)
  {
    hide Number, NextToken, Scan, TokenEnd;
    assert mem[start..start] == [];
    assert forall q :: Added([], q) == 0;
    forall q: State
      ensures var r := Scan(mem, start, Start, counts);
              && r.pos == NextToken(mem, start) && r.state == After(Token(mem, start)) && |r.counts| == NUM_STATES
              && r.counts[Number(q)] == counts[Number(q)] + Added(Token(mem, start), q)
    {
      ScanClassifies(mem, start, start, counts, q);
    }
    ScanClassifies(mem, start, start, counts, Start);
  }

  method CoreStateTransition(memblock: array<bv8>, start: nat, transitionCount: array<nat>)
    returns (str: nat, state: State)
    requires Terminated(memblock[..], start) && transitionCount.Length == NUM_STATES
    requires memblock as object != transitionCount as object
    modifies transitionCount
    ensures Scan(memblock[..], start, Start, old(transitionCount[..])) == Scanned(str, state, transitionCount[..])
    ensures str == NextToken(memblock[..], start) && state == After(Token(memblock[..], start))
    ensures forall q :: transitionCount[Number(q)]
                        == old(transitionCount[Number(q)]) + Added(Token(memblock[..], start), q)
  {
    hide Step, Track, Number, Added, After, NextToken, Token;
    ghost var mem, counts := memblock[..], transitionCount[..];
    TokenCounts(mem, start, counts);
    str, state := start, Start;
    while memblock[str] != 0 && state != Invalid
      invariant memblock[..] == mem && Terminated(mem, str)
      invariant Scan(mem, str, state, transitionCount[..]) == Scan(mem, start, Start, counts)
      decreases memblock.Length - str
    {
      var symbol := memblock[str];
      assert symbol == mem[str];
      assert Terminated(mem, str + 1);
      if symbol == COMMA {
        str := str + 1;
        return;
      }
      CountTransition(transitionCount, state, symbol);
      state := Step(state, symbol);
      str := str + 1;
    }
  }

  method CountTransition(counts: array<nat>, s: State, c: bv8)
    requires counts.Length == NUM_STATES
    modifies counts
    ensures counts[..] == Track(old(counts[..]), s, c)
  {
    match s {
      case Start =>
        if Step(s, c) == Invalid { BumpAt(counts, Invalid); }
        BumpAt(counts, Start);
      case S1 => BumpAt(counts, S1);
      case Int => if Step(s, c) != Int { BumpAt(counts, Int); }
      case Float => if Step(s, c) != Float { BumpAt(counts, Float); }
      case S2 => BumpAt(counts, S2);
      case Exponent => BumpAt(counts, Exponent);
      case Scientific => if Step(s, c) == Invalid { BumpAt(counts, Invalid); }
      case Invalid =>
    }
  }

  method BumpAt(counts: array<nat>, s: State)
    requires counts.Length == NUM_STATES
    modifies counts
    ensures counts[..] == Bump(old(counts[..]), s)
  {
    ghost var before := counts[..];
    counts[Number(s)] := counts[Number(s)] + 1;
    assert counts[..] == before[Number(s) := before[Number(s)] + 1];
  }

  // ----- Scanning the block -----

  datatype Totals = Totals(final: seq<nat>, track: seq<nat>)

  function ScanAll(mem: seq<bv8>, i: nat, t: Totals): (r: Totals)
    requires |t.final| == |t.track| == NUM_STATES
    ensures |r.final| == |r.track| == NUM_STATES
    decreases |mem| - i
  {
    if i >= |mem| || mem[i] == 0 then t
    else
      var r := Scan(mem, i, Start, t.track);
      if r.pos <= i || |r.counts| != NUM_STATES then t
      else ScanAll(mem, r.pos, Totals(Bump(t.final, r.state), r.counts))
  }

  // The tokens of the block, from i to the zero that ends it.
  function Tokenized(mem: seq<bv8>, i: nat): seq<seq<bv8>>
    requires i <= |mem|
    decreases |mem| - i
  {
    if i == |mem| || mem[i] == 0 then [] else [Token(mem, i)] + Tokenized(mem, NextToken(mem, i))
  }

  // How many of them end in a state, and what they add to its counter.
  function Ending(ts: seq<seq<bv8>>, q: State): nat
  {
    if ts == [] then 0 else (if After(ts[0]) == q then 1 else 0) + Ending(ts[1..], q)
  }

  function AddedByAll(ts: seq<seq<bv8>>, q: State): nat
  {
    if ts == [] then 0 else Added(ts[0], q) + AddedByAll(ts[1..], q)
  }

  // The two sets of counters after a scan of the block.
  ghost predicate CountedUp(t: Totals, t': Totals, ts: seq<seq<bv8>>)
  {
    && |t.final| == |t.track| == |t'.final| == |t'.track| == NUM_STATES
    && forall q ::
         && t'.final[Number(q)] == t.final[Number(q)] + Ending(ts, q)
         && t'.track[Number(q)] == t.track[Number(q)] + AddedByAll(ts, q)
  }

  lemma {:induction false} ScanAllCounts(mem: seq<bv8>, i: nat, t: Totals)
    requires |t.final| == |t.track| == NUM_STATES && i <= |mem| && Terminated(mem, i)
    ensures CountedUp(t, ScanAll(mem, i, t), Tokenized(mem, i))
    decreases |mem| - i
  {
    hide Scan, After, Added, Number, Token, NextToken;
    if mem[i] != 0 {
      ScanMoves(mem, i, Start, t.track);
      TokenCounts(mem, i, t.track);
      var r := Scan(mem, i, Start, t.track);
      ScanAllCounts(mem, r.pos, Totals(Bump(t.final, r.state), r.counts));
    }
  }

  method ScanBlock(memblock: array<bv8>, finalCounts: array<nat>, trackCounts: array<nat>)
    requires Terminated(memblock[..], 0)
    requires memblock as object != finalCounts as object && memblock as object != trackCounts as object
    requires finalCounts.Length == trackCounts.Length == NUM_STATES && finalCounts != trackCounts
    modifies finalCounts, trackCounts
    ensures Totals(finalCounts[..], trackCounts[..]) ==
              ScanAll(memblock[..], 0, Totals(old(finalCounts[..]), old(trackCounts[..])))
  {
    hide Scan, Bump;
    ghost var mem := memblock[..];
    var p: nat := 0;
    while memblock[p] != 0
      invariant memblock[..] == mem && Terminated(mem, p)
      invariant ScanAll(mem, p, Totals(finalCounts[..], trackCounts[..])) ==
                  ScanAll(mem, 0, Totals(old(finalCounts[..]), old(trackCounts[..])))
      decreases memblock.Length - p
    {
      assert mem[p] != 0;
      ScanMoves(mem, p, Start, trackCounts[..]);
      var fstate;
      p, fstate := CoreStateTransition(memblock, p, trackCounts);
      BumpAt(finalCounts, fstate);
    }
  }

  // ----- Corrupting the block -----

  function Xor(b: bv8, seed: bv8): bv8 { b ^ seed }

  function Flip(b: bv8, seed: bv8): bv8 { if b == COMMA then b else Xor(b, seed) }

  // The bits in which the two differ.
  lemma XorBits(b: bv8, seed: bv8)
    ensures Xor(b, seed) == (b | seed) - (b & seed)
  {
  }

  // Every step-th byte that is not a comma is changed.
  function Corrupted(mem: seq<bv8>, step: nat, seed: bv8): (r: seq<bv8>)
    requires step > 0
    ensures |r| == |mem|
    ensures forall i | 0 <= i < |mem| :: r[i] == if Rem(i, step) == 0 then Flip(mem[i], seed) else mem[i]
  {
    seq(|mem|, i requires 0 <= i < |mem| => if Rem(i, step) == 0 then Flip(mem[i], seed) else mem[i])
  }

  method Corrupt(memblock: array<bv8>, step: nat, seed: bv8)
    requires step > 0
    modifies memblock
    ensures memblock[..] == Corrupted(old(memblock[..]), step, seed)
  {
    hide Flip, Rem;
    ghost var mem := memblock[..];
    var p: nat := 0;
    assert Rem(p, step) == 0 by { RemStart(step); }
    while p < memblock.Length
      invariant Rem(p, step) == 0
      invariant forall i: nat {:trigger memblock[i]} | i < memblock.Length ::
                  memblock[i] == if i < p && Rem(i, step) == 0 then Flip(mem[i], seed) else mem[i]
      decreases memblock.Length - p
    {
      RemNext(p, step);
      NoneBetween(p, step);
      memblock[p] := Flip(memblock[p], seed);
      p := p + step;
    }
    assert |Corrupted(mem, step, seed)| == |mem|;
  }

  lemma RemStart(a: nat)
    requires a > 0
    ensures Rem(0, a) == 0
  {
  }

  lemma RemNext(p: nat, a: nat)
    requires a > 0
    ensures Rem(p + a, a) == Rem(p, a)
  {
  }

  lemma NoneBetween(p: nat, a: nat)
    requires a > 0 && Rem(p, a) == 0
    ensures forall i: nat {:trigger Rem(i, a)} | p < i < p + a :: Rem(i, a) != 0
  {
    forall i: nat {:trigger Rem(i, a)} | p < i < p + a
      ensures Rem(i, a) != 0
    {
      if Rem(i, a) == 0 {
        RemGap(p, i, a);
      }
    }
  }

  // Of two neighbouring zeros one is passed over, so the second scan ends inside the block too.
  lemma ZeroSurvives(mem: seq<bv8>, step: nat, seed: bv8)
    requires step >= 2 && |mem| >= 2 && mem[|mem| - 2] == 0 == mem[|mem| - 1]
    ensures Terminated(Corrupted(mem, step, seed), 0)
  {
    var n := |mem|;
    hide Flip, Rem;
    if Rem(n - 2, step) == 0 {
      NoneBetween(n - 2, step);
      assert Rem(n - 1, step) != 0;
      assert Corrupted(mem, step, seed)[n - 1] == 0;
    } else {
      assert Corrupted(mem, step, seed)[n - 2] == 0;
    }
  }

  // The block is restored exactly when the seeds agree and no visited byte turns into a comma
  // (and always when every visited byte is a comma).
  lemma RestoredIff(mem: seq<bv8>, step: nat, seed1: bv8, seed2: bv8)
    requires step > 0
    ensures Corrupted(Corrupted(mem, step, seed1), step, seed2) == mem <==>
              forall i | 0 <= i < |mem| && Rem(i, step) == 0 && mem[i] != COMMA ::
                seed1 == seed2 && Xor(mem[i], seed1) != COMMA
  {
    var c := Corrupted(mem, step, seed1);
    var r := Corrupted(c, step, seed2);
    hide Rem, Xor, Flip;
    forall i | 0 <= i < |mem|
      ensures r[i] == mem[i] <==>
                (Rem(i, step) == 0 && mem[i] != COMMA ==> seed1 == seed2 && Xor(mem[i], seed1) != COMMA)
    {
      FlipTwice(mem[i], seed1, seed2);
      assert c[i] == if Rem(i, step) == 0 then Flip(mem[i], seed1) else mem[i];
    }
    if forall i | 0 <= i < |mem| && Rem(i, step) == 0 && mem[i] != COMMA ::
         seed1 == seed2 && Xor(mem[i], seed1) != COMMA {
      assert forall i | 0 <= i < |mem| :: r[i] == mem[i];
    }
  }

  lemma FlipTwice(b: bv8, seed1: bv8, seed2: bv8)
    ensures Flip(Flip(b, seed1), seed2) == b <==> (b != COMMA ==> seed1 == seed2 && Xor(b, seed1) != COMMA)
  {
    hide Xor;
    XorTwice(b, seed1, seed2);
  }

  lemma XorTwice(b: bv8, seed1: bv8, seed2: bv8)
    ensures Xor(Xor(b, seed1), seed2) == b <==> seed1 == seed2
  {
    XorBack(b, seed1, seed2);
  }

  lemma XorBack(b: bv8, seed1: bv8, seed2: bv8)
    ensures (b ^ seed1) ^ seed2 == b <==> seed1 == seed2
  {
  }

  // ----- The benchmark -----

  // The check sum over all counters; its step belongs to another file.
  function Digest(t: Totals, i: nat, crc: bv16, crcu32: (nat, bv16) -> bv16): bv16
    requires |t.final| == |t.track| == NUM_STATES && i <= NUM_STATES
    decreases NUM_STATES - i
  {
    if i == NUM_STATES then crc
    else Digest(t, i + 1, crcu32(t.track[i], crcu32(t.final[i], crc)), crcu32)
  }

  function Zeros(): seq<nat> { seq(NUM_STATES, _ => 0) }

  // The counters after both scans.
  function AllTotals(mem: seq<bv8>, step: nat, seed1: bv8): (t: Totals)
    requires step > 0
    ensures |t.final| == |t.track| == NUM_STATES
  {
    ScanAll(Corrupted(mem, step, seed1), 0, ScanAll(mem, 0, Totals(Zeros(), Zeros())))
  }

  // Both scans count their tokens.
  lemma BothScans(mem: seq<bv8>, step: nat, seed1: bv8)
    requires IsBlock(mem) && step >= 2
    ensures var bad := Corrupted(mem, step, seed1);
            forall q ::
              && AllTotals(mem, step, seed1).final[Number(q)]
                 == Ending(Tokenized(mem, 0), q) + Ending(Tokenized(bad, 0), q)
              && AllTotals(mem, step, seed1).track[Number(q)]
                 == AddedByAll(Tokenized(mem, 0), q) + AddedByAll(Tokenized(bad, 0), q)
  {
    hide ScanAll, Tokenized, Ending, AddedByAll, Corrupted, Number, Rem;
    assert mem[|mem| - 1] == 0;
    ScanAllCounts(mem, 0, Totals(Zeros(), Zeros()));
    ZeroSurvives(mem, step, seed1);
    ScanAllCounts(Corrupted(mem, step, seed1), 0, ScanAll(mem, 0, Totals(Zeros(), Zeros())));
  }

  // The counters in turn, the count of ends before the count of transitions.
  function InTurn(t: Totals): (words: seq<nat>)
    requires |t.final| == |t.track| == NUM_STATES
    ensures |words| == 2 * NUM_STATES
    ensures forall i | 0 <= i < NUM_STATES :: words[2 * i] == t.final[i] && words[2 * i + 1] == t.track[i]
  {
    seq(2 * NUM_STATES, j requires 0 <= j < 2 * NUM_STATES => if j % 2 == 0 then t.final[j / 2] else t.track[j / 2])
  }

  // The check sum of words one after the other.
  function Fed(words: seq<nat>, crc: bv16, crcu32: (nat, bv16) -> bv16): bv16
  {
    if words == [] then crc else crcu32(words[|words| - 1], Fed(words[..|words| - 1], crc, crcu32))
  }

  lemma {:induction false} FedMore(words: seq<nat>, w: nat, crc: bv16, crcu32: (nat, bv16) -> bv16)
    ensures Fed([w] + words, crc, crcu32) == Fed(words, crcu32(w, crc), crcu32)
    decreases |words|
  {
    var n := |words| - 1;
    if words == [] {
      assert ([w] + words)[..0] == [];
    } else {
      FedMore(words[..n], w, crc, crcu32);
      assert ([w] + words)[..n + 1] == [w] + words[..n];
    }
  }

  lemma {:induction false} DigestInTurn(t: Totals, i: nat, crc: bv16, crcu32: (nat, bv16) -> bv16)
    requires |t.final| == |t.track| == NUM_STATES && i <= NUM_STATES
    ensures Digest(t, i, crc, crcu32) == Fed(InTurn(t)[2 * i..], crc, crcu32)
    decreases NUM_STATES - i
  {
    hide Fed, InTurn;
    var words := InTurn(t);
    if i < NUM_STATES {
      var crc1 := crcu32(t.final[i], crc);
      DigestInTurn(t, i + 1, crcu32(t.track[i], crc1), crcu32);
      FedMore(words[2 * i + 2..], t.track[i], crc1, crcu32);
      FedMore(words[2 * i + 1..], t.final[i], crc, crcu32);
      assert words[2 * i + 1..] == [t.track[i]] + words[2 * i + 2..];
      assert words[2 * i..] == [t.final[i]] + words[2 * i + 1..];
    } else {
      assert words[2 * i..] == [];
      FedNone(crc, crcu32);
    }
  }

  lemma FedNone(crc: bv16, crcu32: (nat, bv16) -> bv16)
    ensures Fed([], crc, crcu32) == crc
  {
  }

  // (ee_u8) seed
  function LowByte(seed: bv16): bv8 { (seed & 0xFF) as bv8 }

  lemma LowByteRemains(seed: bv16)
    ensures (seed - (LowByte(seed) as bv16)) & 0xff == 0
  {
  }

  // A block that ends in two zeros, as initialization leaves it.
  predicate IsBlock(mem: seq<bv8>)
  {
    |mem| >= 2 && mem[|mem| - 2] == 0 == mem[|mem| - 1]
  }

  method CoreBenchState(memblock: array<bv8>, seed1: bv16, seed2: bv16, step: nat, crc0: bv16,
                        crcu32: (nat, bv16) -> bv16)
    returns (crc: bv16)
    requires IsBlock(memblock[..]) && step >= 2
    modifies memblock
    ensures crc == Fed(InTurn(AllTotals(old(memblock[..]), step, LowByte(seed1))), crc0, crcu32)
    ensures memblock[..] == Corrupted(Corrupted(old(memblock[..]), step, LowByte(seed1)), step, LowByte(seed2))
    ensures memblock[..] == old(memblock[..]) <==>
              forall i | 0 <= i < memblock.Length && Rem(i, step) == 0 && old(memblock[i]) != COMMA ::
                LowByte(seed1) == LowByte(seed2) && Xor(old(memblock[i]), LowByte(seed1)) != COMMA
  {
    hide ScanAll, Corrupted, Rem, LowByte, Xor, Digest, Fed, InTurn;
    ghost var mem := memblock[..];
    assert forall i | 0 <= i < memblock.Length :: memblock[i] == mem[i];
    var finalCounts := new nat[NUM_STATES](_ => 0);
    var trackCounts := new nat[NUM_STATES](_ => 0);
    assert finalCounts[..] == Zeros() == trackCounts[..];
    assert mem[|mem| - 1] == 0;
    ScanBlock(memblock, finalCounts, trackCounts);
    ghost var t := Totals(finalCounts[..], trackCounts[..]);
    ZeroSurvives(mem, step, LowByte(seed1));
    Corrupt(memblock, step, LowByte(seed1));
    ScanBlock(memblock, finalCounts, trackCounts);
    Corrupt(memblock, step, LowByte(seed2));
    assert Totals(finalCounts[..], trackCounts[..]) == AllTotals(mem, step, LowByte(seed1));
    RestoredIff(mem, step, LowByte(seed1), LowByte(seed2));
    crc := AddCounts(finalCounts, trackCounts, crc0, crcu32);
    t := AllTotals(mem, step, LowByte(seed1));
    DigestInTurn(t, 0, crc0, crcu32);
    assert InTurn(t)[0..] == InTurn(t);
  }

  method AddCounts(finalCounts: array<nat>, trackCounts: array<nat>, crc0: bv16, crcu32: (nat, bv16) -> bv16)
    returns (crc: bv16)
    requires finalCounts.Length == trackCounts.Length == NUM_STATES
    ensures crc == Digest(Totals(finalCounts[..], trackCounts[..]), 0, crc0, crcu32)
  {
    crc := crc0;
    var i := 0;
    ghost var t := Totals(finalCounts[..], trackCounts[..]);
    while i < NUM_STATES
      invariant 0 <= i <= NUM_STATES
      invariant Digest(t, i, crc, crcu32) == Digest(t, 0, crc0, crcu32)
    {
      crc := crcu32(finalCounts[i], crc);
      crc := crcu32(trackCounts[i], crc);
      i := i + 1;
    }
  }

  // ----- Initialization -----

  // 5012  1234  -874  +122
  function IntPattern(variant: bv16): (r: seq<bv8>)
    ensures |r| == 4
  {
    if variant == 0 then [53, 48, 49, 50]
    else if variant == 1 then [49, 50, 51, 52]
    else if variant == 2 then [45, 56, 55, 52]
    else [43, 49, 50, 50]
  }

  // 35.54400  .1234500  -110.700  +0.64400
  function FloatPattern(variant: bv16): (r: seq<bv8>)
    ensures |r| == 8
  {
    if variant == 0 then [51, 53, 46, 53, 52, 52, 48, 48]
    else if variant == 1 then [46, 49, 50, 51, 52, 53, 48, 48]
    else if variant == 2 then [45, 49, 49, 48, 46, 55, 48, 48]
    else [43, 48, 46, 54, 52, 52, 48, 48]
  }

  // 5.500e+3  -.123e-2  -87e+832  +0.6e-12
  function ScientificPattern(variant: bv16): (r: seq<bv8>)
    ensures |r| == 8
  {
    if variant == 0 then [53, 46, 53, 48, 48, 101, 43, 51]
    else if variant == 1 then [45, 46, 49, 50, 51, 101, 45, 50]
    else if variant == 2 then [45, 56, 55, 101, 43, 56, 51, 50]
    else [43, 48, 46, 54, 101, 45, 49, 50]
  }

  // T0.3e-1F  -T.T++Tq  1T3.4e4z  34.0e-T^
  function ErrorPattern(variant: bv16): (r: seq<bv8>)
    ensures |r| == 8
  {
    if variant == 0 then [84, 48, 46, 51, 101, 45, 49, 70]
    else if variant == 1 then [45, 84, 46, 84, 43, 43, 84, 113]
    else if variant == 2 then [49, 84, 51, 46, 52, 101, 52, 122]
    else [51, 52, 46, 48, 101, 45, 84, 94]
  }

  // The pattern chosen by a seed: its lowest three bits give the kind, the next two the variant.
  function Pattern(seed: bv16): (r: seq<bv8>)
    ensures |r| == 4 || |r| == 8
  {
    var kind, variant := seed & 0x7, (seed >> 3) & 0x3;
    if kind <= 2 then IntPattern(variant)
    else if kind <= 4 then FloatPattern(variant)
    else if kind <= 6 then ScientificPattern(variant)
    else ErrorPattern(variant)
  }

  // The character classes.
  lemma Classes(c: bv8)
    ensures IsDigit(c) <==> '0' <= c as char <= '9'
    ensures IsSign(c) <==> c as char == '+' || c as char == '-'
    ensures IsE(c) <==> c as char == 'E' || c as char == 'e'
    ensures (POINT as char, COMMA as char) == ('.', ',')
  {
  }

  lemma ReadsFour(p: seq<bv8>)
    requires |p| == 4
    ensures After(p) == Step(Step(Step(Step(Start, p[0]), p[1]), p[2]), p[3])
  {
    hide Step;
    assert p[..4] == p && p[..0] == [];
    assert forall k | 0 <= k < 4 :: p[..k + 1][..k] == p[..k] && p[..k + 1][k] == p[k];
    assert forall k | 0 <= k < 4 :: After(p[..k + 1]) == Step(After(p[..k]), p[k]);
  }

  lemma ReadsEight(p: seq<bv8>)
    requires |p| == 8
    ensures var s3 := Step(Step(Step(Start, p[0]), p[1]), p[2]);
            var s6 := Step(Step(Step(s3, p[3]), p[4]), p[5]);
            After(p) == Step(Step(s6, p[6]), p[7])
  {
    hide Step;
    assert p[..8] == p && p[..0] == [];
    assert forall k | 0 <= k < 8 :: p[..k + 1][..k] == p[..k] && p[..k + 1][k] == p[k];
    assert forall k | 0 <= k < 8 :: After(p[..k + 1]) == Step(After(p[..k]), p[k]);
  }

  lemma IntsRead(variant: bv16)
    ensures After(IntPattern(variant)) == Int
  {
    ReadsFour([53, 48, 49, 50]);
    ReadsFour([49, 50, 51, 52]);
    ReadsFour([45, 56, 55, 52]);
    ReadsFour([43, 49, 50, 50]);
  }

  lemma FloatsRead(variant: bv16)
    ensures After(FloatPattern(variant)) == Float
  {
    ReadsEight([51, 53, 46, 53, 52, 52, 48, 48]);
    ReadsEight([46, 49, 50, 51, 52, 53, 48, 48]);
    ReadsEight([45, 49, 49, 48, 46, 55, 48, 48]);
    ReadsEight([43, 48, 46, 54, 52, 52, 48, 48]);
  }

  lemma ScientificsRead(variant: bv16)
    ensures After(ScientificPattern(variant)) == if variant == 2 then Invalid else Scientific
  {
    ReadsEight([53, 46, 53, 48, 48, 101, 43, 51]);
    ReadsEight([45, 46, 49, 50, 51, 101, 45, 50]);
    ReadsEight([45, 56, 55, 101, 43, 56, 51, 50]);
    ReadsEight([43, 48, 46, 54, 101, 45, 49, 50]);
  }

  lemma ErrorsRead(variant: bv16)
    ensures After(ErrorPattern(variant)) == Invalid
  {
    ReadsEight([84, 48, 46, 51, 101, 45, 49, 70]);
    ReadsEight([45, 84, 46, 84, 43, 43, 84, 113]);
    ReadsEight([49, 84, 51, 46, 52, 101, 52, 122]);
    ReadsEight([51, 52, 46, 48, 101, 45, 84, 94]);
  }

  // Each pattern is a token of its kind, except that one of the scientific ones has no point
  // and is refused.
  lemma PatternKinds(seed: bv16)
    ensures var kind, variant := seed & 7, (seed >> 3) & 3;
            After(Pattern(seed))
            == if kind < 3 then Int
               else if kind < 5 then Float
               else if kind < 7 && variant != 2 then Scientific
               else Invalid
  {
    hide After, IntPattern, FloatPattern, ScientificPattern, ErrorPattern;
    var variant := (seed >> 3) & 3;
    IntsRead(variant);
    FloatsRead(variant);
    ScientificsRead(variant);
    ErrorsRead(variant);
  }

  // The tokens written while there is room below the limit, with a comma after each.
  function Tokens(total: nat, buf: seq<bv8>, seed: bv16, limit: int): seq<bv8>
    decreases limit - total + (if buf == [] then 1 else 0)
  {
    if total + |buf| + 1 < limit then
      var out := if buf == [] then [] else buf + [COMMA];
      out + Tokens(total + |out|, Pattern(seed + 1), seed + 1, limit)
    else []
  }

  lemma {:induction false} TokensFit(total: nat, buf: seq<bv8>, seed: bv16, limit: int)
    ensures |Tokens(total, buf, seed, limit)| == 0 || total + |Tokens(total, buf, seed, limit)| < limit
    decreases limit - total + (if buf == [] then 1 else 0)
  {
    hide Pattern;
    if total + |buf| + 1 < limit {
      var out := if buf == [] then [] else buf + [COMMA];
      TokensFit(total + |out|, Pattern(seed + 1), seed + 1, limit);
    }
  }

  // The first n patterns after a seed, with commas.
  function Written(seed: bv16, n: nat): seq<bv8>
    decreases n
  {
    if n == 0 then [] else Pattern(seed + 1) + [COMMA] + Written(seed + 1, n - 1)
  }

  // As many patterns are written, in order, as end below the limit.
  lemma TokensWritten(seed: bv16, limit: int) returns (n: nat)
    ensures Tokens(0, [], seed, limit) == Written(seed, n)
    ensures n > 0 ==> |Written(seed, n)| < limit
    ensures |Written(seed, n + 1)| >= limit
  {
    hide Pattern;
    if 1 < limit {
      n := TokensFrom(0, seed, limit);
    } else {
      n := 0;
    }
  }

  lemma {:induction false} TokensFrom(total: nat, seed: bv16, limit: int) returns (n: nat)
    ensures Tokens(total, Pattern(seed + 1), seed + 1, limit) == Written(seed, n)
    ensures n > 0 ==> total + |Written(seed, n)| < limit
    ensures total + |Written(seed, n + 1)| >= limit
    decreases limit - total
  {
    hide Pattern;
    var buf := Pattern(seed + 1);
    assert Written(seed + 1, 0) == [];
    if total + |buf| + 1 < limit {
      var m := TokensFrom(total + |buf| + 1, seed + 1, limit);
      n := m + 1;
    } else {
      n := 0;
    }
  }

  // The whole block: tokens, then zeros.
  function Filled(size: nat, seed: bv16): seq<bv8>
  {
    var tokens := Tokens(0, [], seed, size - 1);
    tokens + seq(if size > |tokens| then size - |tokens| else 0, _ => 0)
  }

  // At least the last two bytes are zero.
  lemma FilledIsBlock(size: nat, seed: bv16)
    requires size >= 2
    ensures |Filled(size, seed)| == size && IsBlock(Filled(size, seed))
  {
    hide Tokens;
    TokensFit(0, [], seed, size - 1);
  }

  method CoreInitState(size: nat, seed0: bv16, p: array<bv8>)
    requires 2 <= size == p.Length
    modifies p
    ensures p[..] == Filled(size, seed0) && IsBlock(p[..])
  {
    hide Tokens, Pattern;
    var total, buf, seed := 0, [], seed0;
    ghost var all := Tokens(0, [], seed0, size - 1);
    TokensFit(0, [], seed0, size - 1);
    assert all[0..] == all;
    while total + |buf| + 1 < size - 1
      invariant 0 <= total <= |all| && all[total..] == Tokens(total, buf, seed, size - 1)
      invariant p[..total] == all[..total]
      decreases size - total + (if buf == [] then 1 else 0)
    {
      TokensStep(total, buf, seed, size - 1);
      TokensFit(total, buf, seed, size - 1);
      ghost var rest := all[total..];
      if |buf| > 0 {
        CopyToken(p, total, buf);
        assert rest[..|buf| + 1] == buf + [COMMA];
        assert all[..total + |buf| + 1] == all[..total] + rest[..|buf| + 1];
        assert all[total + |buf| + 1..] == rest[|buf| + 1..];
        total := total + |buf| + 1;
      }
      seed := seed + 1;
      buf := Pattern(seed);
    }
    TokensEnd(total, buf, seed, size - 1);
    assert total == |all|;
    while total < size
      invariant |all| <= total <= size
      invariant p[..|all|] == all && forall i | |all| <= i < total :: p[i] == 0
    {
      p[total] := 0;
      total := total + 1;
    }
    assert p[..] == Filled(size, seed0);
    FilledIsBlock(size, seed0);
  }

  method CopyToken(p: array<bv8>, total: nat, buf: seq<bv8>)
    requires total + |buf| < p.Length
    modifies p
    ensures p[..total] == old(p[..total]) && p[total..total + |buf| + 1] == buf + [COMMA]
  {
    var i := 0;
    while i < |buf|
      invariant 0 <= i <= |buf|
      invariant p[..total] == old(p[..total]) && forall k | 0 <= k < i :: p[total + k] == buf[k]
    {
      p[total + i] := buf[i];
      i := i + 1;
    }
    p[total + i] := COMMA;
  }

  lemma TokensStep(total: nat, buf: seq<bv8>, seed: bv16, limit: int)
    requires total + |buf| + 1 < limit
    ensures var out := if buf == [] then [] else buf + [COMMA];
            Tokens(total, buf, seed, limit) == out + Tokens(total + |out|, Pattern(seed + 1), seed + 1, limit)
  {
    hide Pattern;
  }

  lemma TokensEnd(total: nat, buf: seq<bv8>, seed: bv16, limit: int)
    requires total + |buf| + 1 >= limit
    ensures Tokens(total, buf, seed, limit) == []
  {
  }
}
