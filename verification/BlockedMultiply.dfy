/**
 The matrix multiplication benchmark: a plain triple loop for the edges, a register-blocked
 kernel, and a cache-blocked version that packs its operands into tiles.
 */
module BlockedMultiply {
  import opened MatrixProduct

  // Register block: RBM by RBN elements, RBK steps at a time. Cache block: CBM, CBN, CBK.
  const RBM: nat := 4
  const RBN: nat := 5
  const RBK: nat := 6
  const CBM: nat := 24
  const CBN: nat := 25
  const CBK: nat := 24

  ghost function Rows(c: array2<real>): (r: Matrix)
    reads c
    ensures |r| == c.Length0
    ensures forall i | 0 <= i < c.Length0 :: |r[i]| == c.Length1 && forall j | 0 <= j < c.Length1 :: r[i][j] == c[i, j]
  {
    seq(c.Length0, i requires 0 <= i < c.Length0 reads c =>
      seq(c.Length1, j requires 0 <= j < c.Length1 reads c => c[i, j]))
  }

  // The blocks at the given origins lie inside their matrices, and the one of the result has
  // no element in common with those of the operands.
  ghost predicate Fits(m: nat, n: nat, p: nat, a: array2<real>, ar: nat, ac: nat, b: array2<real>, br: nat, bc: nat,
                       c: array2<real>, cr: nat, cc: nat)
  {
    && ar + m <= a.Length0 && ac + p <= a.Length1
    && br + p <= b.Length0 && bc + n <= b.Length1
    && cr + m <= c.Length0 && cc + n <= c.Length1
    && (c == a ==> Apart(ar, ac, m, p, cr, cc, m, n))
    && (c == b ==> Apart(br, bc, p, n, cr, cc, m, n))
  }

  ghost function TaskOf(a: array2<real>, ar: nat, ac: nat, b: array2<real>, br: nat, bc: nat, cr: nat, cc: nat): Task
    reads a, b
  {
    Task(Rows(a), ar, ac, Rows(b), br, bc, cr, cc)
  }

  // ----- The plain loop -----

  lemma CellSet(before: Matrix, after: Matrix, x: nat, y: nat, t: Task, p: nat)
    requires SameShape(before, after) && x < |after| && y < |after[x]| && t.cr == x && t.cc == y
    requires forall r, s {:trigger after[r][s]} | 0 <= r < |after| && 0 <= s < |after[r]| && (r != x || s != y) ::
             after[r][s] == before[r][s]
    requires after[x][y] == before[x][y] + Dot(t.a, t.ar, t.ac, t.b, t.br, t.bc, p)
    ensures Added(before, after, t, 1, 1, p)
  {
    hide Dot;
  }

  lemma CellIs(a: array2<real>, i: nat, j: nat)
    requires i < a.Length0 && j < a.Length1
    ensures Get(Rows(a), i, j) == a[i, j]
  {
  }

  lemma DotOne(a: Matrix, i: int, ac: int, b: Matrix, br: int, j: int, k: nat, x: real, y: real)
    requires x == Get(a, i, ac + k) && y == Get(b, br + k, j)
    ensures Dot(a, i, ac, b, br, j, k + 1) == Dot(a, i, ac, b, br, j, k) + Mul(x, y)
  {
    hide Mul, Get;
  }

  // c + x * y on the elements at step k.
  method Accumulate(a: array2<real>, ar: nat, ac: nat, b: array2<real>, br: nat, bc: nat, k: nat, z: real)
    returns (r: real)
    requires ar < a.Length0 && ac + k < a.Length1 && br + k < b.Length0 && bc < b.Length1
    ensures r - z == Dot(Rows(a), ar, ac, Rows(b), br, bc, k + 1) - Dot(Rows(a), ar, ac, Rows(b), br, bc, k)
  {
    hide Mul, Rows, Get, Dot;
    CellIs(a, ar, ac + k);
    CellIs(b, br + k, bc);
    r := Fma(a[ar, ac + k], b[br + k, bc], z);
    DotOne(Rows(a), ar, ac, Rows(b), br, bc, k, a[ar, ac + k], b[br + k, bc]);
  }

  // Four steps, each to a partial sum of its own.
  method AccumulateFour(a: array2<real>, ar: nat, ac: nat, b: array2<real>, br: nat, bc: nat, k: nat,
                        z0: real, z1: real, z2: real, z3: real) returns (s0: real, s1: real, s2: real, s3: real)
    requires ar < a.Length0 && ac + k + 3 < a.Length1 && br + k + 3 < b.Length0 && bc < b.Length1
    ensures s0 + s1 + s2 + s3 - (z0 + z1 + z2 + z3) ==
              Dot(Rows(a), ar, ac, Rows(b), br, bc, k + 4) - Dot(Rows(a), ar, ac, Rows(b), br, bc, k)
  {
    hide Rows, Dot;
    s0 := Accumulate(a, ar, ac, b, br, bc, k, z0);
    s1 := Accumulate(a, ar, ac, b, br, bc, k + 1, z1);
    s2 := Accumulate(a, ar, ac, b, br, bc, k + 2, z2);
    s3 := Accumulate(a, ar, ac, b, br, bc, k + 3, z3);
  }

  // The dot product in four partial sums, then the rest, then their sum.
  method Inner(p: nat, a: array2<real>, ar: nat, ac: nat, b: array2<real>, br: nat, bc: nat, init: real)
    returns (r: real)
    requires ar < a.Length0 && ac + p <= a.Length1 && br + p <= b.Length0 && bc < b.Length1
    ensures r == init + Dot(Rows(a), ar, ac, Rows(b), br, bc, p)
  {
    hide *;
    ghost var ra, rb := Rows(a), Rows(b);
    DotNone(ra, ar, ac, rb, br, bc);
    var s0, s1, s2, s3 := init, 0.0, 0.0, 0.0;
    var k: nat := 0;
    ghost var left: nat := p / 4;
    while k < p / 4 * 4
      invariant k + 4 * left == p / 4 * 4 && Rows(a) == ra && Rows(b) == rb
      invariant s0 + s1 + s2 + s3 == init + Dot(ra, ar, ac, rb, br, bc, k)
    {
      s0, s1, s2, s3 := AccumulateFour(a, ar, ac, b, br, bc, k, s0, s1, s2, s3);
      k := k + 4;
      left := left - 1;
    }
    while k < p
      invariant k <= p && Rows(a) == ra && Rows(b) == rb
      invariant s0 + s1 + s2 + s3 == init + Dot(ra, ar, ac, rb, br, bc, k)
    {
      s0 := Accumulate(a, ar, ac, b, br, bc, k, s0);
      k := k + 1;
    }
    r := (s0 + s1) + (s2 + s3);
  }

  lemma DotNone(a: Matrix, i: int, ac: int, b: Matrix, br: int, j: int)
    ensures Dot(a, i, ac, b, br, j, 0) == 0.0
  {
  }

  method Element(p: nat, a: array2<real>, ar: nat, ac: nat, b: array2<real>, br: nat, bc: nat, c: array2<real>,
                 cr: nat, cc: nat)
    requires Fits(1, 1, p, a, ar, ac, b, br, bc, c, cr, cc)
    modifies c
    ensures Added(old(Rows(c)), Rows(c), old(TaskOf(a, ar, ac, b, br, bc, cr, cc)), 1, 1, p)
  {
    hide Mul, Dot, Added;
    ghost var rc, t := Rows(c), TaskOf(a, ar, ac, b, br, bc, cr, cc);
    var s := Inner(p, a, ar, ac, b, br, bc, c[cr, cc]);
    c[cr, cc] := s;
    CellSet(rc, Rows(c), cr, cc, t, p);
  }

  method MmNaive(m: nat, n: nat, p: nat, a: array2<real>, ar: nat, ac: nat, b: array2<real>, br: nat, bc: nat,
                 c: array2<real>, cr: nat, cc: nat)
    requires Fits(m, n, p, a, ar, ac, b, br, bc, c, cr, cc)
    modifies c
    ensures Added(old(Rows(c)), Rows(c), old(TaskOf(a, ar, ac, b, br, bc, cr, cc)), m, n, p)
  {
    hide Added, Rows, Operands;
    ghost var rc, t := Rows(c), TaskOf(a, ar, ac, b, br, bc, cr, cc);
    AddedNone(rc, t, 0, n, p);
    OperandsFirst(t, m, n, p);
    var i: nat := 0;
    while i < m
      invariant i <= m && Operands(t, Rows(a), Rows(b), m, n, p)
      invariant Added(rc, Rows(c), t, i, n, p)
    {
      ghost var row := Rows(c);
      AddedNone(row, t.Down(i), 1, 0, p);
      var j: nat := 0;
      while j < n
        invariant j <= n && Operands(t, Rows(a), Rows(b), m, n, p)
        invariant Added(row, Rows(c), t.Down(i), 1, j, p)
      {
        ghost var cell, ra, rb := Rows(c), Rows(a), Rows(b);
        Element(p, a, ar + i, ac, b, br, bc + j, c, cr + i, cc + j);
        Within(t, m, n, p, ra, Rows(a), rb, Rows(b), cell, Rows(c), i, j, 0, 1, 1, p);
        ColumnsSplit(row, cell, Rows(c), t.Down(i), 1, j, 1, p);
        j := j + 1;
      }
      RowsSplit(rc, row, Rows(c), t, i, 1, n, p);
      i := i + 1;
    }
  }

  // ----- Copying -----

  method CopyOne(a: array2<real>, ar: nat, ac: nat, a0: array2<real>, ar0: nat, ac0: nat)
    requires ar < a.Length0 && ac < a.Length1 && ar0 < a0.Length0 && ac0 < a0.Length1 && a != a0
    modifies a
    ensures Pasted(old(Rows(a)), Rows(a), ar, ac, Rows(a0), ar0, ac0, 1, 1)
  {
    a[ar, ac] := a0[ar0, ac0];
  }

  method WriteFour(a: array2<real>, ar: nat, ac: nat, t0: real, t1: real, t2: real, t3: real, ghost src: Matrix,
                   ghost ar0: nat, ghost ac0: nat)
    requires ar < a.Length0 && ac + 3 < a.Length1
    requires t0 == Get(src, ar0, ac0) && t1 == Get(src, ar0, ac0 + 1) && t2 == Get(src, ar0, ac0 + 2)
             && t3 == Get(src, ar0, ac0 + 3)
    modifies a
    ensures Pasted(old(Rows(a)), Rows(a), ar, ac, src, ar0, ac0, 1, 4)
  {
    hide Get;
    a[ar, ac], a[ar, ac + 1], a[ar, ac + 2], a[ar, ac + 3] := t0, t1, t2, t3;
  }

  // Eight elements of a row, all read before any is written.
  method CopyEight(a: array2<real>, ar: nat, ac: nat, a0: array2<real>, ar0: nat, ac0: nat)
    requires ar < a.Length0 && ac + 7 < a.Length1 && ar0 < a0.Length0 && ac0 + 7 < a0.Length1 && a != a0
    modifies a
    ensures Pasted(old(Rows(a)), Rows(a), ar, ac, Rows(a0), ar0, ac0, 1, 8)
  {
    hide Pasted, Get;
    ghost var d, src := Rows(a), Rows(a0);
    var t0, t1, t2, t3 := a0[ar0, ac0], a0[ar0, ac0 + 1], a0[ar0, ac0 + 2], a0[ar0, ac0 + 3];
    var t4, t5, t6, t7 := a0[ar0, ac0 + 4], a0[ar0, ac0 + 5], a0[ar0, ac0 + 6], a0[ar0, ac0 + 7];
    FourCells(a0, ar0, ac0);
    FourCells(a0, ar0, ac0 + 4);
    WriteFour(a, ar, ac, t0, t1, t2, t3, src, ar0, ac0);
    ghost var half := Rows(a);
    WriteFour(a, ar, ac + 4, t4, t5, t6, t7, src, ar0, ac0 + 4);
    PastedColumns(d, half, Rows(a), ar, ac, src, ar0, ac0, 1, 4, 4);
  }

  lemma FourCells(a: array2<real>, i: nat, j: nat)
    requires i < a.Length0 && j + 3 < a.Length1
    ensures Get(Rows(a), i, j) == a[i, j] && Get(Rows(a), i, j + 1) == a[i, j + 1]
    ensures Get(Rows(a), i, j + 2) == a[i, j + 2] && Get(Rows(a), i, j + 3) == a[i, j + 3]
  {
  }

  // repack: a block of m by p is copied, eight elements of a row at a time.
  method Repack(a: array2<real>, ar: nat, ac: nat, a0: array2<real>, ar0: nat, ac0: nat, m: nat, p: nat)
    requires ar + m <= a.Length0 && ac + p <= a.Length1 && ar0 + m <= a0.Length0 && ac0 + p <= a0.Length1 && a != a0
    modifies a
    ensures Pasted(old(Rows(a)), Rows(a), ar, ac, Rows(a0), ar0, ac0, m, p)
  {
    hide Pasted, Rows;
    ghost var before, src := Rows(a), Rows(a0);
    PastedNone(before, ar, ac, src, ar0, ac0, 0, p);
    var i: nat := 0;
    while i < m
      invariant i <= m && Rows(a0) == src
      invariant Pasted(before, Rows(a), ar, ac, src, ar0, ac0, i, p)
    {
      ghost var row := Rows(a);
      CopyRow(a, ar + i, ac, a0, ar0 + i, ac0, p);
      PastedRows(before, row, Rows(a), ar, ac, src, ar0, ac0, i, 1, p);
      i := i + 1;
    }
  }

  method CopyRow(a: array2<real>, ar: nat, ac: nat, a0: array2<real>, ar0: nat, ac0: nat, p: nat)
    requires ar < a.Length0 && ac + p <= a.Length1 && ar0 < a0.Length0 && ac0 + p <= a0.Length1 && a != a0
    modifies a
    ensures Pasted(old(Rows(a)), Rows(a), ar, ac, Rows(a0), ar0, ac0, 1, p)
  {
    hide Pasted, Rows;
    ghost var before, src := Rows(a), Rows(a0);
    PastedNone(before, ar, ac, src, ar0, ac0, 1, 0);
    var j: nat := 0;
    ghost var left: nat := p / 8;
    while j < p / 8 * 8
      invariant j + 8 * left == p / 8 * 8 && Rows(a0) == src
      invariant Pasted(before, Rows(a), ar, ac, src, ar0, ac0, 1, j)
    {
      ghost var was := Rows(a);
      CopyEight(a, ar, ac + j, a0, ar0, ac0 + j);
      PastedColumns(before, was, Rows(a), ar, ac, src, ar0, ac0, 1, j, 8);
      j := j + 8;
      left := left - 1;
    }
    while j < p
      invariant j <= p && Rows(a0) == src
      invariant Pasted(before, Rows(a), ar, ac, src, ar0, ac0, 1, j)
    {
      ghost var was := Rows(a);
      CopyOne(a, ar, ac + j, a0, ar0, ac0 + j);
      PastedColumns(before, was, Rows(a), ar, ac, src, ar0, ac0, 1, j, 1);
      j := j + 1;
    }
  }

  // ----- The register block -----

  lemma DotDepthOne(a: Matrix, i: int, ac: int, b: Matrix, br: int, j: int, x: real, y: real)
    requires x == Get(a, i, ac) && y == Get(b, br, j)
    ensures Dot(a, i, ac, b, br, j, 1) == Mul(x, y)
  {
    hide Mul, Get;
    assert Dot(a, i, ac, b, br, j, 0) == 0.0;
  }

  // One of the accumulators takes in one product.
  method AccumulateCell(acc: array2<real>, r: nat, s: nat, a: array2<real>, ar: nat, ac: nat, b: array2<real>, br: nat,
                        bc: nat)
    requires Fits(1, 1, 1, a, ar, ac, b, br, bc, acc, r, s) && acc != a && acc != b
    modifies acc
    ensures Added(old(Rows(acc)), Rows(acc), TaskOf(a, ar, ac, b, br, bc, r, s), 1, 1, 1)
  {
    hide Mul, Dot, Added, Get;
    ghost var before, t := Rows(acc), TaskOf(a, ar, ac, b, br, bc, r, s);
    CellIs(a, ar, ac);
    CellIs(b, br, bc);
    DotDepthOne(Rows(a), ar, ac, Rows(b), br, bc, a[ar, ac], b[br, bc]);
    acc[r, s] := Fma(a[ar, ac], b[br, bc], acc[r, s]);
    CellSet(before, Rows(acc), r, s, t, 1);
  }

  // One step in depth for all accumulators.
  method AccumulateBlock(acc: array2<real>, a: array2<real>, ar: nat, ac: nat, b: array2<real>, br: nat, bc: nat)
    requires Fits(RBM, RBN, 1, a, ar, ac, b, br, bc, acc, 0, 0) && acc != a && acc != b
    modifies acc
    ensures Added(old(Rows(acc)), Rows(acc), TaskOf(a, ar, ac, b, br, bc, 0, 0), RBM, RBN, 1)
  {
    hide Added, Rows;
    ghost var start, t := Rows(acc), TaskOf(a, ar, ac, b, br, bc, 0, 0);
    AddedNone(start, t, 0, RBN, 1);
    var r: nat := 0;
    while r < RBM
      invariant r <= RBM && TaskOf(a, ar, ac, b, br, bc, 0, 0) == t
      invariant Added(start, Rows(acc), t, r, RBN, 1)
    {
      ghost var row := Rows(acc);
      AddedNone(row, t.Down(r), 1, 0, 1);
      var s: nat := 0;
      while s < RBN
        invariant s <= RBN && TaskOf(a, ar, ac, b, br, bc, 0, 0) == t
        invariant Added(row, Rows(acc), t.Down(r), 1, s, 1)
      {
        ghost var cell := Rows(acc);
        AccumulateCell(acc, r, s, a, ar + r, ac, b, br, bc + s);
        ColumnsSplit(row, cell, Rows(acc), t.Down(r), 1, s, 1, 1);
        s := s + 1;
      }
      RowsSplit(start, row, Rows(acc), t, r, 1, RBN, 1);
      r := r + 1;
    }
  }

  // kloop: the block of the result is held in accumulators over the whole depth.
  method Kloop(p: nat, a: array2<real>, ar: nat, ac: nat, b: array2<real>, br: nat, bc: nat, c: array2<real>, cr: nat,
               cc: nat)
    requires Fits(RBM, RBN, p, a, ar, ac, b, br, bc, c, cr, cc)
    modifies c
    ensures Added(old(Rows(c)), Rows(c), old(TaskOf(a, ar, ac, b, br, bc, cr, cc)), RBM, RBN, p)
  {
    ghost var rc, t := Rows(c), TaskOf(a, ar, ac, b, br, bc, cr, cc);
    var acc := new real[RBM, RBN]((_, _) => 0.0);
    hide Added, Pasted, SameBlock;
    ghost var empty := Rows(acc);
    Repack(acc, 0, 0, c, cr, cc, RBM, RBN);
    PastedBlock(empty, Rows(acc), 0, 0, rc, cr, cc, RBM, RBN);
    ghost var loaded := Rows(acc);
    Depth(p, acc, a, ar, ac, b, br, bc);
    ghost var done := Rows(acc);
    Repack(c, cr, cc, acc, 0, 0, RBM, RBN);
    WorkedOnCopy(rc, Rows(c), loaded, done, 0, t, RBM, RBN, p);
  }

  // The depth is gone through RBK steps at a time and then one by one.
  method Depth(p: nat, acc: array2<real>, a: array2<real>, ar: nat, ac: nat, b: array2<real>, br: nat, bc: nat)
    requires Fits(RBM, RBN, p, a, ar, ac, b, br, bc, acc, 0, 0) && acc != a && acc != b
    modifies acc
    ensures Added(old(Rows(acc)), Rows(acc), TaskOf(a, ar, ac, b, br, bc, 0, 0), RBM, RBN, p)
  {
    hide Added, Rows;
    ghost var loaded, t := Rows(acc), TaskOf(a, ar, ac, b, br, bc, 0, 0);
    AddedNone(loaded, t, RBM, RBN, 0);
    var k: nat := 0;
    ghost var left: nat := p / RBK;
    while k < p / RBK * RBK
      invariant k + RBK * left == p / RBK * RBK && k <= p
      invariant TaskOf(a, ar, ac, b, br, bc, 0, 0) == t
      invariant Added(loaded, Rows(acc), t, RBM, RBN, k)
    {
      DepthSteps(acc, a, ar, ac, b, br, bc, k, loaded);
      k := k + RBK;
      left := left - 1;
    }
    while k < p
      invariant k <= p
      invariant TaskOf(a, ar, ac, b, br, bc, 0, 0) == t
      invariant Added(loaded, Rows(acc), t, RBM, RBN, k)
    {
      DepthStep(acc, a, ar, ac, b, br, bc, k, loaded);
      k := k + 1;
    }
  }

  method DepthSteps(acc: array2<real>, a: array2<real>, ar: nat, ac: nat, b: array2<real>, br: nat, bc: nat, k: nat,
                    ghost loaded: Matrix)
    requires Fits(RBM, RBN, k + RBK, a, ar, ac, b, br, bc, acc, 0, 0) && acc != a && acc != b
    requires Added(loaded, Rows(acc), TaskOf(a, ar, ac, b, br, bc, 0, 0), RBM, RBN, k)
    modifies acc
    ensures Added(loaded, Rows(acc), TaskOf(a, ar, ac, b, br, bc, 0, 0), RBM, RBN, k + RBK)
  {
    hide Added, Rows, TaskOf;
    DepthStep(acc, a, ar, ac, b, br, bc, k, loaded);
    DepthStep(acc, a, ar, ac, b, br, bc, k + 1, loaded);
    DepthStep(acc, a, ar, ac, b, br, bc, k + 2, loaded);
    DepthStep(acc, a, ar, ac, b, br, bc, k + 3, loaded);
    DepthStep(acc, a, ar, ac, b, br, bc, k + 4, loaded);
    DepthStep(acc, a, ar, ac, b, br, bc, k + 5, loaded);
  }

  method DepthStep(acc: array2<real>, a: array2<real>, ar: nat, ac: nat, b: array2<real>, br: nat, bc: nat, k: nat,
                   ghost loaded: Matrix)
    requires Fits(RBM, RBN, k + 1, a, ar, ac, b, br, bc, acc, 0, 0) && acc != a && acc != b
    requires Added(loaded, Rows(acc), TaskOf(a, ar, ac, b, br, bc, 0, 0), RBM, RBN, k)
    modifies acc
    ensures Added(loaded, Rows(acc), TaskOf(a, ar, ac, b, br, bc, 0, 0), RBM, RBN, k + 1)
  {
    hide Added, Rows;
    ghost var before := Rows(acc);
    AccumulateBlock(acc, a, ar, ac + k, b, br + k, bc);
    DepthSplit(loaded, before, Rows(acc), TaskOf(a, ar, ac, b, br, bc, 0, 0), RBM, RBN, k, 1);
  }

  method MmRb(m: nat, n: nat, p: nat, a: array2<real>, ar: nat, ac: nat, b: array2<real>, br: nat, bc: nat,
              c: array2<real>, cr: nat, cc: nat)
    requires Fits(m, n, p, a, ar, ac, b, br, bc, c, cr, cc)
    modifies c
    ensures Added(old(Rows(c)), Rows(c), old(TaskOf(a, ar, ac, b, br, bc, cr, cc)), m, n, p)
  {
    hide Added, Rows, Operands;
    var mb, nb := m / RBM * RBM, n / RBN * RBN;
    ghost var rc, t := Rows(c), TaskOf(a, ar, ac, b, br, bc, cr, cc);
    AddedNone(rc, t, 0, n, p);
    OperandsFirst(t, m, n, p);
    var i: nat := 0;
    ghost var rowsLeft: nat := m / RBM;
    while i < mb
      invariant i + RBM * rowsLeft == mb && Operands(t, Rows(a), Rows(b), m, n, p)
      invariant Added(rc, Rows(c), t, i, n, p)
    {
      ghost var strip, ra, rb := Rows(c), Rows(a), Rows(b);
      RegisterStrip(n, p, a, ar + i, ac, b, br, bc, c, cr + i, cc);
      Within(t, m, n, p, ra, Rows(a), rb, Rows(b), strip, Rows(c), i, 0, 0, RBM, nb, p);
      ghost var most := Rows(c);
      ra, rb := Rows(a), Rows(b);
      MmNaive(RBM, n - nb, p, a, ar + i, ac, b, br, bc + nb, c, cr + i, cc + nb);
      Within(t, m, n, p, ra, Rows(a), rb, Rows(b), most, Rows(c), i, nb, 0, RBM, n - nb, p);
      ColumnsSplit(strip, most, Rows(c), t.Down(i), RBM, nb, n - nb, p);
      RowsSplit(rc, strip, Rows(c), t, i, RBM, n, p);
      i := i + RBM;
      rowsLeft := rowsLeft - 1;
    }
    ghost var most, ra, rb := Rows(c), Rows(a), Rows(b);
    MmNaive(m - mb, n, p, a, ar + mb, ac, b, br, bc, c, cr + mb, cc);
    Within(t, m, n, p, ra, Rows(a), rb, Rows(b), most, Rows(c), mb, 0, 0, m - mb, n, p);
    RowsSplit(rc, most, Rows(c), t, mb, m - mb, n, p);
  }

  // The register blocks of one strip of rows.
  method RegisterStrip(n: nat, p: nat, a: array2<real>, ar: nat, ac: nat, b: array2<real>, br: nat, bc: nat,
                       c: array2<real>, cr: nat, cc: nat)
    requires Fits(RBM, n, p, a, ar, ac, b, br, bc, c, cr, cc)
    modifies c
    ensures Added(old(Rows(c)), Rows(c), old(TaskOf(a, ar, ac, b, br, bc, cr, cc)), RBM, n / RBN * RBN, p)
  {
    hide Added, Rows, Operands;
    ghost var rc, t := Rows(c), TaskOf(a, ar, ac, b, br, bc, cr, cc);
    AddedNone(rc, t, RBM, 0, p);
    OperandsFirst(t, RBM, n, p);
    var j: nat := 0;
    ghost var left: nat := n / RBN;
    while j < n / RBN * RBN
      invariant j + RBN * left == n / RBN * RBN && Operands(t, Rows(a), Rows(b), RBM, n, p)
      invariant Added(rc, Rows(c), t, RBM, j, p)
    {
      ghost var before, ra, rb := Rows(c), Rows(a), Rows(b);
      Kloop(p, a, ar, ac, b, br, bc + j, c, cr, cc + j);
      Within(t, RBM, n, p, ra, Rows(a), rb, Rows(b), before, Rows(c), 0, j, 0, RBM, RBN, p);
      ColumnsSplit(rc, before, Rows(c), t, RBM, j, RBN, p);
      j := j + RBN;
      left := left - 1;
    }
  }
}
