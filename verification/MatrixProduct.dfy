/**
 What a matrix multiplication adds to a block of a matrix, and how the work may be split by
 rows, by columns and by depth.
 */
module MatrixProduct {

  type Matrix = seq<seq<real>>

  function Get(a: Matrix, i: int, j: int): real
  {
    if 0 <= i < |a| && 0 <= j < |a[i]| then a[i][j] else 0.0
  }

  function Mul(x: real, y: real): real { x * y }

  // fma
  function Fma(x: real, y: real, z: real): real { Mul(x, y) + z }

  // The product of p elements of row i of a, from column ac on, with as many of column j of
  // b, from row br on.
  function Dot(a: Matrix, i: int, ac: int, b: Matrix, br: int, j: int, p: nat): real
  {
    if p == 0 then 0.0
    else Dot(a, i, ac, b, br, j, p - 1) + Mul(Get(a, i, ac + p - 1), Get(b, br + p - 1, j))
  }

  lemma MulLaws(x: real, y: real, z: real)
    ensures Mul(x, y) == Mul(y, x) && Mul(1.0, x) == x
    ensures Mul(x + y, z) == Mul(x, z) + Mul(y, z)
  {
  }

  // Element k of the row is one for k == q and zero otherwise.
  predicate UnitAt(a: Matrix, i: int, ac: int, k: nat, q: nat)
  {
    Get(a, i, ac + k) == if k == q then 1.0 else 0.0
  }

  // A row with a single one selects the element of the column at the same depth.
  lemma {:induction false} DotSelects(a: Matrix, i: int, ac: int, b: Matrix, br: int, j: int, p: nat, q: nat)
    requires forall k: nat | k < p :: UnitAt(a, i, ac, k, q)
    ensures Dot(a, i, ac, b, br, j, p) == if q < p then Get(b, br + q, j) else 0.0
    decreases p
  {
    hide Get;
    if p > 0 {
      DotSelects(a, i, ac, b, br, j, p - 1, q);
      MulLaws(Get(b, br + p - 1, j), 0.0, 0.0);
      assert UnitAt(a, i, ac, p - 1, q);
    }
  }

  lemma {:induction false} DotSplit(a: Matrix, i: int, ac: int, b: Matrix, br: int, j: int, p: nat, q: nat)
    ensures Dot(a, i, ac, b, br, j, p + q) == Dot(a, i, ac, b, br, j, p) + Dot(a, i, ac + p, b, br + p, j, q)
    decreases q
  {
    hide Mul, Get;
    if q > 0 {
      DotSplit(a, i, ac, b, br, j, p, q - 1);
    }
  }

  predicate SameInRow(a: Matrix, i: int, ac: int, a': Matrix, i': int, ac': int, k: nat)
  {
    Get(a, i, ac + k) == Get(a', i', ac' + k)
  }

  predicate SameInColumn(b: Matrix, br: int, j: int, b': Matrix, br': int, j': int, k: nat)
  {
    Get(b, br + k, j) == Get(b', br' + k, j')
  }

  // Operands that agree where it matters give the same product.
  lemma {:induction false} DotSame(a: Matrix, i: int, ac: int, b: Matrix, br: int, j: int,
                                   a': Matrix, i': int, ac': int, b': Matrix, br': int, j': int, p: nat)
    requires forall k: nat | k < p :: SameInRow(a, i, ac, a', i', ac', k)
    requires forall k: nat | k < p :: SameInColumn(b, br, j, b', br', j', k)
    ensures Dot(a, i, ac, b, br, j, p) == Dot(a', i', ac', b', br', j', p)
    decreases p
  {
    hide Mul, Get;
    if p > 0 {
      DotSame(a, i, ac, b, br, j, a', i', ac', b', br', j', p - 1);
      assert SameInRow(a, i, ac, a', i', ac', p - 1) && SameInColumn(b, br, j, b', br', j', p - 1);
    }
  }

  // Where the operands and the result begin in their matrices.
  datatype Task = Task(a: Matrix, ar: int, ac: int, b: Matrix, br: int, bc: int, cr: int, cc: int) {
    function Down(x: int): Task { this.(ar := ar + x, cr := cr + x) }

    function Right(x: int): Task { this.(bc := bc + x, cc := cc + x) }

    function Deeper(x: int): Task { this.(ac := ac + x, br := br + x) }

    // What a product of m by n elements with depth p adds at (r, s).
    function Term(m: int, n: int, p: nat, r: int, s: int): real
    {
      if cr <= r < cr + m && cc <= s < cc + n then Dot(a, ar + r - cr, ac, b, br, bc + s - cc, p) else 0.0
    }
  }

  ghost predicate SameShape(c: Matrix, c': Matrix)
  {
    |c| == |c'| && forall r | 0 <= r < |c| :: |c[r]| == |c'[r]|
  }

  // c' is c with the product added to its block and everything else unchanged.
  ghost predicate Added(c: Matrix, c': Matrix, t: Task, m: int, n: int, p: nat)
  {
    && SameShape(c, c')
    && forall r, s {:trigger c'[r][s]} | 0 <= r < |c'| && 0 <= s < |c'[r]| ::
      c'[r][s] == Get(c, r, s) + t.Term(m, n, p, r, s)
  }

  lemma AddedAt(c: Matrix, c': Matrix, t: Task, m: int, n: int, p: nat, r: int, s: int)
    requires Added(c, c', t, m, n, p) && 0 <= r < |c| && 0 <= s < |c[r]|
    ensures |c| == |c'| && |c[r]| == |c'[r]| && Get(c', r, s) == c'[r][s] == c[r][s] + t.Term(m, n, p, r, s)
  {
  }

  // Two additions in a row.
  lemma AddedTwice(c: Matrix, c1: Matrix, c2: Matrix, t: Task, m: int, n: int, p: nat,
                   t1: Task, m1: int, n1: int, p1: nat, t2: Task, m2: int, n2: int, p2: nat)
    requires Added(c, c1, t1, m1, n1, p1) && Added(c1, c2, t2, m2, n2, p2)
    requires forall r, s | 0 <= r && 0 <= s ::
               t.Term(m, n, p, r, s) == t1.Term(m1, n1, p1, r, s) + t2.Term(m2, n2, p2, r, s)
    ensures Added(c, c2, t, m, n, p)
  {
    hide Task.Term;
    forall r, s | 0 <= r < |c2| && 0 <= s < |c2[r]|
      ensures c2[r][s] == Get(c, r, s) + t.Term(m, n, p, r, s)
    {
      assert c1[r][s] == Get(c, r, s) + t1.Term(m1, n1, p1, r, s);
    }
  }

  // Nothing to do.
  lemma AddedNone(c: Matrix, t: Task, m: int, n: int, p: nat)
    requires m <= 0 || n <= 0 || p == 0
    ensures Added(c, c, t, m, n, p)
  {
  }

  lemma RowsSplit(c: Matrix, c1: Matrix, c2: Matrix, t: Task, m1: nat, m2: nat, n: int, p: nat)
    requires Added(c, c1, t, m1, n, p) && Added(c1, c2, t.Down(m1), m2, n, p)
    ensures Added(c, c2, t, m1 + m2, n, p)
  {
    hide Added, Dot;
    AddedTwice(c, c1, c2, t, m1 + m2, n, p, t, m1, n, p, t.Down(m1), m2, n, p);
  }

  lemma ColumnsSplit(c: Matrix, c1: Matrix, c2: Matrix, t: Task, m: int, n1: nat, n2: nat, p: nat)
    requires Added(c, c1, t, m, n1, p) && Added(c1, c2, t.Right(n1), m, n2, p)
    ensures Added(c, c2, t, m, n1 + n2, p)
  {
    hide Added, Dot;
    AddedTwice(c, c1, c2, t, m, n1 + n2, p, t, m, n1, p, t.Right(n1), m, n2, p);
  }

  lemma DepthSplit(c: Matrix, c1: Matrix, c2: Matrix, t: Task, m: int, n: int, p1: nat, p2: nat)
    requires Added(c, c1, t, m, n, p1) && Added(c1, c2, t.Deeper(p1), m, n, p2)
    ensures Added(c, c2, t, m, n, p1 + p2)
  {
    hide Added, Dot;
    forall r, s | 0 <= r && 0 <= s
      ensures t.Term(m, n, p1 + p2, r, s) == t.Term(m, n, p1, r, s) + t.Deeper(p1).Term(m, n, p2, r, s)
    {
      DotSplit(t.a, t.ar + r - t.cr, t.ac, t.b, t.br, t.bc + s - t.cc, p1, p2);
    }
    AddedTwice(c, c1, c2, t, m, n, p1 + p2, t, m, n, p1, t.Deeper(p1), m, n, p2);
  }

  // ----- Copying blocks -----

  // The block of x at (xr, xc) holds the same as the block of y at (yr, yc).
  ghost predicate SameBlock(x: Matrix, xr: int, xc: int, y: Matrix, yr: int, yc: int, m: int, n: int)
  {
    forall r, s {:trigger SameCell(x, xr, xc, y, yr, yc, r, s)} | 0 <= r < m && 0 <= s < n ::
      SameCell(x, xr, xc, y, yr, yc, r, s)
  }

  predicate SameCell(x: Matrix, xr: int, xc: int, y: Matrix, yr: int, yc: int, r: int, s: int)
  {
    Get(x, xr + r, xc + s) == Get(y, yr + r, yc + s)
  }

  // d' is d with the block of m by n at (dr, dc) copied from y at (yr, yc).
  ghost predicate Pasted(d: Matrix, d': Matrix, dr: int, dc: int, y: Matrix, yr: int, yc: int, m: int, n: int)
  {
    && SameShape(d, d')
    && forall r, s {:trigger d'[r][s]} | 0 <= r < |d'| && 0 <= s < |d'[r]| ::
         d'[r][s] == if dr <= r < dr + m && dc <= s < dc + n then Get(y, yr + r - dr, yc + s - dc) else d[r][s]
  }

  lemma PastedRows(d: Matrix, d1: Matrix, d2: Matrix, dr: int, dc: int, y: Matrix, yr: int, yc: int, m1: nat, m2: nat,
                   n: int)
    requires Pasted(d, d1, dr, dc, y, yr, yc, m1, n) && Pasted(d1, d2, dr + m1, dc, y, yr + m1, yc, m2, n)
    ensures Pasted(d, d2, dr, dc, y, yr, yc, m1 + m2, n)
  {
    hide Get;
  }

  lemma PastedColumns(d: Matrix, d1: Matrix, d2: Matrix, dr: int, dc: int, y: Matrix, yr: int, yc: int, m: int,
                      n1: nat, n2: nat)
    requires Pasted(d, d1, dr, dc, y, yr, yc, m, n1) && Pasted(d1, d2, dr, dc + n1, y, yr, yc + n1, m, n2)
    ensures Pasted(d, d2, dr, dc, y, yr, yc, m, n1 + n2)
  {
    hide Get;
  }

  lemma PastedNone(d: Matrix, dr: int, dc: int, y: Matrix, yr: int, yc: int, m: int, n: int)
    requires m <= 0 || n <= 0
    ensures Pasted(d, d, dr, dc, y, yr, yc, m, n)
  {
  }

  lemma PastedBlock(d: Matrix, d': Matrix, dr: int, dc: int, y: Matrix, yr: int, yc: int, m: int, n: int)
    requires Pasted(d, d', dr, dc, y, yr, yc, m, n)
    requires 0 <= dr && 0 <= dc && dr + m <= |d| && forall r | 0 <= r < |d| :: dc + n <= |d[r]|
    ensures SameBlock(d', dr, dc, y, yr, yc, m, n)
  {
    forall r, s {:trigger SameCell(d', dr, dc, y, yr, yc, r, s)} | 0 <= r < m && 0 <= s < n
      ensures SameCell(d', dr, dc, y, yr, yc, r, s)
    {
      assert d'[dr + r][dc + s] == Get(y, yr + r, yc + s);
    }
  }

  // A block that is worked on in a copy and written back.
  lemma WorkedOnCopy(c: Matrix, c': Matrix, x: Matrix, x': Matrix, xr: int, t: Task, m: int, n: int, p: nat)
    requires SameBlock(x, xr, 0, c, t.cr, t.cc, m, n)
    requires 0 <= xr && xr + m <= |x| && forall r | 0 <= r < |x| :: n <= |x[r]|
    requires Added(x, x', t.(cr := xr, cc := 0), m, n, p)
    requires Pasted(c, c', t.cr, t.cc, x', xr, 0, m, n)
    ensures Added(c, c', t, m, n, p)
  {
    hide Dot;
    var t0 := t.(cr := xr, cc := 0);
    forall r, s | 0 <= r < |c'| && 0 <= s < |c'[r]|
      ensures c'[r][s] == Get(c, r, s) + t.Term(m, n, p, r, s)
    {
      if t.cr <= r < t.cr + m && t.cc <= s < t.cc + n {
        var r0, s0 := r - t.cr, s - t.cc;
        assert SameCell(x, xr, 0, c, t.cr, t.cc, r0, s0);
        AddedAt(x, x', t0, m, n, p, xr + r0, s0);
      }
    }
  }

  // Only the placement and the operands matter, not the matrices they are read from.
  lemma AddedFrom(c: Matrix, c': Matrix, t: Task, t': Task, m: int, n: int, p: nat)
    requires Added(c, c', t, m, n, p) && t.cr == t'.cr && t.cc == t'.cc
    requires SameBlock(t.a, t.ar, t.ac, t'.a, t'.ar, t'.ac, m, p)
             && SameBlock(t.b, t.br, t.bc, t'.b, t'.br, t'.bc, p, n)
    ensures Added(c, c', t', m, n, p)
  {
    forall r, s | 0 <= r < |c'| && 0 <= s < |c'[r]|
      ensures t.Term(m, n, p, r, s) == t'.Term(m, n, p, r, s)
    {
      if t.cr <= r < t.cr + m && t.cc <= s < t.cc + n {
        TermFrom(t, t', m, n, p, r - t.cr, s - t.cc);
      }
    }
    hide Task.Term;
  }

  // ----- Operands in the matrix of the result -----

  // Two blocks have no element in common.
  predicate Apart(r: int, c: int, h: int, w: int, r': int, c': int, h': int, w': int)
  {
    || h <= 0 || w <= 0 || h' <= 0 || w' <= 0
    || r + h <= r' || r' + h' <= r || c + w <= c' || c' + w' <= c
  }

  // The operands of a task are still in place in the matrices ra and rb.
  ghost predicate Operands(t: Task, ra: Matrix, rb: Matrix, m: int, n: int, p: nat)
  {
    && SameBlock(ra, t.ar, t.ac, t.a, t.ar, t.ac, m, p)
    && SameBlock(rb, t.br, t.bc, t.b, t.br, t.bc, p, n)
  }

  // While c becomes c', x becomes x': it stays, or it is the same matrix and the block at (r, s)
  // is apart from the one that changes.
  ghost predicate Untouched(x: Matrix, x': Matrix, c: Matrix, c': Matrix, r: int, s: int, h: int, w: int,
                            cr: int, cc: int, m: int, n: int)
  {
    x' == x || (x == c && x' == c' && Apart(r, s, h, w, cr, cc, m, n))
  }

  lemma OperandsFirst(t: Task, m: int, n: int, p: nat)
    ensures Operands(t, t.a, t.b, m, n, p)
  {
    hide Get;
  }

  // A part of a task that is done with the operands as they are now is that part of the task,
  // and leaves the operands in place.
  lemma Within(t: Task, m: nat, n: nat, p: nat, ra: Matrix, ra': Matrix, rb: Matrix, rb': Matrix, c: Matrix, c': Matrix,
               i: nat, j: nat, k: nat, m1: nat, n1: nat, p1: nat)
    requires Operands(t, ra, rb, m, n, p) && i + m1 <= m && j + n1 <= n && k + p1 <= p
    requires Added(c, c', Task(ra, t.ar + i, t.ac + k, rb, t.br + k, t.bc + j, t.cr + i, t.cc + j), m1, n1, p1)
    requires Untouched(ra, ra', c, c', t.ar, t.ac, m, p, t.cr, t.cc, m, n)
    requires Untouched(rb, rb', c, c', t.br, t.bc, p, n, t.cr, t.cc, m, n)
    ensures Added(c, c', t.Down(i).Right(j).Deeper(k), m1, n1, p1)
    ensures Operands(t, ra', rb', m, n, p)
  {
    hide Added, SameBlock, Untouched;
    var u := Task(ra, t.ar + i, t.ac + k, rb, t.br + k, t.bc + j, t.cr + i, t.cc + j);
    PartOfBlock(ra, t.ar, t.ac, t.a, t.ar, t.ac, m, p, i, k, m1, p1);
    PartOfBlock(rb, t.br, t.bc, t.b, t.br, t.bc, p, n, k, j, p1, n1);
    AddedFrom(c, c', u, t.Down(i).Right(j).Deeper(k), m1, n1, p1);
    BlockStays(ra, ra', c, c', t.ar, t.ac, m, p, t.a, u, m1, n1, p1, t.cr, t.cc, m, n);
    BlockStays(rb, rb', c, c', t.br, t.bc, p, n, t.b, u, m1, n1, p1, t.cr, t.cc, m, n);
  }

  lemma PartOfBlock(x: Matrix, xr: int, xc: int, y: Matrix, yr: int, yc: int, m: int, n: int, i: int, j: int, m1: int,
                    n1: int)
    requires SameBlock(x, xr, xc, y, yr, yc, m, n) && 0 <= i && 0 <= j && i + m1 <= m && j + n1 <= n
    ensures SameBlock(x, xr + i, xc + j, y, yr + i, yc + j, m1, n1)
  {
    hide Get;
    forall r, s {:trigger SameCell(x, xr + i, xc + j, y, yr + i, yc + j, r, s)} | 0 <= r < m1 && 0 <= s < n1
      ensures SameCell(x, xr + i, xc + j, y, yr + i, yc + j, r, s)
    {
      assert SameCell(x, xr, xc, y, yr, yc, i + r, j + s);
    }
  }

  lemma BlockStays(x: Matrix, x': Matrix, c: Matrix, c': Matrix, r: int, s: int, h: int, w: int, y: Matrix,
                   u: Task, m1: nat, n1: nat, p1: nat, cr: int, cc: int, m: int, n: int)
    requires SameBlock(x, r, s, y, r, s, h, w) && Added(c, c', u, m1, n1, p1)
    requires Untouched(x, x', c, c', r, s, h, w, cr, cc, m, n)
    requires cr <= u.cr && u.cr + m1 <= cr + m && cc <= u.cc && u.cc + n1 <= cc + n
    ensures SameBlock(x', r, s, y, r, s, h, w)
  {
    hide Dot;
    forall i, j {:trigger SameCell(x', r, s, y, r, s, i, j)} | 0 <= i < h && 0 <= j < w
      ensures SameCell(x', r, s, y, r, s, i, j)
    {
      assert SameCell(x, r, s, y, r, s, i, j);
      if x' != x {
        OutsideStays(c, c', u, m1, n1, p1, r + i, s + j);
      }
    }
  }

  lemma OutsideStays(c: Matrix, c': Matrix, u: Task, m: nat, n: nat, p: nat, r: int, s: int)
    requires Added(c, c', u, m, n, p) && !(u.cr <= r < u.cr + m && u.cc <= s < u.cc + n)
    ensures Get(c', r, s) == Get(c, r, s)
  {
    hide Dot;
  }

  lemma TermFrom(t: Task, t': Task, m: int, n: int, p: nat, r: int, s: int)
    requires 0 <= r < m && 0 <= s < n
    requires SameBlock(t.a, t.ar, t.ac, t'.a, t'.ar, t'.ac, m, p)
             && SameBlock(t.b, t.br, t.bc, t'.b, t'.br, t'.bc, p, n)
    ensures Dot(t.a, t.ar + r, t.ac, t.b, t.br, t.bc + s, p) == Dot(t'.a, t'.ar + r, t'.ac, t'.b, t'.br, t'.bc + s, p)
  {
    hide Dot, Get;
    forall k: nat {:trigger SameInRow(t.a, t.ar + r, t.ac, t'.a, t'.ar + r, t'.ac, k)} | k < p
      ensures SameInRow(t.a, t.ar + r, t.ac, t'.a, t'.ar + r, t'.ac, k)
    {
      assert SameCell(t.a, t.ar, t.ac, t'.a, t'.ar, t'.ac, r, k);
    }
    forall k: nat {:trigger SameInColumn(t.b, t.br, t.bc + s, t'.b, t'.br, t'.bc + s, k)} | k < p
      ensures SameInColumn(t.b, t.br, t.bc + s, t'.b, t'.br, t'.bc + s, k)
    {
      assert SameCell(t.b, t.br, t.bc, t'.b, t'.br, t'.bc, k, s);
    }
    DotSame(t.a, t.ar + r, t.ac, t.b, t.br, t.bc + s, t'.a, t'.ar + r, t'.ac, t'.b, t'.br, t'.bc + s, p);
  }
}
