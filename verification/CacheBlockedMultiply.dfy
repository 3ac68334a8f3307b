/**
 The cache-blocked multiplication: the operands and the result are copied into tiles, the
 tiles are multiplied, the edges are done in place, and the tiles are copied back.
 */
module CacheBlockedMultiply {
  import opened MatrixProduct
  import opened BlockedMultiply
  import opened CacheBlocks

  lemma Multiple(w: nat, y: nat, ny: nat)
    requires y < ny
    ensures w * y + w <= w * ny
  {
    Product(w, y + 1, ny);
    assert w * (y + 1) == w * y + w;
  }

  // All tiles of a block are copied; w is the width of a tile.
  method Pack(d: array2<real>, s: array2<real>, sr: nat, sc: nat, nx: nat, ny: nat, w: nat)
    requires d != s && d.Length0 == nx * ny * TILE && d.Length1 == w
    requires sr + TILE * nx <= s.Length0 && sc + w * ny <= s.Length1
    modifies d
    ensures CopiedUpTo(Rows(d), Rows(s), sr, sc, ny, w, nx, 0)
  {
    hide Rows, CopiedUpTo, Pasted, TileRow;
    ghost var src := Rows(s);
    CopyStart(Rows(d), src, sr, sc, ny, w);
    var x: nat := 0;
    while x < nx
      invariant x <= nx && Rows(s) == src
      invariant CopiedUpTo(Rows(d), src, sr, sc, ny, w, x, 0)
    {
      var y: nat := 0;
      while y < ny
        invariant y <= ny && Rows(s) == src
        invariant CopiedUpTo(Rows(d), src, sr, sc, ny, w, x, y)
      {
        ghost var before := Rows(d);
        TileFits(nx, ny, x, y);
        Multiple(w, y, ny);
        Repack(d, TileRow(ny, x, y), 0, s, sr + TILE * x, sc + w * y, TILE, w);
        CopyNext(before, Rows(d), src, sr, sc, ny, w, x, y);
        y := y + 1;
      }
      CopyRowDone(Rows(d), src, sr, sc, ny, w, x);
      x := x + 1;
    }
  }

  // One tile of the result: the products of packed tiles, then what is left of the depth.
  method TileProduct(p: nat, npb: nat, nx: nat, nnb: nat, x: nat, y: nat,
                     a: array2<real>, ar: nat, ac: nat, b: array2<real>, br: nat, bc: nat,
                     a1: array2<real>, b1: array2<real>, c1: array2<real>, ghost t: Task)
    requires npb == p / CBK && x < nx && y < nnb
    requires c1 != a && c1 != b && c1 != a1 && c1 != b1
    requires a1.Length0 == nx * npb * TILE && a1.Length1 == CBK
    requires b1.Length0 == npb * nnb * TILE && b1.Length1 == CBN
    requires c1.Length0 == nx * nnb * TILE && c1.Length1 == CBN
    requires ar + TILE * nx <= a.Length0 && ac + p <= a.Length1 && br + p <= b.Length0 && bc + WIDTH * nnb <= b.Length1
    requires PlacedAt(t, ar, ac, br, bc) && Operands(t, Rows(a), Rows(b), TILE * nx, WIDTH * nnb, p)
    requires CopiedUpTo(Rows(a1), t.a, ar, ac, npb, CBK, nx, 0)
    requires CopiedUpTo(Rows(b1), t.b, br, bc, nnb, CBN, npb, 0)
    modifies c1
    ensures Added(old(Rows(c1)), Rows(c1), TileTask(t, nnb, x, y), CBM, CBN, p)
  {
    hide Rows, Added, TileRow, SameBlock, CopiedUpTo, Operands;
    var row := TileRow(nnb, x, y);
    TileFits(nx, nnb, x, y);
    ghost var start, ra, rb := Rows(c1), Rows(a), Rows(b);
    ghost var u := TileTask(t, nnb, x, y);
    AddedNone(start, u, CBM, CBN, 0);
    var z: nat := 0;
    while z < npb
      invariant z <= npb && Rows(a) == ra && Rows(b) == rb
      invariant CopiedUpTo(Rows(a1), t.a, ar, ac, npb, CBK, nx, 0)
                && CopiedUpTo(Rows(b1), t.b, br, bc, nnb, CBN, npb, 0)
      invariant Added(start, Rows(c1), u, CBM, CBN, CBK * z)
    {
      ghost var before := Rows(c1);
      TileFits(nx, npb, x, z);
      TileFits(npb, nnb, z, y);
      MmRb(CBM, CBN, CBK, a1, TileRow(npb, x, z), 0, b1, TileRow(nnb, z, y), 0, c1, row, 0);
      CopiedTile(Rows(a1), t.a, ar, ac, npb, CBK, nx, x, z);
      CopiedTile(Rows(b1), t.b, br, bc, nnb, CBN, npb, z, y);
      AddedFrom(before, Rows(c1), TaskOf(a1, TileRow(npb, x, z), 0, b1, TileRow(nnb, z, y), 0, row, 0),
                u.Deeper(CBK * z), CBM, CBN, CBK);
      DepthSplit(start, before, Rows(c1), u, CBM, CBN, CBK * z, CBK);
      z := z + 1;
    }
    var pb := npb * CBK;
    if pb < p {
      ghost var before := Rows(c1);
      Multiple(WIDTH, y, nnb);
      MmRb(CBM, CBN, p - pb, a, ar + TILE * x, ac + pb, b, br + pb, bc + WIDTH * y, c1, row, 0);
      InTile(t, ra, rb, nx, nnb, p, x, y, pb);
      AddedFrom(before, Rows(c1), TaskOf(a, ar + TILE * x, ac + pb, b, br + pb, bc + WIDTH * y, row, 0),
                u.Deeper(pb), CBM, CBN, p - pb);
      DepthSplit(start, before, Rows(c1), u, CBM, CBN, pb, p - pb);
    }
  }

  // The operands of a task begin at these places.
  ghost predicate PlacedAt(t: Task, ar: nat, ac: nat, br: nat, bc: nat)
  {
    t.ar == ar && t.ac == ac && t.br == br && t.bc == bc
  }

  // The operands of a tile, from depth k on, are in place.
  lemma InTile(t: Task, ra: Matrix, rb: Matrix, nx: nat, nnb: nat, p: nat, x: nat, y: nat, k: nat)
    requires Operands(t, ra, rb, TILE * nx, WIDTH * nnb, p) && x < nx && y < nnb && k <= p
    ensures SameBlock(ra, t.ar + TILE * x, t.ac + k, t.a, t.ar + TILE * x, t.ac + k, CBM, p - k)
    ensures SameBlock(rb, t.br + k, t.bc + WIDTH * y, t.b, t.br + k, t.bc + WIDTH * y, p - k, CBN)
  {
    hide SameBlock;
    Multiple(TILE, x, nx);
    Multiple(WIDTH, y, nnb);
    PartOfBlock(ra, t.ar, t.ac, t.a, t.ar, t.ac, TILE * nx, p, TILE * x, k, CBM, p - k);
    PartOfBlock(rb, t.br, t.bc, t.b, t.br, t.bc, p, WIDTH * nnb, k, WIDTH * y, p - k, CBN);
  }

  lemma CopiedTile(d: Matrix, s: Matrix, sr: int, sc: int, ny: nat, w: nat, nx: nat, x: nat, y: nat)
    requires CopiedUpTo(d, s, sr, sc, ny, w, nx, 0) && x < nx && y < ny
    ensures SameBlock(d, TileRow(ny, x, y), 0, s, sr + TILE * x, sc + w * y, TILE, w)
  {
    hide SameBlock;
    assert Before(x, y, nx, 0);
    assert TileCopied(d, s, sr, sc, ny, w, x, y);
  }

  // A block at an edge: its depth is gone through CBK steps at a time.
  method DepthBlocks(m: nat, n: nat, p: nat, a: array2<real>, ar: nat, ac: nat, b: array2<real>, br: nat, bc: nat,
                     c: array2<real>, cr: nat, cc: nat)
    requires Fits(m, n, p, a, ar, ac, b, br, bc, c, cr, cc)
    modifies c
    ensures Added(old(Rows(c)), Rows(c), old(TaskOf(a, ar, ac, b, br, bc, cr, cc)), m, n, p)
  {
    hide Rows, Added, Operands;
    ghost var start, t := Rows(c), TaskOf(a, ar, ac, b, br, bc, cr, cc);
    AddedNone(start, t, m, n, 0);
    OperandsFirst(t, m, n, p);
    var k: nat := 0;
    ghost var done: nat := 0;
    while k < p
      invariant done == (if k < p then k else p) && Operands(t, Rows(a), Rows(b), m, n, p)
      invariant Added(start, Rows(c), t, m, n, done)
      decreases p - k
    {
      ghost var before, ra, rb := Rows(c), Rows(a), Rows(b);
      var depth := if p - k < CBK then p - k else CBK;
      MmRb(m, n, depth, a, ar, ac + k, b, br + k, bc, c, cr, cc);
      Within(t, m, n, p, ra, Rows(a), rb, Rows(b), before, Rows(c), 0, 0, k, m, n, depth);
      DepthSplit(start, before, Rows(c), t, m, n, k, depth);
      k := k + CBK;
      done := done + depth;
    }
  }

  // The rows below the tiles, CBN columns at a time.
  method BottomStrip(m: nat, n: nat, p: nat, a: array2<real>, ar: nat, ac: nat, b: array2<real>, br: nat, bc: nat,
                     c: array2<real>, cr: nat, cc: nat)
    requires Fits(m, n, p, a, ar, ac, b, br, bc, c, cr, cc)
    modifies c
    ensures Added(old(Rows(c)), Rows(c), old(TaskOf(a, ar, ac, b, br, bc, cr, cc)), m, n, p)
  {
    hide Rows, Added, Operands;
    ghost var start, t := Rows(c), TaskOf(a, ar, ac, b, br, bc, cr, cc);
    AddedNone(start, t, m, 0, p);
    OperandsFirst(t, m, n, p);
    var j: nat := 0;
    ghost var done: nat := 0;
    while j < n
      invariant done == (if j < n then j else n) && Operands(t, Rows(a), Rows(b), m, n, p)
      invariant Added(start, Rows(c), t, m, done, p)
      decreases n - j
    {
      ghost var before, ra, rb := Rows(c), Rows(a), Rows(b);
      var width := if n - j < CBN then n - j else CBN;
      DepthBlocks(m, width, p, a, ar, ac, b, br, bc + j, c, cr, cc + j);
      Within(t, m, n, p, ra, Rows(a), rb, Rows(b), before, Rows(c), 0, j, 0, m, width, p);
      ColumnsSplit(start, before, Rows(c), t, m, j, width, p);
      j := j + CBN;
      done := done + width;
    }
  }

  // All tiles are copied back.
  method Unpack(c: array2<real>, cr: nat, cc: nat, d: array2<real>, nx: nat, ny: nat)
    requires c != d && d.Length0 == nx * ny * TILE && d.Length1 == CBN
    requires cr + TILE * nx <= c.Length0 && cc + WIDTH * ny <= c.Length1
    modifies c
    ensures BackUpTo(old(Rows(c)), Rows(c), cr, cc, Rows(d), nx, ny, nx, 0)
  {
    hide BackUpTo, Pasted, TileRow;
    ghost var start, tiles := Rows(c), Rows(d);
    BackStart(start, cr, cc, tiles, nx, ny);
    var x: nat := 0;
    while x < nx
      invariant x <= nx && Rows(d) == tiles
      invariant BackUpTo(start, Rows(c), cr, cc, tiles, nx, ny, x, 0)
    {
      var y: nat := 0;
      while y < ny
        invariant y <= ny && Rows(d) == tiles
        invariant BackUpTo(start, Rows(c), cr, cc, tiles, nx, ny, x, y)
      {
        ghost var before := Rows(c);
        TileFits(nx, ny, x, y);
        Repack(c, cr + TILE * x, cc + WIDTH * y, d, TileRow(ny, x, y), 0, TILE, CBN);
        BackNext(start, before, Rows(c), cr, cc, tiles, nx, ny, x, y);
        y := y + 1;
      }
      BackRowDone(start, Rows(c), cr, cc, tiles, nx, ny, x);
      x := x + 1;
    }
  }

  // One row of tiles: their products, and the part of the result to the right of them.
  method TileRowProducts(m: nat, n: nat, p: nat, npb: nat, nx: nat, nnb: nat, x: nat,
                         a: array2<real>, ar: nat, ac: nat, b: array2<real>, br: nat, bc: nat,
                         a1: array2<real>, b1: array2<real>, c1: array2<real>, ghost c0: Matrix, ghost t: Task)
    requires npb == p / CBK && x < nx
    requires c1 != a && c1 != b && c1 != a1 && c1 != b1
    requires a1.Length0 == nx * npb * TILE && a1.Length1 == CBK
    requires b1.Length0 == npb * nnb * TILE && b1.Length1 == CBN
    requires c1.Length0 == nx * nnb * TILE && c1.Length1 == CBN
    requires ar + TILE * nx <= a.Length0 && ac + p <= a.Length1 && br + p <= b.Length0 && bc + WIDTH * nnb <= b.Length1
    requires PlacedAt(t, ar, ac, br, bc) && Operands(t, Rows(a), Rows(b), TILE * nx, WIDTH * nnb, p)
    requires CopiedUpTo(Rows(a1), t.a, ar, ac, npb, CBK, nx, 0)
    requires CopiedUpTo(Rows(b1), t.b, br, bc, nnb, CBN, npb, 0)
    requires WorkedUpTo(Rows(c1), c0, t, nx, nnb, p, x, 0)
    modifies c1
    ensures WorkedUpTo(Rows(c1), c0, t, nx, nnb, p, x + 1, 0)
  {
    hide Added, TileRow, CopiedUpTo, WorkedUpTo, Operands;
    ghost var ra, rb := Rows(a), Rows(b);
    var y: nat := 0;
    while y < nnb
      invariant y <= nnb && Rows(a) == ra && Rows(b) == rb
      invariant CopiedUpTo(Rows(a1), t.a, ar, ac, npb, CBK, nx, 0)
                && CopiedUpTo(Rows(b1), t.b, br, bc, nnb, CBN, npb, 0)
      invariant WorkedUpTo(Rows(c1), c0, t, nx, nnb, p, x, y)
    {
      ghost var before := Rows(c1);
      TileFits(nx, nnb, x, y);
      TileProduct(p, npb, nx, nnb, x, y, a, ar, ac, b, br, bc, a1, b1, c1, t);
      WorkNext(before, Rows(c1), c0, t, nx, nnb, p, x, y);
      y := y + 1;
    }
    WorkRowDone(Rows(c1), c0, t, nx, nnb, p, x);
  }

  // The tiles and the strip to their right, one row of tiles at a time.
  method Strips(m: nat, n: nat, p: nat, npb: nat, nx: nat, nnb: nat,
                a: array2<real>, ar: nat, ac: nat, b: array2<real>, br: nat, bc: nat, c: array2<real>, cr: nat, cc: nat,
                a1: array2<real>, b1: array2<real>, c1: array2<real>)
    requires Fits(m, n, p, a, ar, ac, b, br, bc, c, cr, cc)
    requires npb == p / CBK && nnb == n / CBN && nx == m / CBM
    requires c1 != a && c1 != b && c1 != a1 && c1 != b1 && c1 != c && c != a1 && c != b1
    requires a1.Length0 == nx * npb * TILE && a1.Length1 == CBK
    requires b1.Length0 == npb * nnb * TILE && b1.Length1 == CBN
    requires c1.Length0 == nx * nnb * TILE && c1.Length1 == CBN
    requires CopiedUpTo(Rows(a1), Rows(a), ar, ac, npb, CBK, nx, 0)
    requires CopiedUpTo(Rows(b1), Rows(b), br, bc, nnb, CBN, npb, 0)
    requires CopiedUpTo(Rows(c1), Rows(c), cr, cc, nnb, CBN, nx, 0)
    modifies c, c1
    ensures var t := old(TaskOf(a, ar, ac, b, br, bc, cr, cc));
            && Added(old(Rows(c)), Rows(c), t.Right(WIDTH * nnb), TILE * nx, n - WIDTH * nnb, p)
            && WorkedUpTo(Rows(c1), old(Rows(c)), t, nx, nnb, p, nx, 0)
  {
    hide Added, TileRow, CopiedUpTo, WorkedUpTo, Rows, Operands;
    ghost var c0, t := Rows(c), TaskOf(a, ar, ac, b, br, bc, cr, cc);
    OperandsFirst(t, m, n, p);
    ghost var right := t.Right(WIDTH * nnb);
    var nb := nnb * CBN;
    WorkStart(Rows(c1), c0, t, nx, nnb, p);
    AddedNone(c0, right, 0, n - nb, p);
    var x: nat := 0;
    while x < nx
      invariant x <= nx && Operands(t, Rows(a), Rows(b), m, n, p)
      invariant CopiedUpTo(Rows(a1), t.a, ar, ac, npb, CBK, nx, 0)
                && CopiedUpTo(Rows(b1), t.b, br, bc, nnb, CBN, npb, 0)
      invariant WorkedUpTo(Rows(c1), c0, t, nx, nnb, p, x, 0)
      invariant Added(c0, Rows(c), right, TILE * x, n - nb, p)
    {
      FewerOperands(t, Rows(a), Rows(b), m, n, p, TILE * nx, WIDTH * nnb);
      TileRowProducts(m, n, p, npb, nx, nnb, x, a, ar, ac, b, br, bc, a1, b1, c1, c0, t);
      ghost var before, ra, rb := Rows(c), Rows(a), Rows(b);
      if nb < n {
        DepthBlocks(CBM, n - nb, p, a, ar + TILE * x, ac, b, br, bc + nb, c, cr + TILE * x, cc + nb);
        Within(t, m, n, p, ra, Rows(a), rb, Rows(b), before, Rows(c), TILE * x, nb, 0, CBM, n - nb, p);
      } else {
        AddedNone(before, right.Down(TILE * x), CBM, n - nb, p);
      }
      RowsSplit(c0, before, Rows(c), right, TILE * x, CBM, n - nb, p);
      x := x + 1;
    }
  }

  method MmCb(m: nat, n: nat, p: nat, a: array2<real>, ar: nat, ac: nat, b: array2<real>, br: nat, bc: nat,
              c: array2<real>, cr: nat, cc: nat)
    requires Fits(m, n, p, a, ar, ac, b, br, bc, c, cr, cc)
    modifies c
    ensures Added(old(Rows(c)), Rows(c), old(TaskOf(a, ar, ac, b, br, bc, cr, cc)), m, n, p)
  {
    hide Added, TileRow, CopiedUpTo, WorkedUpTo, BackUpTo, Rows, Operands;
    var nmb, nnb, npb := m / CBM, n / CBN, p / CBK;
    var mb := nmb * CBM;
    var a1 := new real[nmb * npb * CBM, CBK]((_, _) => 0.0);
    var b1 := new real[npb * nnb * CBK, CBN]((_, _) => 0.0);
    var c1 := new real[nmb * nnb * CBM, CBN]((_, _) => 0.0);
    ghost var c0, t := Rows(c), TaskOf(a, ar, ac, b, br, bc, cr, cc);
    Pack(a1, a, ar, ac, nmb, npb, CBK);
    Pack(b1, b, br, bc, npb, nnb, CBN);
    Pack(c1, c, cr, cc, nmb, nnb, CBN);
    assert TaskOf(a, ar, ac, b, br, bc, cr, cc) == t && Rows(c) == c0;
    Strips(m, n, p, npb, nmb, nnb, a, ar, ac, b, br, bc, c, cr, cc, a1, b1, c1);
    ghost var ca, ra, rb := Rows(c), Rows(a), Rows(b);
    OperandsFirst(t, m, n, p);
    Within(t, m, n, p, t.a, ra, t.b, rb, c0, ca, 0, nnb * CBN, 0, mb, n - nnb * CBN, p);
    if mb < m {
      BottomStrip(m - mb, n, p, a, ar + mb, ac, b, br, bc, c, cr + mb, cc);
      Within(t, m, n, p, ra, Rows(a), rb, Rows(b), ca, Rows(c), mb, 0, 0, m - mb, n, p);
    } else {
      AddedNone(ca, t.Down(mb), m - mb, n, p);
    }
    ghost var cb := Rows(c);
    Unpack(c, cr, cc, c1, nmb, nnb);
    WholeBlock(c0, ca, cb, Rows(c), t, m, n, p, nmb, nnb, Rows(c1));
  }

  lemma FewerOperands(t: Task, ra: Matrix, rb: Matrix, m: nat, n: nat, p: nat, m1: nat, n1: nat)
    requires Operands(t, ra, rb, m, n, p) && m1 <= m && n1 <= n
    ensures Operands(t, ra, rb, m1, n1, p)
  {
    hide SameBlock;
    PartOfBlock(ra, t.ar, t.ac, t.a, t.ar, t.ac, m, p, 0, 0, m1, p);
    PartOfBlock(rb, t.br, t.bc, t.b, t.br, t.bc, p, n, 0, 0, p, n1);
  }

  // mm: c := c + a b on a block of m by n, and nothing else changes, whichever way is taken;
  // the blocks may lie in one matrix.
  method Mm(m: nat, n: nat, p: nat, a: array2<real>, ar: nat, ac: nat, b: array2<real>, br: nat, bc: nat,
            c: array2<real>, cr: nat, cc: nat)
    requires Fits(m, n, p, a, ar, ac, b, br, bc, c, cr, cc)
    modifies c
    ensures forall r, s | 0 <= r < c.Length0 && 0 <= s < c.Length1 ::
              c[r, s] == old(c[r, s]) + if cr <= r < cr + m && cc <= s < cc + n
                                        then old(Dot(Rows(a), ar + r - cr, ac, Rows(b), br, bc + s - cc, p)) else 0.0
  {
    ghost var c0, t := Rows(c), TaskOf(a, ar, ac, b, br, bc, cr, cc);
    if m <= 2 * CBM && n <= 2 * CBN && p <= 2 * CBK {
      MmRb(m, n, p, a, ar, ac, b, br, bc, c, cr, cc);
    } else {
      MmCb(m, n, p, a, ar, ac, b, br, bc, c, cr, cc);
    }
    hide Dot;
    forall r, s | 0 <= r < c.Length0 && 0 <= s < c.Length1
      ensures c[r, s] == c0[r][s] + t.Term(m, n, p, r, s)
    {
      AddedAt(c0, Rows(c), t, m, n, p, r, s);
    }
  }
}
