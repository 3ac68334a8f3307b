/**
 Matrices cut into tiles: where the tiles of a packed copy lie, and what becomes of a result
 that is worked on tile by tile.
 */
module CacheBlocks {
  import opened MatrixProduct

  // All tiles have this many rows, in every one of the packed copies.
  const TILE: nat := 24

  // The tile (x, y) of a copy with ny tiles in a row of tiles begins in this row.
  function TileRow(ny: nat, x: nat, y: nat): nat { (ny * x + y) * TILE }

  lemma TileOrder(ny: nat, x: nat, y: nat, x': nat, y': nat)
    requires y < ny && y' < ny && Before(x, y, x', y')
    ensures TileRow(ny, x, y) + TILE <= TileRow(ny, x', y')
  {
    if x < x' {
      Product(ny, x + 1, x');
      assert ny * (x + 1) == ny * x + ny;
    }
  }

  lemma Product(ny: nat, x: nat, x': nat)
    requires x <= x'
    ensures ny * x <= ny * x'
  {
  }

  // A copy of nx by ny tiles has room for each of them.
  lemma TileFits(nx: nat, ny: nat, x: nat, y: nat)
    requires x < nx && y < ny
    ensures TileRow(ny, x, y) + TILE <= nx * ny * TILE
  {
    Product(ny, x + 1, nx);
    assert ny * (x + 1) == ny * x + ny;
    assert nx * ny == ny * nx;
  }

  predicate Before(x: nat, y: nat, x': nat, y': nat) { x < x' || (x == x' && y < y') }

  lemma TilesApart(ny: nat, x: nat, y: nat, x': nat, y': nat)
    requires y < ny && y' < ny && (x != x' || y != y')
    ensures TileRow(ny, x, y) + TILE <= TileRow(ny, x', y') || TileRow(ny, x', y') + TILE <= TileRow(ny, x, y)
  {
    if Before(x, y, x', y') {
      TileOrder(ny, x, y, x', y');
    } else {
      TileOrder(ny, x', y', x, y);
    }
  }

  // Tile (x, y) of d, of width w, holds a copy of its part of the block of s at (sr, sc).
  ghost predicate TileCopied(d: Matrix, s: Matrix, sr: int, sc: int, ny: nat, w: nat, x: nat, y: nat)
  {
    SameBlock(d, TileRow(ny, x, y), 0, s, sr + TILE * x, sc + w * y, TILE, w)
  }

  // Rows outside the given ones are unchanged.
  ghost predicate RowsKept(d: Matrix, d': Matrix, row: int, m: int)
  {
    && SameShape(d, d')
    && forall r, s {:trigger d'[r][s]} | 0 <= r < |d'| && 0 <= s < |d'[r]| && !(row <= r < row + m) ::
      d'[r][s] == d[r][s]
  }

  lemma PastedKeepsRows(d: Matrix, d': Matrix, dr: int, dc: int, y: Matrix, yr: int, yc: int, m: int, n: int)
    requires Pasted(d, d', dr, dc, y, yr, yc, m, n)
    ensures RowsKept(d, d', dr, m)
  {
  }

  lemma AddedKeepsRows(c: Matrix, c': Matrix, t: Task, m: int, n: int, p: nat)
    requires Added(c, c', t, m, n, p)
    ensures RowsKept(c, c', t.cr, m)
  {
    hide Dot;
  }

  lemma TileKept(d: Matrix, d': Matrix, row: int, m: int, s: Matrix, sr: int, sc: int, ny: nat, w: nat, x: nat, y: nat)
    requires RowsKept(d, d', row, m) && TileCopied(d, s, sr, sc, ny, w, x, y)
    requires row + m <= TileRow(ny, x, y) || TileRow(ny, x, y) + TILE <= row
    ensures TileCopied(d', s, sr, sc, ny, w, x, y)
  {
    hide TileRow;
    var tr := TileRow(ny, x, y);
    forall r, q {:trigger SameCell(d', tr, 0, s, sr + TILE * x, sc + w * y, r, q)} | 0 <= r < TILE && 0 <= q < w
      ensures SameCell(d', tr, 0, s, sr + TILE * x, sc + w * y, r, q)
    {
      assert SameCell(d, tr, 0, s, sr + TILE * x, sc + w * y, r, q);
      RowKept(d, d', row, m, tr + r, q);
    }
  }

  lemma RowKept(d: Matrix, d': Matrix, row: int, m: int, r: int, q: int)
    requires RowsKept(d, d', row, m) && !(row <= r < row + m)
    ensures Get(d', r, q) == Get(d, r, q)
  {
  }

  // All tiles before (x, y) are copied.
  ghost predicate CopiedUpTo(d: Matrix, s: Matrix, sr: int, sc: int, ny: nat, w: nat, x: nat, y: nat)
  {
    forall i: nat, j: nat | j < ny && Before(i, j, x, y) :: TileCopied(d, s, sr, sc, ny, w, i, j)
  }

  lemma CopyNext(d: Matrix, d': Matrix, s: Matrix, sr: int, sc: int, ny: nat, w: nat, x: nat, y: nat)
    requires CopiedUpTo(d, s, sr, sc, ny, w, x, y) && y < ny
    requires Pasted(d, d', TileRow(ny, x, y), 0, s, sr + TILE * x, sc + w * y, TILE, w)
    requires TileRow(ny, x, y) + TILE <= |d| && forall r | 0 <= r < |d| :: w <= |d[r]|
    ensures CopiedUpTo(d', s, sr, sc, ny, w, x, y + 1)
  {
    PastedKeepsRows(d, d', TileRow(ny, x, y), 0, s, sr + TILE * x, sc + w * y, TILE, w);
    PastedBlock(d, d', TileRow(ny, x, y), 0, s, sr + TILE * x, sc + w * y, TILE, w);
    hide Pasted, RowsKept, TileRow;
    forall i: nat, j: nat | j < ny && Before(i, j, x, y + 1)
      ensures TileCopied(d', s, sr, sc, ny, w, i, j)
    {
      if i != x || j != y {
        TilesApart(ny, i, j, x, y);
        TileKept(d, d', TileRow(ny, x, y), TILE, s, sr, sc, ny, w, i, j);
      }
    }
  }

  lemma CopyRowDone(d: Matrix, s: Matrix, sr: int, sc: int, ny: nat, w: nat, x: nat)
    requires CopiedUpTo(d, s, sr, sc, ny, w, x, ny)
    ensures CopiedUpTo(d, s, sr, sc, ny, w, x + 1, 0)
  {
    hide TileCopied;
  }

  lemma CopyStart(d: Matrix, s: Matrix, sr: int, sc: int, ny: nat, w: nat)
    ensures CopiedUpTo(d, s, sr, sc, ny, w, 0, 0)
  {
  }

  // ----- Working on the tiles of the result -----

  const WIDTH: nat := 25

  predicate CellDone(d: Matrix, c0: Matrix, t: Task, ny: nat, x: nat, y: nat, p: nat, r: int, q: int)
  {
    Get(d, TileRow(ny, x, y) + r, q) ==
      Get(c0, t.cr + TILE * x + r, t.cc + WIDTH * y + q)
      + Dot(t.a, t.ar + TILE * x + r, t.ac, t.b, t.br, t.bc + WIDTH * y + q, p)
  }

  // Tile (x, y) of d holds its part of the block of c0 with the product added.
  ghost predicate TileDone(d: Matrix, c0: Matrix, t: Task, ny: nat, x: nat, y: nat, p: nat)
  {
    forall r, q | 0 <= r < TILE && 0 <= q < WIDTH :: CellDone(d, c0, t, ny, x, y, p, r, q)
  }

  // The tiles before (x, y) are done, the others are still copies.
  ghost predicate WorkedUpTo(d: Matrix, c0: Matrix, t: Task, nx: nat, ny: nat, p: nat, x: nat, y: nat)
  {
    forall i: nat, j: nat | i < nx && j < ny :: TileState(d, c0, t, ny, p, x, y, i, j)
  }

  ghost predicate TileState(d: Matrix, c0: Matrix, t: Task, ny: nat, p: nat, x: nat, y: nat, i: nat, j: nat)
  {
    if Before(i, j, x, y) then TileDone(d, c0, t, ny, i, j, p) else TileCopied(d, c0, t.cr, t.cc, ny, WIDTH, i, j)
  }

  function TileTask(t: Task, ny: nat, x: nat, y: nat): Task
  {
    t.Down(TILE * x).Right(WIDTH * y).(cr := TileRow(ny, x, y), cc := 0)
  }

  lemma TileGetsDone(d: Matrix, d': Matrix, c0: Matrix, t: Task, ny: nat, x: nat, y: nat, p: nat)
    requires TileCopied(d, c0, t.cr, t.cc, ny, WIDTH, x, y)
    requires Added(d, d', TileTask(t, ny, x, y), TILE, WIDTH, p)
    requires TileRow(ny, x, y) + TILE <= |d| && forall r | 0 <= r < |d| :: WIDTH <= |d[r]|
    ensures TileDone(d', c0, t, ny, x, y, p)
  {
    hide Dot;
    var row := TileRow(ny, x, y);
    hide TileRow;
    forall r, q | 0 <= r < TILE && 0 <= q < WIDTH
      ensures CellDone(d', c0, t, ny, x, y, p, r, q)
    {
      assert SameCell(d, row, 0, c0, t.cr + TILE * x, t.cc + WIDTH * y, r, q);
      AddedAt(d, d', TileTask(t, ny, x, y), TILE, WIDTH, p, row + r, q);
    }
  }

  lemma DoneTileKept(d: Matrix, d': Matrix, row: int, m: int, c0: Matrix, t: Task, ny: nat, x: nat, y: nat, p: nat)
    requires RowsKept(d, d', row, m) && TileDone(d, c0, t, ny, x, y, p)
    requires row + m <= TileRow(ny, x, y) || TileRow(ny, x, y) + TILE <= row
    ensures TileDone(d', c0, t, ny, x, y, p)
  {
    hide TileRow, Dot;
    forall r, q | 0 <= r < TILE && 0 <= q < WIDTH
      ensures CellDone(d', c0, t, ny, x, y, p, r, q)
    {
      assert CellDone(d, c0, t, ny, x, y, p, r, q);
      RowKept(d, d', row, m, TileRow(ny, x, y) + r, q);
    }
  }

  lemma WorkNext(d: Matrix, d': Matrix, c0: Matrix, t: Task, nx: nat, ny: nat, p: nat, x: nat, y: nat)
    requires WorkedUpTo(d, c0, t, nx, ny, p, x, y) && x < nx && y < ny
    requires Added(d, d', TileTask(t, ny, x, y), TILE, WIDTH, p)
    requires TileRow(ny, x, y) + TILE <= |d| && forall r | 0 <= r < |d| :: WIDTH <= |d[r]|
    ensures WorkedUpTo(d', c0, t, nx, ny, p, x, y + 1)
  {
    AddedKeepsRows(d, d', TileTask(t, ny, x, y), TILE, WIDTH, p);
    assert TileState(d, c0, t, ny, p, x, y, x, y);
    TileGetsDone(d, d', c0, t, ny, x, y, p);
    hide Added, RowsKept, TileRow, TileDone, TileCopied;
    forall i: nat, j: nat {:trigger TileState(d', c0, t, ny, p, x, y + 1, i, j)} | i < nx && j < ny
      ensures TileState(d', c0, t, ny, p, x, y + 1, i, j)
    {
      assert TileState(d, c0, t, ny, p, x, y, i, j);
      if i != x || j != y {
        TilesApart(ny, i, j, x, y);
        if Before(i, j, x, y) {
          DoneTileKept(d, d', TileRow(ny, x, y), TILE, c0, t, ny, i, j, p);
        } else {
          TileKept(d, d', TileRow(ny, x, y), TILE, c0, t.cr, t.cc, ny, WIDTH, i, j);
        }
      }
    }
  }

  lemma WorkStart(d: Matrix, c0: Matrix, t: Task, nx: nat, ny: nat, p: nat)
    requires CopiedUpTo(d, c0, t.cr, t.cc, ny, WIDTH, nx, 0)
    ensures WorkedUpTo(d, c0, t, nx, ny, p, 0, 0)
  {
    hide TileCopied, TileDone;
    forall i: nat, j: nat {:trigger TileState(d, c0, t, ny, p, 0, 0, i, j)} | i < nx && j < ny
      ensures TileState(d, c0, t, ny, p, 0, 0, i, j)
    {
      assert Before(i, j, nx, 0);
      assert TileCopied(d, c0, t.cr, t.cc, ny, WIDTH, i, j);
    }
  }

  lemma WorkRowDone(d: Matrix, c0: Matrix, t: Task, nx: nat, ny: nat, p: nat, x: nat)
    requires WorkedUpTo(d, c0, t, nx, ny, p, x, ny)
    ensures WorkedUpTo(d, c0, t, nx, ny, p, x + 1, 0)
  {
    hide TileCopied, TileDone;
    forall i: nat, j: nat {:trigger TileState(d, c0, t, ny, p, x + 1, 0, i, j)} | i < nx && j < ny
      ensures TileState(d, c0, t, ny, p, x + 1, 0, i, j)
    {
      assert TileState(d, c0, t, ny, p, x, ny, i, j);
    }
  }

  // ----- Writing the tiles back -----

  // The part of c that belongs to tile (x, y) holds what the tile holds.
  ghost predicate TileBack(c: Matrix, cr: int, cc: int, d: Matrix, ny: nat, x: nat, y: nat)
  {
    SameBlock(c, cr + TILE * x, cc + WIDTH * y, d, TileRow(ny, x, y), 0, TILE, WIDTH)
  }

  // All tiles before (x, y) are back, and c is otherwise as it was.
  ghost predicate BackUpTo(c: Matrix, c': Matrix, cr: int, cc: int, d: Matrix, nx: nat, ny: nat, x: nat, y: nat)
  {
    && SameShape(c, c')
    && (forall i: nat, j: nat | i < nx && j < ny && Before(i, j, x, y) :: TileBack(c', cr, cc, d, ny, i, j))
    && forall r, s {:trigger c'[r][s]} | 0 <= r < |c'| && 0 <= s < |c'[r]|
      && !(cr <= r < cr + TILE * nx && cc <= s < cc + WIDTH * ny) :: c'[r][s] == c[r][s]
  }

  lemma BackNext(c: Matrix, c1: Matrix, c2: Matrix, cr: int, cc: int, d: Matrix, nx: nat, ny: nat, x: nat, y: nat)
    requires BackUpTo(c, c1, cr, cc, d, nx, ny, x, y) && x < nx && y < ny && 0 <= cr && 0 <= cc
    requires Pasted(c1, c2, cr + TILE * x, cc + WIDTH * y, d, TileRow(ny, x, y), 0, TILE, WIDTH)
    requires cr + TILE * nx <= |c1| && forall r | 0 <= r < |c1| :: cc + WIDTH * ny <= |c1[r]|
    ensures BackUpTo(c, c2, cr, cc, d, nx, ny, x, y + 1)
  {
    PastedBlock(c1, c2, cr + TILE * x, cc + WIDTH * y, d, TileRow(ny, x, y), 0, TILE, WIDTH);
    forall i: nat, j: nat | i < nx && j < ny && Before(i, j, x, y + 1)
      ensures TileBack(c2, cr, cc, d, ny, i, j)
    {
      if i != x || j != y {
        BackKept(c1, c2, cr, cc, d, ny, x, y, i, j);
      }
    }
  }

  lemma BackKept(c1: Matrix, c2: Matrix, cr: int, cc: int, d: Matrix, ny: nat, x: nat, y: nat, i: nat, j: nat)
    requires TileBack(c1, cr, cc, d, ny, i, j) && (i != x || j != y)
    requires Pasted(c1, c2, cr + TILE * x, cc + WIDTH * y, d, TileRow(ny, x, y), 0, TILE, WIDTH)
    ensures TileBack(c2, cr, cc, d, ny, i, j)
  {
    hide TileRow;
    var row := TileRow(ny, i, j);
    forall r, s {:trigger SameCell(c2, cr + TILE * i, cc + WIDTH * j, d, row, 0, r, s)}
        | 0 <= r < TILE && 0 <= s < WIDTH
      ensures SameCell(c2, cr + TILE * i, cc + WIDTH * j, d, row, 0, r, s)
    {
      assert SameCell(c1, cr + TILE * i, cc + WIDTH * j, d, row, 0, r, s);
      assert !(cr + TILE * x <= cr + TILE * i + r < cr + TILE * x + TILE
               && cc + WIDTH * y <= cc + WIDTH * j + s < cc + WIDTH * y + WIDTH);
    }
  }

  lemma BackStart(c: Matrix, cr: int, cc: int, d: Matrix, nx: nat, ny: nat)
    ensures BackUpTo(c, c, cr, cc, d, nx, ny, 0, 0)
  {
  }

  lemma BackRowDone(c: Matrix, c': Matrix, cr: int, cc: int, d: Matrix, nx: nat, ny: nat, x: nat)
    requires BackUpTo(c, c', cr, cc, d, nx, ny, x, ny)
    ensures BackUpTo(c, c', cr, cc, d, nx, ny, x + 1, 0)
  {
    hide TileBack;
  }

  // ----- The whole -----

  // Right of the tiles, below the tiles, and the tiles: together the whole block.
  lemma WholeBlock(c0: Matrix, ca: Matrix, cb: Matrix, c': Matrix, t: Task, m: nat, n: nat, p: nat, nx: nat, ny: nat,
                   d: Matrix)
    requires TILE * nx <= m && WIDTH * ny <= n && 0 <= t.cr && 0 <= t.cc
    requires Added(c0, ca, t.Right(WIDTH * ny), TILE * nx, n - WIDTH * ny, p)
    requires Added(ca, cb, t.Down(TILE * nx), m - TILE * nx, n, p)
    requires BackUpTo(cb, c', t.cr, t.cc, d, nx, ny, nx, 0)
    requires WorkedUpTo(d, c0, t, nx, ny, p, nx, 0)
    ensures Added(c0, c', t, m, n, p)
  {
    hide Dot, TileRow, TileDone, TileBack;
    forall r, s | 0 <= r < |c'| && 0 <= s < |c'[r]|
      ensures c'[r][s] == Get(c0, r, s) + t.Term(m, n, p, r, s)
    {
      if t.cr <= r < t.cr + TILE * nx && t.cc <= s < t.cc + WIDTH * ny {
        WholeTile(c0, c', t, m, n, p, nx, ny, d, r, s);
      } else {
        AddedAt(c0, ca, t.Right(WIDTH * ny), TILE * nx, n - WIDTH * ny, p, r, s);
        AddedAt(ca, cb, t.Down(TILE * nx), m - TILE * nx, n, p, r, s);
        assert c'[r][s] == cb[r][s];
      }
    }
  }

  lemma WholeTile(c0: Matrix, c': Matrix, t: Task, m: nat, n: nat, p: nat, nx: nat, ny: nat, d: Matrix, r: nat, s: nat)
    requires TILE * nx <= m && WIDTH * ny <= n && r < |c'| && s < |c'[r]|
    requires t.cr <= r < t.cr + TILE * nx && t.cc <= s < t.cc + WIDTH * ny
    requires forall i: nat, j: nat | i < nx && j < ny && Before(i, j, nx, 0) :: TileBack(c', t.cr, t.cc, d, ny, i, j)
    requires WorkedUpTo(d, c0, t, nx, ny, p, nx, 0)
    ensures c'[r][s] == Get(c0, r, s) + t.Term(m, n, p, r, s)
  {
    hide Dot, TileRow;
    var x, y := (r - t.cr) / TILE, (s - t.cc) / WIDTH;
    var r0, s0 := (r - t.cr) % TILE, (s - t.cc) % WIDTH;
    assert x < nx && y < ny && r == t.cr + TILE * x + r0 && s == t.cc + WIDTH * y + s0;
    assert Before(x, y, nx, 0);
    assert TileBack(c', t.cr, t.cc, d, ny, x, y) && TileState(d, c0, t, ny, p, nx, 0, x, y);
    assert SameCell(c', t.cr + TILE * x, t.cc + WIDTH * y, d, TileRow(ny, x, y), 0, r0, s0);
    assert CellDone(d, c0, t, ny, x, y, p, r0, s0);
  }
}
