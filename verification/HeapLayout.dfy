/**
 What the allocator promises, stated on the layout of the heap alone: the blocks,
 live and free, in address order. `TinyMalloc` shows that the code, which sees only
 headers and a free list inside raw memory, computes exactly these functions.
 */
module HeapLayout {
  import opened FlatMemory
  import opened Remainder

  // sizeof (struct freelist_entry)
  const ENTRY: nat := 2 * WORD

  // MALLOC_MINIMUM_GAP
  const GAP: nat := 32

  // The largest request whose REAL_SIZE is a size_t.
  const MAX_REQUEST: nat := SIZE_MOD - ENTRY

  // ----- Size arithmetic -----

  // M_ALIGN: the bytes to add to x to reach a multiple of align. For a power of two
  // the mask in the macro is this remainder (`Masks.MaskIsMAlign`).
  function MAlign(x: nat, align: nat): (g: nat)
    requires align > 0
    ensures g < align
  {
    if Rem(x, align) == 0 then 0 else align - Rem(x, align)
  }

  predicate PowerOfTwo(a: nat)
  {
    a == 1 || (a > 0 && a % 2 == 0 && PowerOfTwo(a / 2))
  }

  // A sum of two size_t.
  function Sum(x: nat, y: nat): nat { (x + y) % SIZE_MOD }

  // REAL_SIZE, with the wrap-around of size_t.
  function RealSize(sz: nat): nat
  {
    if sz < ENTRY - WORD then ENTRY else (sz + WORD + MAlign(sz, WORD)) % SIZE_MOD
  }

  // A block of this size has a header, space for the request and room for a free
  // list entry, and keeps the next block aligned.
  predicate FitsRequest(size: nat, sz: nat)
  {
    size >= ENTRY && size >= sz + WORD && size % WORD == 0
  }

  // REAL_SIZE gives a usable block exactly when the request is at most
  // SIZE_MAX - 15; above that the sum wraps and the block is too small.
  lemma RealSizeExact(sz: nat)
    requires sz < SIZE_MOD
    ensures FitsRequest(RealSize(sz), sz) <==> sz <= MAX_REQUEST
    ensures sz <= MAX_REQUEST ==> RealSize(sz) < SIZE_MOD && RealSize(sz) <= sz + ENTRY
  {
    RemIsMod(sz, WORD);
  }

  // No smaller block would do.
  lemma RealSizeLeast(sz: nat, n: nat)
    requires sz <= MAX_REQUEST && FitsRequest(n, sz)
    ensures RealSize(sz) <= n
  {
    RemIsMod(sz, WORD);
  }

  lemma RealSizeWraps()
    ensures RealSize(SIZE_MOD - 1) == WORD
  {
    RemIsMod(SIZE_MOD - 1, WORD);
  }

  // CAN_ALLOC_P: is there room for this many bytes between the end of the heap and
  // the gap below the stack? The subtraction is on size_t.
  predicate CanAlloc(limit: nat, end: nat, required: nat)
  {
    (limit - end - GAP) % SIZE_MOD >= required
  }

  lemma CanAllocBelowGap(limit: nat, end: nat, required: nat)
    requires end + GAP <= limit < SIZE_MOD
    ensures CanAlloc(limit, end, required) <==> end + required + GAP <= limit
  {
  }

  // The test answers the question exactly when the stack has not already come
  // closer to the heap than the gap: below that the difference wraps and every
  // request up to an enormous size is granted.
  lemma CanAllocExact(limit: nat, end: nat)
    requires limit < SIZE_MOD && end < SIZE_MOD
    ensures (forall required: nat | required < SIZE_MOD ::
               CanAlloc(limit, end, required) <==> end + required + GAP <= limit)
            <==> end + GAP <= limit
  {
    if end + GAP > limit {
      assert CanAlloc(limit, end, 0);
    }
  }

  // With the stack closer than the gap, the smallest block is granted although it does not fit
  // (unless the heap ends within a few words of the top of the address space).
  lemma CanAllocWraps(limit: nat, end: nat)
    requires limit < end + GAP <= SIZE_MOD - ENTRY
    ensures CanAlloc(limit, end, ENTRY) && end + ENTRY + GAP > limit
  {
    assert (limit - end - GAP) % SIZE_MOD == limit - end - GAP + SIZE_MOD;
  }

  // ----- Layout -----

  datatype Tile =
    | Free(addr: nat, size: nat)
    | Live(addr: nat, size: nat, request: nat)

  datatype Layout = Layout(start: nat, end: nat, tiles: seq<Tile>) {

    // Where tile i begins, or the end of the heap.
    function Edge(i: nat): nat
      requires i <= |tiles|
    {
      if i < |tiles| then tiles[i].addr else end
    }

    // Block i can hold a free list entry and its request, ends where the next one
    // begins, and does not touch another free block if it is free.
    ghost predicate TileOk(i: nat)
      requires i < |tiles|
    {
      && GoodTile(tiles[i])
      && tiles[i].addr + tiles[i].size == Edge(i + 1)
      && (i + 1 < |tiles| ==> !(tiles[i].Free? && tiles[i + 1].Free?))
    }

    // The blocks tile the heap without holes or overlaps.
    ghost predicate Valid()
    {
      && start > 0 && start % WORD == 0 && Edge(0) == start
      && forall i: nat {:trigger TileOk(i)} | i < |tiles| :: TileOk(i)
    }

    function LiveTiles(): set<Tile>
    {
      LiveOf(tiles)
    }

    // Replaces tiles[i..j] and moves the end of the heap.
    function Splice(i: nat, j: nat, mid: seq<Tile>, end': nat): Layout
      requires i <= j <= |tiles|
    {
      Layout(start, end', tiles[..i] + mid + tiles[j..])
    }
  }

  function LiveOf(ts: seq<Tile>): set<Tile>
  {
    if ts == [] then {} else (if ts[0].Live? then {ts[0]} else {}) + LiveOf(ts[1..])
  }

  lemma {:induction false} InLive(ts: seq<Tile>)
    ensures forall t :: t in LiveOf(ts) <==> t in ts && t.Live?
  {
    if ts != [] {
      InLive(ts[1..]);
      assert ts == [ts[0]] + ts[1..];
    }
  }

  lemma {:induction false} LiveConcat(a: seq<Tile>, b: seq<Tile>)
    ensures LiveOf(a + b) == LiveOf(a) + LiveOf(b)
  {
    InLive(a);
    InLive(b);
    InLive(a + b);
  }

  predicate GoodTile(t: Tile)
  {
    && t.size >= ENTRY && t.size % WORD == 0
    && (t.Live? ==> t.size >= t.request + WORD)
  }

  lemma {:induction false} EdgeMonotone(h: Layout, i: nat, j: nat)
    requires h.Valid() && i <= j <= |h.tiles|
    ensures h.Edge(i) <= h.Edge(j)
    decreases j - i
  {
    if i < j {
      assert h.TileOk(i);
      EdgeMonotone(h, i + 1, j);
    }
  }

  lemma {:induction false} Aligned(h: Layout, i: nat)
    requires h.Valid() && i <= |h.tiles|
    ensures h.Edge(i) % WORD == 0 && h.start <= h.Edge(i)
  {
    if i > 0 {
      Aligned(h, i - 1);
      assert h.TileOk(i - 1);
    }
  }

  // Blocks lie inside the heap, in order and apart, at aligned addresses.
  lemma AllApart(h: Layout)
    requires h.Valid()
    ensures h.start <= h.end && h.end % WORD == 0
    ensures forall i | 0 <= i < |h.tiles| ::
              h.start <= h.tiles[i].addr && h.tiles[i].addr + h.tiles[i].size <= h.end
              && h.tiles[i].addr % WORD == 0
    ensures forall i, j | 0 <= i < j < |h.tiles| ::
              h.tiles[i].addr + h.tiles[i].size <= h.tiles[j].addr
  {
    Aligned(h, |h.tiles|);
    forall i | 0 <= i < |h.tiles|
      ensures h.start <= h.tiles[i].addr && h.tiles[i].addr + h.tiles[i].size <= h.end
              && h.tiles[i].addr % WORD == 0
    {
      Aligned(h, i);
      assert h.TileOk(i);
      EdgeMonotone(h, i + 1, |h.tiles|);
    }
    forall i, j | 0 <= i < j < |h.tiles|
      ensures h.tiles[i].addr + h.tiles[i].size <= h.tiles[j].addr
    {
      assert h.TileOk(i);
      EdgeMonotone(h, i + 1, j);
    }
  }

  // ----- Splicing -----

  // Tiles i..j may be exchanged for mid when mid covers the same addresses and
  // brings no two free blocks together.
  ghost predicate CanSplice(h: Layout, i: nat, j: nat, mid: seq<Tile>, end': nat)
  {
    && h.Valid() && i <= j <= |h.tiles| && mid != []
    && mid[0].addr == h.Edge(i)
    && (j < |h.tiles| ==> end' == h.end)
    && Last(mid).addr + Last(mid).size == (if j < |h.tiles| then h.tiles[j].addr else end')
    && (forall k | 0 <= k < |mid| :: GoodTile(mid[k]))
    && (forall k, l | 0 <= k < |mid| && l == k + 1 < |mid| ::
          mid[k].addr + mid[k].size == mid[l].addr && !(mid[k].Free? && mid[l].Free?))
    && (i > 0 && h.tiles[i - 1].Free? ==> mid[0].Live?)
    && (j < |h.tiles| && h.tiles[j].Free? ==> Last(mid).Live?)
  }

  function Last(s: seq<Tile>): Tile
    requires s != []
  {
    s[|s| - 1]
  }

  // Tile k after a splice.
  lemma SpliceAt(h: Layout, i: nat, j: nat, mid: seq<Tile>, end': nat, k: nat)
    requires i <= j <= |h.tiles|
    requires k < i + |mid| + (|h.tiles| - j)
    ensures |h.Splice(i, j, mid, end').tiles| == i + |mid| + (|h.tiles| - j)
    ensures h.Splice(i, j, mid, end').tiles[k]
            == if k < i then h.tiles[k]
               else if k < i + |mid| then mid[k - i]
               else h.tiles[k - i - |mid| + j]
  {
  }

  lemma SpliceTile(h: Layout, i: nat, j: nat, mid: seq<Tile>, end': nat, k: nat)
    requires CanSplice(h, i, j, mid, end')
    requires k < |h.Splice(i, j, mid, end').tiles|
    ensures h.Splice(i, j, mid, end').TileOk(k)
  {
    var h' := h.Splice(i, j, mid, end');
    SpliceAt(h, i, j, mid, end', k);
    if k + 1 < |h'.tiles| {
      SpliceAt(h, i, j, mid, end', k + 1);
    }
    if k < i {
      assert h.TileOk(k);
    } else if k >= i + |mid| {
      assert h.TileOk(k - i - |mid| + j);
    }
  }

  lemma SpliceValid(h: Layout, i: nat, j: nat, mid: seq<Tile>, end': nat)
    requires CanSplice(h, i, j, mid, end')
    ensures h.Splice(i, j, mid, end').Valid()
  {
    var h' := h.Splice(i, j, mid, end');
    SpliceAt(h, i, j, mid, end', 0);
    forall k: nat {:trigger h'.TileOk(k)} | k < |h'.tiles|
      ensures h'.TileOk(k)
    {
      SpliceTile(h, i, j, mid, end', k);
    }
  }

  // Only block b begins inside block b.
  lemma OneStart(h: Layout, b: nat, x: nat)
    requires h.Valid() && b < |h.tiles| && x < |h.tiles|
    requires h.tiles[b].addr <= h.tiles[x].addr < h.tiles[b].addr + h.tiles[b].size
    ensures x == b
  {
    AllApart(h);
    assert h.TileOk(x);
  }

  lemma OutsideWindow(h: Layout, i: nat, j: nat, x: nat)
    requires h.Valid() && i <= x < j <= |h.tiles|
    ensures h.tiles[x] !in h.tiles[..i] && h.tiles[x] !in h.tiles[j..]
  {
    forall y: nat | y < |h.tiles| && h.tiles[x] == h.tiles[y]
      ensures x == y
    {
      assert h.TileOk(x);
      OneStart(h, x, y);
    }
  }

  // The live blocks after a splice: the ones outside the window and those of mid.
  lemma SpliceLive(h: Layout, i: nat, j: nat, mid: seq<Tile>, end': nat)
    requires h.Valid() && i <= j <= |h.tiles|
    ensures h.Splice(i, j, mid, end').LiveTiles()
            == (h.LiveTiles() - LiveOf(h.tiles[i..j])) + LiveOf(mid)
  {
    hide LiveOf;
    var a, w, b := h.tiles[..i], h.tiles[i..j], h.tiles[j..];
    assert h.tiles == a + w + b;
    LiveConcat(a + w, b);
    LiveConcat(a, w);
    LiveConcat(a + mid, b);
    LiveConcat(a, mid);
    forall t | t in LiveOf(w)
      ensures t !in LiveOf(a) && t !in LiveOf(b)
    {
      InLive(a);
      InLive(w);
      InLive(b);
      var x :| 0 <= x < |w| && w[x] == t;
      OutsideWindow(h, i, j, i + x);
    }
  }
}
