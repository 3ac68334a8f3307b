/**
 The allocator's operations as functions on the heap layout, and what they keep:
 first fit with splitting, growth of the top block, coalescing on release, aligned
 allocation and resizing.
 */
module AllocatorSpec {
  import opened FlatMemory
  import opened HeapLayout

  // ----- malloc -----

  // The first free block from k on that is large enough, or the number of blocks.
  function FirstFit(ts: seq<Tile>, need: nat, k: nat): (i: nat)
    requires k <= |ts|
    ensures k <= i <= |ts|
    ensures forall x | k <= x < i :: ts[x].Free? ==> ts[x].size < need
    ensures i < |ts| ==> ts[i].Free? && ts[i].size >= need
    decreases |ts| - k
  {
    if k == |ts| then k
    else if ts[k].Free? && ts[k].size >= need then k
    else FirstFit(ts, need, k + 1)
  }

  predicate TopIsFree(h: Layout)
  {
    h.tiles != [] && Last(h.tiles).Free?
  }

  // The front of free block t, or all of it when the rest is too small.
  function Taken(t: Tile, need: nat, sz: nat): (mid: seq<Tile>)
    ensures mid != []
  {
    if t.size < need + ENTRY then [Live(t.addr, t.size, sz)]
    else [Live(t.addr, need, sz), Free(t.addr + need, t.size - need)]
  }

  function Take(h: Layout, i: nat, need: nat, sz: nat): Layout
    requires i < |h.tiles|
  {
    h.Splice(i, i + 1, Taken(h.tiles[i], need, sz), h.end)
  }

  // The new layout and the address handed out, 0 for NULL.
  function Malloc(h: Layout, sz: nat, limit: nat): (Layout, nat)
  {
    var need := RealSize(sz);
    var n := |h.tiles|;
    var i := FirstFit(h.tiles, need, 0);
    if i < n then
      (Take(h, i, need, sz), h.tiles[i].addr + WORD)
    else if TopIsFree(h) then
      var t := Last(h.tiles);
      if !CanAlloc(limit, h.end, need - t.size) then (h, 0)
      else (Extend(h, need, sz), t.addr + WORD)
    else
      if !CanAlloc(limit, h.end, need) then (h, 0)
      else (Extend(h, need, sz), h.end + WORD)
  }

  // What every allocation means: on success one new live block, aligned, with room
  // for the request, apart from every block that was live before, and no live block
  // lost; the heap stays well formed and does not grow into the gap.
  ghost predicate Allocates(h: Layout, h': Layout, p: nat, sz: nat, limit: nat)
  {
    && h'.Valid() && h'.start == h.start
    && h.end <= h'.end && h'.end + GAP <= limit
    && (p == 0 ==> h'.LiveTiles() == h.LiveTiles())
    && (p != 0 ==>
          exists t: Tile :: NewBlock(h, h', t) && t.addr + WORD == p && t.request == sz)
  }

  ghost predicate NewBlock(h: Layout, h': Layout, t: Tile)
  {
    && t.Live? && FitsRequest(t.size, t.request) && t.addr % WORD == 0
    && h.start <= t.addr && t.addr + t.size <= h'.end
    && h'.LiveTiles() == h.LiveTiles() + {t}
    && forall u :: u in h.LiveTiles() ==> u.addr + u.size <= t.addr || t.addr + t.size <= u.addr
  }

  // A valid layout that has gained exactly one live block is a successful allocation.
  lemma GainedBlock(h: Layout, h': Layout, t: Tile)
    requires h.Valid() && h'.Valid() && h.start == h'.start
    requires t.Live? && t in h'.tiles && t !in h.tiles
    requires h'.LiveTiles() == h.LiveTiles() + {t}
    ensures NewBlock(h, h', t)
  {
    AllApart(h');
    InLive(h.tiles);
    InLive(h'.tiles);
    var x :| 0 <= x < |h'.tiles| && h'.tiles[x] == t;
    assert h'.TileOk(x);
    forall u | u in h.LiveTiles()
      ensures u.addr + u.size <= t.addr || t.addr + t.size <= u.addr
    {
      assert u in h'.LiveTiles();
      var y :| 0 <= y < |h'.tiles| && h'.tiles[y] == u;
      assert x != y;
    }
  }

  lemma TakeFits(h: Layout, i: nat, need: nat, sz: nat)
    requires h.Valid() && i < |h.tiles| && h.tiles[i].Free?
    requires FitsRequest(need, sz) && need <= h.tiles[i].size
    ensures CanSplice(h, i, i + 1, Taken(h.tiles[i], need, sz), h.end)
  {
    hide Taken;
    assert h.TileOk(i);
    assert i > 0 ==> h.TileOk(i - 1);
    TakenChain(h.tiles[i], need, sz);
  }

  lemma TakeKeeps(h: Layout, i: nat, need: nat, sz: nat)
    requires h.Valid() && i < |h.tiles| && h.tiles[i].Free?
    requires FitsRequest(need, sz) && need <= h.tiles[i].size
    ensures var h' := Take(h, i, need, sz);
            && h'.Valid() && h'.end == h.end && h'.start == h.start
            && exists t: Tile :: NewBlock(h, h', t) && t.addr == h.tiles[i].addr && t.request == sz
  {
    hide NewBlock, Taken, CanSplice;
    assert h.TileOk(i);
    var mid := Taken(h.tiles[i], need, sz);
    TakenChain(h.tiles[i], need, sz);
    TakeFits(h, i, need, sz);
    SpliceValid(h, i, i + 1, mid, h.end);
    SpliceGains(h, i, i + 1, mid, h.end, mid[0]);
  }

  lemma TakenChain(t: Tile, need: nat, sz: nat)
    requires t.Free? && GoodTile(t) && need <= t.size && FitsRequest(need, sz)
    ensures var mid := Taken(t, need, sz);
            && mid[0].addr == t.addr && Last(mid).addr + Last(mid).size == t.addr + t.size
            && (forall k | 0 <= k < |mid| :: GoodTile(mid[k]))
            && (forall k, l | 0 <= k < |mid| && l == k + 1 < |mid| ::
                  mid[k].addr + mid[k].size == mid[l].addr && !(mid[k].Free? && mid[l].Free?))
            && mid[0].Live? && mid[0].request == sz
            && forall x :: x in mid && x.Live? <==> x == mid[0]
  {
    var mid := Taken(t, need, sz);
    assert |mid| == 1 || |mid| == 2;
  }

  // Splicing in a window whose only live block is new.
  lemma SpliceGains(h: Layout, i: nat, j: nat, mid: seq<Tile>, end': nat, u: Tile)
    requires CanSplice(h, i, j, mid, end')
    requires forall x | i <= x < j :: h.tiles[x].Free?
    requires u.Live? && forall t :: t in mid && t.Live? <==> t == u
    requires u.addr >= h.Edge(i) && u.addr < (if j < |h.tiles| then h.tiles[j].addr else end')
    ensures NewBlock(h, h.Splice(i, j, mid, end'), u)
  {
    var h' := h.Splice(i, j, mid, end');
    SpliceValid(h, i, j, mid, end');
    SpliceLive(h, i, j, mid, end');
    AllApart(h);
    assert u !in h.tiles;
    InLive(h.tiles);
    InLive(h.tiles[i..j]);
    InLive(mid);
    InLive(h'.tiles);
    assert h'.LiveTiles() == h.LiveTiles() + {u};
    assert u in h'.LiveTiles();
    GainedBlock(h, h', u);
  }

  // The stack is at least the gap above the heap, as the allocator's callers owe it.
  predicate StackAbove(h: Layout, limit: nat)
  {
    h.end + GAP <= limit < SIZE_MOD
  }

  // Extends the free top block, or the heap itself, by one live block of this size.
  function Extend(h: Layout, need: nat, sz: nat): Layout
  {
    var n := |h.tiles|;
    var i := if TopIsFree(h) then n - 1 else n;
    var a := h.Edge(i);
    h.Splice(i, n, [Live(a, need, sz)], a + need)
  }

  lemma ExtendFits(h: Layout, need: nat, sz: nat)
    requires h.Valid() && FitsRequest(need, sz)
    ensures var n := |h.tiles|;
            var i := if TopIsFree(h) then n - 1 else n;
            && CanSplice(h, i, n, [Live(h.Edge(i), need, sz)], h.Edge(i) + need)
            && (i < n ==> h.end <= h.Edge(i) + h.tiles[i].size)
  {
    var n := |h.tiles|;
    var i := if TopIsFree(h) then n - 1 else n;
    AllApart(h);
    if i > 0 {
      assert h.TileOk(i - 1);
    }
    if i < n {
      assert h.TileOk(i);
    }
  }

  lemma ExtendKeeps(h: Layout, need: nat, sz: nat)
    requires h.Valid() && FitsRequest(need, sz)
    ensures var h' := Extend(h, need, sz);
            var a := h.Edge(if TopIsFree(h) then |h.tiles| - 1 else |h.tiles|);
            && h'.Valid() && h'.start == h.start && h'.end == a + need
            && NewBlock(h, h', Live(a, need, sz))
  {
    var n := |h.tiles|;
    var i := if TopIsFree(h) then n - 1 else n;
    var u := Live(h.Edge(i), need, sz);
    ExtendFits(h, need, sz);
    SpliceValid(h, i, n, [u], u.addr + need);
    SpliceGains(h, i, n, [u], u.addr + need, u);
  }

  // ----- How much is given out -----

  // No usable size for the request is smaller by `slack` or more.
  ghost predicate Within(size: nat, sz: nat, slack: nat)
  {
    forall n: nat | FitsRequest(n, sz) :: size < n + slack
  }

  // The live block at p wastes less than `slack`.
  ghost predicate Trim(h: Layout, p: nat, slack: nat)
  {
    forall t | t in h.LiveTiles() && t.Live? && t.addr + WORD == p :: Within(t.size, t.request, slack)
  }

  // The live block at p is of the least usable size; or else it is all that there was: less
  // than `slack` above that size, with no free block behind it.
  ghost predicate Frugal(h: Layout, p: nat, slack: nat)
  {
    forall t | t in h.LiveTiles() && t.Live? && t.addr + WORD == p ::
      && Within(t.size, t.request, slack)
      && (Within(t.size, t.request, 1) || NoneFreeAt(h, t.addr + t.size))
  }

  ghost predicate NoneFreeAt(h: Layout, a: nat)
  {
    forall u | u in h.tiles && u.Free? :: u.addr != a
  }

  lemma NoneBehind(h: Layout, i: nat)
    requires h.Valid() && i < |h.tiles| && (i + 1 < |h.tiles| ==> h.tiles[i + 1].Live?)
    ensures NoneFreeAt(h, h.tiles[i].addr + h.tiles[i].size)
  {
    AllApart(h);
    assert h.TileOk(i);
    forall u | u in h.tiles && u.Free?
      ensures u.addr != h.tiles[i].addr + h.tiles[i].size
    {
      var y: nat :| y < |h.tiles| && h.tiles[y] == u;
      if y > i + 1 {
        assert h.TileOk(i + 1);
      }
    }
  }

  // Block i of the layout is frugal if it has the padded size, or takes in the rest of a free block.
  lemma FrugalAt(h: Layout, i: nat, sz: nat, slack: nat)
    requires h.Valid() && i < |h.tiles| && h.tiles[i].Live? && h.tiles[i].request == sz <= MAX_REQUEST
    requires RealSize(sz) <= h.tiles[i].size < RealSize(sz) + slack
    requires h.tiles[i].size == RealSize(sz) || (i + 1 < |h.tiles| ==> h.tiles[i + 1].Live?)
    ensures Frugal(h, h.tiles[i].addr + WORD, slack)
  {
    hide RealSize, FitsRequest, NoneFreeAt, LiveOf;
    var b := h.tiles[i];
    forall t | t in h.LiveTiles() && t.addr == b.addr
      ensures t == b
    {
      InLive(h.tiles);
      var y: nat :| y < |h.tiles| && h.tiles[y] == t;
      assert h.TileOk(i);
      OneStart(h, i, y);
    }
    forall n: nat | FitsRequest(n, sz)
      ensures RealSize(sz) <= n
    {
      RealSizeLeast(sz, n);
    }
    if b.size != RealSize(sz) {
      NoneBehind(h, i);
    }
  }

  // malloc splits off what it does not need, if that can be a block.
  lemma TakeFrugal(h: Layout, i: nat, sz: nat)
    requires h.Valid() && i < |h.tiles| && h.tiles[i].Free? && RealSize(sz) <= h.tiles[i].size && sz <= MAX_REQUEST
    ensures Frugal(Take(h, i, RealSize(sz), sz), h.tiles[i].addr + WORD, ENTRY)
  {
    hide RealSize, Frugal, Taken, FitsRequest;
    var need := RealSize(sz);
    var h' := Take(h, i, need, sz);
    var mid := Taken(h.tiles[i], need, sz);
    RealSizeExact(sz);
    TakeKeeps(h, i, need, sz);
    TakenSize(h.tiles[i], need, sz);
    assert h.TileOk(i);
    SpliceAt(h, i, i + 1, mid, h.end, i);
    if i + 1 < |h'.tiles| {
      SpliceAt(h, i, i + 1, mid, h.end, i + 1);
    }
    FrugalAt(h', i, sz, ENTRY);
  }

  lemma TakenSize(t: Tile, need: nat, sz: nat)
    requires need <= t.size
    ensures var mid := Taken(t, need, sz);
            && mid[0].Live? && mid[0].addr == t.addr && mid[0].request == sz
            && need <= mid[0].size < need + ENTRY && (|mid| > 1 ==> mid[0].size == need)
  {
  }

  lemma ExtendFrugal(h: Layout, sz: nat)
    requires h.Valid() && sz <= MAX_REQUEST
    ensures Frugal(Extend(h, RealSize(sz), sz), Top(h) + WORD, ENTRY)
  {
    hide RealSize, Frugal, FitsRequest;
    var need := RealSize(sz);
    RealSizeExact(sz);
    ExtendKeeps(h, need, sz);
    FrugalAt(Extend(h, need, sz), |Extend(h, need, sz).tiles| - 1, sz, ENTRY);
  }

  // Where the heap is extended: at its free top block, or at its end.
  function Top(h: Layout): nat
  {
    if TopIsFree(h) then Last(h.tiles).addr else h.end
  }

  // Block x is the first free one of this size.
  ghost predicate FitsFirst(h: Layout, x: nat, need: nat)
  {
    && x < |h.tiles| && h.tiles[x].Free? && h.tiles[x].size >= need
    && forall y | 0 <= y < x :: h.tiles[y].Free? ==> h.tiles[y].size < need
  }

  // malloc allocates, and fails only when no free block is large enough and the top
  // of the heap cannot be extended. It gives out the first block that is large enough, or
  // new space just as large as needed at the top, and keeps no more than it must.
  lemma MallocKeeps(h: Layout, sz: nat, limit: nat)
    requires h.Valid() && StackAbove(h, limit) && sz <= MAX_REQUEST
    ensures var (h', p) := Malloc(h, sz, limit);
            && Allocates(h, h', p, sz, limit)
            && (p == 0 <==>
                  && (forall x | 0 <= x < |h.tiles| :: h.tiles[x].Free? ==> h.tiles[x].size < RealSize(sz))
                  && Top(h) + RealSize(sz) + GAP > limit)
            && (p == 0 ==> h' == h)
            && (p != 0 ==> Frugal(h', p, ENTRY))
            && (forall x: nat | FitsFirst(h, x, RealSize(sz)) :: p == h.tiles[x].addr + WORD && h'.end == h.end)
            && ((forall x | 0 <= x < |h.tiles| :: h.tiles[x].Free? ==> h.tiles[x].size < RealSize(sz)) && p != 0 ==>
                  p == Top(h) + WORD && h'.end == Top(h) + RealSize(sz))
  {
    hide Frugal, RealSize, FitsRequest;
    var need := RealSize(sz);
    var n := |h.tiles|;
    var i := FirstFit(h.tiles, need, 0);
    RealSizeExact(sz);
    forall x: nat | FitsFirst(h, x, need)
      ensures x == i
    {
    }
    if i < n {
      TakeKeeps(h, i, need, sz);
      TakeFrugal(h, i, sz);
    } else {
      ExtendKeeps(h, need, sz);
      ExtendFrugal(h, sz);
      if TopIsFree(h) {
        TopAtEnd(h);
        CanAllocBelowGap(limit, h.end, need - Last(h.tiles).size);
      } else {
        CanAllocBelowGap(limit, h.end, need);
      }
    }
  }

  lemma TopAtEnd(h: Layout)
    requires h.Valid() && h.tiles != []
    ensures Last(h.tiles).addr + Last(h.tiles).size == h.end
  {
    assert h.TileOk(|h.tiles| - 1);
  }

  // ----- free -----

  // The window merged when block b is released: b and its free neighbours.
  function MergeFrom(h: Layout, b: nat): (lo: nat)
    requires b < |h.tiles|
    ensures lo <= b
  {
    if b > 0 && h.tiles[b - 1].Free? then b - 1 else b
  }

  function MergeTo(h: Layout, b: nat): (hi: nat)
    requires b < |h.tiles|
    ensures b < hi <= |h.tiles|
  {
    if b + 1 < |h.tiles| && h.tiles[b + 1].Free? then b + 2 else b + 1
  }

  // The free block they become.
  function Merged(h: Layout, b: nat): Tile
    requires b < |h.tiles|
  {
    var lo, hi := MergeFrom(h, b), MergeTo(h, b);
    Free(h.tiles[lo].addr,
         (if lo < b then h.tiles[lo].size else 0) + h.tiles[b].size
         + (if b + 1 < hi then h.tiles[b + 1].size else 0))
  }

  function Release(h: Layout, b: nat): Layout
    requires b < |h.tiles|
  {
    h.Splice(MergeFrom(h, b), MergeTo(h, b), [Merged(h, b)], h.end)
  }

  // The only live block in the window is the one released.
  lemma WindowLive(h: Layout, b: nat)
    requires b < |h.tiles| && h.tiles[b].Live?
    ensures LiveOf(h.tiles[MergeFrom(h, b)..MergeTo(h, b)]) == {h.tiles[b]}
  {
    var w := h.tiles[MergeFrom(h, b)..MergeTo(h, b)];
    InLive(w);
    assert w[b - MergeFrom(h, b)] == h.tiles[b];
  }

  lemma ReleaseFits(h: Layout, b: nat)
    requires h.Valid() && b < |h.tiles| && h.tiles[b].Live?
    ensures CanSplice(h, MergeFrom(h, b), MergeTo(h, b), [Merged(h, b)], h.end)
    ensures Merged(h, b).addr + Merged(h, b).size == h.Edge(MergeTo(h, b)) <= h.end
  {
    var lo, hi := MergeFrom(h, b), MergeTo(h, b);
    var t := Merged(h, b);
    assert h.TileOk(b);
    assert h.TileOk(lo);
    assert h.TileOk(hi - 1);
    assert lo > 0 ==> h.TileOk(lo - 1);
    assert t.addr == h.Edge(lo) && t.addr + t.size == h.Edge(hi);
    assert GoodTile(t);
    assert h.Edge(hi) <= h.end by {
      EdgeMonotone(h, hi, |h.tiles|);
    }
  }

  // free gives up exactly the block it is passed and leaves the heap coalesced.
  lemma ReleaseKeeps(h: Layout, b: nat)
    requires h.Valid() && b < |h.tiles| && h.tiles[b].Live?
    ensures var h' := Release(h, b);
            && h'.Valid() && h'.start == h.start && h'.end == h.end
            && h'.LiveTiles() == h.LiveTiles() - {h.tiles[b]}
  {
    hide CanSplice, Merged;
    var lo, hi := MergeFrom(h, b), MergeTo(h, b);
    var t := Merged(h, b);
    ReleaseFits(h, b);
    SpliceValid(h, lo, hi, [t], h.end);
    SpliceLive(h, lo, hi, [t], h.end);
    WindowLive(h, b);
    assert LiveOf([t]) == {} by {
      MergedIsFree(h, b);
    }
  }

  lemma MergedIsFree(h: Layout, b: nat)
    requires b < |h.tiles|
    ensures Merged(h, b).Free?
  {
  }

  // Which block has this address, if any.
  function IndexOf(ts: seq<Tile>, addr: nat, k: nat := 0): (i: nat)
    requires k <= |ts|
    ensures k <= i <= |ts|
    ensures forall x | k <= x < i :: ts[x].addr != addr
    ensures i < |ts| ==> ts[i].addr == addr
    decreases |ts| - k
  {
    if k == |ts| then k else if ts[k].addr == addr then k else IndexOf(ts, addr, k + 1)
  }

  // A pointer is live when the block in front of it is.
  predicate IsLive(h: Layout, p: nat)
  {
    p >= WORD
    && var b := IndexOf(h.tiles, p - WORD);
       b < |h.tiles| && h.tiles[b].Live?
  }

  function BlockOf(h: Layout, p: nat): (b: nat)
    requires IsLive(h, p)
    ensures b < |h.tiles| && h.tiles[b].Live? && h.tiles[b].addr + WORD == p
  {
    IndexOf(h.tiles, p - WORD)
  }

  lemma IndexOfIs(h: Layout, b: nat)
    requires h.Valid() && b < |h.tiles|
    ensures IndexOf(h.tiles, h.tiles[b].addr) == b
  {
    AllApart(h);
    forall x | 0 <= x < b
      ensures h.tiles[x].addr != h.tiles[b].addr
    {
      assert h.TileOk(x);
    }
  }

  lemma MallocValid(h: Layout, sz: nat, limit: nat)
    requires h.Valid() && StackAbove(h, limit) && sz <= MAX_REQUEST
    ensures Malloc(h, sz, limit).0.Valid()
  {
    hide Malloc, Frugal, FitsFirst;
    MallocKeeps(h, sz, limit);
  }

  // free undoes malloc: the layout is restored exactly when the block had come from
  // the free list and not from the top of the heap.
  lemma FreeUndoesMalloc(h: Layout, sz: nat, limit: nat)
    requires h.Valid() && StackAbove(h, limit) && sz <= MAX_REQUEST
    requires Malloc(h, sz, limit).1 != 0
    ensures var (h', p) := Malloc(h, sz, limit);
            IsLive(h', p)
            && (Release(h', BlockOf(h', p)) == h
                <==> exists x :: 0 <= x < |h.tiles| && h.tiles[x].Free? && h.tiles[x].size >= RealSize(sz))
  {
    hide Take, Extend, Release, RealSize, CanAlloc;
    var (h', p) := Malloc(h, sz, limit);
    var need := RealSize(sz);
    var i := FirstFit(h.tiles, need, 0);
    MallocValid(h, sz, limit);
    RealSizeExact(sz);
    if i < |h.tiles| {
      UndoTake(h, i, need, sz);
      IndexOfIs(h', i);
    } else {
      UndoExtend(h, need, sz);
      IndexOfIs(h', |h'.tiles| - 1);
    }
  }

  lemma UndoTake(h: Layout, i: nat, need: nat, sz: nat)
    requires h.Valid() && i < |h.tiles| && h.tiles[i].Free? && need <= h.tiles[i].size
    ensures var h' := Take(h, i, need, sz);
            && i < |h'.tiles| && h'.tiles[i].Live? && h'.tiles[i].addr == h.tiles[i].addr
            && Release(h', i) == h
  {
    var h' := Take(h, i, need, sz);
    assert h.TileOk(i);
    assert i > 0 ==> h.TileOk(i - 1) && h'.tiles[i - 1] == h.tiles[i - 1];
    assert Release(h', i).tiles == h.tiles[..i] + [h.tiles[i]] + h.tiles[i + 1..];
    assert h.tiles == h.tiles[..i] + [h.tiles[i]] + h.tiles[i + 1..];
  }

  lemma UndoExtend(h: Layout, need: nat, sz: nat)
    requires h.Valid() && need > 0
    requires TopIsFree(h) ==> need > Last(h.tiles).size
    ensures var h' := Extend(h, need, sz);
            && h'.tiles != [] && Last(h'.tiles).Live?
            && Last(h'.tiles).addr == (if TopIsFree(h) then Last(h.tiles).addr else h.end)
            && Release(h', |h'.tiles| - 1) != h
  {
    if TopIsFree(h) {
      TopAtEnd(h);
    }
    var h' := Extend(h, need, sz);
    assert Release(h', |h'.tiles| - 1).end > h.end;
  }

  // ----- realloc -----

  // Cuts live block b in two live blocks, the first of this size.
  function Cut(h: Layout, b: nat, need: nat, sz: nat): Layout
    requires b < |h.tiles| && need <= h.tiles[b].size
  {
    h.Splice(b, b + 1, Halves(h.tiles[b], need, sz), h.end)
  }

  // realloc of live block b: allocate, copy and free; or shrink in place; or keep.
  function Realloc(h: Layout, b: nat, sz: nat, limit: nat): (Layout, nat)
    requires b < |h.tiles|
  {
    var need := RealSize(sz);
    var t := h.tiles[b];
    if t.size < need then
      var (h1, p) := Malloc(h, sz, limit);
      var c := IndexOf(h1.tiles, t.addr);
      if p == 0 || c == |h1.tiles| then (h, 0) else (Release(h1, c), p)
    else if t.size - need >= ENTRY then
      (Release(Cut(h, b, need, sz), b + 1), t.addr + WORD)
    else
      (h.Splice(b, b + 1, [Live(t.addr, t.size, sz)], h.end), t.addr + WORD)
  }

  // On success the old block is gone and a block for the new request has taken its
  // place among the live ones; on failure nothing has changed.
  ghost predicate Resizes(h: Layout, h': Layout, t: Tile, u: Tile, sz: nat)
  {
    && u.Live? && u.request == sz && FitsRequest(u.size, sz) && u.addr % WORD == 0
    && u !in h.LiveTiles() - {t}
    && h'.LiveTiles() == h.LiveTiles() - {t} + {u}
  }

  // A block that is large enough stays where it is, cut to the least usable size or left as it
  // is; otherwise the new block is the one that malloc gives out, if it does.
  lemma ReallocKeeps(h: Layout, b: nat, sz: nat, limit: nat)
    requires h.Valid() && StackAbove(h, limit) && sz <= MAX_REQUEST
    requires b < |h.tiles| && h.tiles[b].Live?
    ensures var (h', p) := Realloc(h, b, sz, limit);
            var t := h.tiles[b];
            && h'.Valid() && h'.start == h.start && StackAbove(h', limit)
            && (p == 0 ==> h' == h)
            && (p != 0 ==> exists u: Tile :: Resizes(h, h', t, u, sz) && u.addr + WORD == p)
            && (p != 0 ==> Trim(h', p, ENTRY))
            && (FitsRequest(t.size, sz) ==>
                  p == t.addr + WORD && h'.end == h.end && (LiveAt(h', p, t.size) || Trim(h', p, 1)))
            && (!FitsRequest(t.size, sz) ==>
                  var (h1, p1) := Malloc(h, sz, limit);
                  p == p1 && (p != 0 ==> h'.end == h1.end && h'.LiveTiles() == h1.LiveTiles() - {t}))
  {
    hide Trim, Resizes, Malloc, RealSize;
    var need := RealSize(sz);
    var t := h.tiles[b];
    RealSizeExact(sz);
    assert h.TileOk(b);
    if t.size < need {
      ReallocMoves(h, b, sz, limit);
    } else {
      if t.size - need >= ENTRY {
        ReallocShrinks(h, b, need, sz);
        TrimHere(h, b, Live(t.addr, need, sz), Release(Cut(h, b, need, sz), b + 1));
      } else {
        ReallocStays(h, b, sz);
        TrimHere(h, b, Live(t.addr, t.size, sz), h.Splice(b, b + 1, [Live(t.addr, t.size, sz)], h.end));
      }
    }
    if FitsRequest(t.size, sz) {
      RealSizeLeast(sz, t.size);
    }
  }

  ghost predicate LiveAt(h: Layout, p: nat, size: nat)
  {
    exists u :: u in h.LiveTiles() && u.addr + WORD == p && u.size == size
  }

  // The block that has taken the place of block b is the only one there.
  lemma TrimHere(h: Layout, b: nat, u: Tile, h': Layout)
    requires h.Valid() && b < |h.tiles| && u.Live? && u.addr == h.tiles[b].addr && u.request <= MAX_REQUEST
    requires h'.LiveTiles() == h.LiveTiles() - {h.tiles[b]} + {u}
    requires RealSize(u.request) <= u.size < RealSize(u.request) + ENTRY
    ensures Trim(h', u.addr + WORD, ENTRY) && LiveAt(h', u.addr + WORD, u.size)
    ensures u.size == RealSize(u.request) ==> Trim(h', u.addr + WORD, 1)
  {
    hide RealSize, FitsRequest, LiveOf;
    assert h.TileOk(b);
    InLive(h.tiles);
    forall t | t in h'.LiveTiles() && t.addr == u.addr
      ensures t == u
    {
      if t != u {
        StartsInside(h, b, t);
      }
    }
    forall n: nat | FitsRequest(n, u.request)
      ensures RealSize(u.request) <= n
    {
      RealSizeLeast(u.request, n);
    }
  }

  // A live block is still where it was after malloc.
  lemma SurvivesMalloc(h: Layout, b: nat, sz: nat, limit: nat)
    requires h.Valid() && StackAbove(h, limit) && sz <= MAX_REQUEST
    requires b < |h.tiles| && h.tiles[b].Live?
    ensures var h1 := Malloc(h, sz, limit).0;
            var c := IndexOf(h1.tiles, h.tiles[b].addr);
            h1.Valid() && c < |h1.tiles| && h1.tiles[c] == h.tiles[b]
  {
    var h1 := Malloc(h, sz, limit).0;
    MallocKeeps(h, sz, limit);
    InLive(h.tiles);
    InLive(h1.tiles);
    assert h.tiles[b] in h1.LiveTiles();
    var c: nat :| c < |h1.tiles| && h1.tiles[c] == h.tiles[b];
    IndexOfIs(h1, c);
  }

  lemma ReallocMoves(h: Layout, b: nat, sz: nat, limit: nat)
    requires h.Valid() && StackAbove(h, limit) && sz <= MAX_REQUEST
    requires b < |h.tiles| && h.tiles[b].Live? && h.tiles[b].size < RealSize(sz)
    ensures var (h', p) := Realloc(h, b, sz, limit);
            && h'.Valid() && h'.start == h.start && StackAbove(h', limit)
            && (p == 0 ==> h' == h)
            && (p != 0 ==> exists u: Tile :: Resizes(h, h', h.tiles[b], u, sz) && u.addr + WORD == p)
            && p == Malloc(h, sz, limit).1
            && (p != 0 ==> Trim(h', p, ENTRY) && h'.end == Malloc(h, sz, limit).0.end)
            && (p != 0 ==> h'.LiveTiles() == Malloc(h, sz, limit).0.LiveTiles() - {h.tiles[b]})
  {
    hide Trim, Frugal, FitsFirst, LiveOf, RealSize, FitsRequest, NewBlock, Resizes, Release;
    var (h1, p) := Malloc(h, sz, limit);
    MallocKeeps(h, sz, limit);
    SurvivesMalloc(h, b, sz, limit);
    if p != 0 {
      var u := Allocated(h, h1, p, sz, limit);
      var c := IndexOf(h1.tiles, h.tiles[b].addr);
      ReleaseKeeps(h1, c);
      Replaces(h, h1, Release(h1, c), h.tiles[b], u);
      TrimKept(h1, Release(h1, c), p);
    }
  }

  lemma Allocated(h: Layout, h': Layout, p: nat, sz: nat, limit: nat) returns (u: Tile)
    requires Allocates(h, h', p, sz, limit) && p != 0
    ensures NewBlock(h, h', u) && u.Live? && u.addr + WORD == p && u.request == sz
  {
    u :| NewBlock(h, h', u) && u.addr + WORD == p && u.request == sz;
  }

  // Gaining u and then losing t.
  lemma Replaces(h: Layout, h1: Layout, h': Layout, t: Tile, u: Tile)
    requires NewBlock(h, h1, u) && h'.LiveTiles() == h1.LiveTiles() - {t}
    requires h.Valid() && t in h.tiles && t.Live?
    ensures Resizes(h, h', t, u, u.request)
  {
    hide LiveOf;
    InLive(h.tiles);
    assert t in h.LiveTiles() && u != t && u !in h.LiveTiles();
  }

  lemma TrimKept(h1: Layout, h': Layout, p: nat)
    requires Frugal(h1, p, ENTRY) && h'.LiveTiles() <= h1.LiveTiles()
    ensures Trim(h', p, ENTRY)
  {
    hide Within, LiveOf;
  }

  // A block that begins inside block b is block b or none.
  lemma StartsInside(h: Layout, b: nat, u: Tile)
    requires h.Valid() && b < |h.tiles|
    requires h.tiles[b].addr <= u.addr < h.tiles[b].addr + h.tiles[b].size
    ensures u in h.tiles ==> u == h.tiles[b]
  {
    if u in h.tiles {
      var x: nat :| x < |h.tiles| && h.tiles[x] == u;
      OneStart(h, b, x);
    }
  }

  function Halves(t: Tile, need: nat, sz: nat): seq<Tile>
    requires need <= t.size
  {
    [Live(t.addr, need, sz), Live(t.addr + need, t.size - need, 0)]
  }

  lemma CutFits(h: Layout, b: nat, need: nat, sz: nat)
    requires h.Valid() && FitsRequest(need, sz)
    requires b < |h.tiles| && h.tiles[b].Live? && need + ENTRY <= h.tiles[b].size
    ensures CanSplice(h, b, b + 1, Halves(h.tiles[b], need, sz), h.end)
  {
    assert h.TileOk(b);
    assert b > 0 ==> h.TileOk(b - 1);
  }

  lemma CutKeeps(h: Layout, b: nat, need: nat, sz: nat)
    requires h.Valid() && FitsRequest(need, sz)
    requires b < |h.tiles| && h.tiles[b].Live? && need + ENTRY <= h.tiles[b].size
    ensures var h1 := Cut(h, b, need, sz);
            var t := h.tiles[b];
            && h1.Valid() && b + 1 < |h1.tiles|
            && h1.tiles[b] == Live(t.addr, need, sz)
            && h1.tiles[b + 1] == Live(t.addr + need, t.size - need, 0)
            && h1.LiveTiles() == h.LiveTiles() - {t} + {h1.tiles[b], h1.tiles[b + 1]}
            && Live(t.addr, need, sz) !in h.LiveTiles() - {t}
            && h1.tiles[b + 1] !in h.LiveTiles()
  {
    var t := h.tiles[b];
    var mid := Halves(t, need, sz);
    CutFits(h, b, need, sz);
    hide CanSplice;
    SpliceValid(h, b, b + 1, mid, h.end);
    SpliceLive(h, b, b + 1, mid, h.end);
    assert h.tiles[b..b + 1] == [t];
    InLive(h.tiles);
    InLive([t]);
    InLive(mid);
    StartsInside(h, b, mid[0]);
    StartsInside(h, b, mid[1]);
  }

  lemma ReallocShrinks(h: Layout, b: nat, need: nat, sz: nat)
    requires h.Valid() && FitsRequest(need, sz)
    requires b < |h.tiles| && h.tiles[b].Live? && need + ENTRY <= h.tiles[b].size
    ensures var h' := Release(Cut(h, b, need, sz), b + 1);
            && h'.Valid() && h'.start == h.start && h'.end == h.end
            && Resizes(h, h', h.tiles[b], Live(h.tiles[b].addr, need, sz), sz)
  {
    CutKeeps(h, b, need, sz);
    var h1 := Cut(h, b, need, sz);
    ReleaseKeeps(h1, b + 1);
    AllApart(h);
  }

  lemma StayFits(h: Layout, b: nat, sz: nat)
    requires h.Valid() && b < |h.tiles| && h.tiles[b].Live?
    requires FitsRequest(h.tiles[b].size, sz)
    ensures CanSplice(h, b, b + 1, [Live(h.tiles[b].addr, h.tiles[b].size, sz)], h.end)
  {
    assert h.TileOk(b);
    assert b > 0 ==> h.TileOk(b - 1);
  }

  lemma ReallocStays(h: Layout, b: nat, sz: nat)
    requires h.Valid() && b < |h.tiles| && h.tiles[b].Live?
    requires FitsRequest(h.tiles[b].size, sz)
    ensures var t := h.tiles[b];
            var u := Live(t.addr, t.size, sz);
            var h' := h.Splice(b, b + 1, [u], h.end);
            && h'.Valid() && h'.start == h.start && h'.end == h.end
            && Resizes(h, h', t, u, sz)
  {
    var t := h.tiles[b];
    var u := Live(t.addr, t.size, sz);
    StayFits(h, b, sz);
    SpliceValid(h, b, b + 1, [u], h.end);
    SpliceLive(h, b, b + 1, [u], h.end);
    AllApart(h);
    assert h.tiles[b..b + 1] == [t];
    InLive(h.tiles);
    InLive([t]);
    InLive([u]);
    StartsInside(h, b, u);
  }

  // ----- Accounting -----

  function FreeBytes(ts: seq<Tile>): nat
  {
    if ts == [] then 0
    else FreeBytes(ts[..|ts| - 1]) + (if Last(ts).Free? then Last(ts).size else 0)
  }

  function FreeCount(ts: seq<Tile>): nat
  {
    if ts == [] then 0 else FreeCount(ts[..|ts| - 1]) + (if Last(ts).Free? then 1 else 0)
  }

  // The count is that of the places where a free block is.
  lemma {:induction false} FreeCounted(ts: seq<Tile>)
    ensures FreeCount(ts) == |set i | 0 <= i < |ts| && ts[i].Free?|
    decreases |ts|
  {
    var places := set i | 0 <= i < |ts| && ts[i].Free?;
    if ts == [] {
      assert places == {};
    } else {
      var n := |ts| - 1;
      var below := set i | 0 <= i < n && ts[..n][i].Free?;
      FreeCounted(ts[..n]);
      assert places == below + (if ts[n].Free? then {n} else {});
    }
  }

  function LiveBytes(ts: seq<Tile>): nat
  {
    if ts == [] then 0
    else LiveBytes(ts[..|ts| - 1]) + (if Last(ts).Live? then Last(ts).size else 0)
  }

  // Every byte of the heap belongs to exactly one block, live or free.
  lemma Accounts(h: Layout)
    requires h.Valid()
    ensures FreeBytes(h.tiles) + LiveBytes(h.tiles) == h.end - h.start
  {
    AccountsTo(h, |h.tiles|);
    assert h.tiles[..|h.tiles|] == h.tiles;
  }

  lemma {:induction false} AccountsTo(h: Layout, k: nat)
    requires h.Valid() && k <= |h.tiles|
    ensures FreeBytes(h.tiles[..k]) + LiveBytes(h.tiles[..k]) == h.Edge(k) - h.start
  {
    if k > 0 {
      AccountsTo(h, k - 1);
      assert h.TileOk(k - 1);
      assert h.tiles[..k][..k - 1] == h.tiles[..k - 1];
    }
  }
}
