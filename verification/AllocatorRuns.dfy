/**
 Whole runs of the allocator: any sequence of calls that its callers may make.
 */
module AllocatorRuns {
  import opened FlatMemory
  import opened HeapLayout
  import opened AllocatorSpec
  import AlignedSpec

  datatype Call =
    | Malloc(sz: nat)
    | Free(p: nat)
    | Realloc(p: nat, sz: nat)
    | Memalign(align: nat, sz: nat)

  // A call together with the address of the stack frame it is made from.
  datatype CallAt = CallAt(call: Call, limit: nat)

  // What a caller owes: pointers that are live, or null, sizes that REAL_SIZE can
  // represent and memalign can add to the alignment, and a stack that has not come
  // down to the heap.
  predicate Legal(h: Layout, c: CallAt)
  {
    && StackAbove(h, c.limit)
    && match c.call
       case Malloc(sz) => sz <= MAX_REQUEST
       case Free(p) => p == 0 || IsLive(h, p)
       case Realloc(p, sz) => (p == 0 || IsLive(h, p)) && sz <= MAX_REQUEST
       case Memalign(align, sz) =>
         sz <= MAX_REQUEST && (PowerOfTwo(align) ==> AlignedSpec.SumsFit(align, RealSize(sz)))
  }

  function Step(h: Layout, c: CallAt): Layout
    requires Legal(h, c)
  {
    match c.call
    case Malloc(sz) => AllocatorSpec.Malloc(h, sz, c.limit).0
    case Free(p) => if p == 0 then h else Release(h, BlockOf(h, p))
    case Realloc(p, sz) =>
      if p == 0 then AllocatorSpec.Malloc(h, sz, c.limit).0
      else AllocatorSpec.Realloc(h, BlockOf(h, p), sz, c.limit).0
    case Memalign(align, sz) => AlignedSpec.Memalign(h, align, sz, c.limit).0
  }

  predicate LegalRun(h: Layout, calls: seq<CallAt>)
    decreases |calls|
  {
    calls != [] ==> Legal(h, calls[0]) && LegalRun(Step(h, calls[0]), calls[1..])
  }

  function Run(h: Layout, calls: seq<CallAt>): Layout
    requires LegalRun(h, calls)
    decreases |calls|
  {
    if calls == [] then h else Run(Step(h, calls[0]), calls[1..])
  }

  lemma StepKeeps(h: Layout, c: CallAt)
    requires h.Valid() && Legal(h, c)
    ensures Step(h, c).Valid() && Step(h, c).start == h.start
  {
    match c.call {
      case Malloc(sz) => MallocKeeps(h, sz, c.limit);
      case Free(p) =>
        if p != 0 {
          ReleaseKeeps(h, BlockOf(h, p));
        }
      case Realloc(p, sz) =>
        if p == 0 {
          MallocKeeps(h, sz, c.limit);
        } else {
          ReallocKeeps(h, BlockOf(h, p), sz, c.limit);
        }
      case Memalign(align, sz) => AlignedSpec.MemalignKeeps(h, align, sz, c.limit);
    }
  }

  lemma {:induction false} RunKeepsValid(h: Layout, calls: seq<CallAt>)
    requires h.Valid() && LegalRun(h, calls)
    ensures Run(h, calls).Valid() && Run(h, calls).start == h.start
    decreases |calls|
  {
    if calls != [] {
      StepKeeps(h, calls[0]);
      RunKeepsValid(Step(h, calls[0]), calls[1..]);
    }
  }

  // After any legal run from the empty heap: live blocks are disjoint, inside the heap
  // and large enough, free blocks never touch, and the two account for every byte.
  lemma RunKeeps(start: nat, calls: seq<CallAt>)
    requires start > 0 && start % WORD == 0 && LegalRun(Layout(start, start, []), calls)
    ensures var h := Run(Layout(start, start, []), calls);
            && (forall t | t in h.LiveTiles() ::
                  t.Live? && FitsRequest(t.size, t.request) && start <= t.addr && t.addr + t.size <= h.end)
            && (forall t, u | t in h.LiveTiles() && u in h.LiveTiles() && t != u ::
                  t.addr + t.size <= u.addr || u.addr + u.size <= t.addr)
            && (forall t, u | t in h.tiles && u in h.tiles && t.Free? && u.Free? :: t.addr + t.size != u.addr)
            && FreeBytes(h.tiles) + LiveBytes(h.tiles) == h.end - start
  {
    RunKeepsValid(Layout(start, start, []), calls);
    var h := Run(Layout(start, start, []), calls);
    hide Run, LegalRun;
    Accounts(h);
    LiveApart(h);
    forall t, u | t in h.tiles && u in h.tiles && t.Free? && u.Free?
      ensures t.addr + t.size != u.addr
    {
      var x: nat :| x < |h.tiles| && h.tiles[x] == t;
      var y: nat :| y < |h.tiles| && h.tiles[y] == u;
      NotTouching(h, x, y);
    }
  }

  lemma LiveApart(h: Layout)
    requires h.Valid()
    ensures forall t | t in h.LiveTiles() ::
              t.Live? && FitsRequest(t.size, t.request) && h.start <= t.addr && t.addr + t.size <= h.end
    ensures forall t, u | t in h.LiveTiles() && u in h.LiveTiles() && t != u ::
              t.addr + t.size <= u.addr || u.addr + u.size <= t.addr
  {
    AllApart(h);
    InLive(h.tiles);
    forall t | t in h.tiles
      ensures GoodTile(t)
    {
      var x: nat :| x < |h.tiles| && h.tiles[x] == t;
      assert h.TileOk(x);
    }
  }

  lemma NotTouching(h: Layout, x: nat, y: nat)
    requires h.Valid() && x < |h.tiles| && y < |h.tiles| && h.tiles[x].Free? && h.tiles[y].Free?
    ensures h.tiles[x].addr + h.tiles[x].size != h.tiles[y].addr
  {
    AllApart(h);
    assert h.TileOk(x) && h.TileOk(y);
    if x + 1 < y {
      assert h.TileOk(x + 1);
    }
  }
}
