/**
 The allocator itself (MALLOC_DIRECTION = 1): a free list head, the end of the heap
 and headers inside memory. Each method computes the function of the same name in
 `AllocatorSpec` or `AlignedSpec`, and leaves the contents of live blocks alone.
 */
module TinyMalloc {
  import opened FlatMemory
  import opened HeapLayout
  import opened FreeList
  import opened ListUpdates
  import opened AllocatorSpec
  import opened AlignedSpec

  // Nothing but free blocks, headers and the list head has changed: the payload of
  // every block live before and after is intact, and so is memory outside the heap.
  ghost predicate KeepsData(m: Memory, m': Memory, head: nat, h: Layout, h': Layout)
  {
    && |m'| == |m|
    && (forall t, x: nat | t in h.LiveTiles() && t in h'.LiveTiles()
            && t.addr + WORD <= x < t.addr + t.size && x < |m| :: m'[x] == m[x])
    && (forall x: nat | x < |m| && (x < head || (head + WORD <= x < h.start) || (h.end <= x && h'.end <= x)) ::
          m'[x] == m[x])
  }

  lemma KeepsDataTrans(m: Memory, m1: Memory, m2: Memory, head: nat, h: Layout, h1: Layout, h2: Layout)
    requires KeepsData(m, m1, head, h, h1) && KeepsData(m1, m2, head, h1, h2)
    requires h.LiveTiles() * h2.LiveTiles() <= h1.LiveTiles()
    requires h.start == h1.start && h1.end <= h2.end
    ensures KeepsData(m, m2, head, h, h2)
  {
  }

  // n bytes at p in one memory are the n bytes at q in another.
  ghost predicate SameBytes(m: Memory, p: nat, m': Memory, q: nat, n: nat)
  {
    p + n <= |m| && q + n <= |m'| && m[p..p + n] == m'[q..q + n]
  }

  lemma FewerBytes(m: Memory, p: nat, m': Memory, q: nat, n: nat, k: nat)
    requires SameBytes(m, p, m', q, n) && k <= n
    ensures SameBytes(m, p, m', q, k)
  {
    assert m[p..p + k] == m[p..p + n][..k];
    assert m'[q..q + k] == m'[q..q + n][..k];
  }

  function Min(a: nat, b: nat): (m: nat)
    ensures m <= a && m <= b && (m == a || m == b)
  {
    if a < b then a else b
  }

  // An update through a link and a window touches no payload outside the window.
  lemma WindowKeepsData(m: Memory, m': Memory, head: nat, h: Layout, h': Layout, k: nat, link: nat,
                        i: nat, j: nat, hi: nat)
    requires h.Valid() && head + WORD <= h.start && i <= j <= |h.tiles|
    requires Cursor(head, h.tiles, k, link) && k <= i
    requires SameOutside(m, m', link, h.Edge(i), hi) && h.Edge(i) <= hi
    requires hi <= h.Edge(j) || (j == |h.tiles| && hi <= h'.end)
    requires forall t | t in h.tiles[i..j] :: t.Live? ==> t !in h'.LiveTiles()
    ensures KeepsData(m, m', head, h, h')
  {
    hide LiveOf;
    InLive(h.tiles);
    AllApart(h);
    Aligned(h, i);
    if k > 0 {
      assert h.TileOk(k - 1);
    }
    forall t, x: nat | t in h.LiveTiles() && t in h'.LiveTiles()
            && t.addr + WORD <= x < t.addr + t.size && x < |m|
      ensures m'[x] == m[x]
    {
      var y: nat :| y < |h.tiles| && h.tiles[y] == t;
      if i <= y < j {
        InWindow(h.tiles, i, j, y);
      }
      Outside(h, k, i, j, y);
    }
  }

  lemma InWindow(ts: seq<Tile>, i: nat, j: nat, y: nat)
    requires i <= y < j <= |ts|
    ensures ts[y] in ts[i..j]
  {
    assert ts[i..j][y - i] == ts[y];
  }

  // A live tile outside the window meets neither the window nor the link.
  lemma Outside(h: Layout, k: nat, i: nat, j: nat, y: nat)
    requires h.Valid() && k <= i <= j <= |h.tiles| && y < |h.tiles| && (y < i || j <= y)
    requires h.tiles[y].Live? && (k > 0 ==> h.tiles[k - 1].Free?)
    ensures y < i ==> h.tiles[y].addr + h.tiles[y].size <= h.Edge(i)
    ensures j <= y ==> h.Edge(j) <= h.tiles[y].addr
    ensures k > 0 ==> var a := h.tiles[k - 1].addr;
                      h.tiles[y].addr + h.tiles[y].size <= a || a + ENTRY <= h.tiles[y].addr
  {
    AllApart(h);
    if k > 0 {
      assert h.TileOk(k - 1);
    }
  }

  class Heap {
    const start: nat      // &__malloc_start
    const head: nat       // &__malloc_freelist
    var mem: Memory
    var end: nat          // __malloc_end
    ghost var tiles: seq<Tile>

    ghost function View(): Layout
      reads this
    {
      Layout(start, end, tiles)
    }

    ghost predicate Valid()
      reads this
    {
      && View().Valid() && head + WORD <= start && end <= |mem| <= SIZE_MOD
      && Linked(mem, head, tiles)
    }

    // The free list is empty and the heap has no extent: the program's initial state.
    constructor (mem: Memory, head: nat, start: nat)
      requires start > 0 && start % WORD == 0 && head + WORD <= start <= |mem| <= SIZE_MOD
      requires Load(mem, head) == 0
      ensures Valid() && View() == Layout(start, start, []) && this.mem == mem && this.head == head
    {
      this.mem, this.head, this.start, this.end := mem, head, start, start;
      tiles := [];
    }

    // The search for a first fit has come to block i and found it large enough.
    method Use(nextfree: nat, block: nat, need: nat, ghost sz: nat, ghost k: nat, ghost i: nat)
      requires Valid() && AtFree(mem, head, View(), k, nextfree, i) && i < |tiles|
      requires block == tiles[i].addr && FitsRequest(need, sz) && need <= tiles[i].size && end + GAP <= SIZE_MOD
      modifies this
      ensures Valid() && |mem| == old(|mem|) && View() == Take(old(View()), i, need, sz)
      ensures KeepsData(old(mem), mem, head, old(View()), View())
    {
      hide Load, Store, SameOutside;
      ghost var h := View();
      ghost var m := mem;
      TakeFits(h, i, need, sz);
      LinkBelow(mem, head, h, k, nextfree, i);
      if Load(mem, block) < Sum(need, ENTRY) {
        mem := Store(mem, nextfree, Load(mem, block + WORD));
        UnlinkBlock(m, mem, head, h, k, nextfree, i, Live(block, h.tiles[i].size, sz));
      } else {
        var newsize := Load(mem, block) - need;
        var newnext := Load(mem, block + WORD);
        SplitStores(mem, nextfree, block + need, newsize);
        mem := Store(mem, nextfree, block + need);
        mem := Store(mem, Load(mem, nextfree), newsize);
        mem := Store(mem, Load(mem, nextfree) + WORD, newnext);
        mem := Store(mem, block, need);
        SplitBlock(m, mem, head, h, k, nextfree, i, need, sz);
      }
      tiles := Take(h, i, need, sz).tiles;
      TakeKeepsData(m, mem, head, h, k, nextfree, i, need, sz);
    }

    // The top block, or new space above it, is given out.
    method UseTop(nextfree: nat, need: nat, ghost sz: nat, ghost k: nat, ghost i: nat) returns (block: nat)
      requires Valid() && AtFree(mem, head, View(), k, nextfree, i) && FitsRequest(need, sz)
      requires if TopIsFree(View()) then i + 1 == |tiles| && tiles[i].size < need else i == |tiles|
      requires View().Edge(i) + need <= |mem|
      modifies this
      ensures Valid() && |mem| == old(|mem|) && View() == Extend(old(View()), need, sz) && block == old(View()).Edge(i)
      ensures KeepsData(old(mem), mem, head, old(View()), View())
    {
      hide Load, Store, SameOutside;
      ghost var h := View();
      ghost var m := mem;
      ghost var u := Live(h.Edge(i), need, sz);
      ExtendFits(h, need, sz);
      LinkBelow(mem, head, h, k, nextfree, i);
      block := Load(mem, nextfree);
      if block != 0 {
        FirstFreeIs(tiles, i, i);
        mem := Store(mem, nextfree, 0);
        end := block + need;
        mem := Store(mem, block, need);
        TakeTop(m, mem, head, h, k, nextfree, i, u);
      } else {
        FirstFreeIs(tiles, i, i);
        block := end;
        end := end + need;
        mem := Store(mem, block, need);
        AddTop(m, mem, head, h, k, nextfree, u);
      }
      tiles := Extend(h, need, sz).tiles;
      ExtendKeepsData(m, mem, head, h, k, nextfree, i, need, sz);
    }

    // Give out the top block or new space if there is room for what is missing.
    method Grow(nextfree: nat, more: nat, need: nat, ghost sz: nat, limit: nat, ghost k: nat, ghost i: nat)
      returns (p: nat)
      requires Valid() && AtFree(mem, head, View(), k, nextfree, i) && FitsRequest(need, sz)
      requires StackAbove(View(), limit) && limit <= |mem|
      requires if TopIsFree(View()) then i + 1 == |tiles| && need == tiles[i].size + more && more > 0
               else i == |tiles| && need == more
      modifies this
      ensures Valid() && |mem| == old(|mem|)
      ensures (View(), p) == if CanAlloc(limit, old(end), more)
                             then (Extend(old(View()), need, sz), old(View()).Edge(i) + WORD)
                             else (old(View()), 0)
      ensures KeepsData(old(mem), mem, head, old(View()), View())
    {
      hide Load, Store, FitsRequest, Extend, KeepsData, Linked, HeaderOk, CanAlloc;
      ghost var h := View();
      CanAllocBelowGap(limit, end, more);
      if !CanAlloc(limit, end, more) {
        p := 0;
        KeepsDataRefl(mem, head, h);
        return;
      }
      assert h.Edge(i) + need <= limit by {
        if i < |tiles| {
          Neighbours(h, i);
        }
      }
      var block := UseTop(nextfree, need, sz, k, i);
      p := block + WORD;
    }

    // malloc
    method Malloc(sz: nat, limit: nat) returns (p: nat)
      requires Valid() && StackAbove(View(), limit) && limit <= |mem| && sz <= MAX_REQUEST
      modifies this
      ensures Valid() && |mem| == old(|mem|)
      ensures (View(), p) == AllocatorSpec.Malloc(old(View()), sz, limit)
      ensures KeepsData(old(mem), mem, head, old(View()), View())
    {
      hide Load, Store, RealSize, CanAlloc, FitsRequest, Take, Extend, KeepsData, Linked, HeaderOk;
      var need := RealSize(sz);
      RealSizeExact(sz);
      ghost var h := View();
      LinkHolds(mem, head, h, 0, head);
      var nextfree: nat := head;
      ghost var k := 0;
      while Load(mem, nextfree) != 0
        invariant Valid() && View() == h && mem == old(mem)
        invariant Cursor(head, tiles, k, nextfree) && nextfree + WORD <= |mem|
        invariant forall x | 0 <= x < k :: tiles[x].Free? ==> tiles[x].size < need
        invariant k > 0 ==> k < |tiles|
        decreases |tiles| - k
      {
        ghost var i := NextFree(tiles, k);
        var block := Load(mem, nextfree);
        AtBlock(mem, head, h, k, nextfree, i);
        if Load(mem, block) >= need {
          FirstFitIs(tiles, need, i);
          Use(nextfree, block, need, sz, k, i);
          p := block + WORD;
          return;
        }
        if Load(mem, block + WORD) == 0 && end == block + Load(mem, block) {
          LastFree(h, i, need);
          p := Grow(nextfree, need - Load(mem, block), need, sz, limit, k, i);
          return;
        }
        MoreFree(mem, head, h, k, nextfree, i);
        nextfree := block + WORD;
        k := i + 1;
      }
      NoneFits(mem, head, h, k, nextfree, need);
      p := Grow(nextfree, need, need, sz, limit, k, |tiles|);
    }

    // free
    method Free(p: nat)
      requires Valid() && (p == 0 || IsLive(View(), p))
      modifies this
      ensures Valid() && |mem| == old(|mem|)
      ensures View() == if p == 0 then old(View()) else Release(old(View()), BlockOf(old(View()), p))
      ensures KeepsData(old(mem), mem, head, old(View()), View())
    {
      ghost var h := View();
      if p == 0 {
        KeepsDataRefl(mem, head, h);
        return;
      }
      hide Load, Store, SameOutside, Release, KeepsData, Linked, NoFree, HeaderOk, FirstFree, Layout.Valid;
      var block: nat := p - WORD;
      ghost var b := BlockOf(h, p);
      var nextfree: nat := head;
      ghost var k := 0;
      while Load(mem, nextfree) != 0
        invariant Valid() && View() == h && mem == old(mem)
        invariant Cursor(head, tiles, k, nextfree) && nextfree + WORD <= |mem|
        invariant k == 0 || k < b
        decreases |tiles| - k
      {
        ghost var i := NextFree(tiles, k);
        var thisblock := Load(mem, nextfree);
        AtBlock(mem, head, h, k, nextfree, i);
        Order(h, i, b);
        var joined := Join(nextfree, thisblock, block, k, i, b);
        if joined {
          return;
        } else if thisblock > block {
          break;
        }
        nextfree := thisblock + WORD;
        k := i + 1;
      }
      FirstAfter(mem, head, h, k, nextfree, b);
      Insert(nextfree, block, k, NextFree(tiles, k), b);
    }

    // The block reached is merged with the one released if they touch.
    method Join(nextfree: nat, thisblock: nat, block: nat, ghost k: nat, ghost i: nat, ghost b: nat)
      returns (joined: bool)
      requires Valid() && AtFree(mem, head, View(), k, nextfree, i) && i < |tiles|
      requires b < |tiles| && tiles[b].Live? && (k == 0 || k < b)
      requires thisblock == tiles[i].addr && block == tiles[b].addr
      modifies this
      ensures Valid() && |mem| == old(|mem|)
      ensures joined == (i + 1 == b || b + 1 == i)
      ensures joined ==> View() == Release(old(View()), b)
      ensures !joined ==> View() == old(View()) && mem == old(mem)
      ensures KeepsData(old(mem), mem, head, old(View()), View())
    {
      hide Load, Store, Release, KeepsData, Linked, HeaderOk;
      ghost var h := View();
      Order(h, i, b);
      HeaderLive(mem, head, h, i);
      HeaderLive(mem, head, h, b);
      joined := true;
      if thisblock + Load(mem, thisblock) == block {
        JoinPrevious(nextfree, thisblock, block, k, i);
      } else if thisblock == block + Load(mem, block) {
        JoinNext(nextfree, thisblock, block, k, i);
      } else {
        joined := false;
        KeepsDataRefl(mem, head, h);
      }
    }

    // The block before the one released is free; perhaps the one after it is, too.
    method JoinPrevious(nextfree: nat, thisblock: nat, block: nat, ghost k: nat, ghost i: nat)
      requires Valid() && AtFree(mem, head, View(), k, nextfree, i) && i + 1 < |tiles| && tiles[i + 1].Live?
      requires thisblock == tiles[i].addr && block == tiles[i + 1].addr
      modifies this
      ensures Valid() && |mem| == old(|mem|) && View() == Release(old(View()), i + 1)
      ensures KeepsData(old(mem), mem, head, old(View()), View())
    {
      hide Load, Store, Linked, HeaderOk, KeepsData, Release, Cursor, NoFree;
      ghost var h := View();
      ghost var m := mem;
      SizeThenNext(mem, head, h, k, nextfree, i);
      NextAfterLive(h, i);
      if i + 2 < |tiles| && tiles[i + 2].Free? {
        ThirdBlock(mem, head, h, k, nextfree, i);
      }
      mem := Store(mem, thisblock, Load(mem, thisblock) + Load(mem, block));
      if Load(mem, thisblock + WORD) != 0 && block + Load(mem, block) == Load(mem, thisblock + WORD) {
        mem := Store(mem, thisblock, Load(mem, thisblock) + Load(mem, Load(mem, thisblock + WORD)));
        mem := Store(mem, thisblock + WORD, Load(mem, Load(mem, thisblock + WORD) + WORD));
        BothJoined(m, mem, head, h, k, nextfree, i);
      } else {
        PreviousJoined(m, mem, head, h, k, nextfree, i);
      }
      tiles := Release(h, i + 1).tiles;
      ReleaseShape(h, i + 1);
    }

    // The block after the one released is free, the one before it is not.
    method JoinNext(nextfree: nat, thisblock: nat, block: nat, ghost k: nat, ghost i: nat)
      requires Valid() && AtFree(mem, head, View(), k, nextfree, i) && k < i < |tiles|
      requires k == 0 || k < i - 1
      requires thisblock == tiles[i].addr && block == tiles[i - 1].addr
      modifies this
      ensures Valid() && |mem| == old(|mem|) && View() == Release(old(View()), i - 1)
      ensures KeepsData(old(mem), mem, head, old(View()), View())
    {
      hide Load, Store, Linked, HeaderOk, KeepsData, Release, Cursor, NoFree;
      ghost var h := View();
      ghost var m := mem;
      NextSizes(mem, head, h, k, nextfree, i);
      mem := Store(mem, block, Load(mem, block) + Load(mem, thisblock));
      mem := Store(mem, block + WORD, Load(mem, thisblock + WORD));
      mem := Store(mem, nextfree, block);
      NextJoined(m, mem, head, h, k, nextfree, i);
      tiles := Release(h, i - 1).tiles;
      ReleaseShape(h, i - 1);
    }

    // Neither neighbour of the block released is free.
    method Insert(nextfree: nat, block: nat, ghost k: nat, ghost i: nat, ghost b: nat)
      requires Valid() && AtFree(mem, head, View(), k, nextfree, i)
      requires k <= b < i && (k == b ==> k == 0) && (b + 1 == i ==> i == |tiles|)
      requires block == tiles[b].addr
      modifies this
      ensures Valid() && |mem| == old(|mem|) && View() == Release(old(View()), b)
      ensures KeepsData(old(mem), mem, head, old(View()), View())
    {
      hide Load, Store, SameOutside;
      ghost var h := View();
      ghost var m := mem;
      ReleaseFits(h, b);
      LinkBelow(mem, head, h, k, nextfree, i);
      HeaderLive(mem, head, h, b);
      mem := Store(mem, block + WORD, Load(mem, nextfree));
      mem := Store(mem, nextfree, block);
      LinkBlock(m, mem, head, h, k, nextfree, i, b, Merged(h, b));
      tiles := Release(h, b).tiles;
      ReleaseKeepsData(m, mem, head, h, k, nextfree, b);
    }

    // realloc
    method Realloc(p: nat, sz: nat, limit: nat) returns (q: nat)
      requires Valid() && StackAbove(View(), limit) && limit <= |mem| && sz <= MAX_REQUEST
      requires p == 0 || IsLive(View(), p)
      modifies this
      ensures Valid() && KeepsData(old(mem), mem, head, old(View()), View())
      ensures (View(), q) == if p == 0 then AllocatorSpec.Malloc(old(View()), sz, limit)
                             else AllocatorSpec.Realloc(old(View()), BlockOf(old(View()), p), sz, limit)
      ensures p != 0 && q != 0 ==>
                var t := old(tiles)[BlockOf(old(View()), p)];
                t.size >= WORD && SameBytes(old(mem), p, mem, q, Min(t.size - WORD, sz))
    {
      hide KeepsData, Linked;
      if p == 0 {
        q := Malloc(sz, limit);
        return;
      }
      q := Resize(p, sz, limit, BlockOf(View(), p));
    }

    // realloc of a live block.
    method Resize(p: nat, sz: nat, limit: nat, ghost b: nat) returns (q: nat)
      requires Valid() && StackAbove(View(), limit) && limit <= |mem| && sz <= MAX_REQUEST
      requires b < |tiles| && tiles[b].Live? && p == tiles[b].addr + WORD
      modifies this
      ensures Valid() && KeepsData(old(mem), mem, head, old(View()), View())
      ensures (View(), q) == AllocatorSpec.Realloc(old(View()), b, sz, limit)
      ensures old(tiles)[b].size >= WORD
      ensures q != 0 ==> SameBytes(old(mem), p, mem, q, Min(old(tiles)[b].size - WORD, sz))
    {
      hide Load, Store, Release, KeepsData, Linked, HeaderOk, RealSize, CanAlloc, Cut, AllocatorSpec.Malloc;
      RealSizeExact(sz);
      var block: nat := p - WORD;
      var need := RealSize(sz);
      HeaderLive(mem, head, View(), b);
      Neighbours(View(), b);
      assert View().TileOk(b);
      var oldRealSize := Load(mem, block);
      if oldRealSize < need {
        q := Move(p, oldRealSize, sz, limit, b);
      } else if oldRealSize - need >= ENTRY {
        Shrink(block, oldRealSize, need, sz, b);
        q := p;
        FewerBytes(old(mem), p, mem, q, need - WORD, Min(oldRealSize - WORD, sz));
      } else {
        Stay(sz, b);
        q := p;
      }
    }

    // Allocate, copy and free.
    method Move(p: nat, oldRealSize: nat, sz: nat, limit: nat, ghost b: nat) returns (q: nat)
      requires Valid() && StackAbove(View(), limit) && limit <= |mem| && sz <= MAX_REQUEST
      requires b < |tiles| && tiles[b].Live? && p == tiles[b].addr + WORD
      requires oldRealSize == tiles[b].size < RealSize(sz)
      modifies this
      ensures Valid() && KeepsData(old(mem), mem, head, old(View()), View())
      ensures (View(), q) == AllocatorSpec.Realloc(old(View()), b, sz, limit)
      ensures oldRealSize >= WORD
      ensures q != 0 ==> SameBytes(old(mem), p, mem, q, Min(oldRealSize - WORD, sz))
    {
      hide Load, Store, SameOutside, KeepsData, Linked, Release, AllocatorSpec.Malloc, RealSize;
      ghost var h := View();
      ghost var m0 := mem;
      Neighbours(h, b);
      var oldSize := oldRealSize - WORD;
      q := Malloc(sz, limit);
      if q == 0 {
        NoMove(h, sz, limit);
        return;
      }
      ghost var h1 := View();
      ghost var m1 := mem;
      ghost var u, d := MoveBlocks(h, b, sz, limit);
      var n := Min(oldSize, sz);
      mem := Copy(mem, q, p, n);
      CopyInside(m1, mem, head, h1, d, n);
      ghost var m2 := mem;
      Free(p);
      ReleaseKeeps(h1, BlockOf(h1, p));
      Moved(m0, m1, m2, mem, head, h, h1, View(), h.tiles[b], u, n);
    }

    // Give the tail of the block back.
    method Shrink(block: nat, oldRealSize: nat, need: nat, ghost sz: nat, ghost b: nat)
      requires Valid() && b < |tiles| && tiles[b].Live? && block == tiles[b].addr
      requires oldRealSize == tiles[b].size && FitsRequest(need, sz) && need + ENTRY <= oldRealSize
      modifies this
      ensures Valid() && View() == Release(Cut(old(View()), b, need, sz), b + 1)
      ensures KeepsData(old(mem), mem, head, old(View()), View())
      ensures need >= WORD && SameBytes(old(mem), block + WORD, mem, block + WORD, need - WORD)
    {
      hide Load, Store, SameOutside, KeepsData, Release;
      ghost var h := View();
      ghost var m0 := mem;
      Neighbours(h, b);
      CutFits(h, b, need, sz);
      CutKeeps(h, b, need, sz);
      var newblock := block + need;
      CutStores(mem, h.tiles[b], need, sz);
      mem := Store(mem, block, need);
      mem := Store(mem, newblock, oldRealSize - need);
      RecastLive(m0, mem, head, h, b, Halves(h.tiles[b], need, sz));
      tiles := Cut(h, b, need, sz).tiles;
      ghost var m1 := mem;
      IndexOfIs(View(), b + 1);
      Free(newblock + WORD);
      Shrunk(m0, m1, mem, head, h, b, need, sz);
    }

    // Nothing moves; only what was asked for changes.
    ghost method Stay(sz: nat, b: nat)
      requires Valid() && b < |tiles| && tiles[b].Live? && FitsRequest(tiles[b].size, sz)
      modifies this`tiles
      ensures Valid()
      ensures View() == old(View()).Splice(b, b + 1, [Live(old(tiles)[b].addr, old(tiles)[b].size, sz)], end)
      ensures KeepsData(mem, mem, head, old(View()), View())
    {
      hide Load, Store, LiveOf;
      var h := View();
      var u := Live(h.tiles[b].addr, h.tiles[b].size, sz);
      StayFits(h, b, sz);
      HeaderLive(mem, head, h, b);
      assert HeaderIn(mem, [u], 0);
      RecastLive(mem, mem, head, h, b, [u]);
      SpliceValid(h, b, b + 1, [u], end);
      tiles := h.Splice(b, b + 1, [u], end).tiles;
    }

    // memalign
    method Memalign(align: nat, sz: nat, limit: nat) returns (p: nat)
      requires Valid() && StackAbove(View(), limit) && limit <= |mem|
      requires sz <= MAX_REQUEST && (PowerOfTwo(align) ==> SumsFit(align, RealSize(sz)))
      modifies this
      ensures Valid() && |mem| == old(|mem|)
      ensures (View(), p) == AlignedSpec.Memalign(old(View()), align, sz, limit)
      ensures KeepsData(old(mem), mem, head, old(View()), View())
    {
      hide Load, Store, KeepsData, RealSize, CanAlloc, Before, MAlign, Carve, GrowAndCarve, GrowTop, FitsRequest,
           SumsFit;
      ghost var h := View();
      if !PowerOfTwo(align) {
        p := 0;
        KeepsDataRefl(mem, head, h);
        return;
      }
      var need := RealSize(sz);
      RealSizeExact(sz);
      var nextfree: nat := head;
      ghost var k := 0;
      while Load(mem, nextfree) != 0
        invariant Valid() && View() == h && mem == old(mem)
        invariant Cursor(head, tiles, k, nextfree) && nextfree + WORD <= |mem|
        invariant NoneFitsBefore(tiles, k, need, align)
        invariant k > 0 ==> k < |tiles|
        decreases |tiles| - k
      {
        ghost var i := NextFree(tiles, k);
        var block := Load(mem, nextfree);
        AtBlock(mem, head, h, k, nextfree, i);
        FirstAlignedIs(h.tiles, need, align, k, i);
        var done;
        done, p := Attempt(nextfree, block, align, need, sz, limit, k, i);
        if done {
          TopIsLast(h, i);
          return;
        }
        nextfree := block + WORD;
        k := i + 1;
      }
      NoneAligned(mem, head, h, k, nextfree, need, align);
      p := Append(nextfree, align, need, sz, limit, k);
    }

    // One round of the search: enlarge the block reached if it is the top one and too
    // small, and carve it if it is large enough.
    method Attempt(nextfree: nat, block: nat, align: nat, need: nat, ghost sz: nat, limit: nat,
                   ghost k: nat, ghost i: nat)
      returns (done: bool, p: nat)
      requires Valid() && AtFree(mem, head, View(), k, nextfree, i) && i < |tiles| && block == tiles[i].addr
      requires StackAbove(View(), limit) && limit <= |mem| && PowerOfTwo(align) && FitsRequest(need, sz)
      requires need < SIZE_MOD && SumsFit(align, need)
      modifies this
      ensures Valid() && |mem| == old(|mem|)
      ensures KeepsData(old(mem), mem, head, old(View()), View())
      ensures var t := old(tiles)[i];
              var fits := t.size >= need + Before(t.addr, align);
              && done == (fits || i + 1 == |old(tiles)|)
              && (fits ==> (View(), p) == Carve(old(View()), i, align, need, sz))
              && (!fits && done ==> TopIsFree(old(View())))
              && (!fits && done ==> (View(), p) == GrowAndCarve(old(View()), align, need, sz, limit))
              && (!done ==> View() == old(View()) && mem == old(mem))
    {
      hide Load, Store, Linked, HeaderOk, KeepsData, CanAlloc, Carve, GrowAndCarve, FitsRequest, Before, MAlign,
           Sum, SumsFit;
      WholeWords(need, sz);
      ghost var h := View();
      BlockWords(mem, head, h, k, nextfree, i);
      var oldSize := Load(mem, block);
      var beforeSize := BeforeSize(block, align, need, i);
      if Load(mem, block + WORD) == 0 && oldSize < Sum(need, beforeSize) && end == block + Load(mem, block) {
        TopIsLast(h, i);
        LastFree(h, i, need);
        done := true;
        p := Enlarge(nextfree, block, beforeSize, align, need, sz, limit, k, i);
      } else if oldSize >= Sum(need, beforeSize) {
        done := true;
        p := Give(nextfree, block, oldSize, beforeSize, align, need, sz, k, i);
      } else {
        done, p := false, 0;
        KeepsDataRefl(mem, head, h);
        NotTop(mem, head, h, k, nextfree, i);
      }
    }

    // The space to leave in front of the aligned block.
    method BeforeSize(block: nat, align: nat, ghost need: nat, ghost i: nat) returns (beforeSize: nat)
      requires Valid() && i < |tiles| && block == tiles[i].addr
      requires PowerOfTwo(align) && need % WORD == 0 && need < SIZE_MOD && SumsFit(align, need)
      ensures beforeSize == Before(block, align)
      ensures Sum(need, beforeSize) == Sum(beforeSize, need) == need + beforeSize
    {
      hide Linked, HeaderOk, MAlign, Sum, SumsFit, PowerOfTwo;
      EdgeSums(View(), i, align, need);
      beforeSize := MAlign(block + WORD, align);
      if beforeSize != 0 {
        beforeSize := Sum(ENTRY, MAlign(block + ENTRY + WORD, align));
      }
    }

    // The top block is too small: it grows into new space, if there is any, and is carved.
    method Enlarge(nextfree: nat, block: nat, beforeSize: nat, ghost align: nat, need: nat, ghost sz: nat, limit: nat,
                   ghost k: nat, ghost i: nat)
      returns (p: nat)
      requires Valid() && AtFree(mem, head, View(), k, nextfree, i) && i + 1 == |tiles| && block == tiles[i].addr
      requires StackAbove(View(), limit) && limit <= |mem| && PowerOfTwo(align) && FitsRequest(need, sz)
      requires TopIsFree(View()) && beforeSize == Before(block, align)
      requires Sum(beforeSize, need) == need + beforeSize > tiles[i].size
      modifies this
      ensures Valid() && |mem| == old(|mem|)
      ensures KeepsData(old(mem), mem, head, old(View()), View())
      ensures (View(), p) == GrowAndCarve(old(View()), align, need, sz, limit)
    {
      hide Load, Store, Linked, HeaderOk, KeepsData, CanAlloc, Carve, GrowTop, FitsRequest, Before, Sum, PowerOfTwo;
      ghost var h := View();
      ghost var m := mem;
      BlockWords(mem, head, h, k, nextfree, i);
      TopAtEnd(h);
      if !CanAlloc(limit, end, Sum(beforeSize, need) - Load(mem, block)) {
        p := 0;
        KeepsDataRefl(mem, head, h);
        return;
      }
      GrowStep(h, align, need, sz, limit);
      var oldSize := Sum(beforeSize, need);
      SumBelow(block, oldSize);
      end := Sum(block, oldSize);
      mem := Store(mem, block, oldSize);
      tiles := GrowTop(h, oldSize).tiles;
      Grown(m, mem, head, h, k, nextfree, i, oldSize);
      ghost var g := View();
      ghost var m1 := mem;
      p := Give(nextfree, block, oldSize, beforeSize, align, need, sz, k, i);
      ThenCarved(m, m1, mem, head, h, g, align, need, sz);
    }

    // Carves the free block reached.
    method Give(nextfree: nat, block: nat, oldSize: nat, beforeSize: nat, ghost align: nat, need: nat,
                ghost sz: nat, ghost k: nat, ghost i: nat)
      returns (p: nat)
      requires Valid() && AtFree(mem, head, View(), k, nextfree, i) && i < |tiles| && block == tiles[i].addr
      requires oldSize == tiles[i].size >= need + beforeSize && PowerOfTwo(align) && FitsRequest(need, sz)
      requires beforeSize == Before(block, align) && end + GAP <= SIZE_MOD
      modifies this
      ensures Valid() && |mem| == old(|mem|)
      ensures (View(), p) == Carve(old(View()), i, align, need, sz)
      ensures KeepsData(old(mem), mem, head, old(View()), View())
    {
      if beforeSize != 0 {
        p := GiveBehind(nextfree, block, oldSize, beforeSize, align, need, sz, k, i);
      } else {
        p := GiveFront(nextfree, block, oldSize, align, need, sz, k, i);
      }
    }

    // There is space in front of the aligned block, and perhaps behind it.
    method GiveBehind(nextfree: nat, block: nat, oldSize: nat, beforeSize: nat, ghost align: nat, need: nat,
                      ghost sz: nat, ghost k: nat, ghost i: nat)
      returns (p: nat)
      requires Valid() && AtFree(mem, head, View(), k, nextfree, i) && i < |tiles| && block == tiles[i].addr
      requires oldSize == tiles[i].size >= need + beforeSize && PowerOfTwo(align) && FitsRequest(need, sz)
      requires beforeSize == Before(block, align) && beforeSize != 0 && end + GAP <= SIZE_MOD
      modifies this
      ensures Valid() && |mem| == old(|mem|)
      ensures (View(), p) == Carve(old(View()), i, align, need, sz)
      ensures KeepsData(old(mem), mem, head, old(View()), View())
    {
      hide Load, Store, SameOutside, Before, HeaderOk, KeepsData, Linked, Sum, CanSplice, Cursor, NoFree, LiveOf;
      ghost var h := View();
      ghost var m := mem;
      ghost var rest := oldSize - beforeSize;
      CarveFits(h, i, align, need, sz);
      BlockWords(mem, head, h, k, nextfree, i);
      SumBelow(need, ENTRY);
      var cut := block + beforeSize;
      mem := Store(mem, block, beforeSize);
      if oldSize - beforeSize <= Sum(need, ENTRY) {
        mem := Store(mem, cut, oldSize - beforeSize);
        KeepFront(m, mem, head, h, k, nextfree, i, Tile.Free(block, beforeSize), Live(cut, rest, sz));
      } else {
        var newBlock := cut + need;
        FrontNext(m, block, beforeSize, newBlock, rest - need);
        mem := Store(mem, newBlock, oldSize - beforeSize - need);
        mem := Store(mem, newBlock + WORD, Load(mem, block + WORD));
        mem := Store(mem, block + WORD, newBlock);
        mem := Store(mem, cut, need);
        KeepBoth(m, mem, head, h, k, nextfree, i, Tile.Free(block, beforeSize), Live(cut, need, sz),
                 Tile.Free(newBlock, rest - need));
      }
      p := cut + WORD;
      tiles := Carve(h, i, align, need, sz).0.tiles;
      CarveKeepsData(m, mem, head, h, k, nextfree, i, align, need, sz);
    }

    // The block is aligned as it is.
    method GiveFront(nextfree: nat, block: nat, oldSize: nat, ghost align: nat, need: nat,
                     ghost sz: nat, ghost k: nat, ghost i: nat)
      returns (p: nat)
      requires Valid() && AtFree(mem, head, View(), k, nextfree, i) && i < |tiles| && block == tiles[i].addr
      requires oldSize == tiles[i].size >= need && PowerOfTwo(align) && FitsRequest(need, sz)
      requires Before(block, align) == 0 && end + GAP <= SIZE_MOD
      modifies this
      ensures Valid() && |mem| == old(|mem|)
      ensures (View(), p) == Carve(old(View()), i, align, need, sz)
      ensures KeepsData(old(mem), mem, head, old(View()), View())
    {
      hide Load, Store, SameOutside, Before, HeaderOk, KeepsData, Linked, Sum;
      ghost var h := View();
      ghost var m := mem;
      CarveFits(h, i, align, need, sz);
      BlockWords(mem, head, h, k, nextfree, i);
      SumBelow(need, ENTRY);
      LinkBelow(mem, head, h, k, nextfree, i);
      if oldSize <= Sum(need, ENTRY) {
        mem := Store(mem, nextfree, Load(mem, block + WORD));
        UnlinkBlock(m, mem, head, h, k, nextfree, i, Live(block, oldSize, sz));
      } else {
        var newsize := oldSize - need;
        var newnext := Load(mem, block + WORD);
        SplitStores(mem, nextfree, block + need, newsize);
        mem := Store(mem, nextfree, block + need);
        mem := Store(mem, Load(mem, nextfree), newsize);
        mem := Store(mem, Load(mem, nextfree) + WORD, newnext);
        mem := Store(mem, block, need);
        SplitBlock(m, mem, head, h, k, nextfree, i, need, sz);
      }
      p := block + WORD;
      tiles := Carve(h, i, align, need, sz).0.tiles;
      CarveKeepsData(m, mem, head, h, k, nextfree, i, align, need, sz);
    }

    // Adds a free block above the last one, which is live, and carves it.
    method Append(nextfree: nat, align: nat, need: nat, ghost sz: nat, limit: nat, ghost k: nat) returns (p: nat)
      requires Valid() && AtFree(mem, head, View(), k, nextfree, |tiles|) && !TopIsFree(View())
      requires StackAbove(View(), limit) && limit <= |mem| && PowerOfTwo(align) && FitsRequest(need, sz)
      requires need < SIZE_MOD && SumsFit(align, need)
      modifies this
      ensures Valid() && |mem| == old(|mem|)
      ensures var h := old(View());
              var size := need + MAlign(h.end + WORD, align);
              (View(), p) == if !CanAlloc(limit, h.end, size) then (h, 0)
                             else GrowAndCarve(GrowTop(h, size), align, need, sz, limit)
      ensures KeepsData(old(mem), mem, head, old(View()), View())
    {
      hide Load, Store, Linked, HeaderOk, KeepsData, CanAlloc, GrowTop, GrowAndCarve, MAlign, Before, FitsRequest,
           Sum, SumsFit;
      WholeWords(need, sz);
      ghost var h := View();
      ghost var m := mem;
      ghost var n := |tiles|;
      EdgeSums(h, n, align, need);
      var oldSize := Sum(need, MAlign(end + WORD, align));
      var block := end;
      if !CanAlloc(limit, end, oldSize) {
        p := 0;
        KeepsDataRefl(mem, head, h);
        return;
      }
      AppendFits(h, align, need, sz, limit);
      LinkTop(nextfree, oldSize, k);
      ghost var g := View();
      ghost var m1 := mem;
      var done;
      done, p := Attempt(nextfree, block, align, need, sz, limit, k, n);
      CarvedWhole(g, align, need, sz, limit);
      ThenGrown(m, m1, mem, head, h, g, align, need, sz, limit);
    }

    // The new free block at the end of the heap, linked in last.
    method LinkTop(nextfree: nat, size: nat, ghost k: nat)
      requires Valid() && AtFree(mem, head, View(), k, nextfree, |tiles|) && !TopIsFree(View())
      requires GoodTile(Tile.Free(0, size)) && end + size + GAP <= SIZE_MOD && end + size <= |mem|
      modifies this
      ensures Valid() && |mem| == old(|mem|) && View() == GrowTop(old(View()), size)
      ensures KeepsData(old(mem), mem, head, old(View()), View())
      ensures AtFree(mem, head, View(), k, nextfree, |old(tiles)|) && |tiles| == |old(tiles)| + 1
      ensures TopIsFree(View()) && Last(tiles) == Tile.Free(old(end), size) && end == old(end) + size
      ensures View().start == old(View()).start && View().LiveTiles() == old(View()).LiveTiles()
    {
      hide Load, Store, Linked, HeaderOk, KeepsData, Sum;
      ghost var h := View();
      ghost var m := mem;
      var block := end;
      LinkBelow(mem, head, h, k, nextfree, |tiles|);
      SumBelow(end, size);
      end := Sum(end, size);
      mem := Store(mem, nextfree, block);
      mem := Store(mem, block, size);
      mem := Store(mem, block + WORD, 0);
      AppendFree(m, mem, head, h, k, nextfree, Tile.Free(block, size));
      tiles := GrowTop(h, size).tiles;
      Appended(m, mem, head, h, k, nextfree, size);
    }

    // mallinfo
    method Mallinfo() returns (arena: nat, fordblks: nat, uordblks: nat, ordblks: nat, keepcost: nat)
      requires Valid()
      ensures arena == end - start && fordblks + uordblks == arena
      ensures fordblks == FreeBytes(tiles) && uordblks == LiveBytes(tiles)
      ensures ordblks == FreeCount(tiles)
      ensures keepcost == if TopIsFree(View()) then Last(tiles).size else 0
    {
      hide Load, Linked, HeaderOk;
      ghost var h := View();
      fordblks, ordblks, keepcost := 0, 0, 0;
      ghost var k := 0;
      ghost var link: nat := head;
      LinkHolds(mem, head, h, k, link);
      var fr := Load(mem, head);
      while fr != 0
        invariant Cursor(head, tiles, k, link) && link + WORD <= |mem| && fr == Load(mem, link)
        invariant fordblks == FreeBytes(tiles[..k]) && ordblks == FreeCount(tiles[..k])
        invariant keepcost == if k > 0 && k == |tiles| then Last(tiles).size else 0
        decreases |tiles| - k
      {
        ghost var i := NextFree(tiles, k);
        AtBlock(mem, head, h, k, link, i);
        NotTop(mem, head, h, k, link, i);
        FreeSteps(tiles, k, i);
        fordblks := fordblks + Load(mem, fr);
        ordblks := ordblks + 1;
        if Load(mem, fr + WORD) == 0 {
          if fr + Load(mem, fr) == end {
            LastFree(h, i, 0);
            keepcost := Load(mem, fr);
          }
        }
        link := fr + WORD;
        k := i + 1;
        fr := Load(mem, fr + WORD);
      }
      LinkHolds(mem, head, h, k, link);
      FreeTail(tiles, k);
      Accounts(h);
      arena := end - start;
      uordblks := arena - fordblks;
    }
  }

  // The link still leads to the new block while its header is written.
  lemma SplitStores(m: Memory, link: nat, n: nat, size: nat)
    requires link + WORD <= n && n + WORD <= |m| <= SIZE_MOD && size < SIZE_MOD
    ensures Load(Store(m, link, n), link) == n
    ensures Load(Store(Store(m, link, n), n, size), link) == n
  {
    StoreEffect(m, link, n);
    StoreEffect(Store(m, link, n), n, size);
  }

  lemma TakeKeepsData(m: Memory, m': Memory, head: nat, h: Layout, k: nat, link: nat, i: nat, need: nat, sz: nat)
    requires AtFree(m, head, h, k, link, i) && i < |h.tiles|
    requires FitsRequest(need, sz) && need <= h.tiles[i].size
    requires SameOutside(m, m', link, h.Edge(i), h.tiles[i].addr + h.tiles[i].size)
    ensures Take(h, i, need, sz).Valid()
    ensures KeepsData(m, m', head, h, Take(h, i, need, sz))
  {
    TakeKeeps(h, i, need, sz);
    assert h.TileOk(i);
    WindowKeepsData(m, m', head, h, Take(h, i, need, sz), k, link, i, i + 1, h.Edge(i + 1));
  }

  lemma ExtendKeepsData(m: Memory, m': Memory, head: nat, h: Layout, k: nat, link: nat, i: nat, need: nat, sz: nat)
    requires AtFree(m, head, h, k, link, i) && FitsRequest(need, sz)
    requires i == if TopIsFree(h) then |h.tiles| - 1 else |h.tiles|
    requires SameOutside(m, m', link, h.Edge(i), h.Edge(i) + need)
    ensures Extend(h, need, sz).Valid()
    ensures KeepsData(m, m', head, h, Extend(h, need, sz))
  {
    ExtendKeeps(h, need, sz);
    WindowKeepsData(m, m', head, h, Extend(h, need, sz), k, link, i, |h.tiles|, h.Edge(i) + need);
  }

  lemma KeepsDataRefl(m: Memory, head: nat, h: Layout)
    ensures KeepsData(m, m, head, h, h)
  {
  }

  // What the loop body of malloc and memalign knows of the block it has reached.
  lemma AtBlock(m: Memory, head: nat, h: Layout, k: nat, link: nat, i: nat)
    requires h.Valid() && Linked(m, head, h.tiles) && head + WORD <= h.start && h.end <= |m| <= SIZE_MOD
    requires Cursor(head, h.tiles, k, link) && link + WORD <= |m| && i == NextFree(h.tiles, k)
    requires Load(m, link) != 0
    ensures AtFree(m, head, h, k, link, i) && k <= i < |h.tiles|
    ensures Load(m, link) == h.tiles[i].addr && h.tiles[i].addr + h.tiles[i].size <= h.end
    ensures h.tiles[i].size >= ENTRY && Load(m, h.tiles[i].addr) == h.tiles[i].size
    ensures Load(m, h.tiles[i].addr + WORD) == FirstFree(h.tiles[i + 1..])
  {
    hide Load;
    LinkHolds(m, head, h, k, link);
    LinkBelow(m, head, h, k, link, i);
  }

  lemma FirstFitIs(ts: seq<Tile>, need: nat, i: nat)
    requires i < |ts| && ts[i].Free? && ts[i].size >= need
    requires forall x | 0 <= x < i :: ts[x].Free? ==> ts[x].size < need
    ensures FirstFit(ts, need, 0) == i
  {
  }

  // A block without successor that reaches the end of the heap is the top block.
  lemma LastFree(h: Layout, i: nat, need: nat)
    requires h.Valid() && i < |h.tiles| && h.tiles[i].Free?
    requires h.end == h.tiles[i].addr + h.tiles[i].size
    ensures i + 1 == |h.tiles| && TopIsFree(h)
  {
    if i + 1 < |h.tiles| {
      Neighbours(h, i);
    }
  }

  // Otherwise there is another block after it, and the walk goes on.
  lemma MoreFree(m: Memory, head: nat, h: Layout, k: nat, link: nat, i: nat)
    requires AtFree(m, head, h, k, link, i) && i < |h.tiles|
    requires h.tiles[i].addr + ENTRY <= |m|
    requires Load(m, h.tiles[i].addr + WORD) != 0 || h.end != h.tiles[i].addr + h.tiles[i].size
    ensures i + 1 < |h.tiles| && Cursor(head, h.tiles, i + 1, h.tiles[i].addr + WORD)
  {
    LinkBelow(m, head, h, k, link, i);
    assert h.tiles[i + 1..] == [] ==> i + 1 == |h.tiles|;
    if i + 1 == |h.tiles| {
      TopAtEnd(h);
    }
  }

  // The end of the list with no block large enough: the top block is live.
  lemma NoneFits(m: Memory, head: nat, h: Layout, k: nat, link: nat, need: nat)
    requires h.Valid() && Linked(m, head, h.tiles) && head + WORD <= h.start && h.end <= |m| <= SIZE_MOD
    requires Cursor(head, h.tiles, k, link) && link + WORD <= |m| && Load(m, link) == 0
    requires forall x | 0 <= x < k :: h.tiles[x].Free? ==> h.tiles[x].size < need
    requires k > 0 ==> k < |h.tiles|
    ensures AtFree(m, head, h, k, link, |h.tiles|) && !TopIsFree(h)
    ensures FirstFit(h.tiles, need, 0) == |h.tiles|
  {
    hide Load;
    LinkHolds(m, head, h, k, link);
    assert NextFree(h.tiles, k) == |h.tiles|;
  }

  // Addresses decide where free block i lies relative to live block b.
  lemma Order(h: Layout, i: nat, b: nat)
    requires h.Valid() && i < |h.tiles| && b < |h.tiles| && i != b
    ensures var t, u := h.tiles[i], h.tiles[b];
            && (t.addr + t.size == u.addr <==> i + 1 == b)
            && (t.addr == u.addr + u.size <==> b + 1 == i)
            && (t.addr > u.addr <==> i > b)
  {
    AllApart(h);
    assert h.TileOk(i) && h.TileOk(b);
    if i + 1 < b {
      assert h.TileOk(i + 1);
    }
    if b + 1 < i {
      assert h.TileOk(b + 1);
    }
  }

  lemma HeaderLive(m: Memory, head: nat, h: Layout, b: nat)
    requires h.Valid() && Linked(m, head, h.tiles) && b < |h.tiles|
    ensures h.tiles[b].addr + ENTRY <= |m| && Load(m, h.tiles[b].addr) == h.tiles[b].size
  {
    assert HeaderOk(m, h.tiles, b);
  }

  // Where the search of free stops.
  lemma FirstAfter(m: Memory, head: nat, h: Layout, k: nat, link: nat, b: nat)
    requires h.Valid() && Linked(m, head, h.tiles) && head + WORD <= h.start && h.end <= |m| <= SIZE_MOD
    requires Cursor(head, h.tiles, k, link) && link + WORD <= |m|
    requires b < |h.tiles| && h.tiles[b].Live? && (k == 0 || k < b)
    requires Load(m, link) == 0
             || (Load(m, link) > h.tiles[b].addr && Load(m, link) != h.tiles[b].addr + h.tiles[b].size)
    ensures var i := NextFree(h.tiles, k);
            && AtFree(m, head, h, k, link, i) && k <= b < i
            && (b + 1 == i ==> i == |h.tiles|)
  {
    hide Load;
    LinkHolds(m, head, h, k, link);
    var i := NextFree(h.tiles, k);
    if i < |h.tiles| {
      Order(h, i, b);
    }
  }

  // The words that JoinPrevious reads: before it enlarges the block in front, after
  // that, and after it has added the third block's size.
  lemma SizeThenNext(m: Memory, head: nat, h: Layout, k: nat, link: nat, i: nat)
    requires AtFree(m, head, h, k, link, i) && i + 1 < |h.tiles| && h.tiles[i + 1].Live?
    ensures var t, u := h.tiles[i], h.tiles[i + 1];
            t.addr + ENTRY <= |m| && u.addr + ENTRY <= |m|
            && Load(m, t.addr) == t.size && Load(m, u.addr) == u.size
    ensures var t, u := h.tiles[i], h.tiles[i + 1];
            var m1 := Store(m, t.addr, t.size + u.size);
            && Load(m1, t.addr) == t.size + u.size
            && Load(m1, t.addr + WORD) == FirstFree(h.tiles[i + 1..])
            && Load(m1, u.addr) == u.size
  {
    hide Load, Store, FirstFree;
    Neighbours(h, i);
    LinkBelow(m, head, h, k, link, i);
    HeaderLive(m, head, h, i + 1);
    StoreEffect(m, h.tiles[i].addr, h.tiles[i].size + h.tiles[i + 1].size);
  }

  lemma ThirdBlock(m: Memory, head: nat, h: Layout, k: nat, link: nat, i: nat)
    requires AtFree(m, head, h, k, link, i) && i + 2 < |h.tiles| && h.tiles[i + 1].Live?
    requires h.tiles[i + 2].Free?
    ensures var t, u, w := h.tiles[i], h.tiles[i + 1], h.tiles[i + 2];
            && t.addr + ENTRY <= |m| && w.addr + ENTRY <= |m|
            && var m1 := Store(m, t.addr, t.size + u.size);
               var m2 := Store(m1, t.addr, t.size + u.size + w.size);
               && Load(m1, t.addr + WORD) == w.addr && Load(m1, w.addr) == w.size
               && Load(m2, t.addr + WORD) == w.addr
               && Load(m2, w.addr + WORD) == Load(m, w.addr + WORD)
  {
    hide Load, Store, FirstFree;
    var t, u, w := h.tiles[i], h.tiles[i + 1], h.tiles[i + 2];
    Neighbours(h, i);
    Neighbours(h, i + 1);
    LinkBelow(m, head, h, k, link, i);
    HeaderLive(m, head, h, i + 2);
    NextAfterLive(h, i);
    StoreEffect(m, t.addr, t.size + u.size);
    StoreEffect(Store(m, t.addr, t.size + u.size), t.addr, t.size + u.size + w.size);
  }

  // The list and the data once the stores of JoinPrevious are done.
  lemma PreviousJoined(m: Memory, m': Memory, head: nat, h: Layout, k: nat, link: nat, i: nat)
    requires AtFree(m, head, h, k, link, i) && i + 1 < |h.tiles| && h.tiles[i + 1].Live?
    requires i + 2 < |h.tiles| ==> h.tiles[i + 2].Live?
    requires h.tiles[i].addr + WORD <= |m|
    requires m' == Store(m, h.tiles[i].addr, h.tiles[i].size + h.tiles[i + 1].size)
    ensures Release(h, i + 1).Valid() && Linked(m', head, Release(h, i + 1).tiles)
    ensures KeepsData(m, m', head, h, Release(h, i + 1))
  {
    hide Load, Store, CanSplice;
    ReleaseFits(h, i + 1);
    LinkBelow(m, head, h, k, link, i);
    MergeBack(m, m', head, h, k, link, i, Merged(h, i + 1));
    ReleaseKeepsData(m, m', head, h, k, link, i + 1);
  }

  lemma BothJoined(m: Memory, m': Memory, head: nat, h: Layout, k: nat, link: nat, i: nat)
    requires AtFree(m, head, h, k, link, i) && i + 2 < |h.tiles| && h.tiles[i + 1].Live?
    requires h.tiles[i + 2].Free?
    requires h.tiles[i].addr + ENTRY <= |m| && h.tiles[i + 2].addr + ENTRY <= |m|
    requires var t, u, w := h.tiles[i], h.tiles[i + 1], h.tiles[i + 2];
             m' == Store(Store(Store(m, t.addr, t.size + u.size), t.addr, t.size + u.size + w.size),
                         t.addr + WORD, Load(m, w.addr + WORD))
    ensures Release(h, i + 1).Valid() && Linked(m', head, Release(h, i + 1).tiles)
    ensures KeepsData(m, m', head, h, Release(h, i + 1))
  {
    hide Load, Store, CanSplice;
    ReleaseFits(h, i + 1);
    LinkBelow(m, head, h, k, link, i);
    MergeBoth(m, m', head, h, k, link, i, Merged(h, i + 1));
    ReleaseKeepsData(m, m', head, h, k, link, i + 1);
  }

  lemma ReleaseShape(h: Layout, b: nat)
    requires b < |h.tiles|
    ensures Release(h, b).start == h.start && Release(h, b).end == h.end
  {
  }

  // The size words read when block i - 1 is joined with free block i, and the next word, which
  // the first store leaves alone.
  lemma NextSizes(m: Memory, head: nat, h: Layout, k: nat, link: nat, i: nat)
    requires AtFree(m, head, h, k, link, i) && k < i < |h.tiles|
    ensures var a, c := h.tiles[i - 1].addr, h.tiles[i].addr;
            && a + ENTRY <= |m| && c + ENTRY <= |m| && link + WORD <= |m|
            && Load(m, a) == h.tiles[i - 1].size && Load(m, c) == h.tiles[i].size
            && Load(Store(m, a, Load(m, a) + Load(m, c)), c + WORD) == Load(m, c + WORD)
  {
    hide Load, Store;
    LinkBelow(m, head, h, k, link, i);
    HeaderLive(m, head, h, i - 1);
    Neighbours(h, i - 1);
    StoreEffect(m, h.tiles[i - 1].addr, h.tiles[i - 1].size + h.tiles[i].size);
  }

  lemma NextJoined(m: Memory, m': Memory, head: nat, h: Layout, k: nat, link: nat, i: nat)
    requires AtFree(m, head, h, k, link, i) && k < i < |h.tiles| && (k == 0 || k < i - 1)
    requires var a, c := h.tiles[i - 1].addr, h.tiles[i].addr;
             && a + ENTRY <= |m| && c + ENTRY <= |m| && link + WORD <= |m|
             && m' == Store(Store(Store(m, a, h.tiles[i - 1].size + h.tiles[i].size),
                                  a + WORD, Load(m, c + WORD)), link, a)
    ensures |m'| == |m| && Release(h, i - 1).Valid() && Linked(m', head, Release(h, i - 1).tiles)
    ensures KeepsData(m, m', head, h, Release(h, i - 1))
  {
    hide Load, Store, Linked, SameOutside, KeepsData, Cursor;
    ReleaseFits(h, i - 1);
    MergeFront(m, m', head, h, k, link, i, Merged(h, i - 1));
    ReleaseKeepsData(m, m', head, h, k, link, i - 1);
  }

  // The free block after block i touches live block i + 1 only if it is block i + 2.
  lemma NextAfterLive(h: Layout, i: nat)
    requires h.Valid() && i + 1 < |h.tiles| && h.tiles[i + 1].Live?
    ensures var a := FirstFree(h.tiles[i + 1..]);
            a != 0 && h.tiles[i + 1].addr + h.tiles[i + 1].size == a
            <==> i + 2 < |h.tiles| && h.tiles[i + 2].Free?
    ensures i + 2 < |h.tiles| && h.tiles[i + 2].Free? ==> FirstFree(h.tiles[i + 1..]) == h.tiles[i + 2].addr
  {
    var j := NextFree(h.tiles, i + 1);
    FirstFreeIs(h.tiles, i + 1, j);
    AllApart(h);
    if j < |h.tiles| {
      Order(h, i + 1, j);
    }
  }

  lemma ReleaseKeepsData(m: Memory, m': Memory, head: nat, h: Layout, k: nat, link: nat, b: nat)
    requires h.Valid() && b < |h.tiles| && h.tiles[b].Live? && head + WORD <= h.start
    requires Cursor(head, h.tiles, k, link) && k <= MergeFrom(h, b)
    requires SameOutside(m, m', link, h.Edge(MergeFrom(h, b)), Merged(h, b).addr + Merged(h, b).size)
    ensures Release(h, b).Valid()
    ensures KeepsData(m, m', head, h, Release(h, b))
  {
    hide LiveOf, Merged;
    ReleaseKeeps(h, b);
    ReleaseFits(h, b);
    var lo, hi := MergeFrom(h, b), MergeTo(h, b);
    forall t | t in h.tiles[lo..hi] && t.Live?
      ensures t !in Release(h, b).LiveTiles()
    {
      InLive(h.tiles[lo..hi]);
      WindowLive(h, b);
    }
    assert Merged(h, b).addr == h.Edge(lo) by {
      MergedStart(h, b);
    }
    WindowKeepsData(m, m', head, h, Release(h, b), k, link, lo, hi, h.Edge(hi));
  }

  lemma MergedStart(h: Layout, b: nat)
    requires b < |h.tiles|
    ensures Merged(h, b).addr == h.Edge(MergeFrom(h, b))
  {
  }

  // ----- realloc -----

  lemma NoMove(h: Layout, sz: nat, limit: nat)
    requires AllocatorSpec.Malloc(h, sz, limit).1 == 0
    ensures AllocatorSpec.Malloc(h, sz, limit).0 == h
  {
  }

  // The old block and the new one, side by side after malloc.
  lemma MoveBlocks(h: Layout, b: nat, sz: nat, limit: nat) returns (u: Tile, d: nat)
    requires h.Valid() && StackAbove(h, limit) && sz <= MAX_REQUEST
    requires b < |h.tiles| && h.tiles[b].Live?
    requires AllocatorSpec.Malloc(h, sz, limit).1 != 0
    ensures var (h1, q) := AllocatorSpec.Malloc(h, sz, limit);
            && h1.Valid() && NewBlock(h, h1, u) && u.addr + WORD == q && u.request == sz
            && d < |h1.tiles| && h1.tiles[d] == u && h1.end + GAP <= limit
            && IsLive(h1, h.tiles[b].addr + WORD)
            && h1.tiles[BlockOf(h1, h.tiles[b].addr + WORD)] == h.tiles[b]
            && (h.tiles[b].addr + h.tiles[b].size <= u.addr || u.addr + u.size <= h.tiles[b].addr)
  {
    hide AllocatorSpec.Malloc;
    MallocKeeps(h, sz, limit);
    SurvivesMalloc(h, b, sz, limit);
    var (h1, q) := AllocatorSpec.Malloc(h, sz, limit);
    u :| NewBlock(h, h1, u) && u.addr + WORD == q && u.request == sz;
    InLive(h1.tiles);
    InLive(h.tiles);
    assert u in h1.LiveTiles();
    assert h.tiles[b] in h.LiveTiles();
    d :| d < |h1.tiles| && h1.tiles[d] == u;
  }

  lemma CopyInside(m: Memory, m': Memory, head: nat, h: Layout, d: nat, n: nat)
    requires h.Valid() && Linked(m, head, h.tiles) && head + WORD <= h.start && h.end <= |m| <= SIZE_MOD
    requires d < |h.tiles| && h.tiles[d].Live? && |m'| == |m|
    requires var a := h.tiles[d].addr + WORD;
             && a + n <= h.tiles[d].addr + h.tiles[d].size
             && forall x: nat | x < |m| && (x < a || a + n <= x) :: m'[x] == m[x]
    ensures Linked(m', head, h.tiles)
  {
    PayloadWrite(m, m', head, h, d);
  }

  lemma Moved(m0: Memory, m1: Memory, m2: Memory, m3: Memory, head: nat, h: Layout, h1: Layout, h2: Layout,
              t: Tile, u: Tile, n: nat)
    requires |m0| == |m1| == |m2| == |m3| && t in h.tiles && t.Live? && h1.end <= |m0| && h.end <= |m0|
    requires KeepsData(m0, m1, head, h, h1) && KeepsData(m2, m3, head, h1, h2)
    requires NewBlock(h, h1, u) && h1.start == h.start && h2.end == h1.end
    requires h2.LiveTiles() == h1.LiveTiles() - {t} && head + WORD <= h.start
    requires n + WORD <= u.size && n + WORD <= t.size && t.addr + t.size <= h.end
    requires SameBytes(m1, t.addr + WORD, m2, u.addr + WORD, n)
    requires forall x: nat | x < |m1| && (x < u.addr + WORD || u.addr + WORD + n <= x) :: m2[x] == m1[x]
    ensures KeepsData(m0, m3, head, h, h2)
    ensures SameBytes(m0, t.addr + WORD, m3, u.addr + WORD, n)
  {
    hide LiveOf;
    InLive(h.tiles);
    assert t in h.LiveTiles() && t in h1.LiveTiles();
    assert u in h1.LiveTiles() && u in h2.LiveTiles();
    assert m3[u.addr + WORD..u.addr + WORD + n] == m2[u.addr + WORD..u.addr + WORD + n];
    assert m1[t.addr + WORD..t.addr + WORD + n] == m0[t.addr + WORD..t.addr + WORD + n];
  }

  lemma CutStores(m: Memory, t: Tile, need: nat, sz: nat)
    requires t.addr + t.size <= |m| <= SIZE_MOD && ENTRY <= need && need + ENTRY <= t.size
    ensures var m' := Store(Store(m, t.addr, need), t.addr + need, t.size - need);
            && SameOutside(m, m', t.addr, t.addr, t.addr + t.size)
            && SameBytes(m, t.addr + WORD, m', t.addr + WORD, need - WORD)
            && var mid := Halves(t, need, sz);
               HeaderIn(m', mid, 0) && HeaderIn(m', mid, 1)
  {
    hide Load, Store;
    var m1 := Store(m, t.addr, need);
    StoreEffect(m, t.addr, need);
    StoreEffect(m1, t.addr + need, t.size - need);
    StoreInside(m, m, t.addr, need, t.addr, t.addr, t.addr + t.size);
    StoreInside(m, m1, t.addr + need, t.size - need, t.addr, t.addr, t.addr + t.size);
  }

  lemma Shrunk(m0: Memory, m1: Memory, m2: Memory, head: nat, h: Layout, b: nat, need: nat, sz: nat)
    requires h.Valid() && head + WORD <= h.start && h.end <= |m0| && |m0| == |m1| == |m2|
    requires b < |h.tiles| && h.tiles[b].Live? && FitsRequest(need, sz) && need + ENTRY <= h.tiles[b].size
    requires var t := h.tiles[b];
             && SameOutside(m0, m1, t.addr, t.addr, t.addr + t.size)
             && SameBytes(m0, t.addr + WORD, m1, t.addr + WORD, need - WORD)
    requires var h1 := Cut(h, b, need, sz);
             h1.Valid() && b + 1 < |h1.tiles| && KeepsData(m1, m2, head, h1, Release(h1, b + 1))
    ensures KeepsData(m0, m2, head, h, Release(Cut(h, b, need, sz), b + 1))
    ensures SameBytes(m0, h.tiles[b].addr + WORD, m2, h.tiles[b].addr + WORD, need - WORD)
  {
    hide LiveOf;
    var t := h.tiles[b];
    var h1 := Cut(h, b, need, sz);
    var h2 := Release(h1, b + 1);
    var a := t.addr + WORD;
    CutKeeps(h, b, need, sz);
    ReleaseKeeps(h1, b + 1);
    ReleaseShape(h1, b + 1);
    Neighbours(h, b);
    hide Cut, Release;
    assert h1.tiles[b] in h2.LiveTiles();
    assert m2[a..a + (need - WORD)] == m1[a..a + (need - WORD)];
    forall u, x: nat | u in h.LiveTiles() && u in h2.LiveTiles() && u.addr + WORD <= x < u.addr + u.size && x < |m0|
      ensures m2[x] == m0[x]
    {
      assert u in h1.LiveTiles() && u != t;
      OtherBlock(h, b, u);
    }
  }

  lemma OtherBlock(h: Layout, b: nat, u: Tile)
    requires h.Valid() && b < |h.tiles| && u in h.LiveTiles() && u != h.tiles[b]
    ensures u.addr + u.size <= h.tiles[b].addr || h.tiles[b].addr + h.tiles[b].size <= u.addr
  {
    InLive(h.tiles);
    AllApart(h);
    var x: nat :| x < |h.tiles| && h.tiles[x] == u;
  }

  // ----- memalign -----

  lemma SumBelow(x: nat, y: nat)
    requires x + y < SIZE_MOD
    ensures Sum(x, y) == x + y
  {
  }

  lemma WholeWords(need: nat, sz: nat)
    requires FitsRequest(need, sz)
    ensures need % WORD == 0
  {
  }

  ghost predicate NoneFitsBefore(ts: seq<Tile>, k: nat, need: nat, align: nat)
    requires align > 0
  {
    k <= |ts| && forall x | 0 <= x < k :: ts[x].Free? ==> ts[x].size < need + Before(ts[x].addr, align)
  }

  // The search goes on from block i, or has found it.
  lemma FirstAlignedIs(ts: seq<Tile>, need: nat, align: nat, k: nat, i: nat)
    requires align > 0 && NoneFitsBefore(ts, k, need, align) && NoFree(ts, k, i)
    requires i < |ts| && ts[i].Free?
    ensures if ts[i].size >= need + Before(ts[i].addr, align) then FirstAligned(ts, need, align, 0) == i
            else NoneFitsBefore(ts, i + 1, need, align)
                 && (i + 1 == |ts| ==> FirstAligned(ts, need, align, 0) == |ts|)
  {
    hide Before;
  }

  lemma TopIsLast(h: Layout, i: nat)
    requires h.Valid() && i < |h.tiles| && h.tiles[i].Free?
    ensures i + 1 == |h.tiles| ==> TopIsFree(h) && Last(h.tiles) == h.tiles[i]
  {
  }

  lemma BlockWords(m: Memory, head: nat, h: Layout, k: nat, link: nat, i: nat)
    requires AtFree(m, head, h, k, link, i) && i < |h.tiles|
    ensures link + WORD <= h.tiles[i].addr && link + WORD <= |m|
    ensures h.tiles[i].addr + h.tiles[i].size <= h.end && h.tiles[i].size >= ENTRY
    ensures Load(m, h.tiles[i].addr) == h.tiles[i].size
  {
    LinkBelow(m, head, h, k, link, i);
  }

  // A free block that has a successor or does not reach the end is not the last.
  lemma NotTop(m: Memory, head: nat, h: Layout, k: nat, link: nat, i: nat)
    requires AtFree(m, head, h, k, link, i) && i < |h.tiles| && h.tiles[i].addr + ENTRY <= |m|
    ensures i + 1 == |h.tiles| ==>
              Load(m, h.tiles[i].addr + WORD) == 0 && h.end == h.tiles[i].addr + h.tiles[i].size
  {
    LinkBelow(m, head, h, k, link, i);
    if i + 1 == |h.tiles| {
      assert h.tiles[i + 1..] == [];
      TopAtEnd(h);
    }
  }

  lemma NoneAligned(m: Memory, head: nat, h: Layout, k: nat, link: nat, need: nat, align: nat)
    requires h.Valid() && Linked(m, head, h.tiles) && head + WORD <= h.start && h.end <= |m| <= SIZE_MOD
    requires Cursor(head, h.tiles, k, link) && link + WORD <= |m| && Load(m, link) == 0
    requires align > 0 && NoneFitsBefore(h.tiles, k, need, align)
    requires k > 0 ==> k < |h.tiles|
    ensures AtFree(m, head, h, k, link, |h.tiles|) && !TopIsFree(h)
    ensures FirstAligned(h.tiles, need, align, 0) == |h.tiles|
  {
    hide Load, Before;
    LinkHolds(m, head, h, k, link);
    assert NextFree(h.tiles, k) == |h.tiles|;
  }

  // The next word is read back unchanged while the front and the back are written.
  lemma FrontNext(m: Memory, a: nat, before: nat, b: nat, size: nat)
    requires a + ENTRY <= b && b + WORD <= |m| <= SIZE_MOD && before < SIZE_MOD && size < SIZE_MOD
    ensures Load(Store(Store(m, a, before), b, size), a + WORD) == Load(m, a + WORD)
  {
    StoreEffect(m, a, before);
    StoreEffect(Store(m, a, before), b, size);
  }

  lemma CarveKeepsData(m: Memory, m': Memory, head: nat, h: Layout, k: nat, link: nat, i: nat,
                       align: nat, need: nat, sz: nat)
    requires AtFree(m, head, h, k, link, i) && i < |h.tiles| && PowerOfTwo(align) && FitsRequest(need, sz)
    requires h.tiles[i].size >= need + Before(h.tiles[i].addr, align)
    requires SameOutside(m, m', link, h.Edge(i), h.tiles[i].addr + h.tiles[i].size)
    ensures Carve(h, i, align, need, sz).0.Valid()
    ensures KeepsData(m, m', head, h, Carve(h, i, align, need, sz).0)
  {
    hide Carve, Before;
    CarveKeeps(h, i, align, need, sz);
    assert h.TileOk(i);
    WindowKeepsData(m, m', head, h, Carve(h, i, align, need, sz).0, k, link, i, i + 1, h.Edge(i + 1));
  }

  // Growing the top block is within the rules, and so is carving it afterwards.
  lemma GrowStep(h: Layout, align: nat, need: nat, sz: nat, limit: nat)
    requires h.Valid() && StackAbove(h, limit) && TopIsFree(h) && PowerOfTwo(align) && FitsRequest(need, sz)
    requires var size := Before(Last(h.tiles).addr, align) + need;
             Last(h.tiles).size < size && CanAlloc(limit, h.end, size - Last(h.tiles).size)
    ensures var size := Before(Last(h.tiles).addr, align) + need;
            && GoodTile(Free(0, size)) && Last(h.tiles).addr + size + GAP <= limit
            && GrowTop(h, size).Valid() && TopIsFree(GrowTop(h, size))
            && Last(GrowTop(h, size).tiles) == Free(Last(h.tiles).addr, size)
            && |GrowTop(h, size).tiles| == |h.tiles|
            && GrowTop(h, size).start == h.start && GrowTop(h, size).end == Last(h.tiles).addr + size
            && GrowTop(h, size).LiveTiles() == h.LiveTiles()
            && GrowAndCarve(h, align, need, sz, limit) == Carve(GrowTop(h, size), |h.tiles| - 1, align, need, sz)
  {
    hide Before, GrowTop, Carve;
    var size := Before(Last(h.tiles).addr, align) + need;
    TopAtEnd(h);
    CanAllocBelowGap(limit, h.end, size - Last(h.tiles).size);
    TopBefore(h, align);
    WordSum(Before(Last(h.tiles).addr, align), need);
    TopGrows(h, size);
  }

  lemma Grown(m: Memory, m': Memory, head: nat, h: Layout, k: nat, link: nat, i: nat, size: nat)
    requires AtFree(m, head, h, k, link, i) && i + 1 == |h.tiles| && TopIsFree(h)
    requires GoodTile(Free(0, size)) && h.tiles[i].addr + size <= |m| && size > h.tiles[i].size
    requires h.tiles[i].addr + WORD <= |m| && m' == Store(m, h.tiles[i].addr, size)
    ensures var g := GrowTop(h, size);
            AtFree(m', head, g, k, link, i) && KeepsData(m, m', head, h, g)
  {
    hide Load, Store, CanSplice;
    var g := GrowTop(h, size);
    GrowFits(h, size);
    TopGrows(h, size);
    GrowFree(m, m', head, h, k, link, i, Free(h.tiles[i].addr, size));
    SpliceCursor(h, g, k, i);
    WindowKeepsData(m, m', head, h, g, k, link, i, i + 1, h.tiles[i].addr + size);
  }

  lemma SpliceCursor(h: Layout, g: Layout, k: nat, i: nat)
    requires i <= |h.tiles| && i < |g.tiles| && k <= i
    requires g.tiles[..i] == h.tiles[..i]
    ensures forall x | 0 <= x < i :: g.tiles[x] == h.tiles[x]
  {
    forall x | 0 <= x < i
      ensures g.tiles[x] == h.tiles[x]
    {
      assert g.tiles[x] == g.tiles[..i][x] == h.tiles[..i][x];
    }
  }

  // Data kept by growing the top block and by carving it is kept by both together.
  lemma ThenCarved(m: Memory, m1: Memory, m2: Memory, head: nat, h: Layout, g: Layout,
                   align: nat, need: nat, sz: nat)
    requires g.Valid() && TopIsFree(g) && PowerOfTwo(align) && FitsRequest(need, sz)
    requires Last(g.tiles).size >= need + Before(Last(g.tiles).addr, align)
    requires KeepsData(m, m1, head, h, g) && g.LiveTiles() == h.LiveTiles() && g.start == h.start
    requires KeepsData(m1, m2, head, g, Carve(g, |g.tiles| - 1, align, need, sz).0)
    ensures KeepsData(m, m2, head, h, Carve(g, |g.tiles| - 1, align, need, sz).0)
  {
    hide Carve, Before;
    CarveKeeps(g, |g.tiles| - 1, align, need, sz);
    KeepsDataTrans(m, m1, m2, head, h, g, Carve(g, |g.tiles| - 1, align, need, sz).0);
  }

  // A top block that is large enough is carved as it is.
  lemma CarvedWhole(g: Layout, align: nat, need: nat, sz: nat, limit: nat)
    requires g.Valid() && TopIsFree(g) && PowerOfTwo(align) && FitsRequest(need, sz)
    ensures Last(g.tiles).size >= need + Before(Last(g.tiles).addr, align) ==>
              GrowAndCarve(g, align, need, sz, limit) == Carve(g, |g.tiles| - 1, align, need, sz)
  {
  }

  lemma ThenGrown(m: Memory, m1: Memory, m2: Memory, head: nat, h: Layout, g: Layout,
                  align: nat, need: nat, sz: nat, limit: nat)
    requires g.Valid() && StackAbove(g, limit) && TopIsFree(g) && PowerOfTwo(align) && FitsRequest(need, sz)
    requires KeepsData(m, m1, head, h, g) && g.LiveTiles() == h.LiveTiles() && g.start == h.start
    requires KeepsData(m1, m2, head, g, GrowAndCarve(g, align, need, sz, limit).0)
    ensures KeepsData(m, m2, head, h, GrowAndCarve(g, align, need, sz, limit).0)
  {
    hide Carve, Before, GrowTop;
    var h' := GrowAndCarve(g, align, need, sz, limit).0;
    var t := Last(g.tiles);
    var size := Before(t.addr, align) + need;
    if t.size >= size {
      CarveKeeps(g, |g.tiles| - 1, align, need, sz);
    } else if CanAlloc(limit, g.end, size - t.size) {
      GrowStep(g, align, need, sz, limit);
      TopAtEnd(g);
      CarveKeeps(GrowTop(g, size), |g.tiles| - 1, align, need, sz);
    }
    KeepsDataTrans(m, m1, m2, head, h, g, h');
  }

  lemma AppendFits(h: Layout, align: nat, need: nat, sz: nat, limit: nat)
    requires h.Valid() && StackAbove(h, limit) && !TopIsFree(h) && PowerOfTwo(align) && FitsRequest(need, sz)
    requires CanAlloc(limit, h.end, need + MAlign(h.end + WORD, align))
    ensures var size := need + MAlign(h.end + WORD, align);
            && GoodTile(Free(0, size)) && h.end + size + GAP <= limit
  {
    hide MAlign, CanAlloc;
    AllApart(h);
    MAlignWords(h.end + WORD, align);
    WordSum(need, MAlign(h.end + WORD, align));
    CanAllocBelowGap(limit, h.end, need + MAlign(h.end + WORD, align));
  }

  lemma Appended(m: Memory, m': Memory, head: nat, h: Layout, k: nat, link: nat, size: nat)
    requires AtFree(m, head, h, k, link, |h.tiles|) && !TopIsFree(h)
    requires GoodTile(Free(0, size)) && h.end + size <= |m| && link + WORD <= |m|
    requires m' == Store(Store(Store(m, link, h.end), h.end, size), h.end + WORD, 0)
    ensures var g := GrowTop(h, size);
            && AtFree(m', head, g, k, link, |h.tiles|) && KeepsData(m, m', head, h, g)
            && g.Valid() && TopIsFree(g) && |g.tiles| == |h.tiles| + 1
            && Last(g.tiles) == Free(h.end, size) && g.end == h.end + size
            && g.start == h.start && g.LiveTiles() == h.LiveTiles()
  {
    hide Load, Store, CanSplice;
    var n := |h.tiles|;
    var g := GrowTop(h, size);
    GrowFits(h, size);
    TopGrows(h, size);
    AppendFree(m, m', head, h, k, link, Free(h.end, size));
    SpliceCursor(h, g, k, n);
    WindowKeepsData(m, m', head, h, g, k, link, n, n, h.end + size);
  }

  // ----- mallinfo -----

  lemma {:induction false} FreeSteps(ts: seq<Tile>, k: nat, i: nat)
    requires NoFree(ts, k, i) && i < |ts| && ts[i].Free?
    ensures FreeBytes(ts[..i + 1]) == FreeBytes(ts[..k]) + ts[i].size
    ensures FreeCount(ts[..i + 1]) == FreeCount(ts[..k]) + 1
    decreases i - k
  {
    NoneBetween(ts, k, i);
    assert ts[..i + 1][..i] == ts[..i];
  }

  lemma {:induction false} NoneBetween(ts: seq<Tile>, k: nat, i: nat)
    requires NoFree(ts, k, i)
    ensures FreeBytes(ts[..i]) == FreeBytes(ts[..k]) && FreeCount(ts[..i]) == FreeCount(ts[..k])
    decreases i - k
  {
    if k < i {
      NoneBetween(ts, k, i - 1);
      assert ts[..i][..i - 1] == ts[..i - 1];
    }
  }

  lemma FreeTail(ts: seq<Tile>, k: nat)
    requires k <= |ts| && NextFree(ts, k) == |ts|
    ensures FreeBytes(ts[..k]) == FreeBytes(ts) && FreeCount(ts[..k]) == FreeCount(ts)
  {
    NoneBetween(ts, k, |ts|);
    assert ts[..|ts|] == ts;
  }
}
