/**
 The word stores made by each path through malloc, free and memalign, and the free
 list each leaves behind.
 */
module ListUpdates {
  import opened FlatMemory
  import opened HeapLayout
  import opened FreeList

  // A stored heap and a cursor in it, with tile i the next free one.
  ghost predicate AtFree(m: Memory, head: nat, h: Layout, k: nat, link: nat, i: nat)
  {
    && h.Valid() && Linked(m, head, h.tiles) && head + WORD <= h.start
    && h.end <= |m| <= SIZE_MOD
    && Cursor(head, h.tiles, k, link) && NoFree(h.tiles, k, i)
    && (i < |h.tiles| ==> h.tiles[i].Free?)
  }

  // Where the words used by an update lie: the link before the window it rewrites.
  lemma LinkBelow(m: Memory, head: nat, h: Layout, k: nat, link: nat, i: nat)
    requires AtFree(m, head, h, k, link, i)
    ensures link + WORD <= h.Edge(i) && link + WORD <= |m|
    ensures Load(m, link) == FirstFree(h.tiles[k..]) == FirstFree(h.tiles[i..])
    ensures h.start <= h.Edge(i) <= h.end
    ensures i < |h.tiles| ==>
              && h.tiles[i].addr + h.tiles[i].size <= h.end && h.tiles[i].size >= ENTRY
              && Load(m, h.tiles[i].addr) == h.tiles[i].size
              && Load(m, h.tiles[i].addr + WORD) == FirstFree(h.tiles[i + 1..])
  {
    hide Load, FirstFree;
    AllApart(h);
    FirstFreeSkip(h.tiles, k, i);
    if k > 0 {
      assert HeaderOk(m, h.tiles, k - 1);
      assert h.TileOk(k - 1);
    } else {
      assert h.tiles[0..] == h.tiles;
    }
    if i < |h.tiles| {
      assert HeaderOk(m, h.tiles, i);
      assert h.TileOk(i);
    }
  }

  // malloc, exact fit: the link skips the block.
  lemma UnlinkBlock(m: Memory, m': Memory, head: nat, h: Layout, k: nat, link: nat, i: nat, u: Tile)
    requires AtFree(m, head, h, k, link, i) && i < |h.tiles|
    requires u.Live? && u.addr == h.tiles[i].addr && u.size == h.tiles[i].size
    requires CanSplice(h, i, i + 1, [u], h.end)
    requires h.tiles[i].addr + ENTRY <= |m| && link + WORD <= |m|
    requires m' == Store(m, link, Load(m, h.tiles[i].addr + WORD))
    ensures Linked(m', head, h.Splice(i, i + 1, [u], h.end).tiles)
    ensures SameOutside(m, m', link, h.Edge(i), u.addr + u.size)
  {
    hide Load, Store, FirstFree;
    LinkBelow(m, head, h, k, link, i);
    var t := h.tiles[i];
    WordFits(m, t.addr + WORD);
    StoreEffect(m, link, Load(m, t.addr + WORD));
    StoreInside(m, m, link, Load(m, t.addr + WORD), link, t.addr, t.addr + t.size);
    FirstFreeCons(u, h.tiles[i + 1..]);
    assert Installed(m', [u], h.tiles[i + 1..], 0);
    Install(m, m', head, h, i, i + 1, [u], h.end, k, link);
  }

  // malloc, split: the block's tail becomes a free block in its place on the list.
  lemma SplitBlock(m: Memory, m': Memory, head: nat, h: Layout, k: nat, link: nat, i: nat,
                   need: nat, sz: nat)
    requires AtFree(m, head, h, k, link, i) && i < |h.tiles|
    requires ENTRY <= need && need + ENTRY <= h.tiles[i].size
    requires var t := h.tiles[i];
             CanSplice(h, i, i + 1, [Live(t.addr, need, sz), Free(t.addr + need, t.size - need)], h.end)
    requires var t := h.tiles[i];
             && t.addr + t.size <= |m| && link + WORD <= |m|
             && m' == Store(Store(Store(Store(m,
                        link, t.addr + need),
                        t.addr + need, t.size - need),
                        t.addr + need + WORD, Load(m, t.addr + WORD)),
                        t.addr, need)
    ensures var t := h.tiles[i];
            && Linked(m', head,
                      h.Splice(i, i + 1, [Live(t.addr, need, sz), Free(t.addr + need, t.size - need)], h.end).tiles)
            && SameOutside(m, m', link, h.Edge(i), t.addr + t.size)
  {
    hide Load, Store, FirstFree, CanSplice;
    LinkBelow(m, head, h, k, link, i);
    var t := h.tiles[i];
    var n, next := t.addr + need, Load(m, t.addr + WORD);
    var u, v := Live(t.addr, need, sz), Free(n, t.size - need);
    var rest := h.tiles[i + 1..];
    WordFits(m, t.addr + WORD);
    var m1 := Store(m, link, n);
    var m2 := Store(m1, n, t.size - need);
    var m3 := Store(m2, n + WORD, next);
    StoreEffect(m, link, n);
    StoreEffect(m1, n, t.size - need);
    StoreEffect(m2, n + WORD, next);
    StoreEffect(m3, t.addr, need);
    StoreInside(m, m, link, n, link, t.addr, t.addr + t.size);
    StoreInside(m, m1, n, t.size - need, link, t.addr, t.addr + t.size);
    StoreInside(m, m2, n + WORD, next, link, t.addr, t.addr + t.size);
    StoreInside(m, m3, t.addr, need, link, t.addr, t.addr + t.size);
    FirstFreeCons(v, rest);
    FirstFreeCons(u, [v] + rest);
    assert [u, v] + rest == [u] + ([v] + rest);
    assert [u, v][1..] + rest == [v] + rest && [u, v][2..] + rest == rest;
    assert Installed(m', [u, v], rest, 0);
    assert Installed(m', [u, v], rest, 1);
    Install(m, m', head, h, i, i + 1, [u, v], h.end, k, link);
  }

  // malloc at the top: the last free block is taken off the list and enlarged.
  lemma TakeTop(m: Memory, m': Memory, head: nat, h: Layout, k: nat, link: nat, i: nat, u: Tile)
    requires AtFree(m, head, h, k, link, i) && |h.tiles| == i + 1
    requires u.Live? && u.addr == h.tiles[i].addr && u.size >= ENTRY && u.addr + u.size <= |m|
    requires CanSplice(h, i, i + 1, [u], u.addr + u.size)
    requires link + WORD <= |m| && u.addr + WORD <= |m|
    requires m' == Store(Store(m, link, 0), u.addr, u.size)
    ensures Linked(m', head, h.Splice(i, i + 1, [u], u.addr + u.size).tiles)
    ensures SameOutside(m, m', link, h.Edge(i), u.addr + u.size)
  {
    hide Load, Store, CanSplice;
    LinkBelow(m, head, h, k, link, i);
    var m1 := Store(m, link, 0);
    StoreEffect(m, link, 0);
    StoreEffect(m1, u.addr, u.size);
    StoreInside(m, m, link, 0, link, u.addr, u.addr + u.size);
    StoreInside(m, m1, u.addr, u.size, link, u.addr, u.addr + u.size);
    FirstFreeCons(u, h.tiles[i + 1..]);
    assert h.tiles[i + 1..] == [];
    assert Installed(m', [u], h.tiles[i + 1..], 0);
    Install(m, m', head, h, i, i + 1, [u], u.addr + u.size, k, link);
  }

  // malloc above the last block, which is live.
  lemma AddTop(m: Memory, m': Memory, head: nat, h: Layout, k: nat, link: nat, u: Tile)
    requires AtFree(m, head, h, k, link, |h.tiles|)
    requires u.Live? && u.addr == h.end && u.size >= ENTRY && u.addr + u.size <= |m|
    requires CanSplice(h, |h.tiles|, |h.tiles|, [u], u.addr + u.size)
    requires u.addr + WORD <= |m|
    requires m' == Store(m, u.addr, u.size)
    ensures Linked(m', head, h.Splice(|h.tiles|, |h.tiles|, [u], u.addr + u.size).tiles)
    ensures SameOutside(m, m', link, h.end, u.addr + u.size)
  {
    hide Load, Store, CanSplice;
    var n := |h.tiles|;
    LinkBelow(m, head, h, k, link, n);
    StoreEffect(m, u.addr, u.size);
    StoreInside(m, m, u.addr, u.size, link, u.addr, u.addr + u.size);
    assert h.tiles[n..] == [];
    FirstFreeCons(u, h.tiles[n..]);
    assert Installed(m', [u], h.tiles[n..], 0);
    Install(m, m', head, h, n, n, [u], u.addr + u.size, k, link);
  }

  // ----- free -----

  // The stores of free on raw memory. Size word stored twice, then the next word.
  lemma HeaderTwice(m: Memory, link: nat, a: nat, size0: nat, size: nat, next: nat, hi: nat)
    requires link + WORD <= a && a + ENTRY <= hi <= |m| <= SIZE_MOD
    requires size0 < SIZE_MOD && size < SIZE_MOD && next < SIZE_MOD
    ensures var m' := Store(Store(Store(m, a, size0), a, size), a + WORD, next);
            && SameOutside(m, m', link, a, hi)
            && Load(m', a) == size && Load(m', a + WORD) == next && Load(m', link) == Load(m, link)
  {
    hide Store, Load;
    var m1 := Store(m, a, size0);
    var m2 := Store(m1, a, size);
    StoreEffect(m, a, size0);
    StoreEffect(m1, a, size);
    StoreEffect(m2, a + WORD, next);
    StoreInside(m, m, a, size0, link, a, hi);
    StoreInside(m, m1, a, size, link, a, hi);
    StoreInside(m, m2, a + WORD, next, link, a, hi);
  }

  // Size word and next word of a block, then the link to it.
  lemma HeaderAndLink(m: Memory, link: nat, a: nat, size: nat, next: nat, hi: nat)
    requires link + WORD <= a && a + ENTRY <= hi <= |m| <= SIZE_MOD
    requires size < SIZE_MOD && next < SIZE_MOD
    ensures var m' := Store(Store(Store(m, a, size), a + WORD, next), link, a);
            && SameOutside(m, m', link, a, hi)
            && Load(m', a) == size && Load(m', a + WORD) == next && Load(m', link) == a
  {
    hide Store, Load;
    var m1 := Store(m, a, size);
    var m2 := Store(m1, a + WORD, next);
    StoreEffect(m, a, size);
    StoreEffect(m1, a + WORD, next);
    StoreEffect(m2, link, a);
    StoreInside(m, m, a, size, link, a, hi);
    StoreInside(m, m1, a + WORD, next, link, a, hi);
    StoreInside(m, m2, link, a, link, a, hi);
  }

  // Next word of a block, then the link to it; its size word stays.
  lemma NextAndLink(m: Memory, link: nat, a: nat, next: nat, hi: nat)
    requires link + WORD <= a && a + ENTRY <= hi <= |m| <= SIZE_MOD && next < SIZE_MOD
    ensures var m' := Store(Store(m, a + WORD, next), link, a);
            && SameOutside(m, m', link, a, hi)
            && Load(m', a) == Load(m, a) && Load(m', a + WORD) == next && Load(m', link) == a
  {
    hide Store, Load;
    var m1 := Store(m, a + WORD, next);
    StoreEffect(m, a + WORD, next);
    StoreEffect(m1, link, a);
    StoreInside(m, m, a + WORD, next, link, a, hi);
    StoreInside(m, m1, link, a, link, a, hi);
  }

  lemma Neighbours(h: Layout, i: nat)
    requires h.Valid() && i < |h.tiles|
    ensures h.start <= h.tiles[i].addr && h.tiles[i].size >= ENTRY
    ensures h.tiles[i].addr + h.tiles[i].size == h.Edge(i + 1) <= h.end
    ensures i + 1 < |h.tiles| ==> h.tiles[i + 1].addr + h.tiles[i + 1].size <= h.end
                                  && h.tiles[i + 1].size >= ENTRY
  {
    AllApart(h);
    assert h.TileOk(i);
    assert i + 1 < |h.tiles| ==> h.TileOk(i + 1);
  }

  // A window becomes one free block, once its header is in place and the link leads to it.
  lemma InstallOne(m: Memory, m': Memory, head: nat, h: Layout, i: nat, j: nat, v: Tile, k: nat, link: nat)
    requires v.Free? && CanSplice(h, i, j, [v], h.end) && Linked(m, head, h.tiles) && head + WORD <= h.start
    requires Cursor(head, h.tiles, k, link) && NoFree(h.tiles, k, i)
    requires SameOutside(m, m', link, h.Edge(i), v.addr + v.size)
    requires link + WORD <= |m'| && v.addr + ENTRY <= |m'|
    requires Load(m', link) == v.addr && Load(m', v.addr) == v.size
    requires Load(m', v.addr + WORD) == FirstFree(h.tiles[j..])
    ensures Linked(m', head, h.Splice(i, j, [v], h.end).tiles)
  {
    hide Load, FirstFree, SameOutside, Linked, Cursor, NoFree;
    FirstFreeCons(v, h.tiles[j..]);
    OneInstalled(m', v, h.tiles[j..]);
    hide Installed;
    Install(m, m', head, h, i, j, [v], h.end, k, link);
  }

  // free of block b into the free block in front of it.
  lemma MergeBack(m: Memory, m': Memory, head: nat, h: Layout, k: nat, link: nat, i: nat, v: Tile)
    requires AtFree(m, head, h, k, link, i) && i + 1 < |h.tiles| && h.tiles[i + 1].Live?
    requires i + 2 < |h.tiles| ==> h.tiles[i + 2].Live?
    requires v == Free(h.tiles[i].addr, h.tiles[i].size + h.tiles[i + 1].size)
    requires CanSplice(h, i, i + 2, [v], h.end)
    requires v.addr + WORD <= |m| && link + WORD <= |m|
    requires m' == Store(m, v.addr, v.size)
    ensures Linked(m', head, h.Splice(i, i + 2, [v], h.end).tiles)
    ensures SameOutside(m, m', link, h.Edge(i), v.addr + v.size)
  {
    var rest := h.tiles[i + 2..];
    Neighbours(h, i);
    hide Load, Store, FirstFree, CanSplice;
    LinkBelow(m, head, h, k, link, i);
    StoreEffect(m, v.addr, v.size);
    StoreInside(m, m, v.addr, v.size, link, v.addr, v.addr + v.size);
    FirstFreeOf(h.tiles, i);
    assert FirstFree(h.tiles[i + 1..]) == FirstFree(rest) by {
      assert h.tiles[i + 1..] == [h.tiles[i + 1]] + rest;
      FirstFreeCons(h.tiles[i + 1], rest);
    }
    InstallOne(m, m', head, h, i, i + 2, v, k, link);
  }

  lemma OneInstalled(m: Memory, v: Tile, rest: seq<Tile>)
    requires v.addr + ENTRY <= |m| && Load(m, v.addr) == v.size
    requires v.Free? ==> Load(m, v.addr + WORD) == FirstFree(rest)
    ensures Installed(m, [v], rest, 0)
  {
    assert [v][1..] + rest == rest;
  }

  lemma FirstFreeOf(ts: seq<Tile>, i: nat)
    requires i < |ts| && ts[i].Free?
    ensures FirstFree(ts[i..]) == ts[i].addr
  {
    assert ts[i..] == [ts[i]] + ts[i + 1..];
    FirstFreeCons(ts[i], ts[i + 1..]);
  }

  // free of block b between two free blocks: all three become one.
  lemma MergeBoth(m: Memory, m': Memory, head: nat, h: Layout, k: nat, link: nat, i: nat, v: Tile)
    requires AtFree(m, head, h, k, link, i) && i + 2 < |h.tiles|
    requires h.tiles[i + 1].Live? && h.tiles[i + 2].Free?
    requires v == Free(h.tiles[i].addr, h.tiles[i].size + h.tiles[i + 1].size + h.tiles[i + 2].size)
    requires CanSplice(h, i, i + 3, [v], h.end)
    requires v.addr + ENTRY <= |m| && h.tiles[i + 2].addr + ENTRY <= |m| && link + WORD <= |m|
    requires m' == Store(Store(Store(m, v.addr, h.tiles[i].size + h.tiles[i + 1].size), v.addr, v.size),
                         v.addr + WORD, Load(m, h.tiles[i + 2].addr + WORD))
    ensures Linked(m', head, h.Splice(i, i + 3, [v], h.end).tiles)
    ensures SameOutside(m, m', link, h.Edge(i), v.addr + v.size)
  {
    var w := h.tiles[i + 2];
    MergeBothSizes(m, head, h, k, link, i, v);
    hide Store, Load, FirstFree, CanSplice, SameOutside, AtFree;
    WordFits(m, w.addr + WORD);
    HeaderTwice(m, link, v.addr, h.tiles[i].size + h.tiles[i + 1].size, v.size, Load(m, w.addr + WORD),
                v.addr + v.size);
    InstallOne(m, m', head, h, i, i + 3, v, k, link);
  }

  lemma MergeBothSizes(m: Memory, head: nat, h: Layout, k: nat, link: nat, i: nat, v: Tile)
    requires AtFree(m, head, h, k, link, i) && i + 2 < |h.tiles|
    requires h.tiles[i + 1].Live? && h.tiles[i + 2].Free?
    requires v == Free(h.tiles[i].addr, h.tiles[i].size + h.tiles[i + 1].size + h.tiles[i + 2].size)
    ensures link + WORD <= v.addr == h.Edge(i) && v.addr + ENTRY <= v.addr + v.size <= |m| <= SIZE_MOD
    ensures Linked(m, head, h.tiles) && head + WORD <= h.start && Cursor(head, h.tiles, k, link)
    ensures NoFree(h.tiles, k, i)
    ensures h.tiles[i + 2].addr + ENTRY <= |m| && Load(m, link) == v.addr
    ensures Load(m, h.tiles[i + 2].addr + WORD) == FirstFree(h.tiles[i + 3..])
  {
    Neighbours(h, i);
    Neighbours(h, i + 1);
    hide Load, FirstFree;
    LinkBelow(m, head, h, k, link, i);
    assert HeaderOk(m, h.tiles, i + 2);
    FirstFreeOf(h.tiles, i);
  }

  // free of the block in front of a free one.
  lemma MergeFront(m: Memory, m': Memory, head: nat, h: Layout, k: nat, link: nat, i: nat, v: Tile)
    requires AtFree(m, head, h, k, link, i) && k < i < |h.tiles|
    requires v == Free(h.tiles[i - 1].addr, h.tiles[i - 1].size + h.tiles[i].size)
    requires CanSplice(h, i - 1, i + 1, [v], h.end)
    requires v.addr + ENTRY <= |m| && h.tiles[i].addr + ENTRY <= |m| && link + WORD <= |m|
    requires m' == Store(Store(Store(m, v.addr, v.size), v.addr + WORD, Load(m, h.tiles[i].addr + WORD)),
                         link, v.addr)
    ensures Linked(m', head, h.Splice(i - 1, i + 1, [v], h.end).tiles)
    ensures SameOutside(m, m', link, h.Edge(i - 1), v.addr + v.size)
  {
    MergeFrontSizes(m, head, h, k, link, i, v);
    hide Store, Load, FirstFree, CanSplice, SameOutside, AtFree, Linked, Cursor, NoFree;
    var next := Load(m, h.tiles[i].addr + WORD);
    WordFits(m, h.tiles[i].addr + WORD);
    HeaderAndLink(m, link, v.addr, v.size, next, v.addr + v.size);
    InstallOne(m, m', head, h, i - 1, i + 1, v, k, link);
  }

  lemma MergeFrontSizes(m: Memory, head: nat, h: Layout, k: nat, link: nat, i: nat, v: Tile)
    requires AtFree(m, head, h, k, link, i) && k < i < |h.tiles|
    requires v == Free(h.tiles[i - 1].addr, h.tiles[i - 1].size + h.tiles[i].size)
    ensures link + WORD <= v.addr == h.Edge(i - 1) && v.addr + ENTRY <= v.addr + v.size <= |m| <= SIZE_MOD
    ensures Linked(m, head, h.tiles) && head + WORD <= h.start && Cursor(head, h.tiles, k, link)
    ensures NoFree(h.tiles, k, i - 1)
    ensures h.tiles[i].addr + ENTRY <= |m| && Load(m, h.tiles[i].addr + WORD) == FirstFree(h.tiles[i + 1..])
  {
    Neighbours(h, i - 1);
    hide Load, FirstFree;
    LinkBelow(m, head, h, k, link, i);
    LinkFront(m, head, h, k, link, i, i - 1);
  }

  // The link lies in front of every live block that follows it.
  lemma LinkFront(m: Memory, head: nat, h: Layout, k: nat, link: nat, i: nat, b: nat)
    requires AtFree(m, head, h, k, link, i) && k <= b < |h.tiles|
    ensures link + WORD <= h.tiles[b].addr
  {
    AllApart(h);
    if k > 0 {
      assert h.TileOk(k - 1);
    }
  }

  // free of a block with live neighbours.
  lemma LinkBlock(m: Memory, m': Memory, head: nat, h: Layout, k: nat, link: nat, i: nat, b: nat, v: Tile)
    requires AtFree(m, head, h, k, link, i) && k <= b < i
    requires v == Free(h.tiles[b].addr, h.tiles[b].size)
    requires CanSplice(h, b, b + 1, [v], h.end)
    requires v.addr + ENTRY <= |m| && link + WORD <= |m|
    requires m' == Store(Store(m, v.addr + WORD, Load(m, link)), link, v.addr)
    ensures Linked(m', head, h.Splice(b, b + 1, [v], h.end).tiles)
    ensures SameOutside(m, m', link, h.Edge(b), v.addr + v.size)
  {
    LinkBlockSizes(m, head, h, k, link, i, b, v);
    hide Store, Load, FirstFree, CanSplice, SameOutside, AtFree, Linked, Cursor, NoFree;
    WordFits(m, link);
    NextAndLink(m, link, v.addr, Load(m, link), v.addr + v.size);
    InstallOne(m, m', head, h, b, b + 1, v, k, link);
  }

  lemma LinkBlockSizes(m: Memory, head: nat, h: Layout, k: nat, link: nat, i: nat, b: nat, v: Tile)
    requires AtFree(m, head, h, k, link, i) && k <= b < i
    requires v == Free(h.tiles[b].addr, h.tiles[b].size)
    ensures link + WORD <= v.addr == h.Edge(b) && v.addr + ENTRY <= v.addr + v.size <= |m| <= SIZE_MOD
    ensures Linked(m, head, h.tiles) && head + WORD <= h.start && Cursor(head, h.tiles, k, link)
    ensures NoFree(h.tiles, k, b)
    ensures Load(m, v.addr) == v.size && Load(m, link) == FirstFree(h.tiles[b + 1..])
  {
    Neighbours(h, b);
    hide FirstFree, Load;
    LinkBelow(m, head, h, k, link, i);
    LinkFront(m, head, h, k, link, i, b);
    assert HeaderOk(m, h.tiles, b);
    FirstFreeSkip(h.tiles, b + 1, i);
  }

  // ----- realloc -----

  // The cursor in front of block b.
  function LinkIndex(ts: seq<Tile>, b: nat): (k: nat)
    requires b <= |ts|
    ensures NoFree(ts, k, b) && (k > 0 ==> ts[k - 1].Free?)
  {
    if b > 0 && ts[b - 1].Live? then LinkIndex(ts, b - 1) else b
  }

  ghost predicate AllLive(mid: seq<Tile>)
  {
    forall t | t in mid :: t.Live?
  }

  lemma {:induction false} FirstFreeAfterLive(mid: seq<Tile>, rest: seq<Tile>)
    requires AllLive(mid)
    ensures FirstFree(mid + rest) == FirstFree(rest)
  {
    if mid == [] {
      assert mid + rest == rest;
    } else {
      assert mid[0] in mid;
      FirstFreeAfterLive(mid[1..], rest);
      assert mid + rest == [mid[0]] + (mid[1..] + rest);
      FirstFreeCons(mid[0], mid[1..] + rest);
    }
  }

  ghost predicate HeaderIn(m: Memory, mid: seq<Tile>, y: nat)
    requires y < |mid|
  {
    mid[y].addr + ENTRY <= |m| && Load(m, mid[y].addr) == mid[y].size
  }

  // A live block is recast as live blocks whose size words are in place.
  lemma RecastLive(m: Memory, m': Memory, head: nat, h: Layout, b: nat, mid: seq<Tile>)
    requires h.Valid() && Linked(m, head, h.tiles) && head + WORD <= h.start && h.end <= |m| <= SIZE_MOD
    requires b < |h.tiles| && h.tiles[b].Live? && AllLive(mid) && CanSplice(h, b, b + 1, mid, h.end)
    requires SameOutside(m, m', h.tiles[b].addr, h.tiles[b].addr, h.tiles[b].addr + h.tiles[b].size)
    requires forall y: nat {:trigger HeaderIn(m', mid, y)} | y < |mid| :: HeaderIn(m', mid, y)
    ensures Linked(m', head, h.Splice(b, b + 1, mid, h.end).tiles)
  {
    var k := LinkIndex(h.tiles, b);
    var link := if k == 0 then head else h.tiles[k - 1].addr + WORD;
    var lo, hi := h.tiles[b].addr, h.tiles[b].addr + h.tiles[b].size;
    var rest := h.tiles[b + 1..];
    var i := NextFree(h.tiles, b);
    assert AtFree(m, head, h, k, link, i);
    assert lo == h.Edge(b) && Last(mid).addr + Last(mid).size == hi by {
      Neighbours(h, b);
    }
    hide CanSplice, Load, FirstFree;
    LinkBelow(m, head, h, k, link, i);
    LinkFront(m, head, h, k, link, i, b);
    Neighbours(h, b);
    RecastLink(m, m', link, lo, hi);
    FirstFreeAfterLive(mid, rest);
    FirstFreeSkip(h.tiles, b + 1, i);
    forall y: nat {:trigger Installed(m', mid, rest, y)} | y < |mid|
      ensures Installed(m', mid, rest, y)
    {
      assert HeaderIn(m', mid, y);
      assert mid[y] in mid;
    }
    hide Installed, HeaderOk, Linked, HeaderIn;
    Install(m, m', head, h, b, b + 1, mid, h.end, k, link);
  }

  lemma RecastLink(m: Memory, m': Memory, link: nat, lo: nat, hi: nat)
    requires SameOutside(m, m', lo, lo, hi) && link + WORD <= lo && lo + WORD <= hi && link + WORD <= |m|
    ensures SameOutside(m, m', link, lo, hi) && Load(m', link) == Load(m, link)
  {
    LoadOutside(m, m', lo, lo, hi, link);
  }

  // The payload of a live block may be written freely.
  lemma PayloadWrite(m: Memory, m': Memory, head: nat, h: Layout, b: nat)
    requires h.Valid() && Linked(m, head, h.tiles) && head + WORD <= h.start && h.end <= |m| <= SIZE_MOD
    requires b < |h.tiles| && h.tiles[b].Live?
    requires var t := h.tiles[b];
             SameOutside(m, m', t.addr + WORD, t.addr + WORD, t.addr + t.size)
    ensures Linked(m', head, h.tiles)
  {
    var t := h.tiles[b];
    hide Load, FirstFree;
    Neighbours(h, b);
    AllApart(h);
    LoadOutside(m, m', t.addr + WORD, t.addr + WORD, t.addr + t.size, head);
    forall x: nat {:trigger HeaderOk(m', h.tiles, x)} | x < |h.tiles|
      ensures HeaderOk(m', h.tiles, x)
    {
      assert HeaderOk(m, h.tiles, x) && h.TileOk(x);
      LoadOutside(m, m', t.addr + WORD, t.addr + WORD, t.addr + t.size, h.tiles[x].addr);
      if h.tiles[x].Free? {
        LoadOutside(m, m', t.addr + WORD, t.addr + WORD, t.addr + t.size, h.tiles[x].addr + WORD);
      }
    }
  }

  // ----- memalign -----

  // The free top block grows in place, or a free block is added above a live one.
  lemma GrowFree(m: Memory, m': Memory, head: nat, h: Layout, k: nat, link: nat, i: nat, v: Tile)
    requires AtFree(m, head, h, k, link, i) && |h.tiles| == i + 1
    requires v.Free? && v.addr == h.tiles[i].addr && v.size >= ENTRY && v.addr + v.size <= |m|
    requires CanSplice(h, i, i + 1, [v], v.addr + v.size)
    requires v.addr + WORD <= |m| && m' == Store(m, v.addr, v.size)
    ensures Linked(m', head, h.Splice(i, i + 1, [v], v.addr + v.size).tiles)
    ensures SameOutside(m, m', link, h.Edge(i), v.addr + v.size)
  {
    hide Load, Store, FirstFree, CanSplice;
    var rest := h.tiles[i + 1..];
    LinkBelow(m, head, h, k, link, i);
    StoreEffect(m, v.addr, v.size);
    StoreInside(m, m, v.addr, v.size, link, v.addr, v.addr + v.size);
    FirstFreeCons(v, rest);
    FirstFreeOf(h.tiles, i);
    OneInstalled(m', v, rest);
    Install(m, m', head, h, i, i + 1, [v], v.addr + v.size, k, link);
  }

  lemma AppendFree(m: Memory, m': Memory, head: nat, h: Layout, k: nat, link: nat, v: Tile)
    requires AtFree(m, head, h, k, link, |h.tiles|)
    requires v.Free? && v.addr == h.end && v.size >= ENTRY && v.addr + v.size <= |m|
    requires CanSplice(h, |h.tiles|, |h.tiles|, [v], v.addr + v.size)
    requires link + WORD <= |m| && v.addr + ENTRY <= |m|
    requires m' == Store(Store(Store(m, link, v.addr), v.addr, v.size), v.addr + WORD, 0)
    ensures Linked(m', head, h.Splice(|h.tiles|, |h.tiles|, [v], v.addr + v.size).tiles)
    ensures SameOutside(m, m', link, h.end, v.addr + v.size)
  {
    hide Load, Store, CanSplice;
    var n := |h.tiles|;
    LinkBelow(m, head, h, k, link, n);
    AppendStores(m, link, v.addr, v.size, v.addr + v.size);
    assert h.tiles[n..] == [];
    FirstFreeCons(v, h.tiles[n..]);
    OneInstalled(m', v, h.tiles[n..]);
    Install(m, m', head, h, n, n, [v], v.addr + v.size, k, link);
  }

  // Link, size word and empty next word of a block put at the end of the list.
  lemma AppendStores(m: Memory, link: nat, a: nat, size: nat, hi: nat)
    requires link + WORD <= a && a + ENTRY <= hi <= |m| <= SIZE_MOD && size < SIZE_MOD
    ensures var m' := Store(Store(Store(m, link, a), a, size), a + WORD, 0);
            && SameOutside(m, m', link, a, hi)
            && Load(m', a) == size && Load(m', a + WORD) == 0 && Load(m', link) == a
  {
    hide Store, Load;
    var m1 := Store(m, link, a);
    var m2 := Store(m1, a, size);
    StoreEffect(m, link, a);
    StoreEffect(m1, a, size);
    StoreEffect(m2, a + WORD, 0);
    StoreInside(m, m, link, a, link, a, hi);
    StoreInside(m, m1, a, size, link, a, hi);
    StoreInside(m, m2, a + WORD, 0, link, a, hi);
  }

  // The front of free block i stays on the list, the rest of it is given out.
  lemma KeepFront(m: Memory, m': Memory, head: nat, h: Layout, k: nat, link: nat, i: nat, v: Tile, u: Tile)
    requires AtFree(m, head, h, k, link, i) && i < |h.tiles|
    requires v.Free? && u.Live? && v.addr == h.tiles[i].addr && v.addr + v.size == u.addr
    requires v.size >= ENTRY && u.size >= ENTRY && u.addr + u.size == h.tiles[i].addr + h.tiles[i].size
    requires CanSplice(h, i, i + 1, [v, u], h.end)
    requires u.addr + WORD <= |m| && m' == Store(Store(m, v.addr, v.size), u.addr, u.size)
    ensures Linked(m', head, h.Splice(i, i + 1, [v, u], h.end).tiles)
    ensures SameOutside(m, m', link, h.Edge(i), u.addr + u.size)
  {
    hide Load, Store, FirstFree, CanSplice;
    var rest := h.tiles[i + 1..];
    var hi := u.addr + u.size;
    LinkBelow(m, head, h, k, link, i);
    var m1 := Store(m, v.addr, v.size);
    StoreEffect(m, v.addr, v.size);
    StoreEffect(m1, u.addr, u.size);
    StoreInside(m, m, v.addr, v.size, link, v.addr, hi);
    StoreInside(m, m1, u.addr, u.size, link, v.addr, hi);
    FirstFreeOf(h.tiles, i);
    TwoTiles(v, u, rest);
    FirstFreeCons(v, [u] + rest);
    FirstFreeCons(u, rest);
    assert Installed(m', [v, u], rest, 0);
    assert Installed(m', [v, u], rest, 1);
    Install(m, m', head, h, i, i + 1, [v, u], h.end, k, link);
  }

  lemma TwoTiles(v: Tile, u: Tile, rest: seq<Tile>)
    ensures [v, u] + rest == [v] + ([u] + rest)
    ensures [v, u][1..] + rest == [u] + rest && [v, u][2..] + rest == rest
  {
  }

  lemma ThreeTiles(v: Tile, u: Tile, w: Tile, rest: seq<Tile>)
    ensures [v, u, w] + rest == [v] + ([u] + ([w] + rest))
    ensures [v, u, w][1..] + rest == [u] + ([w] + rest)
    ensures [v, u, w][2..] + rest == [w] + rest && [v, u, w][3..] + rest == rest
  {
  }

  // The front and the back of free block i stay on the list.
  lemma KeepBoth(m: Memory, m': Memory, head: nat, h: Layout, k: nat, link: nat, i: nat,
                 v: Tile, u: Tile, w: Tile)
    requires AtFree(m, head, h, k, link, i) && i < |h.tiles|
    requires v.Free? && u.Live? && w.Free? && v.addr == h.tiles[i].addr && v.addr + v.size == u.addr
    requires u.addr + u.size == w.addr && w.addr + w.size == h.tiles[i].addr + h.tiles[i].size
    requires v.size >= ENTRY && u.size >= ENTRY && w.size >= ENTRY
    requires CanSplice(h, i, i + 1, [v, u, w], h.end)
    requires w.addr + ENTRY <= |m|
    requires m' == Store(Store(Store(Store(Store(m,
                     v.addr, v.size),
                     w.addr, w.size),
                     w.addr + WORD, Load(m, v.addr + WORD)),
                     v.addr + WORD, w.addr),
                     u.addr, u.size)
    ensures Linked(m', head, h.Splice(i, i + 1, [v, u, w], h.end).tiles)
    ensures SameOutside(m, m', link, h.Edge(i), w.addr + w.size)
  {
    hide Load, Store, FirstFree, CanSplice, SameOutside;
    var rest := h.tiles[i + 1..];
    LinkBelow(m, head, h, k, link, i);
    var next := Load(m, v.addr + WORD);
    WordFits(m, v.addr + WORD);
    FrontAndBackStores(m, link, v, u, w, next);
    FirstFreeOf(h.tiles, i);
    ThreeTiles(v, u, w, rest);
    FirstFreeCons(v, [u] + ([w] + rest));
    FirstFreeCons(u, [w] + rest);
    FirstFreeCons(w, rest);
    assert Installed(m', [v, u, w], rest, 0);
    assert Installed(m', [v, u, w], rest, 1);
    assert Installed(m', [v, u, w], rest, 2);
    hide Installed, HeaderOk, Linked, Cursor;
    Install(m, m', head, h, i, i + 1, [v, u, w], h.end, k, link);
  }

  lemma FrontAndBackStores(m: Memory, link: nat, v: Tile, u: Tile, w: Tile, next: nat)
    requires link + WORD <= v.addr && v.addr + v.size == u.addr && u.addr + u.size == w.addr
    requires v.size >= ENTRY && u.size >= ENTRY && w.size >= ENTRY
    requires w.addr + w.size <= |m| <= SIZE_MOD && next < SIZE_MOD
    ensures var m' := Store(Store(Store(Store(Store(m,
                        v.addr, v.size), w.addr, w.size), w.addr + WORD, next), v.addr + WORD, w.addr),
                        u.addr, u.size);
            && SameOutside(m, m', link, v.addr, w.addr + w.size)
            && Load(m', link) == Load(m, link)
            && Load(m', v.addr) == v.size && Load(m', v.addr + WORD) == w.addr
            && Load(m', u.addr) == u.size
            && Load(m', w.addr) == w.size && Load(m', w.addr + WORD) == next
  {
    hide Store, Load;
    var hi := w.addr + w.size;
    var m1 := Store(m, v.addr, v.size);
    var m2 := Store(m1, w.addr, w.size);
    var m3 := Store(m2, w.addr + WORD, next);
    var m4 := Store(m3, v.addr + WORD, w.addr);
    StoreEffect(m, v.addr, v.size);
    StoreEffect(m1, w.addr, w.size);
    StoreEffect(m2, w.addr + WORD, next);
    StoreEffect(m3, v.addr + WORD, w.addr);
    StoreEffect(m4, u.addr, u.size);
    StoreInside(m, m, v.addr, v.size, link, v.addr, hi);
    StoreInside(m, m1, w.addr, w.size, link, v.addr, hi);
    StoreInside(m, m2, w.addr + WORD, next, link, v.addr, hi);
    StoreInside(m, m3, v.addr + WORD, w.addr, link, v.addr, hi);
    StoreInside(m, m4, u.addr, u.size, link, v.addr, hi);
  }

  lemma {:induction false} DecodeBound(bs: seq<Byte>)
    ensures Decode(bs) < Pow256(|bs|)
  {
    if bs != [] {
      DecodeBound(bs[1..]);
    }
  }

  lemma WordFits(m: Memory, a: nat)
    requires a + WORD <= |m|
    ensures Load(m, a) < SIZE_MOD
  {
    DecodeBound(m[a..a + WORD]);
    PowWord();
  }
}
