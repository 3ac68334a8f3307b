/**
 memalign as a function on the heap layout: find or make a free block with room for
 an aligned one, and give the space in front of it back to the free list.
 */
module AlignedSpec {
  import opened Basics
  import opened FlatMemory
  import opened Remainder
  import opened HeapLayout
  import opened AllocatorSpec

  // ----- Alignment arithmetic -----

  // Adding M_ALIGN reaches a multiple.
  lemma {:induction false} MAlignAligns(x: nat, a: nat)
    requires a > 0
    ensures Rem(x + MAlign(x, a), a) == 0
    decreases x
  {
    if x < a {
      assert Rem(0, a) == 0 && Rem(a, a) == Rem(0, a);
    } else {
      MAlignAligns(x - a, a);
    }
  }

  lemma {:induction false} RemSum(x: nat, b: nat, a: nat)
    requires a > 0
    ensures Rem(x + b, a) == Rem(Rem(x, a) + b, a)
    decreases x
  {
    if x >= a {
      RemSum(x - a, b, a);
    }
  }

  // It is the least that does.
  lemma MAlignLeast(x: nat, a: nat, b: nat)
    requires a > 0 && Rem(x + b, a) == 0
    ensures MAlign(x, a) <= b
  {
    RemSum(x, b, a);
  }

  lemma {:induction false} MultipleOfMultiple(x: nat, a: nat)
    requires a > 0 && a % WORD == 0 && Rem(x, a) == 0
    ensures x % WORD == 0
    decreases x
  {
    if x >= a {
      MultipleOfMultiple(x - a, a);
      hide Rem;
      WordSum(x - a, a);
    }
  }

  lemma PowerOfTwoWord(a: nat)
    requires PowerOfTwo(a)
    ensures a > 0 && (a == 1 || a == 2 || a == 4 || a % WORD == 0)
  {
    PowerOfTwoHalf(a);
    hide PowerOfTwo;
    if a > 1 {
      PowerOfTwoHalf(a / 2);
      if a > 2 {
        PowerOfTwoHalf(a / 2 / 2);
      }
    }
  }

  lemma PowerOfTwoHalf(a: nat)
    requires PowerOfTwo(a)
    ensures a > 0 && (a > 1 ==> a % 2 == 0 && PowerOfTwo(a / 2))
  {
  }

  lemma WordAlign(x: nat, a: nat)
    requires a > 0 && a % WORD == 0 && x % WORD == 0
    ensures MAlign(x, a) % WORD == 0
  {
    hide Rem;
    MAlignAligns(x, a);
    MultipleOfMultiple(x + MAlign(x, a), a);
  }

  // Aligning a word address to a power of two moves it by whole words.
  lemma MAlignWords(x: nat, a: nat)
    requires PowerOfTwo(a) && x % WORD == 0
    ensures MAlign(x, a) % WORD == 0
  {
    hide PowerOfTwo;
    PowerOfTwoWord(a);
    if a % WORD == 0 {
      WordAlign(x, a);
    } else if a == 1 {
      RemIsMod(x, 1);
    } else if a == 2 {
      RemIsMod(x, 2);
    } else {
      RemIsMod(x, 4);
    }
  }

  // The space left in front of an aligned block carved from this address: none, or
  // enough to be a free block.
  function Before(addr: nat, align: nat): nat
    requires align > 0
  {
    if MAlign(addr + WORD, align) == 0 then 0
    else ENTRY + MAlign(addr + ENTRY + WORD, align)
  }

  lemma BeforeAligns(addr: nat, align: nat)
    requires PowerOfTwo(align) && addr % WORD == 0
    ensures var b := Before(addr, align);
            && Rem(addr + b + WORD, align) == 0 && b % WORD == 0
            && (b == 0 || b >= ENTRY) && b < ENTRY + align
  {
    hide Rem;
    MAlignAligns(addr + WORD, align);
    MAlignAligns(addr + ENTRY + WORD, align);
    MAlignWords(addr + ENTRY + WORD, align);
  }

  // No smaller space aligns the payload and is none or a free block.
  lemma BeforeLeast(addr: nat, align: nat, b: nat)
    requires align > 0 && Rem(addr + b + WORD, align) == 0 && (b == 0 || b >= ENTRY)
    ensures Before(addr, align) <= b
  {
    hide Rem;
    MAlignLeast(addr + WORD, align, b);
    if b > 0 {
      MAlignLeast(addr + ENTRY + WORD, align, b - ENTRY);
    }
  }

  // ----- The size sums -----

  // No sum of a block size and the space for its alignment wraps, wherever the block lies.
  predicate SumsFit(align: nat, need: nat)
  {
    align <= WORD || need + align + ENTRY <= SIZE_MOD
  }

  // The sums that memalign forms at a word address are exact.
  lemma SumsHold(addr: nat, align: nat, need: nat)
    requires PowerOfTwo(align) && addr % WORD == 0 && need % WORD == 0 && need < SIZE_MOD && SumsFit(align, need)
    ensures Sum(need, Before(addr, align)) == Sum(Before(addr, align), need) == need + Before(addr, align)
    ensures Sum(need, MAlign(addr + WORD, align)) == need + MAlign(addr + WORD, align)
  {
    hide PowerOfTwo, MAlign;
    MAlignWords(addr + WORD, align);
    MAlignWords(addr + ENTRY + WORD, align);
    if align > WORD {
      PowerOfTwoWord(align);
    } else {
      SmallAlign(addr, align);
    }
  }

  // They are exact at every block of a heap and at its end, as is what they are made of.
  lemma EdgeSums(h: Layout, i: nat, align: nat, need: nat)
    requires h.Valid() && i <= |h.tiles| && PowerOfTwo(align)
    requires need % WORD == 0 && need < SIZE_MOD && SumsFit(align, need)
    ensures var a := h.Edge(i);
            && Sum(need, Before(a, align)) == Sum(Before(a, align), need) == need + Before(a, align)
            && Sum(need, MAlign(a + WORD, align)) == need + MAlign(a + WORD, align)
            && (MAlign(a + WORD, align) != 0 ==>
                  Sum(ENTRY, MAlign(a + ENTRY + WORD, align)) == ENTRY + MAlign(a + ENTRY + WORD, align))
  {
    Aligned(h, i);
    hide PowerOfTwo, MAlign, SumsFit;
    SumsHold(h.Edge(i), align, need);
  }

  // Word addresses are aligned to anything up to a word.
  lemma SmallAlign(addr: nat, align: nat)
    requires PowerOfTwo(align) && addr % WORD == 0 && align <= WORD
    ensures MAlign(addr + WORD, align) == 0 && Before(addr, align) == 0
  {
    hide PowerOfTwo, MAlign;
    MAlignWords(addr + WORD, align);
  }

  // The condition is exact: short of it, the sum wraps for some word address.
  lemma SumsFitExact(align: nat, sz: nat)
    requires PowerOfTwo(align) && sz <= MAX_REQUEST
    ensures (forall addr: nat | addr % WORD == 0 :: RealSize(sz) + Before(addr, align) < SIZE_MOD)
            <==> SumsFit(align, RealSize(sz))
  {
    var need := RealSize(sz);
    RealSizeExact(sz);
    hide RealSize, Before, PowerOfTwo;
    if SumsFit(align, need) {
      forall addr: nat | addr % WORD == 0
        ensures need + Before(addr, align) < SIZE_MOD
      {
        SumsHold(addr, align, need);
      }
    } else {
      WorstAddress(align);
      assert need + Before(align - ENTRY, align) >= SIZE_MOD;
    }
  }

  // Two words below a multiple, a block needs the most space in front.
  lemma WorstAddress(align: nat)
    requires PowerOfTwo(align) && align > WORD
    ensures align >= ENTRY && align % WORD == 0 && (align - ENTRY) % WORD == 0
    ensures Before(align - ENTRY, align) == align + WORD
  {
    PowerOfTwoWord(align);
    hide PowerOfTwo;
    RemBelowTwice(align - ENTRY + WORD, align);
    RemBelowTwice(align + WORD, align);
  }

  // What the code does where the sums wrap: from an empty heap that ends at 0x8000_4000 with
  // the stack at 0x8400_0000, such a call passes the test for room with a block of 200 bytes,
  // passes the test for size, and gives out an address far beyond the stack.
  lemma SumsWrap()
    ensures var e, limit, align := 0x8000_4000, 0x8400_0000, 0x8000_0000_0000_0000;
            var sz := align + e + 200;
            var need := RealSize(sz);
            && StackAbove(Layout(e, e, []), limit) && PowerOfTwo(align) && sz <= MAX_REQUEST
            && !SumsFit(align, need)
            && Sum(need, MAlign(e + WORD, align)) == 200 && CanAlloc(limit, e, 200)
            && 200 >= Sum(need, Before(e, align)) && (200 - Before(e, align)) % SIZE_MOD <= Sum(need, ENTRY)
            && e + Before(e, align) + WORD == align > limit
            && Memalign(Layout(e, e, []), align, sz, limit) == (Layout(e, e, []), 0)
  {
    hide PowerOfTwo, Rem, Pow2, MAlign, Before, RealSize;
    var e, limit, align := 0x8000_4000, 0x8400_0000, 0x8000_0000_0000_0000;
    var sz := align + e + 200;
    Pow2Words();
    PowerShifted(63);
    BelowAlign(e, align);
    WordRequest(sz);
    CanAllocBelowGap(limit, e, RealSize(sz) + MAlign(e + WORD, align));
  }

  lemma WordRequest(sz: nat)
    requires ENTRY <= sz <= MAX_REQUEST && sz % WORD == 0
    ensures RealSize(sz) == sz + WORD
  {
    RemIsMod(sz, WORD);
  }

  // Below the alignment itself, the next multiple is the alignment.
  lemma BelowAlign(e: nat, align: nat)
    requires e + ENTRY + WORD < align
    ensures MAlign(e + WORD, align) == Before(e, align) == align - e - WORD
  {
  }

  lemma {:induction false} PowerShifted(k: nat)
    ensures PowerOfTwo(Pow2(k))
  {
    if k > 0 {
      PowerShifted(k - 1);
      Doubled(Pow2(k - 1));
    }
  }

  lemma Doubled(a: nat)
    requires PowerOfTwo(a)
    ensures PowerOfTwo(2 * a)
  {
    assert 2 * a / 2 == a;
  }

  // ----- memalign -----

  function FirstAligned(ts: seq<Tile>, need: nat, align: nat, k: nat): (i: nat)
    requires k <= |ts| && align > 0
    ensures k <= i <= |ts|
    ensures forall x | k <= x < i :: ts[x].Free? ==> ts[x].size < need + Before(ts[x].addr, align)
    ensures i < |ts| ==> ts[i].Free? && ts[i].size >= need + Before(ts[i].addr, align)
    decreases |ts| - k
  {
    if k == |ts| then k
    else if ts[k].Free? && ts[k].size >= need + Before(ts[k].addr, align) then k
    else FirstAligned(ts, need, align, k + 1)
  }

  // The tiles that free block t becomes when `need` bytes are taken `before` bytes in.
  function Carved(t: Tile, before: nat, need: nat, sz: nat): seq<Tile>
    requires before + need <= t.size
  {
    var rest := t.size - before;
    var a := t.addr + before;
    if before == 0 then
      if rest <= need + ENTRY then [Live(a, rest, sz)]
      else [Live(a, need, sz), Free(a + need, rest - need)]
    else
      if rest <= need + ENTRY then [Free(t.addr, before), Live(a, rest, sz)]
      else [Free(t.addr, before), Live(a, need, sz), Free(a + need, rest - need)]
  }

  function Carve(h: Layout, i: nat, align: nat, need: nat, sz: nat): (Layout, nat)
    requires i < |h.tiles| && align > 0
  {
    var t := h.tiles[i];
    var before := Before(t.addr, align);
    if before + need <= t.size then
      (h.Splice(i, i + 1, Carved(t, before, need, sz), h.end), t.addr + before + WORD)
    else (h, 0)
  }

  // Gives the free top block this size, or adds such a block above a live one.
  function GrowTop(h: Layout, size: nat): Layout
  {
    var n := |h.tiles|;
    var i := if TopIsFree(h) then n - 1 else n;
    h.Splice(i, n, [Free(h.Edge(i), size)], h.Edge(i) + size)
  }

  // Makes the free top block large enough if need be, and carves it.
  function GrowAndCarve(h: Layout, align: nat, need: nat, sz: nat, limit: nat): (Layout, nat)
    requires TopIsFree(h) && align > 0
  {
    var n := |h.tiles|;
    var t := Last(h.tiles);
    var size := Before(t.addr, align) + need;
    if t.size >= size then Carve(h, n - 1, align, need, sz)
    else if !CanAlloc(limit, h.end, size - t.size) then (h, 0)
    else Carve(GrowTop(h, size), n - 1, align, need, sz)
  }

  function Memalign(h: Layout, align: nat, sz: nat, limit: nat): (Layout, nat)
  {
    if !PowerOfTwo(align) then (h, 0)
    else
      var need := RealSize(sz);
      var i := FirstAligned(h.tiles, need, align, 0);
      if i < |h.tiles| then Carve(h, i, align, need, sz)
      else if TopIsFree(h) then GrowAndCarve(h, align, need, sz, limit)
      else
        var size := need + MAlign(h.end + WORD, align);
        if !CanAlloc(limit, h.end, size) then (h, 0)
        else GrowAndCarve(GrowTop(h, size), align, need, sz, limit)
  }

  lemma CarveFits(h: Layout, i: nat, align: nat, need: nat, sz: nat)
    requires h.Valid() && PowerOfTwo(align) && FitsRequest(need, sz)
    requires i < |h.tiles| && h.tiles[i].Free?
    requires h.tiles[i].size >= need + Before(h.tiles[i].addr, align)
    ensures CanSplice(h, i, i + 1, Carved(h.tiles[i], Before(h.tiles[i].addr, align), need, sz), h.end)
    ensures var b := Before(h.tiles[i].addr, align);
            b % WORD == 0 && (b == 0 || b >= ENTRY)
  {
    hide Before, Carved;
    var t := h.tiles[i];
    assert t.addr % WORD == 0 by {
      AllApart(h);
    }
    BeforeAligns(t.addr, align);
    assert h.TileOk(i);
    assert i > 0 ==> h.TileOk(i - 1);
    CarvedChain(t, Before(t.addr, align), need, sz);
  }

  lemma CarveKeeps(h: Layout, i: nat, align: nat, need: nat, sz: nat)
    requires h.Valid() && PowerOfTwo(align) && FitsRequest(need, sz)
    requires i < |h.tiles| && h.tiles[i].Free?
    requires h.tiles[i].size >= need + Before(h.tiles[i].addr, align)
    ensures var (h', p) := Carve(h, i, align, need, sz);
            && h'.Valid() && h'.start == h.start && h'.end == h.end
            && p == h.tiles[i].addr + Before(h.tiles[i].addr, align) + WORD
            && p > WORD && Rem(p, align) == 0
            && exists u: Tile :: NewBlock(h, h', u) && u.addr + WORD == p && u.request == sz
  {
    hide Before, Carved, CanSplice, NewBlock, Rem;
    var t := h.tiles[i];
    var before := Before(t.addr, align);
    var mid := Carved(t, before, need, sz);
    CarveFits(h, i, align, need, sz);
    assert h.TileOk(i);
    assert t.addr % WORD == 0 && t.addr > 0 by {
      AllApart(h);
    }
    BeforeAligns(t.addr, align);
    CarvedChain(t, before, need, sz);
    SpliceValid(h, i, i + 1, mid, h.end);
    SpliceGains(h, i, i + 1, mid, h.end, if before == 0 then mid[0] else mid[1]);
  }

  // Carving splits off what is not needed, if it can be more than an entry.
  lemma CarveFrugal(h: Layout, i: nat, align: nat, sz: nat)
    requires h.Valid() && PowerOfTwo(align) && sz <= MAX_REQUEST && i < |h.tiles| && h.tiles[i].Free?
    requires h.tiles[i].size >= RealSize(sz) + Before(h.tiles[i].addr, align)
    ensures var (h', p) := Carve(h, i, align, RealSize(sz), sz);
            Frugal(h', p, ENTRY + 1)
  {
    hide Before, Carved, CanSplice, RealSize, FitsRequest, Frugal, LiveOf;
    var need := RealSize(sz);
    var before := Before(h.tiles[i].addr, align);
    var mid := Carved(h.tiles[i], before, need, sz);
    var h' := Carve(h, i, align, need, sz).0;
    var j := if before == 0 then i else i + 1;
    RealSizeExact(sz);
    CarveFits(h, i, align, need, sz);
    SpliceValid(h, i, i + 1, mid, h.end);
    CarvedSize(h.tiles[i], before, need, sz);
    assert h.TileOk(i);
    SpliceAt(h, i, i + 1, mid, h.end, j);
    if j + 1 < |h'.tiles| {
      SpliceAt(h, i, i + 1, mid, h.end, j + 1);
    }
    FrugalAt(h', j, sz, ENTRY + 1);
  }

  lemma CarvedSize(t: Tile, before: nat, need: nat, sz: nat)
    requires before + need <= t.size
    ensures var mid := Carved(t, before, need, sz);
            var k := if before == 0 then 0 else 1;
            && k < |mid| && mid[k].Live? && mid[k].addr == t.addr + before && mid[k].request == sz
            && need <= mid[k].size < need + ENTRY + 1 && (|mid| > k + 1 ==> mid[k].size == need)
  {
  }

  lemma CarvedChain(t: Tile, before: nat, need: nat, sz: nat)
    requires t.Free? && GoodTile(t) && before + need <= t.size && FitsRequest(need, sz)
    requires before % WORD == 0 && (before == 0 || before >= ENTRY)
    ensures var mid := Carved(t, before, need, sz);
            && mid != [] && mid[0].addr == t.addr && (before != 0 ==> |mid| > 1)
            && Last(mid).addr + Last(mid).size == t.addr + t.size
            && (forall k | 0 <= k < |mid| :: GoodTile(mid[k]))
            && (forall k, l | 0 <= k < |mid| && l == k + 1 < |mid| ::
                  mid[k].addr + mid[k].size == mid[l].addr && !(mid[k].Free? && mid[l].Free?))
            && var u := if before == 0 then mid[0] else mid[1];
               u.Live? && u.addr == t.addr + before && u.request == sz
               && forall x :: x in mid && x.Live? <==> x == u
  {
    assert |Carved(t, before, need, sz)| <= 3;
  }

  // Growing the free top block, or adding one above a live block, changes no live block.
  lemma GrowFits(h: Layout, size: nat)
    requires h.Valid() && GoodTile(Free(0, size))
    ensures var n := |h.tiles|;
            var i := if TopIsFree(h) then n - 1 else n;
            CanSplice(h, i, n, [Free(h.Edge(i), size)], h.Edge(i) + size)
  {
    var n := |h.tiles|;
    var i := if TopIsFree(h) then n - 1 else n;
    if i > 0 {
      assert h.TileOk(i - 1);
    }
  }

  lemma TopGrows(h: Layout, size: nat)
    requires h.Valid() && GoodTile(Free(0, size))
    ensures var i := if TopIsFree(h) then |h.tiles| - 1 else |h.tiles|;
            var h' := GrowTop(h, size);
            && h'.Valid() && TopIsFree(h') && |h'.tiles| == i + 1
            && Last(h'.tiles) == Free(h.Edge(i), size) && h'.end == h.Edge(i) + size
            && h'.LiveTiles() == h.LiveTiles() && h'.start == h.start
  {
    var n := |h.tiles|;
    var i := if TopIsFree(h) then n - 1 else n;
    var mid := [Free(h.Edge(i), size)];
    GrowFits(h, size);
    SpliceValid(h, i, n, mid, h.Edge(i) + size);
    SpliceLive(h, i, n, mid, h.Edge(i) + size);
    InLive(h.tiles[i..n]);
    InLive(mid);
  }

  // What memalign promises: an allocation whose address is a multiple of align; and on
  // failure still a well-formed heap with the same live blocks.
  ghost predicate AllocatesAligned(h: Layout, h': Layout, p: nat, align: nat, sz: nat, limit: nat)
  {
    && h'.Valid() && h'.start == h.start
    && h'.end + GAP <= limit
    && (p == 0 ==> h'.LiveTiles() == h.LiveTiles())
    && (p != 0 ==>
          && align > 0 && Rem(p, align) == 0
          && exists u: Tile :: NewBlock(h, h', u) && u.addr + WORD == p && u.request == sz)
  }

  // Carving a layout with the same live blocks as h.
  lemma CarveTop(h: Layout, g: Layout, align: nat, need: nat, sz: nat, limit: nat)
    requires g.Valid() && TopIsFree(g) && g.end + GAP <= limit
    requires g.LiveTiles() == h.LiveTiles() && g.start == h.start
    requires PowerOfTwo(align) && FitsRequest(need, sz)
    requires Last(g.tiles).size >= need + Before(Last(g.tiles).addr, align)
    ensures var (h', p) := Carve(g, |g.tiles| - 1, align, need, sz);
            AllocatesAligned(h, h', p, align, sz, limit)
  {
    CarveKeeps(g, |g.tiles| - 1, align, need, sz);
    var (h', p) := Carve(g, |g.tiles| - 1, align, need, sz);
    var u: Tile :| NewBlock(g, h', u) && u.addr + WORD == p && u.request == sz;
    assert NewBlock(h, h', u);
  }

  lemma GrowAndCarveKeeps(h: Layout, g: Layout, align: nat, need: nat, sz: nat, limit: nat)
    requires g.Valid() && StackAbove(g, limit) && TopIsFree(g)
    requires g.LiveTiles() == h.LiveTiles() && g.start == h.start
    requires PowerOfTwo(align) && FitsRequest(need, sz)
    ensures var (h', p) := GrowAndCarve(g, align, need, sz, limit);
            AllocatesAligned(h, h', p, align, sz, limit)
  {
    hide Carve, GrowTop, Before, CanAlloc, FitsRequest;
    var n := |g.tiles|;
    var t := Last(g.tiles);
    var size := Before(t.addr, align) + need;
    if t.size >= size {
      CarveTop(h, g, align, need, sz, limit);
    } else if CanAlloc(limit, g.end, size - t.size) {
      CarveGrown(h, g, align, need, sz, limit);
    }
  }

  lemma CarveGrown(h: Layout, g: Layout, align: nat, need: nat, sz: nat, limit: nat)
    requires g.Valid() && StackAbove(g, limit) && TopIsFree(g)
    requires g.LiveTiles() == h.LiveTiles() && g.start == h.start
    requires PowerOfTwo(align) && FitsRequest(need, sz)
    requires var size := Before(Last(g.tiles).addr, align) + need;
             Last(g.tiles).size < size && CanAlloc(limit, g.end, size - Last(g.tiles).size)
    ensures var grown := GrowTop(g, Before(Last(g.tiles).addr, align) + need);
            var (h', p) := Carve(grown, |g.tiles| - 1, align, need, sz);
            AllocatesAligned(h, h', p, align, sz, limit)
  {
    hide Carve, GrowTop, Before;
    var t := Last(g.tiles);
    var size := Before(t.addr, align) + need;
    TopAtEnd(g);
    CanAllocBelowGap(limit, g.end, size - t.size);
    TopBefore(g, align);
    WordSum(Before(t.addr, align), need);
    TopGrows(g, size);
    CarveTop(h, GrowTop(g, size), align, need, sz, limit);
  }

  lemma WordSum(x: nat, y: nat)
    requires x % WORD == 0 && y % WORD == 0
    ensures (x + y) % WORD == 0
  {
  }

  lemma TopBefore(g: Layout, align: nat)
    requires g.Valid() && TopIsFree(g) && PowerOfTwo(align)
    ensures Before(Last(g.tiles).addr, align) % WORD == 0
  {
    AllApart(g);
    BeforeAligns(Last(g.tiles).addr, align);
  }

  lemma CarveFound(h: Layout, i: nat, align: nat, need: nat, sz: nat, limit: nat)
    requires h.Valid() && StackAbove(h, limit) && PowerOfTwo(align) && FitsRequest(need, sz)
    requires i < |h.tiles| && h.tiles[i].Free?
    requires h.tiles[i].size >= need + Before(h.tiles[i].addr, align)
    ensures var (h', p) := Carve(h, i, align, need, sz);
            AllocatesAligned(h, h', p, align, sz, limit)
  {
    CarveKeeps(h, i, align, need, sz);
  }

  lemma AppendAndCarve(h: Layout, align: nat, need: nat, sz: nat, limit: nat)
    requires h.Valid() && StackAbove(h, limit) && !TopIsFree(h)
    requires PowerOfTwo(align) && FitsRequest(need, sz)
    requires CanAlloc(limit, h.end, need + MAlign(h.end + WORD, align))
    ensures var g := GrowTop(h, need + MAlign(h.end + WORD, align));
            TopIsFree(g) &&
            var (h', p) := GrowAndCarve(g, align, need, sz, limit);
            AllocatesAligned(h, h', p, align, sz, limit)
  {
    hide GrowAndCarve, Carve, MAlign, CanAlloc, AllocatesAligned, PowerOfTwo;
    var size := need + MAlign(h.end + WORD, align);
    AllApart(h);
    MAlignWords(h.end + WORD, align);
    WordSum(need, MAlign(h.end + WORD, align));
    CanAllocBelowGap(limit, h.end, size);
    TopGrows(h, size);
    GrowAndCarveKeeps(h, GrowTop(h, size), align, need, sz, limit);
  }

  // memalign allocates at a multiple of align, returns NULL when align is not a power
  // of two, and keeps the heap well formed even when it fails.
  lemma MemalignKeeps(h: Layout, align: nat, sz: nat, limit: nat)
    requires h.Valid() && StackAbove(h, limit) && sz <= MAX_REQUEST
    ensures var (h', p) := Memalign(h, align, sz, limit);
            AllocatesAligned(h, h', p, align, sz, limit) && (p != 0 ==> p % align == 0)
    ensures !PowerOfTwo(align) ==> Memalign(h, align, sz, limit) == (h, 0)
  {
    hide GrowAndCarve, Carve, GrowTop, RealSize, MAlign, CanAlloc;
    var r := Memalign(h, align, sz, limit);
    if PowerOfTwo(align) {
      var need := RealSize(sz);
      RealSizeExact(sz);
      var i := FirstAligned(h.tiles, need, align, 0);
      var size := need + MAlign(h.end + WORD, align);
      if i < |h.tiles| {
        CarveFound(h, i, align, need, sz, limit);
        assert r == Carve(h, i, align, need, sz);
      } else if TopIsFree(h) {
        GrowAndCarveKeeps(h, h, align, need, sz, limit);
        assert r == GrowAndCarve(h, align, need, sz, limit);
      } else if CanAlloc(limit, h.end, size) {
        AppendAndCarve(h, align, need, sz, limit);
        assert r == GrowAndCarve(GrowTop(h, size), align, need, sz, limit);
      } else {
        assert r == (h, 0);
      }
      RemIsMod(r.1, align);
    }
  }

  // Block x is the first free one with room for the request behind its own space.
  ghost predicate AlignedFirst(h: Layout, x: nat, align: nat, need: nat)
    requires align > 0
  {
    && x < |h.tiles| && h.tiles[x].Free? && h.tiles[x].size >= need + Before(h.tiles[x].addr, align)
    && NoneAlignedBelow(h, x, align, need)
  }

  ghost predicate NoneAlignedBelow(h: Layout, x: nat, align: nat, need: nat)
    requires align > 0 && x <= |h.tiles|
  {
    forall y | 0 <= y < x :: h.tiles[y].Free? ==> h.tiles[y].size < need + Before(h.tiles[y].addr, align)
  }

  // Where memalign puts the block: as far down as the search allows, in the first free block
  // with room or at the top; it fails only where neither has room, and keeps no more than it must.
  lemma MemalignPlaces(h: Layout, align: nat, sz: nat, limit: nat)
    requires h.Valid() && StackAbove(h, limit) && sz <= MAX_REQUEST && PowerOfTwo(align)
    ensures var (h', p) := Memalign(h, align, sz, limit);
            var need, n := RealSize(sz), |h.tiles|;
            var size := Before(Top(h), align) + need;
            && (p == 0 <==> NoneAlignedBelow(h, n, align, need) && Top(h) + size + GAP > limit)
            && (forall x: nat | AlignedFirst(h, x, align, need) ::
                  p == h.tiles[x].addr + Before(h.tiles[x].addr, align) + WORD && h'.end == h.end)
            && (NoneAlignedBelow(h, n, align, need) && p != 0 ==>
                  p == Top(h) + Before(Top(h), align) + WORD && h'.end == Top(h) + size)
            && (p != 0 ==> Frugal(h', p, ENTRY + 1))
            && var first := need + MAlign(h.end + WORD, align);
               (p == 0 ==> if !TopIsFree(h) && h.end + first + GAP <= limit then FreeAdded(h, h', first) else h' == h)
  {
    hide GrowAndCarve, Carve, RealSize, CanAlloc, Frugal, FitsRequest, Before, MAlign, Rem, FreeAdded;
    var need := RealSize(sz);
    var i := FirstAligned(h.tiles, need, align, 0);
    RealSizeExact(sz);
    if i < |h.tiles| {
      CarveKeeps(h, i, align, need, sz);
      CarveFrugal(h, i, align, sz);
    } else if TopIsFree(h) {
      TopPlaces(h, align, sz, limit);
    } else {
      EndPlaces(h, align, sz, limit);
    }
  }

  // A free block of this size at the end is all that is new.
  ghost predicate FreeAdded(h: Layout, h': Layout, size: nat)
  {
    h' == Layout(h.start, h.end + size, h.tiles + [Free(h.end, size)])
  }

  // A free top block that is too small.
  lemma TopPlaces(h: Layout, align: nat, sz: nat, limit: nat)
    requires h.Valid() && StackAbove(h, limit) && sz <= MAX_REQUEST && PowerOfTwo(align) && TopIsFree(h)
    requires Last(h.tiles).size < Before(Top(h), align) + RealSize(sz)
    ensures var (h', p) := GrowAndCarve(h, align, RealSize(sz), sz, limit);
            var size := Before(Top(h), align) + RealSize(sz);
            && (p == 0 <==> Top(h) + size + GAP > limit)
            && (p != 0 ==> p == Top(h) + Before(Top(h), align) + WORD && h'.end == Top(h) + size)
            && (p != 0 ==> Frugal(h', p, ENTRY + 1)) && (p == 0 ==> h' == h)
  {
    hide Carve, RealSize, CanAlloc, Frugal, FitsRequest, Before, GrowTop;
    var need := RealSize(sz);
    var size := Before(Top(h), align) + need;
    RealSizeExact(sz);
    TopAtEnd(h);
    CanAllocBelowGap(limit, h.end, size - Last(h.tiles).size);
    if CanAlloc(limit, h.end, size - Last(h.tiles).size) {
      var g := GrowTop(h, size);
      TopBefore(h, align);
      TopSize(Before(Top(h), align), sz);
      TopGrows(h, size);
      CarveKeeps(g, |g.tiles| - 1, align, need, sz);
      CarveFrugal(g, |g.tiles| - 1, align, sz);
    }
  }

  lemma TopSize(before: nat, sz: nat)
    requires before % WORD == 0 && sz <= MAX_REQUEST
    ensures GoodTile(Free(0, before + RealSize(sz)))
  {
    hide RealSize;
    RealSizeExact(sz);
    WordSum(before, RealSize(sz));
  }

  lemma AddedAtEnd(h: Layout, size: nat)
    requires !TopIsFree(h)
    ensures FreeAdded(h, GrowTop(h, size), size)
  {
  }

  // A live block at the end: a free block is added, which need not be large enough for the
  // space that the alignment takes in front.
  lemma EndPlaces(h: Layout, align: nat, sz: nat, limit: nat)
    requires h.Valid() && StackAbove(h, limit) && sz <= MAX_REQUEST && PowerOfTwo(align) && !TopIsFree(h)
    ensures var need := RealSize(sz);
            var first := need + MAlign(h.end + WORD, align);
            var size := Before(h.end, align) + need;
            && first <= size
            && (CanAlloc(limit, h.end, first) <==> h.end + first + GAP <= limit)
            && (CanAlloc(limit, h.end, first) ==>
                  TopIsFree(GrowTop(h, first)) &&
                  var (h', p) := GrowAndCarve(GrowTop(h, first), align, need, sz, limit);
                  && (p == 0 <==> h.end + size + GAP > limit)
                  && (p != 0 ==> p == h.end + Before(h.end, align) + WORD && h'.end == h.end + size)
                  && (p != 0 ==> Frugal(h', p, ENTRY + 1)) && (p == 0 ==> FreeAdded(h, h', first)))
  {
    hide GrowAndCarve, Carve, RealSize, CanAlloc, Frugal, FitsRequest, Before, MAlign, Rem, GrowTop;
    var need := RealSize(sz);
    var first := need + MAlign(h.end + WORD, align);
    AllApart(h);
    BeforeAligns(h.end, align);
    MAlignLeast(h.end + WORD, align, Before(h.end, align));
    CanAllocBelowGap(limit, h.end, first);
    if CanAlloc(limit, h.end, first) {
      var g := GrowTop(h, first);
      MAlignWords(h.end + WORD, align);
      TopSize(MAlign(h.end + WORD, align), sz);
      TopGrows(h, first);
      AddedAtEnd(h, first);
      if first < Before(h.end, align) + need {
        TopPlaces(g, align, sz, limit);
      } else {
        EnoughPlaces(g, align, sz, limit);
      }
    }
  }

  // A free top block that is large enough.
  lemma EnoughPlaces(g: Layout, align: nat, sz: nat, limit: nat)
    requires g.Valid() && StackAbove(g, limit) && sz <= MAX_REQUEST && PowerOfTwo(align) && TopIsFree(g)
    requires Last(g.tiles).size >= Before(Top(g), align) + RealSize(sz)
    ensures var (h', p) := GrowAndCarve(g, align, RealSize(sz), sz, limit);
            && p == Top(g) + Before(Top(g), align) + WORD && h'.end == g.end && Frugal(h', p, ENTRY + 1)
  {
    hide Carve, RealSize, Frugal, FitsRequest, Before;
    RealSizeExact(sz);
    CarveKeeps(g, |g.tiles| - 1, align, RealSize(sz), sz);
    CarveFrugal(g, |g.tiles| - 1, align, sz);
  }
}
