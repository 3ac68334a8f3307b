/**
 How a heap layout is stored in memory: a size word at the start of every block, and
 a list threaded through the second word of the free ones. A link is the address of
 the word that holds it, be it the list head or the `next` field of a free block.
 */
module FreeList {
  import opened FlatMemory
  import opened HeapLayout

  // The address of the first free block, 0 if there is none.
  function FirstFree(ts: seq<Tile>): nat
  {
    if ts == [] then 0 else if ts[0].Free? then ts[0].addr else FirstFree(ts[1..])
  }

  ghost predicate HeaderOk(m: Memory, ts: seq<Tile>, i: nat)
    requires i < |ts|
  {
    && ts[i].addr + ENTRY <= |m|
    && Load(m, ts[i].addr) == ts[i].size
    && (ts[i].Free? ==> Load(m, ts[i].addr + WORD) == FirstFree(ts[i + 1..]))
  }

  ghost predicate Linked(m: Memory, head: nat, ts: seq<Tile>)
  {
    && head + WORD <= |m| && Load(m, head) == FirstFree(ts)
    && forall i: nat {:trigger HeaderOk(m, ts, i)} | i < |ts| :: HeaderOk(m, ts, i)
  }

  // The position of a walk along the list: `link` is the word that leads to the first
  // free block from tile k on.
  ghost predicate Cursor(head: nat, ts: seq<Tile>, k: nat, link: nat)
  {
    && k <= |ts|
    && if k == 0 then link == head else ts[k - 1].Free? && link == ts[k - 1].addr + WORD
  }

  // Tiles k..i are live.
  ghost predicate NoFree(ts: seq<Tile>, k: nat, i: nat)
  {
    k <= i <= |ts| && forall x | k <= x < i :: ts[x].Live?
  }

  // The tile a walk at k comes to next.
  function NextFree(ts: seq<Tile>, k: nat): (i: nat)
    requires k <= |ts|
    ensures NoFree(ts, k, i)
    ensures i < |ts| ==> ts[i].Free?
    decreases |ts| - k
  {
    if k == |ts| || ts[k].Free? then k else NextFree(ts, k + 1)
  }

  lemma {:induction false} FirstFreeIs(ts: seq<Tile>, k: nat, i: nat)
    requires NoFree(ts, k, i) && (i < |ts| ==> ts[i].Free?)
    ensures FirstFree(ts[k..]) == if i < |ts| then ts[i].addr else 0
    decreases i - k
  {
    if k < i {
      assert ts[k..][1..] == ts[k + 1..];
      FirstFreeIs(ts, k + 1, i);
    }
  }

  // The word at a cursor holds the address of the next free tile.
  lemma LinkHolds(m: Memory, head: nat, h: Layout, k: nat, link: nat)
    requires h.Valid() && Linked(m, head, h.tiles) && Cursor(head, h.tiles, k, link)
    ensures link + WORD <= |m|
    ensures var i := NextFree(h.tiles, k);
            && Load(m, link) == (if i < |h.tiles| then h.tiles[i].addr else 0)
            && (i < |h.tiles| ==> h.tiles[i].addr > 0)
  {
    var i := NextFree(h.tiles, k);
    FirstFreeIs(h.tiles, k, i);
    AllApart(h);
    if k > 0 {
      assert HeaderOk(m, h.tiles, k - 1);
    } else {
      assert h.tiles[0..] == h.tiles;
    }
  }

  // Memory unchanged outside one link word and one window of addresses.
  ghost predicate SameOutside(m: Memory, m': Memory, link: nat, lo: nat, hi: nat)
  {
    && |m'| == |m|
    && forall x: nat | x < |m| && !(link <= x < link + WORD) && !(lo <= x < hi) :: m'[x] == m[x]
  }

  lemma StoreInside(m0: Memory, m: Memory, a: nat, v: nat, link: nat, lo: nat, hi: nat)
    requires SameOutside(m0, m, link, lo, hi) && a + WORD <= |m| && v < SIZE_MOD
    requires a == link || (lo <= a && a + WORD <= hi)
    ensures SameOutside(m0, Store(m, a, v), link, lo, hi)
  {
    StoreEffect(m, a, v);
    var m' := Store(m, a, v);
    forall x: nat | x < |m| && !(link <= x < link + WORD) && !(lo <= x < hi)
      ensures m'[x] == m0[x]
    {
      assert m'[x] == m[x];
    }
  }

  lemma LoadOutside(m: Memory, m': Memory, link: nat, lo: nat, hi: nat, a: nat)
    requires SameOutside(m, m', link, lo, hi) && a + WORD <= |m|
    requires a + WORD <= link || link + WORD <= a
    requires a + WORD <= lo || hi <= a
    ensures Load(m', a) == Load(m, a)
  {
    assert m'[a..a + WORD] == m[a..a + WORD];
  }

  // Every tile outside the window keeps its header, except for the link that leads
  // into the window, which must have been redirected.
  lemma Relink(m: Memory, m': Memory, head: nat, h: Layout, i: nat, j: nat, mid: seq<Tile>,
               end': nat, k: nat, link: nat)
    requires CanSplice(h, i, j, mid, end') && Linked(m, head, h.tiles) && head + WORD <= h.start
    requires Cursor(head, h.tiles, k, link) && NoFree(h.tiles, k, i)
    requires SameOutside(m, m', link, h.Edge(i), Last(mid).addr + Last(mid).size)
    requires var ts' := h.Splice(i, j, mid, end').tiles;
             && link + WORD <= |m'| && Load(m', link) == FirstFree(ts'[k..])
             && forall y: nat {:trigger HeaderOk(m', ts', y)} | i <= y < i + |mid| :: HeaderOk(m', ts', y)
    ensures Linked(m', head, h.Splice(i, j, mid, end').tiles)
  {
    hide Load, FirstFree, HeaderOk, Cursor;
    var ts' := h.Splice(i, j, mid, end').tiles;
    RelinkHead(m, m', head, h, i, j, mid, end', k, link);
    forall x: nat {:trigger HeaderOk(m', ts', x)} | x < |ts'|
      ensures HeaderOk(m', ts', x)
    {
      if x < i {
        RelinkBefore(m, m', head, h, i, j, mid, end', k, link, x);
      } else if x >= i + |mid| {
        RelinkAfter(m, m', head, h, i, j, mid, end', k, link, x - i - |mid| + j);
      }
    }
  }

  // Where the window of a splice lies.
  lemma WindowEdges(h: Layout, i: nat, j: nat, mid: seq<Tile>, end': nat)
    requires CanSplice(h, i, j, mid, end')
    ensures h.start <= h.Edge(i)
    ensures forall x: nat | x < i :: h.tiles[x].addr + h.tiles[x].size <= h.Edge(i) && h.tiles[x].addr >= h.start
    ensures forall x: nat | j <= x < |h.tiles| :: Last(mid).addr + Last(mid).size <= h.tiles[x].addr
    ensures forall x: nat | x < |h.tiles| :: h.tiles[x].size >= ENTRY
  {
    AllApart(h);
    forall x: nat | x < |h.tiles|
      ensures h.tiles[x].size >= ENTRY
    {
      assert h.TileOk(x);
    }
  }

  lemma RelinkHead(m: Memory, m': Memory, head: nat, h: Layout, i: nat, j: nat, mid: seq<Tile>,
                   end': nat, k: nat, link: nat)
    requires CanSplice(h, i, j, mid, end') && Linked(m, head, h.tiles) && head + WORD <= h.start
    requires Cursor(head, h.tiles, k, link) && NoFree(h.tiles, k, i)
    requires SameOutside(m, m', link, h.Edge(i), Last(mid).addr + Last(mid).size)
    requires var ts' := h.Splice(i, j, mid, end').tiles;
             link + WORD <= |m'| && Load(m', link) == FirstFree(ts'[k..])
    ensures Load(m', head) == FirstFree(h.Splice(i, j, mid, end').tiles)
  {
    var ts' := h.Splice(i, j, mid, end').tiles;
    WindowEdges(h, i, j, mid, end');
    assert ts'[0..] == ts' && h.tiles[0..] == h.tiles;
    if k > 0 {
      LoadOutside(m, m', link, h.Edge(i), Last(mid).addr + Last(mid).size, head);
      SameNext(h.tiles, ts', 0, k);
    }
  }

  // A free tile before position k is found alike in two lists that agree up to k.
  lemma SameNext(ts: seq<Tile>, ts': seq<Tile>, x: nat, k: nat)
    requires x < k <= |ts| && k <= |ts'| && ts[k - 1].Free?
    requires forall y | x <= y < k :: ts[y] == ts'[y]
    ensures FirstFree(ts[x..]) == FirstFree(ts'[x..])
  {
    var r := NextFree(ts, x);
    assert r <= k - 1;
    FirstFreeIs(ts, x, r);
    FirstFreeIs(ts', x, r);
  }

  lemma FreeBefore(ts: seq<Tile>, k: nat, i: nat, x: nat)
    requires NoFree(ts, k, i) && x < i && ts[x].Free?
    ensures x < k
  {
  }

  lemma RelinkBefore(m: Memory, m': Memory, head: nat, h: Layout, i: nat, j: nat, mid: seq<Tile>,
                     end': nat, k: nat, link: nat, x: nat)
    requires CanSplice(h, i, j, mid, end') && Linked(m, head, h.tiles) && head + WORD <= h.start
    requires Cursor(head, h.tiles, k, link) && NoFree(h.tiles, k, i)
    requires SameOutside(m, m', link, h.Edge(i), Last(mid).addr + Last(mid).size)
    requires var ts' := h.Splice(i, j, mid, end').tiles;
             link + WORD <= |m'| && Load(m', link) == FirstFree(ts'[k..])
    requires x < i
    ensures HeaderOk(m', h.Splice(i, j, mid, end').tiles, x)
  {
    hide Load, FirstFree;
    var ts' := h.Splice(i, j, mid, end').tiles;
    var hi := Last(mid).addr + Last(mid).size;
    WindowEdges(h, i, j, mid, end');
    AllApart(h);
    assert HeaderOk(m, h.tiles, x);
    LoadOutside(m, m', link, h.Edge(i), hi, h.tiles[x].addr);
    if h.tiles[x].Free? && x + 1 != k {
      FreeBefore(h.tiles, k, i, x);
      LoadOutside(m, m', link, h.Edge(i), hi, h.tiles[x].addr + WORD);
      SameNext(h.tiles, ts', x + 1, k);
    }
  }

  lemma RelinkAfter(m: Memory, m': Memory, head: nat, h: Layout, i: nat, j: nat, mid: seq<Tile>,
                    end': nat, k: nat, link: nat, x: nat)
    requires CanSplice(h, i, j, mid, end') && Linked(m, head, h.tiles) && head + WORD <= h.start
    requires Cursor(head, h.tiles, k, link) && NoFree(h.tiles, k, i)
    requires SameOutside(m, m', link, h.Edge(i), Last(mid).addr + Last(mid).size)
    requires j <= x < |h.tiles|
    ensures HeaderOk(m', h.Splice(i, j, mid, end').tiles, x - j + i + |mid|)
  {
    hide Load, FirstFree;
    var ts' := h.Splice(i, j, mid, end').tiles;
    var hi := Last(mid).addr + Last(mid).size;
    var x' := x - j + i + |mid|;
    WindowEdges(h, i, j, mid, end');
    AllApart(h);
    assert HeaderOk(m, h.tiles, x);
    SpliceAt(h, i, j, mid, end', x');
    LoadOutside(m, m', link, h.Edge(i), hi, h.tiles[x].addr);
    LoadOutside(m, m', link, h.Edge(i), hi, h.tiles[x].addr + WORD);
    assert ts'[x' + 1..] == h.tiles[x + 1..];
  }

  // ----- Installing new tiles -----

  // Tile y of mid has its header in place; `rest` follows mid.
  ghost predicate Installed(m: Memory, mid: seq<Tile>, rest: seq<Tile>, y: nat)
    requires y < |mid|
  {
    && mid[y].addr + ENTRY <= |m|
    && Load(m, mid[y].addr) == mid[y].size
    && (mid[y].Free? ==> Load(m, mid[y].addr + WORD) == FirstFree(mid[y + 1..] + rest))
  }

  lemma FirstFreeCons(t: Tile, s: seq<Tile>)
    ensures FirstFree([t] + s) == if t.Free? then t.addr else FirstFree(s)
  {
    assert ([t] + s)[1..] == s;
  }

  lemma {:induction false} FirstFreeSkip(ts: seq<Tile>, k: nat, i: nat)
    requires NoFree(ts, k, i)
    ensures FirstFree(ts[k..]) == FirstFree(ts[i..])
    decreases i - k
  {
    if k < i {
      assert ts[k..] == [ts[k]] + ts[k + 1..];
      FirstFreeCons(ts[k], ts[k + 1..]);
      FirstFreeSkip(ts, k + 1, i);
    }
  }

  lemma SpliceSuffix(h: Layout, i: nat, j: nat, mid: seq<Tile>, end': nat, y: nat)
    requires i <= j <= |h.tiles| && y < |mid|
    ensures var ts' := h.Splice(i, j, mid, end').tiles;
            && i + y < |ts'| && ts'[i + y] == mid[y]
            && ts'[i + y + 1..] == mid[y + 1..] + h.tiles[j..]
  {
  }

  // The list is intact once the new tiles have their headers and the link leads to them.
  lemma Install(m: Memory, m': Memory, head: nat, h: Layout, i: nat, j: nat, mid: seq<Tile>,
                end': nat, k: nat, link: nat)
    requires CanSplice(h, i, j, mid, end') && Linked(m, head, h.tiles) && head + WORD <= h.start
    requires Cursor(head, h.tiles, k, link) && NoFree(h.tiles, k, i)
    requires SameOutside(m, m', link, h.Edge(i), Last(mid).addr + Last(mid).size)
    requires link + WORD <= |m'| && Load(m', link) == FirstFree(mid + h.tiles[j..])
    requires forall y: nat {:trigger Installed(m', mid, h.tiles[j..], y)} | y < |mid| ::
               Installed(m', mid, h.tiles[j..], y)
    ensures Linked(m', head, h.Splice(i, j, mid, end').tiles)
  {
    hide Load, FirstFree, SameOutside, Installed, HeaderOk, Linked, Cursor;
    InstallLink(m', h, i, j, mid, end', k, link);
    forall x: nat {:trigger HeaderOk(m', h.Splice(i, j, mid, end').tiles, x)} | i <= x < i + |mid|
      ensures HeaderOk(m', h.Splice(i, j, mid, end').tiles, x)
    {
      InstallHeader(m', h, i, j, mid, end', x - i);
    }
    Relink(m, m', head, h, i, j, mid, end', k, link);
  }

  lemma InstallLink(m': Memory, h: Layout, i: nat, j: nat, mid: seq<Tile>, end': nat, k: nat, link: nat)
    requires i <= j <= |h.tiles| && NoFree(h.tiles, k, i)
    requires link + WORD <= |m'| && Load(m', link) == FirstFree(mid + h.tiles[j..])
    ensures Load(m', link) == FirstFree(h.Splice(i, j, mid, end').tiles[k..])
  {
    var ts' := h.Splice(i, j, mid, end').tiles;
    assert NoFree(ts', k, i);
    FirstFreeSkip(ts', k, i);
    assert ts'[i..] == mid + h.tiles[j..];
  }

  lemma InstallHeader(m': Memory, h: Layout, i: nat, j: nat, mid: seq<Tile>, end': nat, y: nat)
    requires i <= j <= |h.tiles| && y < |mid| && Installed(m', mid, h.tiles[j..], y)
    ensures var ts' := h.Splice(i, j, mid, end').tiles;
            i + y < |ts'| && HeaderOk(m', ts', i + y)
  {
    SpliceSuffix(h, i, j, mid, end', y);
  }
}
