/**
 Programs on the allocator in raw memory: calls of its four entry points mixed with the
 program's own reads and writes of the blocks it holds. The reference is a store without
 addresses to manage, which only remembers the bytes written into live blocks.
 */
module ProgramRuns {
  import opened FlatMemory
  import opened HeapLayout
  import opened ListUpdates
  import opened FreeList
  import opened AllocatorSpec
  import opened AllocatorRuns
  import opened TinyMalloc
  import AlignedSpec

  datatype Event =
    | Do(c: CallAt)
    | Write(at: nat, v: Byte)
    | Read(at: nat)

  // The heap layout, and the bytes of live blocks that the program has put there.
  datatype World = World(h: Layout, data: map<nat, Byte>)

  predicate Payload(t: Tile, x: nat)
  {
    t.addr + WORD <= x < t.addr + t.size
  }

  ghost predicate InLiveBlock(h: Layout, x: nat)
  {
    exists t :: t in h.LiveTiles() && Payload(t, x)
  }

  // What the program may do: call as callers may, from a stack frame in memory, and use the
  // blocks it holds.
  ghost predicate Allowed(w: World, e: Event, size: nat)
  {
    match e
    case Do(c) => Legal(w.h, c) && c.limit <= size
    case Write(at, _) => InLiveBlock(w.h, at)
    case Read(at) => InLiveBlock(w.h, at)
  }

  // The pointer that a call returns.
  function Pointer(h: Layout, c: CallAt): nat
    requires Legal(h, c)
  {
    match c.call
    case Malloc(sz) => AllocatorSpec.Malloc(h, sz, c.limit).1
    case Free(p) => 0
    case Realloc(p, sz) =>
      if p == 0 then AllocatorSpec.Malloc(h, sz, c.limit).1
      else AllocatorSpec.Realloc(h, BlockOf(h, p), sz, c.limit).1
    case Memalign(align, sz) => AlignedSpec.Memalign(h, align, sz, c.limit).1
  }

  function Without(data: map<nat, Byte>, t: Tile): map<nat, Byte>
  {
    map x | x in data && !Payload(t, x) :: data[x]
  }

  // Where in block t the byte at x comes from, when its payload moves to q.
  function Origin(t: Tile, q: nat, x: nat): int
  {
    t.addr + WORD + x - q
  }

  // The first n bytes of block t, at q.
  function MovedTo(data: map<nat, Byte>, t: Tile, q: nat, n: nat): map<nat, Byte>
  {
    map x: nat | q <= x < q + n && Origin(t, q, x) in data :: data[Origin(t, q, x)]
  }

  // A released block is forgotten, and a resized one keeps the bytes that both sizes have.
  function DataAfter(w: World, c: CallAt): map<nat, Byte>
    requires Legal(w.h, c)
  {
    match c.call
    case Free(p) => if p == 0 then w.data else Without(w.data, w.h.tiles[BlockOf(w.h, p)])
    case Realloc(p, sz) =>
      var q := Pointer(w.h, c);
      if p == 0 || q == 0 then w.data
      else
        var t := w.h.tiles[BlockOf(w.h, p)];
        if t.size < WORD then w.data
        else Without(w.data, t) + MovedTo(w.data, t, q, Min(t.size - WORD, sz))
    case _ => w.data
  }

  ghost function Next(w: World, e: Event, size: nat): World
    requires Allowed(w, e, size)
  {
    match e
    case Do(c) => World(Step(w.h, c), DataAfter(w, c))
    case Write(at, v) => World(w.h, w.data[at := v])
    case Read(_) => w
  }

  ghost predicate AllowedRun(w: World, events: seq<Event>, size: nat)
    decreases |events|
  {
    events != [] ==> Allowed(w, events[0], size) && AllowedRun(Next(w, events[0], size), events[1..], size)
  }

  ghost function After(w: World, events: seq<Event>, size: nat): World
    requires AllowedRun(w, events, size)
    decreases |events|
  {
    if events == [] then w else After(Next(w, events[0], size), events[1..], size)
  }

  // What the program sees: the pointer of a call, and the remembered byte of a read.
  ghost predicate Answers(w: World, e: Event, size: nat, r: nat)
    requires Allowed(w, e, size)
  {
    match e
    case Do(c) => r == Pointer(w.h, c)
    case Write(_, _) => r == 0
    case Read(at) => at in w.data ==> r == w.data[at]
  }

  ghost predicate Answered(w: World, events: seq<Event>, size: nat, rs: seq<nat>)
    requires AllowedRun(w, events, size)
    decreases |events|
  {
    && |rs| == |events|
    && (events != [] ==>
          && Answers(w, events[0], size, rs[0])
          && Answered(Next(w, events[0], size), events[1..], size, rs[1..]))
  }

  // Memory holds what the store remembers.
  ghost predicate Holds(m: Memory, w: World)
  {
    forall x | x in w.data :: x < |m| && m[x] == w.data[x] && InLiveBlock(w.h, x)
  }

  // ----- One call -----

  // The blocks of h that are still live, and the block that has taken the place of t.
  ghost predicate Succeeds(h: Layout, h': Layout, t: Tile, u: Tile)
  {
    && t in h.LiveTiles() && u.Live? && u in h'.LiveTiles() && u.size >= u.request + WORD
    && h.LiveTiles() - {t} <= h'.LiveTiles()
  }

  lemma MoreLive(m: Memory, m': Memory, head: nat, h: Layout, h': Layout, data: map<nat, Byte>)
    requires KeepsData(m, m', head, h, h') && h.LiveTiles() <= h'.LiveTiles() && Holds(m, World(h, data))
    ensures Holds(m', World(h', data))
  {
    hide LiveOf;
  }

  lemma OneFewer(m: Memory, m': Memory, head: nat, h: Layout, h': Layout, data: map<nat, Byte>, t: Tile)
    requires KeepsData(m, m', head, h, h') && h.LiveTiles() - {t} <= h'.LiveTiles() && Holds(m, World(h, data))
    ensures Holds(m', World(h', Without(data, t)))
  {
    hide LiveOf;
  }

  lemma Replaced(m: Memory, m': Memory, head: nat, h: Layout, h': Layout, data: map<nat, Byte>, t: Tile, u: Tile,
                 n: nat)
    requires KeepsData(m, m', head, h, h') && Succeeds(h, h', t, u) && Holds(m, World(h, data))
    requires n <= u.request && SameBytes(m, t.addr + WORD, m', u.addr + WORD, n)
    ensures Holds(m', World(h', Without(data, t) + MovedTo(data, t, u.addr + WORD, n)))
  {
    hide KeepsData, LiveOf, SameBytes, Without, MovedTo;
    OneFewer(m, m', head, h, h', data, t);
    MovedHolds(m, m', h, h', data, t, u, n);
  }

  lemma MovedHolds(m: Memory, m': Memory, h: Layout, h': Layout, data: map<nat, Byte>, t: Tile, u: Tile, n: nat)
    requires u.Live? && u in h'.LiveTiles() && n <= u.request && u.size >= u.request + WORD
    requires SameBytes(m, t.addr + WORD, m', u.addr + WORD, n) && Holds(m, World(h, data))
    ensures Holds(m', World(h', MovedTo(data, t, u.addr + WORD, n)))
  {
    hide LiveOf;
    var p, q := t.addr + WORD, u.addr + WORD;
    forall x | x in MovedTo(data, t, q, n)
      ensures x < |m'| && m'[x] == data[Origin(t, q, x)] && InLiveBlock(h', x)
    {
      assert m'[q..q + n][x - q] == m[p..p + n][x - q];
      assert Payload(u, x);
    }
  }

  lemma CallKeeps(m: Memory, m': Memory, head: nat, w: World, c: CallAt, size: nat)
    requires w.h.Valid() && Legal(w.h, c) && c.limit <= size && Holds(m, w)
    requires KeepsData(m, m', head, w.h, Step(w.h, c))
    requires c.call.Realloc? && c.call.p != 0 && Pointer(w.h, c) != 0 ==>
               var t := w.h.tiles[BlockOf(w.h, c.call.p)];
               t.size >= WORD && SameBytes(m, c.call.p, m', Pointer(w.h, c), Min(t.size - WORD, c.call.sz))
    ensures Holds(m', Next(w, Do(c), size))
  {
    hide LiveOf, KeepsData, Holds, SameBytes, AllocatorSpec.Malloc, AllocatorSpec.Realloc, AlignedSpec.Memalign,
         Release, BlockOf, IsLive, Layout.Valid, Without, MovedTo;
    var h, h' := w.h, Step(w.h, c);
    match c.call {
      case Malloc(sz) =>
        MallocKeeps(h, sz, c.limit);
        MoreLive(m, m', head, h, h', w.data);
      case Free(p) =>
        if p == 0 {
          MoreLive(m, m', head, h, h', w.data);
        } else {
          ReleaseKeeps(h, BlockOf(h, p));
          OneFewer(m, m', head, h, h', w.data, h.tiles[BlockOf(h, p)]);
        }
      case Memalign(align, sz) =>
        AlignedSpec.MemalignKeeps(h, align, sz, c.limit);
        MoreLive(m, m', head, h, h', w.data);
      case Realloc(p, sz) =>
        if p == 0 {
          MallocKeeps(h, sz, c.limit);
          MoreLive(m, m', head, h, h', w.data);
        } else {
          var b := BlockOf(h, p);
          ReallocKeeps(h, b, sz, c.limit);
          InLive(h.tiles);
          if Pointer(h, c) == 0 {
            MoreLive(m, m', head, h, h', w.data);
          } else {
            var u: Tile :| Resizes(h, h', h.tiles[b], u, sz) && u.addr + WORD == Pointer(h, c);
            Replaced(m, m', head, h, h', w.data, h.tiles[b], u, Min(h.tiles[b].size - WORD, sz));
          }
        }
    }
  }

  // ----- One access -----

  // A byte of a live block lies in memory.
  lemma Readable(m: Memory, w: World, at: nat)
    requires w.h.Valid() && w.h.end <= |m| && InLiveBlock(w.h, at) && Holds(m, w)
    ensures at < |m| && (at in w.data ==> m[at] == w.data[at])
  {
    InLive(w.h.tiles);
    AllApart(w.h);
  }

  lemma WriteKeeps(m: Memory, head: nat, w: World, at: nat, v: Byte)
    requires w.h.Valid() && Linked(m, head, w.h.tiles) && head + WORD <= w.h.start && w.h.end <= |m| <= SIZE_MOD
    requires InLiveBlock(w.h, at) && Holds(m, w)
    ensures at < |m| && Linked(m[at := v], head, w.h.tiles)
    ensures Holds(m[at := v], World(w.h, w.data[at := v]))
  {
    hide LiveOf, Linked, Layout.Valid;
    Readable(m, w, at);
    InLive(w.h.tiles);
    var t :| t in w.h.LiveTiles() && Payload(t, at);
    var b: nat :| b < |w.h.tiles| && w.h.tiles[b] == t;
    PayloadWrite(m, m[at := v], head, w.h, b);
  }

  // ----- Runs -----

  // The call, on the allocator in memory.
  method Perform(heap: Heap, c: CallAt) returns (q: nat)
    requires heap.Valid() && Legal(heap.View(), c) && c.limit <= |heap.mem|
    modifies heap
    ensures heap.Valid() && heap.View() == Step(old(heap.View()), c) && q == Pointer(old(heap.View()), c)
    ensures KeepsData(old(heap.mem), heap.mem, heap.head, old(heap.View()), heap.View())
    ensures c.call.Realloc? && c.call.p != 0 && q != 0 ==>
              var t := old(heap.tiles)[BlockOf(old(heap.View()), c.call.p)];
              t.size >= WORD && SameBytes(old(heap.mem), c.call.p, heap.mem, q, Min(t.size - WORD, c.call.sz))
  {
    hide KeepsData, Linked, SameBytes, AllocatorSpec.Malloc, AllocatorSpec.Realloc, AlignedSpec.Memalign, Release,
         BlockOf, IsLive, Layout.Valid, PowerOfTwo, RealSize;
    match c.call {
      case Malloc(sz) => q := heap.Malloc(sz, c.limit);
      case Free(p) =>
        heap.Free(p);
        q := 0;
      case Realloc(p, sz) => q := heap.Realloc(p, sz, c.limit);
      case Memalign(align, sz) => q := heap.Memalign(align, sz, c.limit);
    }
  }

  // A program runs on the allocator as on the store: the same pointers, every byte read
  // back as it was written, and the layout of the heap that the calls alone determine.
  method RunProgram(heap: Heap, events: seq<Event>, ghost data: map<nat, Byte>) returns (rs: seq<nat>)
    requires heap.Valid() && Holds(heap.mem, World(heap.View(), data))
    requires AllowedRun(World(heap.View(), data), events, |heap.mem|)
    modifies heap
    ensures var w, size := World(old(heap.View()), data), |old(heap.mem)|;
            && heap.Valid() && |heap.mem| == size && Answered(w, events, size, rs)
            && heap.View() == After(w, events, size).h && Holds(heap.mem, After(w, events, size))
    decreases |events|
  {
    if events == [] {
      return [];
    }
    hide LiveOf, KeepsData, Holds, Linked, SameBytes, Step, Pointer, Legal, DataAfter, Layout.Valid;
    ghost var w := World(heap.View(), data);
    ghost var size := |heap.mem|;
    var r: nat := 0;
    ghost var m := heap.mem;
    match events[0] {
      case Do(c) =>
        r := Perform(heap, c);
        CallKeeps(m, heap.mem, heap.head, w, c, size);
      case Write(at, v) =>
        WriteKeeps(m, heap.head, w, at, v);
        heap.mem := heap.mem[at := v];
      case Read(at) =>
        Readable(m, w, at);
        r := heap.mem[at];
    }
    var rest := RunProgram(heap, events[1..], Next(w, events[0], size).data);
    rs := [r] + rest;
  }

  // ----- What the store says -----

  // A block that has been resized has, at its new place, every byte that both sizes cover.
  lemma ResizedBytes(w: World, c: CallAt, k: nat)
    requires w.h.Valid() && Legal(w.h, c) && c.call.Realloc? && c.call.p != 0 && Pointer(w.h, c) != 0
    requires var t := w.h.tiles[BlockOf(w.h, c.call.p)];
             k < c.call.sz && k + WORD < t.size && c.call.p + k in w.data
    ensures var q := Pointer(w.h, c);
            q + k in DataAfter(w, c) && DataAfter(w, c)[q + k] == w.data[c.call.p + k]
  {
    hide Pointer, BlockOf, IsLive, Layout.Valid, Without;
    var t := w.h.tiles[BlockOf(w.h, c.call.p)];
    var q := Pointer(w.h, c);
    var n := Min(t.size - WORD, c.call.sz);
    assert k < n && Origin(t, q, q + k) == c.call.p + k;
    assert q + k in MovedTo(w.data, t, q, n);
  }

  function Calls(events: seq<Event>): seq<CallAt>
  {
    if events == [] then []
    else (if events[0].Do? then [events[0].c] else []) + Calls(events[1..])
  }

  // The layout is that of the run of the calls alone, to which `RunKeeps` applies.
  lemma {:induction false} LayoutRun(w: World, events: seq<Event>, size: nat)
    requires AllowedRun(w, events, size)
    ensures LegalRun(w.h, Calls(events)) && After(w, events, size).h == Run(w.h, Calls(events))
    decreases |events|
  {
    if events != [] {
      hide Step, DataAfter, Legal;
      LayoutRun(Next(w, events[0], size), events[1..], size);
      if events[0].Do? {
        assert Calls(events)[1..] == Calls(events[1..]);
      } else {
        assert Calls(events) == Calls(events[1..]);
      }
    }
  }

  // The event neither writes byte x nor hands back the block at p.
  predicate LeavesAlone(e: Event, p: nat, x: nat)
  {
    match e
    case Do(c) => (c.call.Free? || c.call.Realloc?) ==> c.call.p != p
    case Write(at, _) => at != x
    case Read(_) => true
  }

  // Whatever else a program allocates, releases, resizes and writes, a byte it has written
  // keeps its value until it is written again or its own block is handed back.
  lemma {:induction false} Survives(w: World, events: seq<Event>, size: nat, t: Tile, x: nat)
    requires w.h.Valid() && AllowedRun(w, events, size)
    requires t in w.h.LiveTiles() && Payload(t, x) && x in w.data
    requires forall i | 0 <= i < |events| :: LeavesAlone(events[i], t.addr + WORD, x)
    ensures var w' := After(w, events, size);
            t in w'.h.LiveTiles() && x in w'.data && w'.data[x] == w.data[x]
    decreases |events|
  {
    if events != [] {
      hide Step, DataAfter, Legal, LiveOf, Layout.Valid, Payload;
      assert LeavesAlone(events[0], t.addr + WORD, x);
      match events[0] {
        case Do(c) =>
          StepKeeps(w.h, c);
          CallSurvives(w, c, t, x);
        case _ =>
      }
      Survives(Next(w, events[0], size), events[1..], size, t, x);
    }
  }

  lemma CallSurvives(w: World, c: CallAt, t: Tile, x: nat)
    requires w.h.Valid() && Legal(w.h, c) && t in w.h.LiveTiles() && Payload(t, x) && x in w.data
    requires (c.call.Free? || c.call.Realloc?) ==> c.call.p != t.addr + WORD
    ensures t in Step(w.h, c).LiveTiles() && x in DataAfter(w, c) && DataAfter(w, c)[x] == w.data[x]
  {
    hide LiveOf, AllocatorSpec.Malloc, AllocatorSpec.Realloc, AlignedSpec.Memalign, Release, BlockOf, IsLive,
         Layout.Valid, PowerOfTwo, RealSize;
    var h := w.h;
    LiveApart(h);
    InLive(h.tiles);
    match c.call {
      case Malloc(sz) => MallocKeeps(h, sz, c.limit);
      case Free(p) =>
        if p != 0 {
          ReleaseKeeps(h, BlockOf(h, p));
        }
      case Memalign(align, sz) => AlignedSpec.MemalignKeeps(h, align, sz, c.limit);
      case Realloc(p, sz) =>
        if p == 0 {
          MallocKeeps(h, sz, c.limit);
        } else {
          var b := BlockOf(h, p);
          ReallocKeeps(h, b, sz, c.limit);
          if Pointer(h, c) != 0 {
            var u: Tile :| Resizes(h, Step(h, c), h.tiles[b], u, sz) && u.addr + WORD == Pointer(h, c);
            LiveApart(Step(h, c));
          }
        }
    }
  }
}
