/**
 The demand pager of the virtual-memory test environment: page faults bring pages in and
 set the accessed and dirty bits, until the user program's call evicts everything.
 */
module PagerSpec {
  import opened Basics
  import opened PageFrames

  type Page = seq<bv8>

  // A leaf entry of the user page table: zero, or a frame with its A and D bits. Valid,
  // user, read, write and execute are set in every entry that is not zero.
  datatype Pte = Empty | Mapped(ppn: nat, a: bool, d: bool)

  // A pointer to an entry of freelist_nodes or of user_mapping.
  datatype Ptr = Null | Free(i: nat) | User(p: nat)

  datatype Node = Node(addr: nat, next: Ptr)

  datatype Kind = Fetch | Load | Store

  datatype Vm = Vm(ptes: seq<Pte>, user: seq<Node>, free: seq<Node>, head: Ptr, tail: Ptr, mem: map<nat, Page>)

  // The physical page that holds the initial contents of user page p.
  function Backing(p: nat): nat { DRAM_BASE / PGSIZE + p }

  // The address put in node k at boot, for a register started at r.
  function FrameAddr(r: nat, k: nat): nat { DRAM_BASE + (MAX_TEST_PAGES + Orbit(r, k)) * PGSIZE }

  function FramePpn(r: nat, k: nat): nat { DRAM_BASE / PGSIZE + MAX_TEST_PAGES + Orbit(r, k) }

  predicate PtrOk(q: Ptr)
  {
    match q
    case Null => true
    case Free(i) => i < MAX_TEST_PAGES
    case User(p) => p < MAX_TEST_PAGES
  }

  predicate Sized(vm: Vm)
  {
    |vm.ptes| == |vm.user| == |vm.free| == MAX_TEST_PAGES && PtrOk(vm.head) && PtrOk(vm.tail)
  }

  function Deref(vm: Vm, q: Ptr): Node
    requires Sized(vm) && PtrOk(q) && !q.Null?
  {
    if q.Free? then vm.free[q.i] else vm.user[q.p]
  }

  function SetNode(vm: Vm, q: Ptr, n: Node): Vm
    requires Sized(vm) && PtrOk(q) && !q.Null?
  {
    if q.Free? then vm.(free := vm.free[q.i := n]) else vm.(user := vm.user[q.p := n])
  }

  predicate UserAddress(addr: nat) { PGSIZE <= addr < MAX_TEST_PAGES * PGSIZE }

  // ----- Faults -----

  // The fault handler; none where it runs into an assertion or a dangling pointer.
  function Fault(vm: Vm, addr: nat, cause: Kind): Option<Vm>
    requires Sized(vm)
  {
    if !UserAddress(addr) then None
    else
      var p := addr / PGSIZE;
      match vm.ptes[p]
      case Mapped(ppn, a, d) =>
        if !a then Some(vm.(ptes := vm.ptes[p := Mapped(ppn, true, d)]))
        else if !d && cause == Store then Some(vm.(ptes := vm.ptes[p := Mapped(ppn, a, true)]))
        else None
      case Empty =>
        if vm.head.Null? || vm.user[p].addr != 0 then None else BringIn(vm, p)
  }

  // A free frame is taken and filled with the page's initial contents.
  function BringIn(vm: Vm, p: nat): Option<Vm>
    requires Sized(vm) && p < MAX_TEST_PAGES && !vm.head.Null?
  {
    var node := Deref(vm, vm.head);
    var ppn := node.addr / PGSIZE;
    if !PtrOk(node.next) || Backing(p) !in vm.mem then None
    else Some(Vm(vm.ptes[p := Mapped(ppn, false, false)], vm.user[p := node], vm.free,
                 node.next, if node.next == vm.tail then Null else vm.tail,
                 vm.mem[ppn := vm.mem[Backing(p)]]))
  }

  // ----- The hardware -----

  // Section 4.3.1 of the RISC-V Privileged Architecture 1.10, in the variant where software
  // sets the bits: a page fault unless the entry is valid and accessed, and for stores dirty.
  predicate Faults(pte: Pte, kind: Kind)
  {
    pte.Empty? || !pte.a || (kind == Store && !pte.d)
  }

  // What the user program sees at page p.
  function View(vm: Vm, p: nat): Page
    requires Sized(vm) && p < MAX_TEST_PAGES
  {
    var ppn := if vm.ptes[p].Empty? then Backing(p) else vm.ptes[p].ppn;
    if ppn in vm.mem then vm.mem[ppn] else []
  }

  // A store that goes through.
  function Stored(vm: Vm, p: nat, off: nat, v: bv8): Vm
    requires Sized(vm) && p < MAX_TEST_PAGES && vm.ptes[p].Mapped? && off < |View(vm, p)|
  {
    vm.(mem := vm.mem[vm.ptes[p].ppn := View(vm, p)[off := v]])
  }

  // ----- The invariant -----

  // Which node each mapped page has, in a pager that has handed out the first m nodes.
  ghost predicate Inv(vm: Vm, r: nat, image: seq<Page>, slot: map<nat, nat>)
  {
    && Sized(vm) && 1 <= r <= MAX_TEST_PAGES && |image| == MAX_TEST_PAGES
    && FreeList(vm, r, |slot|) && Slots(slot)
    && (forall p: nat | p < MAX_TEST_PAGES :: PageOk(vm, r, image, slot, p))
  }

  // The nodes still free are chained in order; the tail is lost when one is left.
  ghost predicate FreeList(vm: Vm, r: nat, m: nat)
    requires Sized(vm)
  {
    && m < MAX_TEST_PAGES && vm.head == Free(m)
    && vm.tail == (if m < MAX_TEST_PAGES - 1 then Free(MAX_TEST_PAGES - 1) else Null)
    && forall k: nat {:trigger vm.free[k]} | k < MAX_TEST_PAGES ::
         vm.free[k] == Node(FrameAddr(r, k), if k + 1 < MAX_TEST_PAGES then Free(k + 1) else Null)
  }

  ghost predicate Slots(slot: map<nat, nat>)
  {
    && (forall p | p in slot :: 1 <= p < MAX_TEST_PAGES && slot[p] < |slot|)
    && forall p, q | p in slot && q in slot && p != q :: slot[p] != slot[q]
  }

  // Page p is unmapped, or has a frame of its own; without D it still has its initial
  // contents, which are never written.
  ghost predicate PageOk(vm: Vm, r: nat, image: seq<Page>, slot: map<nat, nat>, p: nat)
    requires Sized(vm) && |image| == MAX_TEST_PAGES && p < MAX_TEST_PAGES
  {
    var pte := vm.ptes[p];
    && Backing(p) in vm.mem && vm.mem[Backing(p)] == image[p] && |image[p]| == PGSIZE
    && (pte.Mapped? <==> p in slot)
    && (pte.Empty? ==> vm.user[p].addr == 0)
    && (pte.Mapped? ==>
          && pte.ppn == FramePpn(r, slot[p]) && vm.user[p].addr == FrameAddr(r, slot[p])
          && pte.ppn in vm.mem && |vm.mem[pte.ppn]| == PGSIZE
          && (!pte.d ==> vm.mem[pte.ppn] == image[p])
          && (pte.d ==> pte.a))
  }

  lemma FrameNumbers(r: nat, k: nat)
    requires 1 <= r <= MAX_TEST_PAGES && k < MAX_TEST_PAGES
    ensures FrameAddr(r, k) / PGSIZE == FramePpn(r, k) && FrameAddr(r, k) > 0
    ensures FramePpn(r, k) > Backing(MAX_TEST_PAGES)
  {
    hide Orbit, Log;
    OrbitLog(r, k);
  }

  // Frames differ from each other and from all backing pages.
  lemma FramesApart(r: nat, j: nat, k: nat)
    requires 1 <= r <= MAX_TEST_PAGES && j < MAX_TEST_PAGES && k < MAX_TEST_PAGES && j != k
    ensures FramePpn(r, j) != FramePpn(r, k)
  {
    hide Orbit;
    if j < k {
      OrbitDistinct(r, j, k);
    } else {
      OrbitDistinct(r, k, j);
    }
  }

  // There are fewer user pages than frames.
  lemma RoomLeft(slot: map<nat, nat>, p: nat)
    requires Slots(slot) && 1 <= p < MAX_TEST_PAGES && p !in slot
    ensures |slot| + 1 < MAX_TEST_PAGES
    ensures |slot[p := |slot|]| == |slot| + 1
  {
    hide PagesBelow;
    var pages := PagesBelow(MAX_TEST_PAGES) - {p};
    PagesCount(MAX_TEST_PAGES);
    assert slot.Keys <= pages;
    Subset(slot.Keys, pages);
    assert pages + {p} == PagesBelow(MAX_TEST_PAGES);
    assert slot[p := |slot|].Keys == slot.Keys + {p};
    assert |slot.Keys + {p}| == |slot.Keys| + 1;
  }

  lemma Subset(s: set<nat>, t: set<nat>)
    requires s <= t
    ensures |s| <= |t|
  {
    assert t == s + (t - s);
    assert |t| == |s| + |t - s|;
  }

  // The pages 1, ..., n - 1.
  ghost function PagesBelow(n: nat): (s: set<nat>)
    ensures forall q :: q in s <==> 1 <= q < n
  {
    if n <= 1 then {} else PagesBelow(n - 1) + {n - 1}
  }

  lemma {:induction false} PagesCount(n: nat)
    requires n >= 1
    ensures |PagesBelow(n)| == n - 1
  {
    if n > 1 {
      PagesCount(n - 1);
    }
  }

  // ----- Every fault is handled -----

  // The steps still needed before an access goes through.
  function Rank(pte: Pte): nat
  {
    match pte case Empty => 3 case Mapped(_, a, d) => if !a then 2 else if !d then 1 else 0
  }

  ghost function SlotAfter(vm: Vm, slot: map<nat, nat>, p: nat): map<nat, nat>
    requires Sized(vm) && p < MAX_TEST_PAGES
  {
    if vm.ptes[p].Empty? then slot[p := |slot|] else slot
  }

  // A bit that is set stays set, and a page that is mapped keeps its frame.
  predicate Grows(pte: Pte, pte': Pte)
  {
    pte.Mapped? ==> pte'.Mapped? && pte'.ppn == pte.ppn && (pte.a ==> pte'.a) && (pte.d ==> pte'.d)
  }

  // No assertion fails, the invariant is kept, the access is one step nearer to going
  // through, and the user program sees no difference on any page.
  lemma FaultKeeps(vm: Vm, r: nat, image: seq<Page>, slot: map<nat, nat>, addr: nat, kind: Kind)
    requires Inv(vm, r, image, slot) && UserAddress(addr) && Faults(vm.ptes[addr / PGSIZE], kind)
    ensures var p := addr / PGSIZE; var o := Fault(vm, addr, kind);
            && o.Some? && Inv(o.value, r, image, SlotAfter(vm, slot, p))
            && Rank(o.value.ptes[p]) < Rank(vm.ptes[p])
            && (forall q: nat | q < MAX_TEST_PAGES ::
                  Grows(vm.ptes[q], o.value.ptes[q]) && (q != p ==> o.value.ptes[q] == vm.ptes[q]))
            && forall q: nat | q < MAX_TEST_PAGES :: View(o.value, q) == View(vm, q)
  {
    var p := addr / PGSIZE;
    assert PageOk(vm, r, image, slot, p);
    if vm.ptes[p].Empty? {
      BringInKeeps(vm, r, image, slot, p);
    } else {
      var vm' := Fault(vm, addr, kind).value;
      forall q: nat | q < MAX_TEST_PAGES
        ensures PageOk(vm', r, image, slot, q)
      {
        assert PageOk(vm, r, image, slot, q);
      }
      forall k: nat {:trigger vm'.free[k]} | k < MAX_TEST_PAGES
        ensures vm'.free[k] == Node(FrameAddr(r, k), if k + 1 < MAX_TEST_PAGES then Free(k + 1) else Null)
      {
        assert vm.free[k] == Node(FrameAddr(r, k), if k + 1 < MAX_TEST_PAGES then Free(k + 1) else Null);
      }
    }
  }

  // On a page that is mapped, the handler's assertion fails exactly when the hardware had no
  // reason for the fault; otherwise it sets one bit, the dirty bit for stores only.
  lemma FaultExact(vm: Vm, addr: nat, kind: Kind)
    requires Sized(vm) && UserAddress(addr) && vm.ptes[addr / PGSIZE].Mapped?
    ensures var p, o := addr / PGSIZE, Fault(vm, addr, kind);
            && (o.Some? <==> Faults(vm.ptes[p], kind))
            && (o.Some? && o.value.ptes[p].d != vm.ptes[p].d ==> kind == Store && o.value.ptes[p].a == vm.ptes[p].a)
  {
  }

  lemma BringInKeeps(vm: Vm, r: nat, image: seq<Page>, slot: map<nat, nat>, p: nat)
    requires Inv(vm, r, image, slot) && 1 <= p < MAX_TEST_PAGES && vm.ptes[p].Empty?
    ensures !vm.head.Null? && vm.user[p].addr == 0
    ensures var o := BringIn(vm, p);
            && o.Some? && Inv(o.value, r, image, slot[p := |slot|])
            && Rank(o.value.ptes[p]) < Rank(vm.ptes[p])
            && (forall q: nat | q < MAX_TEST_PAGES && q != p :: o.value.ptes[q] == vm.ptes[q])
            && forall q: nat | q < MAX_TEST_PAGES :: View(o.value, q) == View(vm, q)
  {
    var m := |slot|;
    assert PageOk(vm, r, image, slot, p);
    RoomLeft(slot, p);
    FrameNumbers(r, m);
    hide Orbit, FrameAddr, FramePpn;
    assert vm.free[m] == Node(FrameAddr(r, m), Free(m + 1));
    var slot' := slot[p := m];
    var vm' := BringIn(vm, p).value;
    forall q: nat | q < MAX_TEST_PAGES
      ensures PageOk(vm', r, image, slot', q) && View(vm', q) == View(vm, q)
    {
      assert PageOk(vm, r, image, slot, q);
      if q != p && q in slot {
        FramesApart(r, slot[q], m);
      }
    }
    forall k: nat {:trigger vm'.free[k]} | k < MAX_TEST_PAGES
      ensures vm'.free[k] == Node(FrameAddr(r, k), if k + 1 < MAX_TEST_PAGES then Free(k + 1) else Null)
    {
      assert vm.free[k] == Node(FrameAddr(r, k), if k + 1 < MAX_TEST_PAGES then Free(k + 1) else Null);
    }
  }

  // Two mapped pages never share a frame, and no frame is a backing page.
  lemma MappedApart(vm: Vm, r: nat, image: seq<Page>, slot: map<nat, nat>, p: nat, q: nat)
    requires Inv(vm, r, image, slot) && p < MAX_TEST_PAGES && q < MAX_TEST_PAGES && vm.ptes[p].Mapped?
    ensures vm.ptes[p].ppn != Backing(q)
    ensures p != q && vm.ptes[q].Mapped? ==> vm.ptes[p].ppn != vm.ptes[q].ppn
  {
    assert PageOk(vm, r, image, slot, p) && PageOk(vm, r, image, slot, q);
    FrameNumbers(r, slot[p]);
    hide Orbit;
    if p != q && vm.ptes[q].Mapped? {
      FramesApart(r, slot[p], slot[q]);
    }
  }

  // ----- Stores -----

  // A store changes what is seen at its own place and nowhere else.
  lemma StoreKeeps(vm: Vm, r: nat, image: seq<Page>, slot: map<nat, nat>, p: nat, off: nat, v: bv8)
    requires Inv(vm, r, image, slot) && p < MAX_TEST_PAGES && off < PGSIZE && !Faults(vm.ptes[p], Store)
    ensures |View(vm, p)| == PGSIZE && Inv(Stored(vm, p, off, v), r, image, slot)
    ensures View(Stored(vm, p, off, v), p) == View(vm, p)[off := v]
    ensures forall q: nat | q < MAX_TEST_PAGES && q != p :: View(Stored(vm, p, off, v), q) == View(vm, q)
  {
    assert PageOk(vm, r, image, slot, p);
    FrameNumbers(r, slot[p]);
    hide Orbit, FrameAddr, FramePpn;
    var vm' := Stored(vm, p, off, v);
    forall q: nat | q < MAX_TEST_PAGES
      ensures PageOk(vm', r, image, slot, q) && (q != p ==> View(vm', q) == View(vm, q))
    {
      assert PageOk(vm, r, image, slot, q);
      if q != p && q in slot {
        FramesApart(r, slot[q], slot[p]);
      }
    }
    forall k: nat {:trigger vm'.free[k]} | k < MAX_TEST_PAGES
      ensures vm'.free[k] == Node(FrameAddr(r, k), if k + 1 < MAX_TEST_PAGES then Free(k + 1) else Null)
    {
      assert vm.free[k] == Node(FrameAddr(r, k), if k + 1 < MAX_TEST_PAGES then Free(k + 1) else Null);
    }
  }

  // ----- Boot -----

  function Nodes(r: nat, n: nat): (s: seq<Node>)
    requires n <= MAX_TEST_PAGES
    ensures |s| == n && forall k: nat {:trigger s[k]} | k < n ::
              s[k] == Node(FrameAddr(r, k), if k + 1 < MAX_TEST_PAGES then Free(k + 1) else Null)
  {
    if n == 0 then []
    else Nodes(r, n - 1) + [Node(FrameAddr(r, n - 1), if n < MAX_TEST_PAGES then Free(n) else Null)]
  }

  function Booted(r: nat, mem: map<nat, Page>): Vm
  {
    Vm(seq(MAX_TEST_PAGES, _ => Empty), seq(MAX_TEST_PAGES, _ => Node(0, Null)), Nodes(r, MAX_TEST_PAGES),
       Free(0), Free(MAX_TEST_PAGES - 1), mem)
  }

  lemma BootedInv(r: nat, mem: map<nat, Page>, image: seq<Page>)
    requires 1 <= r <= MAX_TEST_PAGES && |image| == MAX_TEST_PAGES
    requires forall p: nat | p < MAX_TEST_PAGES ::
               Backing(p) in mem && mem[Backing(p)] == image[p] && |image[p]| == PGSIZE
    ensures Inv(Booted(r, mem), r, image, map[])
    ensures forall p: nat | p < MAX_TEST_PAGES :: View(Booted(r, mem), p) == image[p]
  {
    hide FrameAddr, Nodes;
  }

  // ----- Eviction -----

  // All pages brought in have been accessed.
  predicate AllAccessed(vm: Vm)
    requires Sized(vm)
  {
    forall p: nat | p < MAX_TEST_PAGES :: vm.ptes[p].Mapped? ==> vm.ptes[p].a
  }

  // The eviction of the page at addr; none where it runs into an assertion or a missing page.
  function Evict(vm: Vm, addr: nat): Option<Vm>
    requires Sized(vm)
  {
    if !UserAddress(addr) then None
    else
      var p := addr / PGSIZE;
      if vm.user[p].addr == 0 then Some(vm)
      else if vm.ptes[p].Empty? || !vm.ptes[p].a then None
      else if View(vm, p) != BackingPage(vm, p) && !vm.ptes[p].d then None
      else
        var ppn := vm.ptes[p].ppn;
        var mem := if View(vm, p) != BackingPage(vm, p) then vm.mem[ppn := BackingPage(vm, p)] else vm.mem;
        var vm1 := vm.(mem := mem, user := vm.user[p := vm.user[p].(addr := 0)]);
        if vm1.tail.Null? then Some(vm1.(head := User(p), tail := User(p)))
        else Some(SetNode(vm1, vm1.tail, Deref(vm1, vm1.tail).(next := User(p))).(tail := User(p)))
  }

  function BackingPage(vm: Vm, p: nat): Page
  {
    if Backing(p) in vm.mem then vm.mem[Backing(p)] else []
  }

  // What eviction relies on and keeps, page by page; `from` is the first page still to be
  // evicted.
  ghost predicate Evictable(vm: Vm, r: nat, image: seq<Page>, slot: map<nat, nat>, from: nat)
  {
    && Sized(vm) && 1 <= r <= MAX_TEST_PAGES && |image| == MAX_TEST_PAGES && Slots(slot) && |slot| <= MAX_TEST_PAGES
    && (forall p: nat | p < MAX_TEST_PAGES :: EvictOk(vm, r, image, slot, p, from))
  }

  ghost predicate EvictOk(vm: Vm, r: nat, image: seq<Page>, slot: map<nat, nat>, p: nat, from: nat)
    requires Sized(vm) && |image| == MAX_TEST_PAGES && p < MAX_TEST_PAGES
  {
    var pte := vm.ptes[p];
    && BackingPage(vm, p) == image[p]
    && (pte.Mapped? <==> p in slot)
    && (pte.Empty? ==> vm.user[p].addr == 0)
    && (pte.Mapped? ==> pte.a && pte.ppn == FramePpn(r, slot[p]) && (!pte.d ==> View(vm, p) == image[p]))
    && (pte.Mapped? && p >= from ==> vm.user[p].addr != 0)
    && (p < from ==> vm.user[p].addr == 0 && View(vm, p) == image[p])
  }

  lemma EvictKeeps(vm: Vm, r: nat, image: seq<Page>, slot: map<nat, nat>, p: nat)
    requires Evictable(vm, r, image, slot, p) && 1 <= p < MAX_TEST_PAGES
    ensures var o := Evict(vm, p * PGSIZE); o.Some? && Evictable(o.value, r, image, slot, p + 1)
  {
    assert EvictOk(vm, r, image, slot, p, p);
    assert p * PGSIZE / PGSIZE == p;
    if p in slot {
      FrameNumbers(r, slot[p]);
    }
    hide Orbit, FrameAddr, FramePpn;
    var vm' := Evict(vm, p * PGSIZE).value;
    assert Sized(vm');
    forall q: nat {:trigger EvictOk(vm', r, image, slot, q, p + 1)} | q < MAX_TEST_PAGES
      ensures EvictOk(vm', r, image, slot, q, p + 1)
    {
      assert EvictOk(vm, r, image, slot, q, p);
      if q != p && q in slot && p in slot {
        FramesApart(r, slot[q], slot[p]);
      }
    }
  }

  // The user program's call evicts pages n, ..., MAX_TEST_PAGES - 1 in order.
  function EvictFrom(vm: Vm, n: nat): Option<Vm>
    requires Sized(vm)
    decreases MAX_TEST_PAGES - n
  {
    if n >= MAX_TEST_PAGES then Some(vm)
    else
      var o := Evict(vm, n * PGSIZE);
      if o.None? || !Sized(o.value) then None else EvictFrom(o.value, n + 1)
  }

  // No assertion fails, and afterwards every page holds its initial contents.
  lemma {:induction false} EvictAllKeeps(vm: Vm, r: nat, image: seq<Page>, slot: map<nat, nat>, n: nat)
    requires Evictable(vm, r, image, slot, n) && 1 <= n <= MAX_TEST_PAGES
    ensures var o := EvictFrom(vm, n);
            && o.Some? && Evictable(o.value, r, image, slot, MAX_TEST_PAGES)
    decreases MAX_TEST_PAGES - n
  {
    EvictableSized(vm, r, image, slot, n);
    hide Evict, Evictable;
    if n < MAX_TEST_PAGES {
      EvictKeeps(vm, r, image, slot, n);
      var vm' := Evict(vm, n * PGSIZE).value;
      assert Sized(vm') by { EvictableSized(vm', r, image, slot, n + 1); }
      EvictAllKeeps(vm', r, image, slot, n + 1);
    }
  }

  lemma EvictableSized(vm: Vm, r: nat, image: seq<Page>, slot: map<nat, nat>, n: nat)
    requires Evictable(vm, r, image, slot, n)
    ensures Sized(vm)
  {
  }

  lemma InvEvictable(vm: Vm, r: nat, image: seq<Page>, slot: map<nat, nat>)
    requires Inv(vm, r, image, slot) && AllAccessed(vm)
    ensures Evictable(vm, r, image, slot, 1)
  {
    hide Orbit, FrameAddr, FramePpn;
    forall p: nat | p < MAX_TEST_PAGES
      ensures EvictOk(vm, r, image, slot, p, 1)
    {
      assert PageOk(vm, r, image, slot, p);
      if p in slot {
        FrameNumbers(r, slot[p]);
      }
    }
  }

  // ----- What the user program may assume -----

  // One access of the user program: the byte at addr is fetched, loaded or stored.
  datatype Access = Access(kind: Kind, addr: nat, v: bv8)

  // The same accesses on a flat memory of pages, without any paging.
  function Flat(pages: seq<Page>, a: Access): seq<Page>
  {
    var p, off := a.addr / PGSIZE, a.addr % PGSIZE;
    if a.kind == Store && p < |pages| && off < |pages[p]| then pages[p := pages[p][off := a.v]] else pages
  }

  function FlatByte(pages: seq<Page>, a: Access): bv8
  {
    var p, off := a.addr / PGSIZE, a.addr % PGSIZE;
    if p < |pages| && off < |pages[p]| then pages[p][off] else 0
  }

  function FlatAfter(pages: seq<Page>, accesses: seq<Access>): seq<Page>
    decreases |accesses|
  {
    if accesses == [] then pages
    else Flat(FlatAfter(pages, accesses[..|accesses| - 1]), accesses[|accesses| - 1])
  }

  function FlatBytes(pages: seq<Page>, accesses: seq<Access>): seq<bv8>
    decreases |accesses|
  {
    if accesses == [] then []
    else
      var before := accesses[..|accesses| - 1];
      FlatBytes(pages, before) + [FlatByte(FlatAfter(pages, before), accesses[|accesses| - 1])]
  }

  function Views(vm: Vm): (s: seq<Page>)
    requires Sized(vm)
    ensures |s| == MAX_TEST_PAGES && forall p: nat | p < MAX_TEST_PAGES :: s[p] == View(vm, p)
  {
    seq(MAX_TEST_PAGES, p requires 0 <= p < MAX_TEST_PAGES => View(vm, p))
  }
}
