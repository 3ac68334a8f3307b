/**
 The pager as it runs: the page table, the two arrays of list nodes and the list pointers
 are updated in place. A method answers false where the program's assertion fails.
 */
module Pager {
  import opened Basics
  import opened PageFrames
  import opened PagerSpec

  class VirtualMemory {
    const userL3pt: array<Pte>
    const userMapping: array<Node>
    const freelistNodes: array<Node>
    var freelistHead: Ptr
    var freelistTail: Ptr
    var mem: map<nat, Page>

    ghost function State(): Vm
      reads this, userL3pt, userMapping, freelistNodes
    {
      Vm(userL3pt[..], userMapping[..], freelistNodes[..], freelistHead, freelistTail, mem)
    }

    ghost predicate Valid()
      reads this, userL3pt, userMapping, freelistNodes
    {
      && userL3pt.Length == userMapping.Length == freelistNodes.Length == MAX_TEST_PAGES
      && userMapping != freelistNodes
      && PtrOk(freelistHead) && PtrOk(freelistTail)
      && (forall i | 0 <= i < MAX_TEST_PAGES :: PtrOk(userMapping[i].next) && PtrOk(freelistNodes[i].next))
      && (forall p: nat | p < MAX_TEST_PAGES :: Backing(p) in mem)
    }

    // vm_boot: the free list runs through all nodes in order, with the shift register's frames.
    constructor (entropy: nat, initial: map<nat, Page>, ghost image: seq<Page>)
      requires |image| == MAX_TEST_PAGES
      requires forall p: nat | p < MAX_TEST_PAGES ::
                 Backing(p) in initial && initial[Backing(p)] == image[p] && |image[p]| == PGSIZE
      ensures Valid() && fresh(userL3pt) && fresh(userMapping) && fresh(freelistNodes)
      ensures State() == Booted(1 + entropy % MAX_TEST_PAGES, initial)
      ensures Inv(State(), 1 + entropy % MAX_TEST_PAGES, image, map[])
    {
      hide Orbit, FrameAddr, Inv, LfsrNext, Nodes;
      userL3pt := new Pte[MAX_TEST_PAGES](_ => Empty);
      userMapping := new Node[MAX_TEST_PAGES](_ => Node(0, Null));
      freelistNodes := new Node[MAX_TEST_PAGES](_ => Node(0, Null));
      mem := initial;
      freelistHead := Free(0);
      freelistTail := Free(MAX_TEST_PAGES - 1);
      new;
      ghost var r := 1 + entropy % MAX_TEST_PAGES;
      FillNodes(entropy);
      NodesAre(r, freelistNodes[..]);
      assert State() == Booted(r, initial);
      BootedInv(r, initial, image);
    }

    method FillNodes(entropy: nat)
      requires freelistNodes.Length == MAX_TEST_PAGES
      modifies freelistNodes
      ensures forall k: nat {:trigger freelistNodes[k]} | k < MAX_TEST_PAGES ::
                freelistNodes[k] == Node(FrameAddr(1 + entropy % MAX_TEST_PAGES, k),
                                         if k + 1 < MAX_TEST_PAGES then Free(k + 1) else Null)
    {
      hide Orbit;
      ghost var r := 1 + entropy % MAX_TEST_PAGES;
      var random := 1 + entropy % MAX_TEST_PAGES;
      assert random == Orbit(r, 0) by { OrbitStarts(r); }
      var i: nat := 0;
      while i < MAX_TEST_PAGES
        invariant i <= MAX_TEST_PAGES && random == Orbit(r, i)
        invariant forall k: nat {:trigger freelistNodes[k]} | k < i ::
                    freelistNodes[k] == Node(FrameAddr(r, k), if k + 1 < MAX_TEST_PAGES then Free(k + 1) else Null)
      {
        freelistNodes[i] := Node(DRAM_BASE + (MAX_TEST_PAGES + random) * PGSIZE,
                                 if i + 1 < MAX_TEST_PAGES then Free(i + 1) else Null);
        OrbitUnfold(r, i + 1);
        random := LfsrNext(random);
        i := i + 1;
      }
    }

    method HandleFault(addr0: nat, cause: Kind) returns (ok: bool)
      requires Valid()
      modifies this, userL3pt, userMapping, freelistNodes
      ensures Valid() && (ok <==> Fault(old(State()), addr0, cause).Some?)
      ensures ok ==> State() == Fault(old(State()), addr0, cause).value
    {
      if !(PGSIZE <= addr0 < MAX_TEST_PAGES * PGSIZE) {
        return false;
      }
      var p := addr0 / PGSIZE;
      if userL3pt[p].Mapped? {
        if !userL3pt[p].a {
          userL3pt[p] := userL3pt[p].(a := true);
        } else {
          if !(!userL3pt[p].d && cause == Store) {
            return false;
          }
          userL3pt[p] := userL3pt[p].(d := true);
        }
        return true;
      }
      if freelistHead.Null? {
        return false;
      }
      var node := if freelistHead.Free? then freelistNodes[freelistHead.i] else userMapping[freelistHead.p];
      freelistHead := node.next;
      if freelistHead == freelistTail {
        freelistTail := Null;
      }
      var ppn := node.addr / PGSIZE;
      userL3pt[p] := Mapped(ppn, true, true);
      if userMapping[p].addr != 0 {
        return false;
      }
      userMapping[p] := node;
      mem := mem[ppn := mem[Backing(p)]];
      userL3pt[p] := Mapped(ppn, false, false);
      ok := true;
    }

    // A page that no longer equals its backing page is written over with it; the mapping is
    // forgotten and its node goes to the end of the free list.
    method Evict(addr0: nat) returns (ok: bool)
      requires Valid()
      modifies this, userMapping, freelistNodes
      ensures Valid() && (ok <==> PagerSpec.Evict(old(State()), addr0).Some?)
      ensures ok ==> State() == PagerSpec.Evict(old(State()), addr0).value
    {
      if !(PGSIZE <= addr0 < MAX_TEST_PAGES * PGSIZE) {
        return false;
      }
      var p := addr0 / PGSIZE;
      if userMapping[p].addr != 0 {
        if userL3pt[p].Empty? || !userL3pt[p].a {
          return false;
        }
        var ppn := userL3pt[p].ppn;
        var contents := if ppn in mem then mem[ppn] else [];
        if contents != mem[Backing(p)] {
          if !userL3pt[p].d {
            return false;
          }
          mem := mem[ppn := mem[Backing(p)]];
        }
        userMapping[p] := userMapping[p].(addr := 0);
        if freelistTail.Null? {
          freelistHead, freelistTail := User(p), User(p);
        } else {
          if freelistTail.Free? {
            freelistNodes[freelistTail.i] := freelistNodes[freelistTail.i].(next := User(p));
          } else {
            userMapping[freelistTail.p] := userMapping[freelistTail.p].(next := User(p));
          }
          freelistTail := User(p);
        }
      }
      ok := true;
    }

    // The user program's call at its end.
    method UserCall() returns (ok: bool)
      requires Valid()
      modifies this, userMapping, freelistNodes
      ensures Valid() && (ok <==> EvictFrom(old(State()), 1).Some?)
      ensures ok ==> State() == EvictFrom(old(State()), 1).value
    {
      hide PagerSpec.Evict;
      var i: nat := 1;
      while i < MAX_TEST_PAGES
        invariant i <= MAX_TEST_PAGES && Valid()
        invariant EvictFrom(State(), i) == EvictFrom(old(State()), 1)
      {
        ok := Evict(i * PGSIZE);
        if !ok {
          return;
        }
        i := i + 1;
      }
      ok := true;
    }

    // One access, tried again after every fault until it goes through.
    method Perform(a: Access, ghost r: nat, ghost image: seq<Page>, ghost slot0: map<nat, nat>)
      returns (ok: bool, loaded: bv8, faults: nat, ghost slot: map<nat, nat>)
      requires Valid() && Inv(State(), r, image, slot0) && AllAccessed(State()) && UserAddress(a.addr)
      modifies this, userL3pt, userMapping, freelistNodes
      ensures ok && faults <= 3
      ensures Valid() && Inv(State(), r, image, slot) && AllAccessed(State())
      ensures Views(State()) == Flat(old(Views(State())), a)
      ensures loaded == FlatByte(old(Views(State())), a)
    {
      hide Inv, Fault, View;
      var p, off := a.addr / PGSIZE, a.addr % PGSIZE;
      faults, slot, ok := 0, slot0, true;
      ghost var views := Views(State());
      while Faults(userL3pt[p], a.kind)
        invariant ok && Valid() && Inv(State(), r, image, slot)
        invariant Views(State()) == views
        invariant forall q: nat | q < MAX_TEST_PAGES && q != p :: userL3pt[q].Mapped? ==> userL3pt[q].a
        invariant faults + Rank(userL3pt[p]) <= 3
        decreases Rank(userL3pt[p])
      {
        ghost var vm := State();
        FaultKeeps(vm, r, image, slot, a.addr, a.kind);
        ok := HandleFault(a.addr, a.kind);
        slot := SlotAfter(vm, slot, p);
        faults := faults + 1;
        assert State().ptes[p] == userL3pt[p];
      }
      ghost var vm := State();
      assert vm.ptes[p] == userL3pt[p];
      ReadyPage(vm, r, image, slot, p);
      var ppn := userL3pt[p].ppn;
      loaded := mem[ppn][off];
      if a.kind == Store {
        mem := mem[ppn := mem[ppn][off := a.v]];
        StoreKeeps(vm, r, image, slot, p, off, a.v);
        assert State() == Stored(vm, p, off, a.v);
      }
    }

    // A whole run, from boot to the call that ends it: every access sees the flat memory that
    // starts with the initial contents, and no assertion fails, not even at the end.
    method RunProgram(accesses: seq<Access>, ghost r: nat, ghost image: seq<Page>) returns (ok: bool, bytes: seq<bv8>)
      requires Valid() && Inv(State(), r, image, map[]) && Views(State()) == image
      requires forall a | a in accesses :: UserAddress(a.addr)
      modifies this, userL3pt, userMapping, freelistNodes
      ensures ok && bytes == FlatBytes(image, accesses)
      ensures Valid() && Views(State()) == image
    {
      hide Inv, View, Flat, FlatByte, EvictFrom, Evictable;
      ghost var slot: map<nat, nat> := map[];
      bytes, ok := [], true;
      assert AllAccessed(State()) by { NothingMapped(State(), r, image); }
      assert accesses[..0] == [];
      for i := 0 to |accesses|
        invariant Valid() && Inv(State(), r, image, slot) && AllAccessed(State())
        invariant Views(State()) == FlatAfter(image, accesses[..i]) && bytes == FlatBytes(image, accesses[..i])
      {
        assert accesses[i] in accesses;
        var loaded, faults;
        ok, loaded, faults, slot := Perform(accesses[i], r, image, slot);
        assert accesses[..i + 1][..i] == accesses[..i];
        bytes := bytes + [loaded];
      }
      assert accesses[..|accesses|] == accesses;
      InvEvictable(State(), r, image, slot);
      EvictAllKeeps(State(), r, image, slot, 1);
      ok := UserCall();
      EvictedViews(State(), r, image, slot);
    }
  }

  lemma NothingMapped(vm: Vm, r: nat, image: seq<Page>)
    requires Inv(vm, r, image, map[])
    ensures AllAccessed(vm)
  {
    forall p: nat | p < MAX_TEST_PAGES
      ensures vm.ptes[p].Empty?
    {
      assert PageOk(vm, r, image, map[], p);
    }
  }

  lemma EvictedViews(vm: Vm, r: nat, image: seq<Page>, slot: map<nat, nat>)
    requires Evictable(vm, r, image, slot, MAX_TEST_PAGES)
    ensures Sized(vm) && Views(vm) == image
  {
    forall p: nat | p < MAX_TEST_PAGES
      ensures View(vm, p) == image[p]
    {
      assert EvictOk(vm, r, image, slot, p, MAX_TEST_PAGES);
    }
    assert forall p | 0 <= p < MAX_TEST_PAGES :: Views(vm)[p] == image[p];
  }

  lemma ReadyPage(vm: Vm, r: nat, image: seq<Page>, slot: map<nat, nat>, p: nat)
    requires Inv(vm, r, image, slot) && p < MAX_TEST_PAGES && vm.ptes[p].Mapped?
    ensures vm.ptes[p].ppn in vm.mem && View(vm, p) == vm.mem[vm.ptes[p].ppn] && |View(vm, p)| == PGSIZE
  {
    assert PageOk(vm, r, image, slot, p);
  }

  lemma OrbitStarts(r: nat)
    ensures Orbit(r, 0) == r
  {
  }

  lemma NodesAre(r: nat, s: seq<Node>)
    requires |s| == MAX_TEST_PAGES
    requires forall k: nat {:trigger s[k]} | k < MAX_TEST_PAGES ::
               s[k] == Node(FrameAddr(r, k), if k + 1 < MAX_TEST_PAGES then Free(k + 1) else Null)
    ensures s == Nodes(r, MAX_TEST_PAGES)
  {
    hide FrameAddr, Nodes;
  }
}
