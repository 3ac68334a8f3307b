/**
 The Towers of Hanoi benchmark: pegs are linked lists whose nodes come from one pool and go
 back to it at every move.
 */
module Towers {
  import opened Basics

  class Node {
    var val: int
    var next: Node?

    constructor (val: int)
      ensures this.val == val && next == null
    {
      this.val, next := val, null;
    }
  }

  function Front(s: seq<Node>): Node? { if s == [] then null else s[0] }

  ghost predicate Chain(s: seq<Node>)
    reads s`next
    decreases |s|
  {
    s == [] || (s[0].next == Front(s[1..]) && Chain(s[1..]))
  }

  ghost function ValsOf(s: seq<Node>): (r: seq<int>)
    reads s`val
    ensures |r| == |s|
    decreases |s|
  {
    if s == [] then [] else [s[0].val] + ValsOf(s[1..])
  }

  // A list and, for reasoning, the nodes in it.
  class List {
    var size: int
    var head: Node?
    ghost var nodes: seq<Node>

    constructor ()
      ensures size == 0 && head == null && nodes == []
    {
      size, head, nodes := 0, null, [];
    }

    ghost predicate Linked()
      reads this, nodes`next
    {
      head == Front(nodes) && Chain(nodes) && NoDup(nodes)
    }

    ghost function Vals(): seq<int>
      reads this, nodes`val
    {
      ValsOf(nodes)
    }
  }

  // Nodes that belong to different lists are different.
  ghost predicate Apart(s: seq<Node>, t: seq<Node>)
  {
    forall x | x in s :: x !in t
  }

  method ListPop(list: List, free: List) returns (val: int)
    requires list != free && list.Linked() && free.Linked() && Apart(list.nodes, free.nodes) && list.nodes != []
    modifies list, free, list.nodes[0]
    ensures list.Linked() && free.Linked()
    ensures list.nodes == old(list.nodes[1..]) && free.nodes == [old(list.nodes[0])] + old(free.nodes)
    ensures old(list.Vals()) == [val] + list.Vals()
    ensures list.size == old(list.size) - 1 && free.size == old(free.size)
    ensures old(list.nodes[0]).val == val
  {
    ghost var n := list.nodes[0];
    ghost var rest := list.nodes[1..];
    assert n !in rest && n !in free.nodes;
    val := list.head.val;
    var freedNode := list.head;
    list.head := list.head.next;
    freedNode.next := free.head;
    free.head := freedNode;
    list.size := list.size - 1;
    assert ([n] + free.nodes)[1..] == free.nodes;
    list.nodes, free.nodes := rest, [n] + free.nodes;
  }

  // A node is taken from the pool, which must not be empty.
  method ListPush(list: List, free: List, val: int)
    requires list != free && list.Linked() && free.Linked() && Apart(list.nodes, free.nodes) && free.nodes != []
    modifies list, free, free.nodes[0]
    ensures list.Linked() && free.Linked()
    ensures free.nodes == old(free.nodes[1..]) && list.nodes == [old(free.nodes[0])] + old(list.nodes)
    ensures list.Vals() == [val] + old(list.Vals())
    ensures list.size == old(list.size) + 1 && free.size == old(free.size)
  {
    ghost var n := free.nodes[0];
    ghost var rest := free.nodes[1..];
    assert n !in rest && n !in list.nodes;
    var newNode := free.head;
    free.head := free.head.next;
    newNode.next := list.head;
    list.head := newNode;
    list.head.val := val;
    list.size := list.size + 1;
    assert ([n] + list.nodes)[1..] == list.nodes;
    list.nodes, free.nodes := [n] + list.nodes, rest;
  }

  // From the top of a peg down the discs get larger.
  ghost predicate Increasing(s: seq<int>)
  {
    forall i, j | 0 <= i < j < |s| :: s[i] < s[j]
  }

  ghost predicate AllBelow(s: seq<int>, t: seq<int>)
  {
    forall i, j | 0 <= i < |s| && 0 <= j < |t| :: s[i] < t[j]
  }

  // The top n discs of s may be brought to d, and to t on the way if there are several.
  ghost predicate Movable(n: nat, s: seq<int>, t: seq<int>, d: seq<int>)
  {
    && 1 <= n <= |s| && Increasing(s) && Increasing(t) && Increasing(d)
    && AllBelow(s[..n], d) && (n > 1 ==> AllBelow(s[..n], t))
  }

  // Three pegs and the pool: all different, each a list of its own nodes, all nodes from
  // the given set, and the sizes right.
  ghost predicate World(a: List, b: List, c: List, free: List, pool: set<Node>)
    reads a, b, c, free, pool
  {
    && a != b && a != c && b != c && free != a && free != b && free != c
    && OwnList(a, pool) && OwnList(b, pool) && OwnList(c, pool) && OwnList(free, pool)
    && Apart(a.nodes, b.nodes) && Apart(a.nodes, c.nodes) && Apart(b.nodes, c.nodes)
    && Apart(a.nodes, free.nodes) && Apart(b.nodes, free.nodes) && Apart(c.nodes, free.nodes)
    && a.size == |a.nodes| && b.size == |b.nodes| && c.size == |c.nodes|
  }

  ghost predicate OwnList(list: List, pool: set<Node>)
    reads list, pool
  {
    (forall x | x in list.nodes :: x in pool) && list.Linked()
  }

  lemma WorldSwaps(a: List, b: List, c: List, free: List, pool: set<Node>)
    requires World(a, b, c, free, pool)
    ensures World(a, c, b, free, pool) && World(b, a, c, free, pool)
  {
    hide OwnList;
  }

  // One disc goes from one peg to another: the node freed is the one taken, so the pool
  // cannot be empty.
  method MoveDisc(start: List, temp: List, dest: List, free: List, ghost pool: set<Node>)
    requires World(start, temp, dest, free, pool) && start.nodes != []
    requires Increasing(start.Vals()) && Increasing(dest.Vals()) && AllBelow([start.Vals()[0]], dest.Vals())
    modifies start, dest, free, pool
    ensures Increasing(start.Vals()) && Increasing(dest.Vals())
    ensures World(start, temp, dest, free, pool) && free.nodes == old(free.nodes)
    ensures [old(start.Vals())[0]] + start.Vals() == old(start.Vals())
    ensures dest.Vals() == [old(start.Vals())[0]] + old(dest.Vals())
    ensures temp.Vals() == old(temp.Vals())
  {
    hide Increasing, AllBelow;
    MoveKeepsOrder(start.Vals(), dest.Vals());
    ghost var n := start.nodes[0];
    ghost var f := free.nodes;
    assert n in pool && n !in temp.nodes && n !in dest.nodes && n !in f;
    var val := ListPop(start, free);
    assert temp.Linked() && dest.Linked() && temp.Vals() == old(temp.Vals()) && dest.Vals() == old(dest.Vals());
    ListPush(dest, free, val);
    assert ([n] + f)[1..] == f;
    assert temp.Linked() && start.Linked();
    assert start.Vals() == old(start.Vals())[1..];
  }

  lemma MoveKeepsOrder(s: seq<int>, d: seq<int>)
    requires s != [] && Increasing(s) && Increasing(d) && AllBelow([s[0]], d)
    ensures Increasing(s[1..]) && Increasing([s[0]] + d)
  {
    forall j | 0 <= j < |d|
      ensures s[0] < d[j]
    {
      assert [s[0]][0] < d[j];
    }
  }

  // ----- The recursion on the values alone -----

  lemma BelowPrefix(a: seq<int>, b: seq<int>, d: seq<int>)
    requires AllBelow(a + b, d)
    ensures AllBelow(a, d) && AllBelow(b, d)
  {
    forall i, j | 0 <= i < |a| && 0 <= j < |d|
      ensures a[i] < d[j]
    {
      assert (a + b)[i] == a[i];
    }
    forall i, j | 0 <= i < |b| && 0 <= j < |d|
      ensures b[i] < d[j]
    {
      assert (a + b)[|a| + i] == b[i];
    }
  }

  lemma IncreasingParts(a: seq<int>, b: seq<int>)
    ensures Increasing(a + b) <==> Increasing(a) && Increasing(b) && AllBelow(a, b)
  {
    var ab := a + b;
    if Increasing(ab) {
      forall i, j | 0 <= i < j < |a| ensures a[i] < a[j] { assert ab[i] == a[i] && ab[j] == a[j]; }
      forall i, j | 0 <= i < j < |b| ensures b[i] < b[j] { assert ab[|a| + i] == b[i] && ab[|a| + j] == b[j]; }
      forall i, j | 0 <= i < |a| && 0 <= j < |b| ensures a[i] < b[j] { assert ab[i] == a[i] && ab[|a| + j] == b[j]; }
    }
  }

  // Moving n discs: the n - 1 upper ones aside, the lowest one over, the others on top.
  lemma SolveSteps(n: nat, s: seq<int>, t: seq<int>, d: seq<int>)
    requires Movable(n, s, t, d) && n > 1
    ensures Movable(n - 1, s, d, t)
    ensures var s1, t1 := s[n - 1..], s[..n - 1] + t;
            && Movable(1, s1, t1, d)
            && Movable(n - 1, t1, s1[1..], [s1[0]] + d)
            && s1[1..] == s[n..] && t1[n - 1..] == t && t1[..n - 1] + ([s1[0]] + d) == s[..n] + d
  {
    hide Increasing, AllBelow;
    var u, x, rest := s[..n - 1], [s[n - 1]], s[n..];
    var s1, t1 := s[n - 1..], u + t;
    assert s[..n] == u + x && s1 == x + rest && s == u + s1;
    BelowPrefix(u, x, d);
    BelowPrefix(u, x, t);
    IncreasingParts(u, s1);
    IncreasingParts(x, rest);
    IncreasingParts(u, t);
    IncreasingParts(x, d);
    assert s == (u + x) + rest;
    IncreasingParts(u + x, rest);
    IncreasingParts(u, x);
    BelowPrefix(u, x, rest);
    BelowBoth(u, x, d);
    assert s1[..1] == x && t1[..n - 1] == u && s1[1..] == rest;
  }

  lemma BelowBoth(u: seq<int>, x: seq<int>, d: seq<int>)
    requires AllBelow(u, x) && AllBelow(u, d)
    ensures AllBelow(u, x + d)
  {
  }

  // towers_solve_h: n discs go from start to dest in 2^n - 1 moves, each of which keeps every
  // peg in order; nothing else moves.
  method SolveH(n: nat, start: List, temp: List, dest: List, free: List, moves: nat, ghost pool: set<Node>)
    returns (numMoves: nat)
    requires World(start, temp, dest, free, pool) && Movable(n, start.Vals(), temp.Vals(), dest.Vals())
    modifies start, temp, dest, free, pool
    ensures World(start, temp, dest, free, pool) && free.nodes == old(free.nodes)
    ensures start.Vals() == old(start.Vals())[n..] && temp.Vals() == old(temp.Vals())
    ensures dest.Vals() == old(start.Vals())[..n] + old(dest.Vals())
    ensures numMoves == moves + Pow2(n) - 1
    decreases n
  {
    ghost var s, t, d := start.Vals(), temp.Vals(), dest.Vals();
    if n == 1 {
      assert s[..1] == [s[0]];
      hide World, Increasing, AllBelow;
      assert start.nodes != [];
      MoveDisc(start, temp, dest, free, pool);
      numMoves := moves + 1;
      assert start.Vals() == s[1..];
    } else {
      hide World, Movable, List.Vals, Pow2;
      SolveSteps(n, s, t, d);
      WorldSwaps(start, temp, dest, free, pool);
      numMoves := SolveH(n - 1, start, dest, temp, free, moves, pool);
      WorldSwaps(start, dest, temp, free, pool);
      numMoves := SolveH(1, start, temp, dest, free, numMoves, pool);
      assert s[n - 1..][..1] == [s[n - 1..][0]];
      WorldSwaps(start, temp, dest, free, pool);
      numMoves := SolveH(n - 1, temp, start, dest, free, numMoves, pool);
      WorldSwaps(temp, start, dest, free, pool);
      Pow2Step(n);
    }
  }

  lemma Pow2Step(n: nat)
    requires n > 0
    ensures Pow2(n) == 2 * Pow2(n - 1) && Pow2(1) == 2
  {
  }

  // ----- The game -----

  // The discs 1, ..., n from the top down, without the first k.
  function Discs(k: nat, n: nat): (s: seq<int>)
    requires k <= n
    ensures |s| == n - k && forall i | 0 <= i < |s| :: s[i] == k + 1 + i
  {
    seq(n - k, i => k + 1 + i)
  }

  // The pool is one chain of new nodes.
  method NewPool(poolSize: nat) returns (free: List)
    ensures free.Linked() && |free.nodes| == poolSize && fresh(free) && fresh(set x | x in free.nodes)
  {
    free := new List();
    var i := poolSize;
    while i > 0
      invariant free.Linked() && |free.nodes| == poolSize - i && fresh(free) && fresh(set x | x in free.nodes)
    {
      i := i - 1;
      var node := new Node(if i == poolSize - 1 then 99 else i);
      node.next := free.head;
      free.head := node;
      ghost var rest := free.nodes;
      free.nodes := [node] + rest;
      assert free.nodes[1..] == rest;
    }
    free.size := poolSize;
  }

  method PushOn(list: List, ghost b: List, ghost c: List, free: List, val: int, ghost pool: set<Node>)
    requires World(list, b, c, free, pool) && free.nodes != []
    modifies list, free, pool
    ensures World(list, b, c, free, pool) && b.nodes == old(b.nodes) && c.nodes == old(c.nodes)
    ensures list.Vals() == [val] + old(list.Vals())
    ensures |free.nodes| == old(|free.nodes|) - 1 && |list.nodes| == old(|list.nodes|) + 1
  {
    ghost var n := free.nodes[0];
    assert n in pool && n !in b.nodes && n !in c.nodes;
    ListPush(list, free, val);
    assert b.Linked() && c.Linked();
  }

  method FillPeg(list: List, ghost b: List, ghost c: List, free: List, n: nat, ghost pool: set<Node>)
    requires World(list, b, c, free, pool) && list.nodes == [] && |free.nodes| >= n
    modifies list, free, pool
    ensures World(list, b, c, free, pool) && b.nodes == old(b.nodes) && c.nodes == old(c.nodes)
    ensures list.Vals() == Discs(0, n) && |free.nodes| + |list.nodes| == old(|free.nodes|)
  {
    hide World, List.Vals;
    var i := 0;
    assert list.Vals() == Discs(n, n) by { EmptyVals(list); }
    while i < n
      invariant 0 <= i <= n && World(list, b, c, free, pool) && b.nodes == old(b.nodes) && c.nodes == old(c.nodes)
      invariant |free.nodes| >= n - i && |free.nodes| + |list.nodes| == old(|free.nodes|)
      invariant list.Vals() == Discs(n - i, n)
    {
      PushOn(list, b, c, free, n - i, pool);
      assert [n - i] + Discs(n - i, n) == Discs(n - i - 1, n);
      i := i + 1;
    }
  }

  lemma EmptyVals(list: List)
    requires list.nodes == []
    ensures list.Vals() == []
  {
  }

  class Game {
    const pegA: List
    const pegB: List
    const pegC: List
    const nodeFreeList: List
    var numDiscs: nat
    var numMoves: nat
    ghost const pool: set<Node>

    // All nodes are in the pool, the pegs are empty.
    constructor (poolSize: nat)
      ensures Valid() && Count() == |nodeFreeList.nodes| == poolSize
      ensures fresh(pegA) && fresh(pegB) && fresh(pegC) && fresh(nodeFreeList) && fresh(pool)
    {
      pegA := new List();
      pegB := new List();
      pegC := new List();
      var free := NewPool(poolSize);
      nodeFreeList := free;
      pool := set x | x in free.nodes;
      numDiscs, numMoves := 0, 0;
    }

    ghost predicate Valid()
      reads this, pegA, pegB, pegC, nodeFreeList, pool
    {
      World(pegA, pegB, pegC, nodeFreeList, pool)
    }

    // Nodes neither appear nor get lost.
    ghost function Count(): nat
      reads pegA, pegB, pegC, nodeFreeList
    {
      |pegA.nodes| + |pegB.nodes| + |pegC.nodes| + |nodeFreeList.nodes|
    }

    // towers_init, on empty pegs: the discs are put on the first peg, the largest first.
    method Init(n: nat)
      requires Valid() && pegA.nodes == pegB.nodes == pegC.nodes == [] && |nodeFreeList.nodes| >= n
      modifies this, pegA, pegB, pegC, nodeFreeList, pool
      ensures Valid() && Count() == old(Count()) && numDiscs == n && numMoves == 0
      ensures pegA.Vals() == Discs(0, n) && pegB.nodes == pegC.nodes == []
    {
      numDiscs, numMoves := n, 0;
      ListInit(pegA);
      ListInit(pegB);
      ListInit(pegC);
      FillPeg(pegA, pegB, pegC, nodeFreeList, n, pool);
    }

    // towers_clear: all discs go back to the pool, then the game starts again.
    method Clear()
      requires Valid() && Count() >= numDiscs
      modifies this, pegA, pegB, pegC, nodeFreeList, pool
      ensures Valid() && Count() == old(Count()) && numDiscs == old(numDiscs) && numMoves == 0
      ensures pegA.Vals() == Discs(0, numDiscs) && pegB.nodes == pegC.nodes == []
    {
      ListClear(pegA, pegB, pegC, nodeFreeList, pool);
      WorldSwaps(pegA, pegB, pegC, nodeFreeList, pool);
      ListClear(pegB, pegA, pegC, nodeFreeList, pool);
      WorldTurns(pegB, pegA, pegC, nodeFreeList, pool);
      ListClear(pegC, pegA, pegB, nodeFreeList, pool);
      WorldTurns(pegC, pegA, pegB, nodeFreeList, pool);
      Init(numDiscs);
    }

    method Solve()
      requires Valid() && numDiscs >= 1 && pegA.Vals() == Discs(0, numDiscs) && pegB.nodes == pegC.nodes == []
      modifies this`numMoves, pegA, pegB, pegC, nodeFreeList, pool
      ensures Valid() && numMoves == old(numMoves) + Pow2(numDiscs) - 1
      ensures pegA.Vals() == pegB.Vals() == [] && pegC.Vals() == Discs(0, numDiscs)
    {
      ghost var s := pegA.Vals();
      assert s[..numDiscs] == s && s[numDiscs..] == [];
      numMoves := SolveH(numDiscs, pegA, pegB, pegC, nodeFreeList, numMoves, pool);
    }

    // towers_verify: zero exactly when everything is on the last peg in order and the number
    // of moves is right.
    method Verify() returns (r: nat)
      requires Valid()
      ensures r == 0 <==>
                && pegA.nodes == [] && pegB.nodes == [] && pegC.Vals() == Discs(0, numDiscs)
                && numMoves == Pow2(numDiscs) - 1
    {
      if pegA.size != 0 {
        return 2;
      }
      if pegB.size != 0 {
        return 3;
      }
      if pegC.size != numDiscs {
        return 4;
      }
      var discs := 0;
      var ptr := pegC.head;
      ghost var rest := pegC.nodes;
      while ptr != null
        invariant 0 <= discs <= numDiscs && rest == pegC.nodes[discs..]
        invariant ptr == Front(rest) && Chain(rest)
        invariant forall i | 0 <= i < discs :: pegC.Vals()[i] == i + 1
        decreases |rest|
      {
        ValsAt(pegC.nodes, discs);
        discs := discs + 1;
        if ptr.val != discs {
          return 5;
        }
        ptr := ptr.next;
        rest := rest[1..];
      }
      assert pegC.Vals() == Discs(0, numDiscs);
      if numMoves != Pow2(numDiscs) - 1 {
        return 6;
      }
      return 0;
    }
  }

  lemma {:induction false} ValsAt(s: seq<Node>, i: nat)
    requires i < |s|
    ensures ValsOf(s)[i] == s[i].val
    decreases |s|
  {
    if i > 0 {
      ValsAt(s[1..], i - 1);
    }
  }

  method ListInit(list: List)
    modifies list
    ensures list.size == 0 && list.head == null && list.nodes == []
  {
    list.size, list.head, list.nodes := 0, null, [];
  }

  lemma WorldTurns(a: List, b: List, c: List, free: List, pool: set<Node>)
    requires World(a, b, c, free, pool)
    ensures World(b, c, a, free, pool) && World(c, b, a, free, pool) && World(c, a, b, free, pool)
  {
    hide OwnList;
  }

  method ListClear(list: List, ghost b: List, ghost c: List, free: List, ghost pool: set<Node>)
    requires World(list, b, c, free, pool)
    modifies list, free, pool
    ensures World(list, b, c, free, pool) && list.nodes == [] && |free.nodes| == old(|free.nodes| + |list.nodes|)
  {
    while list.size > 0
      invariant World(list, b, c, free, pool) && b.nodes == old(b.nodes) && c.nodes == old(c.nodes)
      invariant |free.nodes| + |list.nodes| == old(|free.nodes| + |list.nodes|)
      decreases |list.nodes|
    {
      ghost var n := list.nodes[0];
      assert n in pool && n !in b.nodes && n !in c.nodes;
      var val := ListPop(list, free);
      assert b.Linked() && c.Linked();
    }
  }

  // The benchmark: for any number of discs the check finds nothing wrong.
  method Benchmark(n: nat) returns (r: nat)
    requires n >= 1
    ensures r == 0
  {
    var towers := new Game(n);
    assert towers.pegA.nodes == towers.pegB.nodes == towers.pegC.nodes == [];
    towers.Init(n);
    towers.Clear();
    towers.Solve();
    r := towers.Verify();
  }
}
